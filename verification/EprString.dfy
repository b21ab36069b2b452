/** `epr_to_string` (src/lib/wsman-epr.c): a buffer sized by one pass and filled by another. */
module EprString {
  import opened Basics
  import opened Epr
  import opened EprEdits
  import opened Separators

  /** The strings that `strlen` and `strcpy` are given are not NULL; a nested EPR may be. */
  predicate Printable(e: Epr)
    decreases e
  {
    e.uri.Some? && forall kv :: kv in e.selectors ==> PrintableIn(kv)
  }

  predicate PrintableIn(kv: KeyValue)
    decreases kv
  {
    kv.key.Some? && match kv.value
                    case Text(text) => text.Some?
                    case Ref(e) => e.Some? ==> Printable(e.value)
  }

  /** No nested EPR is NULL, at any depth. */
  predicate NoNullNested(e: Epr)
    decreases e
  {
    forall kv :: kv in e.selectors ==> NoNullNestedIn(kv)
  }

  predicate NoNullNestedIn(kv: KeyValue)
    decreases kv
  {
    kv.value.Ref? ==> kv.value.epr.Some? && NoNullNested(kv.value.epr.value)
  }

  /** The rendering: `uri?k=v&k=v`, nested EPRs rendered the same way in place of a value. */
  function Render(e: Epr): string
    requires Printable(e)
    decreases e
  {
    e.uri.value + RenderAll(e.selectors)
  }

  function RenderAll(s: seq<KeyValue>): string
    requires forall kv :: kv in s ==> PrintableIn(kv)
    decreases s
  {
    if s == [] then "" else RenderAll(s[..|s| - 1]) + RenderOne(|s| == 1, s[|s| - 1])
  }

  function RenderOne(first: bool, kv: KeyValue): string
    requires PrintableIn(kv)
    decreases kv, 1
  {
    [if first then '?' else '&'] + kv.key.value + "=" + RenderValue(kv)
  }

  function RenderValue(kv: KeyValue): string
    requires PrintableIn(kv)
    decreases kv, 0
  {
    match kv.value
    case Text(text) => text.value
    case Ref(None) => ""
    case Ref(Some(e)) => Render(e)
  }

  /** The length that the first pass computes. */
  function Computed(e: Epr): nat
    requires Printable(e)
  {
    |e.uri.value| + ComputedAll(e.selectors)
  }

  function ComputedAll(s: seq<KeyValue>): nat
    requires forall kv :: kv in s ==> PrintableIn(kv)
  {
    if s == [] then 0 else ComputedAll(s[..|s| - 1]) + ComputedOne(s[|s| - 1])
  }

  function ComputedOne(kv: KeyValue): nat
    requires PrintableIn(kv)
  {
    |kv.key.value| + 1 + if kv.value == Ref(None) then 0 else |RenderValue(kv)| + 1
  }

  function NullNested(s: seq<KeyValue>): nat {
    if s == [] then 0 else NullNested(s[..|s| - 1]) + if s[|s| - 1].value == Ref(None) then 1 else 0
  }

  /** The second pass writes one character more than was counted for every NULL nested EPR. */
  lemma {:induction false} WrittenExcess(s: seq<KeyValue>)
    requires forall kv :: kv in s ==> PrintableIn(kv)
    ensures |RenderAll(s)| == ComputedAll(s) + NullNested(s)
  {
    if s != [] {
      var n := |s| - 1;
      WrittenExcess(s[..n]);
      assert s[n] in s;
      assert |RenderOne(n == 0, s[n])| == |s[n].key.value| + 2 + |RenderValue(s[n])|;
    }
  }

  lemma {:induction false} NullNestedNone(s: seq<KeyValue>)
    ensures NullNested(s) == 0 <==> forall kv :: kv in s ==> kv.value != Ref(None)
  {
    if s != [] {
      var n := |s| - 1;
      NullNestedNone(s[..n]);
      assert forall kv :: kv in s <==> kv in s[..n] || kv == s[n];
    }
  }

  /** A reference that gets a selector with neither text nor EPR, as `epr_add_selector_epr` does
      with NULL, does not fit: `u?k=` has a character more than was counted. */
  lemma NullNestedOverflows()
    ensures var e := Epr(Some(""), Some("u"), Edited([], Add("k", Ref(None))));
            Printable(e) && Render(e) == "u?k=" && |Render(e)| == Computed(e) + 1
  {
    var kv := KeyValue(Some("k"), Ref(None));
    assert Edited([], Add("k", Ref(None))) == [kv];
    assert [kv][..0] == [] && RenderAll([]) == "";
    assert RenderOne(true, kv) == "?k=";
    WrittenExcess([kv]);
    assert NullNested([kv]) == 1;
  }

  /** In this call and in every nested one, the second pass writes exactly what the first counted. */
  ghost predicate FitsThroughout(e: Epr)
    requires Printable(e)
    decreases e
  {
    |Render(e)| == Computed(e) && forall kv :: kv in e.selectors ==> FitsIn(kv)
  }

  ghost predicate FitsIn(kv: KeyValue)
    requires PrintableIn(kv)
    decreases kv
  {
    kv.value.Ref? && kv.value.epr.Some? ==> FitsThroughout(kv.value.epr.value)
  }

  /** The buffer fits at every depth exactly when no nested EPR is NULL at any depth. */
  lemma {:induction false} FitsExactly(e: Epr)
    requires Printable(e)
    ensures FitsThroughout(e) <==> NoNullNested(e)
    decreases e
  {
    WrittenExcess(e.selectors);
    NullNestedNone(e.selectors);
    forall kv | kv in e.selectors && kv.value.Ref? && kv.value.epr.Some?
      ensures FitsThroughout(kv.value.epr.value) <==> NoNullNested(kv.value.epr.value)
    {
      FitsExactly(kv.value.epr.value);
    }
    if NoNullNested(e) {
      forall kv | kv in e.selectors ensures FitsIn(kv) && kv.value != Ref(None) {
        assert NoNullNestedIn(kv);
      }
    }
    if FitsThroughout(e) {
      forall kv | kv in e.selectors ensures NoNullNestedIn(kv) {
        assert FitsIn(kv);
      }
    }
  }

  // ---------------------------------------------------------------- what the rendering says

  /** A key, and what stands for its value: a text itself, a nested EPR's own string, nothing for
      NULL. */
  function PairOf(kv: KeyValue): (string, string)
    requires PrintableIn(kv)
  {
    (kv.key.value, match kv.value
                   case Text(text) => text.value
                   case Ref(None) => ""
                   case Ref(Some(e)) => Render(e))
  }

  function PairsOf(s: seq<KeyValue>): (r: seq<(string, string)>)
    requires forall kv :: kv in s ==> PrintableIn(kv)
    ensures |r| == |s| && forall i :: 0 <= i < |s| ==> s[i] in s && r[i] == PairOf(s[i])
  {
    if s == [] then [] else PairsOf(s[..|s| - 1]) + [PairOf(s[|s| - 1])]
  }

  /** The URI and the selectors of an EPR, in order. */
  function PartsOf(e: Epr): Parts
    requires Printable(e)
  {
    Parts(e.uri.value, PairsOf(e.selectors))
  }

  lemma RenderedItem(first: bool, kv: KeyValue)
    requires PrintableIn(kv)
    ensures RenderOne(first, kv) == [if first then '?' else '&'] + Item(PairOf(kv))
  {
  }

  lemma Regroup(a: string, b: string, c: string, d: string)
    ensures a + b + (c + d) == a + (b + c + d) && a + (b + (c + d)) == a + (b + c) + d
  {
  }

  lemma {:induction false} RenderedFirst(kv: KeyValue)
    requires PrintableIn(kv)
    ensures RenderAll([kv]) == "?" + JoinAt(Items(PairsOf([kv])), '&')
  {
    RenderedItem(true, kv);
    assert [kv][..0] == [] && Items(PairsOf([kv])) == [Item(PairOf(kv))];
  }

  lemma {:induction false} RenderedNext(s: seq<KeyValue>, kv: KeyValue)
    requires s != [] && PrintableIn(kv) && forall k :: k in s ==> PrintableIn(k)
    ensures RenderAll(s + [kv]) == RenderAll(s) + (['&'] + Item(PairOf(kv)))
    ensures JoinAt(Items(PairsOf(s + [kv])), '&') == JoinAt(Items(PairsOf(s)), '&') + ['&'] + Item(PairOf(kv))
  {
    RenderedItem(false, kv);
    JoinNext(PairsOf(s), PairOf(kv));
    assert (s + [kv])[..|s|] == s;
  }

  lemma {:induction false} RenderedPairs(s: seq<KeyValue>)
    requires s != [] && forall kv :: kv in s ==> PrintableIn(kv)
    ensures RenderAll(s) == "?" + JoinAt(Items(PairsOf(s)), '&')
  {
    var n := |s| - 1;
    assert s[n] in s && s == s[..n] + [s[n]];
    if n == 0 {
      RenderedFirst(s[0]);
    } else {
      RenderedPairs(s[..n]);
      RenderedNext(s[..n], s[n]);
      Regroup("?", JoinAt(Items(PairsOf(s[..n])), '&'), ['&'], Item(PairOf(s[n])));
    }
  }

  /** The rendering is the URI, then '?', then the selectors with '&' between them. */
  lemma {:induction false} RenderSpelled(e: Epr)
    requires Printable(e)
    ensures Render(e) == Spelled(PartsOf(e))
  {
    if e.selectors != [] { RenderedPairs(e.selectors); }
  }

  /** Taken apart, the rendering gives back the URI and all keys and values in order exactly when the
      URI holds no '?', no key '&' or '=' and no value '&'. */
  lemma {:induction false} ReadsBack(e: Epr)
    requires Printable(e)
    ensures Read(Render(e)) == PartsOf(e) <==> Separable(PartsOf(e))
  {
    RenderSpelled(e);
    SpelledRead(PartsOf(e));
  }

  lemma {:induction false} RenderFew(a: KeyValue, b: KeyValue)
    requires PrintableIn(a) && PrintableIn(b)
    ensures RenderAll([a]) == RenderOne(true, a) && RenderAll([a, b]) == RenderOne(true, a) + RenderOne(false, b)
  {
    assert [a][..0] == [] && [a, b][..1] == [a];
  }

  lemma RenderedNested(k: string, e: Epr)
    requires Printable(e)
    ensures RenderOne(true, KeyValue(Some(k), Ref(Some(e)))) == ['?'] + k + "=" + Render(e)
  {
  }

  /** The second selector of a nested EPR cannot be told from one of the outer EPR. */
  lemma {:induction false} NestedConfused(u: string, v: string, k: string, x: KeyValue, y: KeyValue)
    requires PrintableIn(x) && PrintableIn(y)
    ensures var one, two := Epr(None, Some(v), [x]), Epr(None, Some(v), [x, y]);
            var e := Epr(None, Some(u), [KeyValue(Some(k), Ref(Some(two)))]);
            var f := Epr(None, Some(u), [KeyValue(Some(k), Ref(Some(one))), y]);
            Printable(e) && Printable(f) && e != f && Render(e) == Render(f)
  {
    var one, two := Epr(None, Some(v), [x]), Epr(None, Some(v), [x, y]);
    assert Printable(one) && Printable(two);
    var p, q := KeyValue(Some(k), Ref(Some(one))), KeyValue(Some(k), Ref(Some(two)));
    assert PrintableIn(p) && PrintableIn(q);
    RenderFew(x, y);
    RenderFew(p, y);
    RenderFew(q, y);
    Regroup(['?'] + k + "=", v, RenderOne(true, x), RenderOne(false, y));
    assert Render(one) == v + RenderOne(true, x) && Render(two) == v + (RenderOne(true, x) + RenderOne(false, y));
    RenderedNested(k, one);
    RenderedNested(k, two);
  }

  // ---------------------------------------------------------------- the code

  /** `strcpy`, terminator included. */
  method StrCpy(buf: array<char>, ptr: nat, s: string)
    requires ptr + |s| < buf.Length
    modifies buf
    ensures buf[..ptr + |s|] == old(buf[..ptr]) + s && buf[ptr + |s|] == '\0'
  {
    var k := 0;
    while k < |s|
      invariant k <= |s| && buf[..ptr + k] == old(buf[..ptr]) + s[..k]
    {
      buf[ptr + k] := s[k];
      k := k + 1;
    }
    assert s[..k] == s;
    buf[ptr + k] := '\0';
  }

  lemma {:induction false} RenderStep(s: seq<KeyValue>, i: nat)
    requires i < |s| && forall kv :: kv in s ==> PrintableIn(kv)
    ensures RenderAll(s[..i + 1]) == RenderAll(s[..i]) + RenderOne(i == 0, s[i])
    ensures ComputedAll(s[..i + 1]) == ComputedAll(s[..i]) + ComputedOne(s[i])
    ensures |RenderAll(s[..i + 1])| <= |RenderAll(s)|
    decreases |s| - i
  {
    assert s[..i + 1][..i] == s[..i];
    if i + 1 < |s| { RenderStep(s, i + 1); } else { assert s[..i + 1] == s; }
  }

  /** The nested EPRs that are there can be printed; some may be NULL. */
  predicate NestedPrint(s: seq<KeyValue>) {
    forall kv :: kv in s && kv.value != Ref(None) ==> NoNullNestedIn(kv)
  }

  /** The string of one value; a nested EPR's is the result of the nested call. */
  method ValueString(kv: KeyValue) returns (value: string)
    requires PrintableIn(kv) && NoNullNestedIn(kv)
    ensures value == RenderValue(kv)
    decreases kv, 0
  {
    if kv.value.Text? { return kv.value.text.value; }
    var buf := EprToString(kv.value.epr.value);
    value := buf[..buf.Length - 1];
  }

  /** One turn of the second pass. */
  method PutOne(buf: array<char>, at: nat, first: bool, kv: KeyValue) returns (ptr: nat)
    requires PrintableIn(kv) && NoNullNestedIn(kv)
    requires at + |RenderOne(first, kv)| < buf.Length
    modifies buf
    ensures ptr == at + |RenderOne(first, kv)| && buf[..ptr] == old(buf[..at]) + RenderOne(first, kv)
    decreases kv, 1
  {
    ptr := at;
    buf[ptr] := if first then '?' else '&';
    ptr := ptr + 1;
    StrCpy(buf, ptr, kv.key.value);
    ptr := ptr + |kv.key.value|;
    buf[ptr] := '=';
    ptr := ptr + 1;
    var value := ValueString(kv);
    StrCpy(buf, ptr, value);
    ptr := ptr + |value|;
  }

  /** The first pass, which skips a NULL nested EPR. */
  method Measure(e: Epr) returns (len: nat)
    requires Printable(e) && NestedPrint(e.selectors)
    ensures len == Computed(e)
    decreases e, 0
  {
    var s := e.selectors;
    len := |e.uri.value|;
    var i := 0;
    while i < |s|
      invariant i <= |s| && len == |e.uri.value| + ComputedAll(s[..i])
    {
      assert s[i] in s;
      RenderStep(s, i);
      len := len + |s[i].key.value| + 1;
      if s[i].value != Ref(None) {
        var value := ValueString(s[i]);
        len := len + |value| + 1;
      }
      i := i + 1;
    }
    assert s[..i] == s;
  }

  /** `text` and a selector behind it. */
  lemma RenderNext(text: string, s: seq<KeyValue>, i: nat)
    requires i < |s| && forall kv :: kv in s ==> PrintableIn(kv)
    ensures s[i] in s && text + RenderAll(s[..i]) + RenderOne(i == 0, s[i]) == text + RenderAll(s[..i + 1])
    ensures |text + RenderAll(s[..i])| + |RenderOne(i == 0, s[i])| <= |text + RenderAll(s)|
  {
    RenderStep(s, i);
  }

  /** The second pass. */
  method Fill(buf: array<char>, e: Epr)
    requires Printable(e) && NoNullNested(e) && buf.Length == |Render(e)| + 1
    modifies buf
    ensures buf[..] == Render(e) + ['\0']
    decreases e, 0
  {
    var s, uri := e.selectors, e.uri.value;
    StrCpy(buf, 0, uri);
    ghost var text := uri;
    assert text == uri + RenderAll(s[..0]);
    var ptr, i := |uri|, 0;
    while i < |s|
      invariant i <= |s| && text == uri + RenderAll(s[..i])
      invariant ptr == |text| < buf.Length && buf[..ptr] == text
    {
      RenderNext(uri, s, i);
      ptr := PutOne(buf, ptr, i == 0, s[i]);
      text := text + RenderOne(i == 0, s[i]);
      i := i + 1;
    }
    assert s[..i] == s;
    buf[ptr] := '\0';
  }

  /** `epr_to_string`: the buffer is filled to its last byte, with the rendering and a terminator. */
  method EprToString(e: Epr) returns (buf: array<char>)
    requires Printable(e) && NoNullNested(e)
    ensures fresh(buf) && buf[..] == Render(e) + ['\0']
    ensures Read(buf[..buf.Length - 1]) == PartsOf(e) <==> Separable(PartsOf(e))
    decreases e, 1
  {
    var len := Measure(e);
    FitsExactly(e);
    buf := new char[len + 1];
    Fill(buf, e);
    assert buf[..buf.Length - 1] == Render(e);
    ReadsBack(e);
  }
}
