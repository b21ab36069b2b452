/** `epr_cmp` (src/lib/wsman-epr.c): counting matches in a double loop. */
module EprCompare {
  import opened Basics
  import opened Epr

  /** What the code dereferences is there: `strcmp` and the nested call take no NULL. */
  predicate Comparable(e: Epr)
    decreases e
  {
    e.uri.Some? && forall kv :: kv in e.selectors ==> ComparableIn(kv)
  }

  predicate ComparableIn(kv: KeyValue)
    decreases kv
  {
    kv.key.Some? && match kv.value
                    case Text(text) => text.Some?
                    case Ref(e) => e.Some? && Comparable(e.value)
  }

  /** The result of `epr_cmp`.  In the code the inner cursor walks the selectors of `e1`; with
      `fixed` it walks those of `e2`, as intended. */
  function Cmp(fixed: bool, e1: Epr, e2: Epr): int
    decreases e1
  {
    if e1.uri != e2.uri || |e1.selectors| != |e2.selectors| then 1
    else if Matches(fixed, e1.selectors, if fixed then e2.selectors else e1.selectors) == |e1.selectors| then 0
    else 1
  }

  function Matches(fixed: bool, s: seq<KeyValue>, t: seq<KeyValue>): nat
    decreases s
  {
    if s == [] then 0 else Matches(fixed, s[..|s| - 1], t) + Row(fixed, s[|s| - 1], t)
  }

  function Row(fixed: bool, p1: KeyValue, t: seq<KeyValue>): nat
    decreases p1, |t|
  {
    if t == [] then 0 else Row(fixed, p1, t[..|t| - 1]) + if Matching(fixed, p1, t[|t| - 1]) then 1 else 0
  }

  predicate Matching(fixed: bool, p1: KeyValue, p2: KeyValue)
    decreases p1, 0
  {
    p1.key == p2.key &&
    match p1.value
    case Text(text) => p2.value == Text(text)
    case Ref(None) => false
    case Ref(Some(a)) => p2.value.Ref? && p2.value.epr.Some? && Cmp(fixed, a, p2.value.epr.value) == 0
  }

  // ---------------------------------------------------------------- what it should mean

  function Keys(s: seq<KeyValue>): (r: seq<Option<string>>)
    ensures |r| == |s| && forall i :: 0 <= i < |s| ==> r[i] == s[i].key
  {
    seq(|s|, i requires 0 <= i < |s| => s[i].key)
  }

  /** No two selectors share a key, at any depth. */
  ghost predicate DistinctKeys(e: Epr)
    decreases e
  {
    Distinct(Keys(e.selectors)) && forall kv :: kv in e.selectors ==> DistinctIn(kv)
  }

  ghost predicate DistinctIn(kv: KeyValue)
    decreases kv
  {
    kv.value.Ref? && kv.value.epr.Some? ==> DistinctKeys(kv.value.epr.value)
  }

  /** The same resource: equal URIs and, up to order, the same selectors, at every depth.  The
      address does not matter. */
  ghost predicate Equivalent(e1: Epr, e2: Epr)
    decreases e1
  {
    && e1.uri == e2.uri
    && Elements(Keys(e1.selectors)) == Elements(Keys(e2.selectors))
    && forall p1, p2 :: p1 in e1.selectors && p2 in e2.selectors && p1.key == p2.key ==> SameValue(p1, p2)
  }

  ghost predicate SameValue(p1: KeyValue, p2: KeyValue)
    decreases p1
  {
    match p1.value
    case Text(text) => p2.value == Text(text)
    case Ref(None) => false
    case Ref(Some(a)) => p2.value.Ref? && p2.value.epr.Some? && Equivalent(a, p2.value.epr.value)
  }

  // ---------------------------------------------------------------- counting

  lemma {:induction false} DistinctCount<T>(s: seq<T>)
    requires Distinct(s)
    ensures |Elements(s)| == |s|
  {
    if s != [] {
      var n := |s| - 1;
      DistinctCount(s[..n]);
      assert Elements(s) == Elements(s[..n]) + {s[n]};
    }
  }

  ghost predicate Matched(fixed: bool, p: KeyValue, t: seq<KeyValue>) {
    exists q :: q in t && Matching(fixed, p, q)
  }

  lemma {:induction false} RowNone(fixed: bool, p: KeyValue, t: seq<KeyValue>)
    requires forall q :: q in t ==> !Matching(fixed, p, q)
    ensures Row(fixed, p, t) == 0
  {
    if t != [] { RowNone(fixed, p, t[..|t| - 1]); }
  }

  /** Among distinct keys a selector has at most one match. */
  lemma {:induction false} RowCounts(fixed: bool, p: KeyValue, t: seq<KeyValue>)
    requires Distinct(Keys(t))
    ensures Row(fixed, p, t) == if Matched(fixed, p, t) then 1 else 0
  {
    if t != [] {
      var n := |t| - 1;
      assert t == t[..n] + [t[n]];
      assert Distinct(Keys(t[..n])) by {
        assert forall i :: 0 <= i < n ==> Keys(t[..n])[i] == Keys(t)[i];
      }
      if Matching(fixed, p, t[n]) {
        forall q | q in t[..n] ensures !Matching(fixed, p, q) {
          var i :| 0 <= i < n && t[..n][i] == q;
          assert Keys(t)[i] != Keys(t)[n];
        }
        RowNone(fixed, p, t[..n]);
        assert t[n] in t && Matched(fixed, p, t);
      } else {
        RowCounts(fixed, p, t[..n]);
        assert Matched(fixed, p, t) <==> Matched(fixed, p, t[..n]);
      }
    }
  }

  /** All of `s` are matched exactly when there are as many matches as selectors. */
  lemma {:induction false} MatchesCount(fixed: bool, s: seq<KeyValue>, t: seq<KeyValue>)
    requires Distinct(Keys(t))
    ensures Matches(fixed, s, t) <= |s|
    ensures Matches(fixed, s, t) == |s| <==> forall p :: p in s ==> Matched(fixed, p, t)
  {
    if s != [] {
      var n := |s| - 1;
      assert forall p :: p in s <==> p in s[..n] || p == s[n];
      MatchesCount(fixed, s[..n], t);
      RowCounts(fixed, s[n], t);
    }
  }

  // ---------------------------------------------------------------- as written

  /** The second EPR enters the result only through its URI and its number of selectors. */
  lemma SecondIgnored(e1: Epr, e2: Epr)
    ensures Cmp(false, e1, e2) == if e1.uri == e2.uri && |e1.selectors| == |e2.selectors| then Cmp(false, e1, e1) else 1
  {
  }

  /** So on distinct keys the code compares nothing else. */
  lemma {:induction false} AsWritten(e1: Epr, e2: Epr)
    requires Comparable(e1) && DistinctKeys(e1)
    ensures Cmp(false, e1, e2) == 0 <==> e1.uri == e2.uri && |e1.selectors| == |e2.selectors|
    decreases e1
  {
    var s := e1.selectors;
    forall p | p in s ensures Matched(false, p, s) {
      SelfMatching(p);
    }
    MatchesCount(false, s, s);
  }

  lemma {:induction false} SelfMatching(p: KeyValue)
    requires ComparableIn(p) && DistinctIn(p)
    ensures Matching(false, p, p)
    decreases p
  {
    if p.value.Ref? { AsWritten(p.value.epr.value, p.value.epr.value); }
  }

  // ---------------------------------------------------------------- as intended

  lemma {:induction false} MatchingMeans(p: KeyValue, q: KeyValue)
    requires DistinctIn(p) && DistinctIn(q)
    ensures Matching(true, p, q) <==> p.key == q.key && SameValue(p, q)
    decreases p
  {
    if p.value.Ref? && p.value.epr.Some? && q.value.Ref? && q.value.epr.Some? {
      AsIntended(p.value.epr.value, q.value.epr.value);
    }
  }

  /** Walking the second EPR, the comparison decides equivalence. */
  lemma {:induction false} AsIntended(e1: Epr, e2: Epr)
    requires DistinctKeys(e1) && DistinctKeys(e2)
    ensures Cmp(true, e1, e2) == 0 <==> Equivalent(e1, e2)
    decreases e1
  {
    var s, t := e1.selectors, e2.selectors;
    forall p, q | p in s && q in t ensures Matching(true, p, q) <==> p.key == q.key && SameValue(p, q) {
      MatchingMeans(p, q);
    }
    MatchesCount(true, s, t);
    DistinctCount(Keys(s));
    DistinctCount(Keys(t));
    if |s| == |t| { AllMatched(s, t); }
  }

  lemma AllMatched(s: seq<KeyValue>, t: seq<KeyValue>)
    requires Distinct(Keys(s)) && Distinct(Keys(t)) && |s| == |t|
    requires forall p, q :: p in s && q in t ==> (Matching(true, p, q) <==> p.key == q.key && SameValue(p, q))
    ensures (forall p :: p in s ==> Matched(true, p, t)) <==>
            && Elements(Keys(s)) == Elements(Keys(t))
            && forall p, q :: p in s && q in t && p.key == q.key ==> SameValue(p, q)
  {
    DistinctCount(Keys(s));
    DistinctCount(Keys(t));
    if forall p :: p in s ==> Matched(true, p, t) {
      forall k | k in Elements(Keys(s)) ensures k in Elements(Keys(t)) {
        var i :| 0 <= i < |s| && Keys(s)[i] == k;
        assert Matched(true, s[i], t);
        var q :| q in t && Matching(true, s[i], q);
        var j :| 0 <= j < |t| && t[j] == q;
        assert Keys(t)[j] == k;
      }
      SubsetSameSize(Elements(Keys(s)), Elements(Keys(t)));
      forall p, q | p in s && q in t && p.key == q.key ensures SameValue(p, q) {
        assert Matched(true, p, t);
        var q' :| q' in t && Matching(true, p, q');
        SameKeySame(t, q, q');
      }
    } else if Elements(Keys(s)) == Elements(Keys(t)) {
      var p :| p in s && !Matched(true, p, t);
      var i :| 0 <= i < |s| && s[i] == p;
      assert Keys(s)[i] in Elements(Keys(t));
      var j :| 0 <= j < |t| && Keys(t)[j] == p.key;
      assert !Matching(true, p, t[j]);
    }
  }

  lemma SubsetSameSize<T>(a: set<T>, b: set<T>)
    requires a <= b && |a| == |b|
    ensures a == b
  {
    assert b == a + (b - a);
    assert |b| == |a| + |b - a|;
  }

  lemma SameKeySame(t: seq<KeyValue>, q: KeyValue, r: KeyValue)
    requires Distinct(Keys(t)) && q in t && r in t && q.key == r.key
    ensures q == r
  {
    var i :| 0 <= i < |t| && t[i] == q;
    var j :| 0 <= j < |t| && t[j] == r;
    assert Keys(t)[i] == Keys(t)[j];
  }

  // ---------------------------------------------------------------- where the two differ

  /** Where the code agrees with the intention, told by the two answers. */
  lemma WrittenAgrees(e1: Epr, e2: Epr)
    requires Comparable(e1) && DistinctKeys(e1) && DistinctKeys(e2)
    ensures Cmp(false, e1, e2) == Cmp(true, e1, e2)
       <==> e1.uri != e2.uri || |e1.selectors| != |e2.selectors| || Equivalent(e1, e2)
  {
    AsWritten(e1, e2);
    AsIntended(e1, e2);
  }

  /** `e` with another value in its first selector. */
  function Altered(e: Epr): Epr
    requires e.selectors != []
  {
    var kv := e.selectors[0];
    var other := if kv.value == Text(Some("")) then "x" else "";
    e.(selectors := e.selectors[0 := KeyValue(kv.key, Text(Some(other)))])
  }

  lemma AlteredProper(e: Epr)
    requires Comparable(e) && DistinctKeys(e) && e.selectors != []
    ensures Comparable(Altered(e)) && DistinctKeys(Altered(e))
  {
    var s, t := e.selectors, Altered(e).selectors;
    assert ComparableIn(s[0]);
    forall kv | kv in t ensures ComparableIn(kv) && DistinctIn(kv) {
      var i :| 0 <= i < |t| && t[i] == kv;
      if i > 0 { assert s[i] in s; }
    }
    assert Keys(t) == Keys(s);
  }

  lemma AlteredDiffers(e: Epr)
    requires e.selectors != []
    ensures !Equivalent(e, Altered(e))
  {
    var p, q := e.selectors[0], Altered(e).selectors[0];
    assert p in e.selectors && q in Altered(e).selectors && p.key == q.key && !SameValue(p, q);
  }

  /** The code can be relied on exactly for a first EPR without selectors: only then does it agree
      with the intention whatever the second EPR is. */
  lemma ReliableExactly(e1: Epr)
    requires Comparable(e1) && DistinctKeys(e1)
    ensures (forall e2 :: Comparable(e2) && DistinctKeys(e2) ==> Cmp(false, e1, e2) == Cmp(true, e1, e2))
       <==> e1.selectors == []
  {
    if e1.selectors == [] {
      forall e2 | Comparable(e2) && DistinctKeys(e2) ensures Cmp(false, e1, e2) == Cmp(true, e1, e2) {
        WrittenAgrees(e1, e2);
        if e2.selectors == [] { assert Keys(e1.selectors) == Keys(e2.selectors); }
      }
    } else {
      AlteredProper(e1);
      AlteredDiffers(e1);
      WrittenAgrees(e1, Altered(e1));
    }
  }

  /** Two EPRs that name different resources and that the code calls equal. */
  lemma WrittenConfuses()
    ensures var e1 := Epr(Some(""), Some("u"), [KeyValue(Some("k"), Text(Some("1")))]);
            var e2 := Epr(Some(""), Some("u"), [KeyValue(Some("k"), Text(Some("2")))]);
            Comparable(e1) && DistinctKeys(e1) && DistinctKeys(e2) && Cmp(false, e1, e2) == 0 && Cmp(true, e1, e2) == 1
  {
    var p1, p2 := KeyValue(Some("k"), Text(Some("1"))), KeyValue(Some("k"), Text(Some("2")));
    assert "1"[0] != "2"[0];
    AsWritten(Epr(Some(""), Some("u"), [p1]), Epr(Some(""), Some("u"), [p2]));
    AsIntended(Epr(Some(""), Some("u"), [p1]), Epr(Some(""), Some("u"), [p2]));
    assert p1 in [p1] && p2 in [p2] && !SameValue(p1, p2);
  }

  /** Without distinct keys the count misleads even the intended comparison: one selector matched
      twice makes up for one not matched at all. */
  lemma RepeatedKeysConfuse()
    ensures var p, q := KeyValue(Some("a"), Text(Some("1"))), KeyValue(Some("b"), Text(Some("2")));
            var e1, e2 := Epr(None, Some("u"), [p, p]), Epr(None, Some("u"), [p, q]);
            Comparable(e1) && Comparable(e2) && Cmp(true, e1, e2) == 0 && !Equivalent(e1, e2)
  {
    var p, q := KeyValue(Some("a"), Text(Some("1"))), KeyValue(Some("b"), Text(Some("2")));
    assert "a"[0] != "b"[0];
    RowOfTwo(p, q);
    assert [p, p][..1] == [p] && [p][..0] == [];
    assert Matches(true, [p], [p, q]) == Matches(true, [], [p, q]) + Row(true, p, [p, q]);
    assert Keys([p, q])[1] == Some("b");
    assert forall k :: k in Keys([p, p]) ==> k == Some("a");
    assert Some("b") in Elements(Keys([p, q])) && Some("b") !in Elements(Keys([p, p]));
  }

  lemma RowOfTwo(p: KeyValue, q: KeyValue)
    requires p.value.Text? && p.key != q.key
    ensures Row(true, p, [p, q]) == 1
  {
    assert [p, q][..1] == [p] && [p][..0] == [];
    assert Row(true, p, [p]) == Row(true, p, []) + 1;
  }

  // ---------------------------------------------------------------- the code

  /** `epr_cmp`, with the choice of what the inner cursor walks. */
  method EprCmp(fixed: bool, e1: Epr, e2: Epr) returns (r: int)
    requires Comparable(e1) && Comparable(e2)
    ensures r == Cmp(fixed, e1, e2)
    decreases e1
  {
    if e1.uri.value != e2.uri.value { return 1; }
    if |e1.selectors| != |e2.selectors| { return 1; }
    var s, t := e1.selectors, if fixed then e2.selectors else e1.selectors;
    var matches, i := 0, 0;
    while i < |s|
      invariant i <= |s| && matches == Matches(fixed, s[..i], t)
    {
      assert s[..i + 1][..i] == s[..i];
      var row := CountMatches(fixed, s[i], t);
      matches := matches + row;
      i := i + 1;
    }
    assert s[..i] == s;
    return if matches == |s| then 0 else 1;
  }

  /** The inner loop. */
  method CountMatches(fixed: bool, p1: KeyValue, t: seq<KeyValue>) returns (matches: nat)
    requires ComparableIn(p1) && forall kv :: kv in t ==> ComparableIn(kv)
    ensures matches == Row(fixed, p1, t)
    decreases p1, 1
  {
    matches := 0;
    var j := 0;
    while j < |t|
      invariant j <= |t| && matches == Row(fixed, p1, t[..j])
    {
      assert t[..j + 1][..j] == t[..j];
      var m := KeyValueMatch(fixed, p1, t[j]);
      if m { matches := matches + 1; }
      j := j + 1;
    }
    assert t[..j] == t;
  }

  method KeyValueMatch(fixed: bool, p1: KeyValue, p2: KeyValue) returns (m: bool)
    requires ComparableIn(p1) && ComparableIn(p2)
    ensures m == Matching(fixed, p1, p2)
    decreases p1, 0
  {
    if p1.key.value != p2.key.value { return false; }
    if p1.value.Text? != p2.value.Text? { return false; }
    if p1.value.Text? { return p1.value.text.value == p2.value.text.value; }
    var r := EprCmp(fixed, p1.value.epr.value, p2.value.epr.value);
    return r != 1;
  }
}
