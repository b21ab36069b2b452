/** Adding and deleting selectors of an endpoint reference (src/lib/wsman-epr.c), on values. */
module EprEdits {
  import opened Basics
  import opened Epr
  import opened EprCompare

  /** A call that adds a selector, or deletes one by name. */
  datatype Edit = Add(name: string, value: Value) | Delete(name: string)

  /** The position of the first selector called `name`, or the count. */
  function Find(s: seq<KeyValue>, name: string): (i: nat)
    ensures i <= |s|
    ensures i < |s| ==> s[i].key == Some(name)
    ensures forall k :: 0 <= k < i ==> s[k].key != Some(name)
  {
    if s == [] then 0
    else
      var i := Find(s[..|s| - 1], name);
      if i < |s| - 1 then i else if s[|s| - 1].key == Some(name) then |s| - 1 else |s|
  }

  predicate Has(s: seq<KeyValue>, name: string) {
    Find(s, name) < |s|
  }

  function Without(s: seq<KeyValue>, i: nat): seq<KeyValue>
    requires i < |s|
  {
    s[..i] + s[i + 1..]
  }

  /** The selectors after one call: a name already there is refused, as is one not there. */
  function Edited(s: seq<KeyValue>, edit: Edit): seq<KeyValue> {
    match edit
    case Add(name, value) => if Has(s, name) then s else s + [KeyValue(Some(name), value)]
    case Delete(name) => if Has(s, name) then Without(s, Find(s, name)) else s
  }

  function EditedAll(s: seq<KeyValue>, edits: seq<Edit>): seq<KeyValue> {
    if edits == [] then s else Edited(EditedAll(s, edits[..|edits| - 1]), edits[|edits| - 1])
  }

  lemma EditedAllLast(s: seq<KeyValue>, edits: seq<Edit>, edit: Edit)
    ensures EditedAll(s, edits + [edit]) == Edited(EditedAll(s, edits), edit)
  {
    assert (edits + [edit])[..|edits|] == edits;
  }

  /** No selector has a NULL key. */
  predicate Named(s: seq<KeyValue>) {
    forall kv :: kv in s ==> kv.key.Some?
  }

  // ---------------------------------------------------------------- keys stay distinct

  lemma WithoutDistinct(s: seq<KeyValue>, i: nat)
    requires i < |s| && Distinct(Keys(s))
    ensures Distinct(Keys(Without(s, i)))
  {
    var r := Without(s, i);
    forall a, b | 0 <= a < b < |r| ensures Keys(r)[a] != Keys(r)[b] {
      var a', b' := if a < i then a else a + 1, if b < i then b else b + 1;
      assert r[a] == s[a'] && r[b] == s[b'];
      assert Keys(s)[a'] != Keys(s)[b'];
    }
  }

  lemma AddDistinct(s: seq<KeyValue>, kv: KeyValue)
    requires Distinct(Keys(s)) && kv.key.Some? && !Has(s, kv.key.value)
    ensures Distinct(Keys(s + [kv]))
  {
    var r := s + [kv];
    forall a, b | 0 <= a < b < |r| ensures Keys(r)[a] != Keys(r)[b] {
      if b < |s| { assert Keys(s)[a] != Keys(s)[b]; } else { assert s[a].key != kv.key; }
    }
  }

  lemma {:induction false} KeysStayDistinct(s: seq<KeyValue>, edits: seq<Edit>)
    requires Distinct(Keys(s))
    ensures Distinct(Keys(EditedAll(s, edits)))
  {
    if edits != [] {
      var n := |edits| - 1;
      KeysStayDistinct(s, edits[..n]);
      var t := EditedAll(s, edits[..n]);
      match edits[n]
      case Add(name, value) => if !Has(t, name) { AddDistinct(t, KeyValue(Some(name), value)); }
      case Delete(name) => if Has(t, name) { WithoutDistinct(t, Find(t, name)); }
    }
  }

  // ---------------------------------------------------------------- what one call undoes

  /** On distinct keys a deleted name is gone. */
  lemma DeletedIsGone(s: seq<KeyValue>, name: string)
    requires Distinct(Keys(s))
    ensures !Has(Edited(s, Delete(name)), name)
  {
  }

  /** Deleting undoes adding a new name. */
  lemma DeleteUndoesAdd(s: seq<KeyValue>, name: string, value: Value)
    requires !Has(s, name)
    ensures Edited(Edited(s, Add(name, value)), Delete(name)) == s
  {
  }

  // ---------------------------------------------------------------- what is left, in which order

  /** The selectors of `s` but those called `name`. */
  function DropName(s: seq<KeyValue>, name: string): seq<KeyValue> {
    if s == [] then [] else DropName(s[..|s| - 1], name) + if s[|s| - 1].key == Some(name) then [] else [s[|s| - 1]]
  }

  /** What a call does not delete. */
  function Spared(s: seq<KeyValue>, edit: Edit): seq<KeyValue> {
    if edit.Delete? then DropName(s, edit.name) else s
  }

  /** The selectors of `s` whose name no call deletes. */
  function Survivors(s: seq<KeyValue>, edits: seq<Edit>): seq<KeyValue> {
    if edits == [] then s else Spared(Survivors(s, edits[..|edits| - 1]), edits[|edits| - 1])
  }

  lemma {:induction false} DropMember(s: seq<KeyValue>, name: string, kv: KeyValue)
    ensures kv in DropName(s, name) <==> kv in s && kv.key != Some(name)
  {
    if s != [] {
      var n := |s| - 1;
      DropMember(s[..n], name, kv);
      assert kv in s <==> kv in s[..n] || kv == s[n];
    }
  }

  /** Exactly the selectors whose name is never deleted survive. */
  lemma {:induction false} SurvivorMember(s: seq<KeyValue>, edits: seq<Edit>, kv: KeyValue)
    ensures kv in Survivors(s, edits) <==>
            kv in s && forall i :: 0 <= i < |edits| && edits[i].Delete? ==> kv.key != Some(edits[i].name)
  {
    if edits != [] {
      var init, last := edits[..|edits| - 1], edits[|edits| - 1];
      SurvivorMember(s, init, kv);
      if last.Delete? { DropMember(Survivors(s, init), last.name, kv); }
      assert forall i :: 0 <= i < |init| ==> init[i] == edits[i];
    }
  }

  lemma {:induction false} DropSubsequence(ys: seq<KeyValue>, xs: seq<KeyValue>, name: string)
    requires IsSubsequence(ys, xs)
    ensures IsSubsequence(DropName(ys, name), xs)
    decreases |xs|
  {
    if ys != [] {
      var n, m := |ys| - 1, |xs| - 1;
      if ys[n] == xs[m] && IsSubsequence(ys[..n], xs[..m]) {
        DropSubsequence(ys[..n], xs[..m], name);
        var r := DropName(ys, name);
        if ys[n].key == Some(name) {
          assert r == DropName(ys[..n], name);
        } else {
          assert r[..|r| - 1] == DropName(ys[..n], name);
        }
      } else {
        DropSubsequence(ys, xs[..m], name);
      }
    }
  }

  lemma {:induction false} SubsequenceSelf(xs: seq<KeyValue>)
    ensures IsSubsequence(xs, xs)
  {
    if xs != [] { SubsequenceSelf(xs[..|xs| - 1]); }
  }

  /** … in their old order. */
  lemma {:induction false} SurvivorsInOrder(s: seq<KeyValue>, edits: seq<Edit>)
    ensures IsSubsequence(Survivors(s, edits), s)
  {
    if edits == [] {
      SubsequenceSelf(s);
    } else {
      SurvivorsInOrder(s, edits[..|edits| - 1]);
      DropSubsequence(Survivors(s, edits[..|edits| - 1]), s, edits[|edits| - 1].name);
    }
  }

  lemma {:induction false} DropNone(s: seq<KeyValue>, name: string)
    requires !Has(s, name)
    ensures DropName(s, name) == s
  {
    if s != [] {
      var n := |s| - 1;
      assert s == s[..n] + [s[n]];
      DropNone(s[..n], name);
    }
  }

  lemma {:induction false} DropAppend(s: seq<KeyValue>, t: seq<KeyValue>, name: string)
    ensures DropName(s + t, name) == DropName(s, name) + DropName(t, name)
  {
    if t == [] {
      assert s + t == s;
    } else {
      var n := |t| - 1;
      assert (s + t)[..|s| + n] == s + t[..n];
      DropAppend(s, t[..n], name);
    }
  }

  lemma DropAround(a: seq<KeyValue>, x: KeyValue, b: seq<KeyValue>, name: string)
    requires !Has(a, name) && !Has(b, name) && x.key == Some(name)
    ensures DropName(a + [x] + b, name) == a + b
  {
    assert DropName([x], name) == [] by { assert [x][..0] == []; }
    DropAppend(a, [x], name);
    DropNone(a, name);
    assert DropName(a + [x], name) == a;
    DropAppend(a + [x], b, name);
    DropNone(b, name);
  }

  /** On distinct keys, deleting by name takes out one selector at most. */
  lemma DeleteDrops(s: seq<KeyValue>, name: string)
    requires Distinct(Keys(s))
    ensures Edited(s, Delete(name)) == DropName(s, name)
  {
    var i := Find(s, name);
    if i == |s| {
      DropNone(s, name);
    } else {
      var a, b := s[..i], s[i + 1..];
      forall k | 0 <= k < |b| ensures b[k].key != Some(name) { assert Keys(s)[i] != Keys(s)[i + 1 + k]; }
      assert s == a + [s[i]] + b;
      DropAround(a, s[i], b, name);
    }
  }

  /** The last call about `name` says whether it is there. */
  predicate Present(s: seq<KeyValue>, edits: seq<Edit>, name: string) {
    if edits == [] then Has(s, name)
    else if edits[|edits| - 1].name == name then edits[|edits| - 1].Add?
    else Present(s, edits[..|edits| - 1], name)
  }

  lemma {:induction false} PresentExactly(s: seq<KeyValue>, edits: seq<Edit>, name: string)
    requires Distinct(Keys(s))
    ensures Has(EditedAll(s, edits), name) <==> Present(s, edits, name)
  {
    if edits != [] {
      var init, last := edits[..|edits| - 1], edits[|edits| - 1];
      PresentExactly(s, init, name);
      KeysStayDistinct(s, init);
      HasAfter(EditedAll(s, init), last, name);
    }
  }

  lemma HasMember(s: seq<KeyValue>, name: string)
    ensures Has(s, name) <==> exists kv :: kv in s && kv.key == Some(name)
  {
    if Has(s, name) { assert s[Find(s, name)] in s; }
  }

  lemma HasAfter(t: seq<KeyValue>, last: Edit, name: string)
    requires Distinct(Keys(t))
    ensures Has(Edited(t, last), name) <==> if last.name == name then last.Add? else Has(t, name)
  {
    HasMember(t, name);
    HasMember(Edited(t, last), name);
    if last.Add? {
      assert KeyValue(Some(last.name), last.value) in t + [KeyValue(Some(last.name), last.value)];
    } else {
      DeleteDrops(t, last.name);
      forall kv ensures kv in DropName(t, last.name) <==> kv in t && kv.key != Some(last.name) {
        DropMember(t, last.name, kv);
      }
    }
  }

  // ---------------------------------------------------------------- the whole list

  /** No call behind call `i` is `edit`. */
  predicate NoLater(edits: seq<Edit>, i: nat, edit: Edit) {
    forall j :: i < j < |edits| ==> edits[j] != edit
  }

  /** What call `i` adds that stays: its name was not there, and is not deleted later. */
  function StandsAt(s: seq<KeyValue>, edits: seq<Edit>, i: nat): seq<KeyValue>
    requires i < |edits|
  {
    var e := edits[i];
    if e.Add? && !Present(s, edits[..i], e.name) && NoLater(edits, i, Delete(e.name)) then
      [KeyValue(Some(e.name), e.value)]
    else []
  }

  function StandsAll(s: seq<KeyValue>, edits: seq<Edit>): (r: seq<seq<KeyValue>>)
    ensures |r| == |edits| && forall i :: 0 <= i < |r| ==> r[i] == StandsAt(s, edits, i)
  {
    seq(|edits|, i requires 0 <= i < |edits| => StandsAt(s, edits, i))
  }

  function Join(parts: seq<seq<KeyValue>>): seq<KeyValue> {
    if parts == [] then [] else Join(parts[..|parts| - 1]) + parts[|parts| - 1]
  }

  /** What the calls add that stays, in the order of the calls. */
  function Standing(s: seq<KeyValue>, edits: seq<Edit>): seq<KeyValue> {
    Join(StandsAll(s, edits))
  }

  lemma NoLaterNext(edits: seq<Edit>, last: Edit, i: nat, edit: Edit)
    requires i < |edits|
    ensures NoLater(edits + [last], i, edit) <==> NoLater(edits, i, edit) && last != edit
  {
    var all := edits + [last];
    assert all[|edits|] == last;
    if NoLater(all, i, edit) {
      forall j | i < j < |edits| ensures edits[j] != edit { assert all[j] == edits[j]; }
    }
  }

  lemma SparedAppend(s: seq<KeyValue>, t: seq<KeyValue>, edit: Edit)
    ensures Spared(s + t, edit) == Spared(s, edit) + Spared(t, edit)
  {
    DropAppend(s, t, edit.name);
  }

  lemma DropOne(kv: KeyValue, name: string)
    ensures DropName([kv], name) == if kv.key == Some(name) then [] else [kv]
  {
    assert [kv][..0] == [];
  }

  /** One more call leaves what stands, unless it deletes it. */
  lemma StandsAtNext(s: seq<KeyValue>, edits: seq<Edit>, last: Edit, i: nat)
    requires i < |edits|
    ensures StandsAt(s, edits + [last], i) == Spared(StandsAt(s, edits, i), last)
  {
    var all, e := edits + [last], edits[i];
    assert all[..i] == edits[..i] && all[i] == e;
    NoLaterNext(edits, last, i, Delete(e.name));
    if e.Add? { DropOne(KeyValue(Some(e.name), e.value), last.name); }
  }

  lemma {:induction false} JoinSpared(parts: seq<seq<KeyValue>>, spared: seq<seq<KeyValue>>, edit: Edit)
    requires |spared| == |parts| && forall i :: 0 <= i < |parts| ==> spared[i] == Spared(parts[i], edit)
    ensures Join(spared) == Spared(Join(parts), edit)
  {
    if parts != [] {
      var n := |parts| - 1;
      JoinSpared(parts[..n], spared[..n], edit);
      SparedAppend(Join(parts[..n]), parts[n], edit);
    }
  }

  /** What a call adds. */
  function Taken(t: seq<KeyValue>, edit: Edit): seq<KeyValue> {
    if edit.Add? && !Has(t, edit.name) then [KeyValue(Some(edit.name), edit.value)] else []
  }

  /** One call on a list in two parts. */
  lemma EditedParts(t: seq<KeyValue>, k: seq<KeyValue>, r: seq<KeyValue>, last: Edit)
    requires Distinct(Keys(t)) && t == k + r
    ensures Edited(t, last) == Spared(k, last) + (Spared(r, last) + Taken(t, last))
  {
    if last.Delete? {
      DeleteDrops(t, last.name);
      SparedAppend(k, r, last);
    }
  }

  lemma {:induction false} LastStands(s: seq<KeyValue>, edits: seq<Edit>, last: Edit)
    requires Distinct(Keys(s))
    ensures StandsAt(s, edits + [last], |edits|) == Taken(EditedAll(s, edits), last)
  {
    assert (edits + [last])[..|edits|] == edits;
    PresentExactly(s, edits, last.name);
  }

  lemma {:induction false} StandingNext(s: seq<KeyValue>, edits: seq<Edit>, last: Edit)
    requires Distinct(Keys(s))
    ensures Standing(s, edits + [last]) == Spared(Standing(s, edits), last) + Taken(EditedAll(s, edits), last)
  {
    var parts, all := StandsAll(s, edits), StandsAll(s, edits + [last]);
    forall i | 0 <= i < |parts| ensures all[..|parts|][i] == Spared(parts[i], last) { StandsAtNext(s, edits, last, i); }
    JoinSpared(parts, all[..|parts|], last);
    LastStands(s, edits, last);
  }

  lemma SurvivorsLast(s: seq<KeyValue>, edits: seq<Edit>, last: Edit)
    ensures Survivors(s, edits + [last]) == Spared(Survivors(s, edits), last)
  {
    assert (edits + [last])[..|edits|] == edits;
  }

  lemma {:induction false} OrderNext(s: seq<KeyValue>, edits: seq<Edit>, last: Edit)
    requires Distinct(Keys(s)) && EditedAll(s, edits) == Survivors(s, edits) + Standing(s, edits)
    ensures EditedAll(s, edits + [last]) == Survivors(s, edits + [last]) + Standing(s, edits + [last])
  {
    KeysStayDistinct(s, edits);
    EditedAllLast(s, edits, last);
    EditedParts(EditedAll(s, edits), Survivors(s, edits), Standing(s, edits), last);
    SurvivorsLast(s, edits, last);
    StandingNext(s, edits, last);
  }

  /** After any run of calls on distinct keys there come first the selectors never deleted, in
      their old order, then those added that stay, in the order of the calls. */
  lemma {:induction false} OrderKept(s: seq<KeyValue>, edits: seq<Edit>)
    requires Distinct(Keys(s))
    ensures EditedAll(s, edits) == Survivors(s, edits) + Standing(s, edits)
  {
    if edits == [] {
      assert s + [] == s;
    } else {
      var init, last := edits[..|edits| - 1], edits[|edits| - 1];
      assert edits == init + [last];
      OrderKept(s, init);
      OrderNext(s, init, last);
    }
  }
}
