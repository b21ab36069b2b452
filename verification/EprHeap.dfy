/** Endpoint references in memory (src/lib/wsman-epr.c, src/lib/wsman-key-value.c): selector
    arrays edited in place, and deep copies. */
module EprHeap {
  import opened Basics
  import opened Epr
  import opened EprEdits

  /** key_value_t, with the nested EPR by reference.  Strings are never written to once they are
      made, so they are values here. */
  datatype Slot = Slot(key: Option<string>, value: SlotValue)

  datatype SlotValue = TextIs(text: Option<string>) | RefTo(epr: EprObj?)

  /** What a copy dereferences is there: `u_strdup` takes no NULL. */
  predicate Copyable(e: Epr)
    decreases e
  {
    e.uri.Some? && forall kv :: kv in e.selectors ==> CopyableIn(kv)
  }

  predicate CopyableIn(kv: KeyValue)
    decreases kv
  {
    match kv.value
    case Text(text) => text.Some?
    case Ref(e) => e.Some? ==> Copyable(e.value)
  }

  /** `c` is what a copy of `e` may be: equal, but that a NULL address is not copied and leaves the
      address of the copy undefined. */
  ghost predicate CopyOf(e: Epr, c: Epr)
    decreases e
  {
    && c.uri == e.uri && (e.address.Some? ==> c.address == e.address) && |c.selectors| == |e.selectors|
    && forall i :: 0 <= i < |e.selectors| ==> CopyOfIn(e.selectors[i], c.selectors[i])
  }

  ghost predicate CopyOfIn(p: KeyValue, q: KeyValue)
    decreases p
  {
    && q.key == p.key
    && match p.value
       case Text(text) => q.value == Text(text)
       case Ref(None) => q.value == Ref(None)
       case Ref(Some(e)) => q.value.Ref? && q.value.epr.Some? && CopyOf(e, q.value.epr.value)
  }

  predicate Addressed(e: Epr)
    decreases e
  {
    e.address.Some? && forall kv :: kv in e.selectors ==> AddressedIn(kv)
  }

  predicate AddressedIn(kv: KeyValue)
    decreases kv
  {
    kv.value.Ref? && kv.value.epr.Some? ==> Addressed(kv.value.epr.value)
  }

  /** With an address at every depth a copy is equal. */
  lemma {:induction false} CopySame(e: Epr, c: Epr)
    requires CopyOf(e, c) && Addressed(e)
    ensures c == e
    decreases e
  {
    forall i | 0 <= i < |e.selectors| ensures c.selectors[i] == e.selectors[i] {
      var p, q := e.selectors[i], c.selectors[i];
      assert CopyOfIn(p, q) && p in e.selectors && AddressedIn(p);
      if p.value.Ref? && p.value.epr.Some? { CopySame(p.value.epr.value, q.value.epr.value); }
    }
  }

  /** Without one, somewhere, a copy may differ. */
  lemma {:induction false} OtherCopy(e: Epr) returns (c: Epr)
    requires !Addressed(e)
    ensures CopyOf(e, c) && c != e
    decreases e
  {
    CopyOfSelf(e);
    if e.address.None? { return e.(address := Some("")); }
    var i :| 0 <= i < |e.selectors| && !AddressedIn(e.selectors[i]);
    var kv := e.selectors[i];
    var nested := OtherCopy(kv.value.epr.value);
    var s := e.selectors[i := KeyValue(kv.key, Ref(Some(nested)))];
    assert s[i] != kv;
    c := e.(selectors := s);
  }

  /** Whatever the undefined addresses are, a copy is equal. */
  ghost predicate CopiesWell(e: Epr) {
    forall c :: CopyOf(e, c) ==> c == e
  }

  /** That is so exactly when there is an address at every depth. */
  lemma {:induction false} CopyExactly(e: Epr)
    ensures CopiesWell(e) <==> Addressed(e)
  {
    if Addressed(e) {
      forall c | CopyOf(e, c) ensures c == e { CopySame(e, c); }
    } else {
      var c := OtherCopy(e);
    }
  }

  /** The address of a reference that has none may become anything. */
  lemma {:induction false} AddressNotCopied(address: Option<string>)
    ensures CopyOf(Epr(None, Some("u"), []), Epr(address, Some("u"), []))
    ensures !CopiesWell(Epr(None, Some("u"), []))
  {
    CopyExactly(Epr(None, Some("u"), []));
  }

  lemma {:induction false} CopyOfSelf(e: Epr)
    ensures CopyOf(e, e)
    decreases e
  {
    forall i | 0 <= i < |e.selectors| ensures CopyOfIn(e.selectors[i], e.selectors[i]) {
      var p := e.selectors[i];
      if p.value.Ref? && p.value.epr.Some? { CopyOfSelf(p.value.epr.value); }
    }
  }

  lemma {:induction false} CopyCopyable(e: Epr, c: Epr)
    requires CopyOf(e, c) && Copyable(e)
    ensures Copyable(c)
    decreases e
  {
    forall q | q in c.selectors ensures CopyableIn(q) {
      var i :| 0 <= i < |c.selectors| && c.selectors[i] == q;
      var p := e.selectors[i];
      assert CopyOfIn(p, q) && p in e.selectors && CopyableIn(p);
      if p.value.Ref? && p.value.epr.Some? { CopyCopyable(p.value.epr.value, q.value.epr.value); }
    }
  }

  ghost function Foot(slot: Slot): set<object>
    reads if slot.value.RefTo? && slot.value.epr != null then {slot.value.epr} else {}
  {
    if slot.value.RefTo? && slot.value.epr != null then slot.value.epr.Repr else {}
  }

  /** `slot` stands for `kv` and all it owns is in `pool`. */
  ghost predicate SlotValid(slot: Slot, kv: KeyValue, pool: set<object>)
    reads pool
    decreases pool, 1
  {
    && slot.key == kv.key
    && match slot.value
       case TextIs(text) => kv.value == Text(text)
       case RefTo(o) =>
         if o == null then kv.value == Ref(None)
         else o in pool && o.Repr <= pool && o.Valid() && kv.value == Ref(Some(o.Val))
  }

  /** `slots` stand for `kvs` and share nothing. */
  ghost predicate SlotsValid(slots: seq<Slot>, kvs: seq<KeyValue>, pool: set<object>)
    reads pool
    decreases pool, 2
  {
    && |slots| == |kvs|
    && (forall i :: 0 <= i < |slots| ==> SlotValid(slots[i], kvs[i], pool))
    && (forall i, j :: 0 <= i < j < |slots| ==> Foot(slots[i]) !! Foot(slots[j]))
  }

  /** epr_t. */
  class EprObj {
    var address: Option<string>
    var uri: Option<string>
    var selectors: array<Slot>
    ghost var Pool: set<object>   // what the selectors own
    ghost var Repr: set<object>   // everything this EPR owns
    ghost var Val: Epr            // the EPR it stands for

    ghost predicate Valid()
      reads this, Repr
      decreases Repr, 0
    {
      && Repr == Pool + {this, selectors} && this !in Pool && selectors !in Pool
      && Val.address == address && Val.uri == uri
      && SlotsValid(selectors[..], Val.selectors, Pool)
    }

    constructor (address: Option<string>, uri: Option<string>, selectors: array<Slot>,
                 ghost kvs: seq<KeyValue>, ghost pool: set<object>)
      requires SlotsValid(selectors[..], kvs, pool) && selectors !in pool
      ensures Valid() && fresh(Repr - pool - {selectors}) && Val == Epr(address, uri, kvs) && Pool == pool
      ensures this.selectors == selectors
    {
      this.address, this.uri, this.selectors := address, uri, selectors;
      Pool, Repr, Val := pool, pool + {this, selectors}, Epr(address, uri, kvs);
    }
  }

  lemma SlotsExtend(slots: seq<Slot>, kvs: seq<KeyValue>, pool: set<object>,
                    slot: Slot, kv: KeyValue, foot: set<object>)
    requires SlotsValid(slots, kvs, pool) && SlotValid(slot, kv, foot) && pool !! foot
    ensures SlotsValid(slots + [slot], kvs + [kv], pool + foot)
  {
    forall i | 0 <= i < |slots| ensures Foot(slots[i]) <= pool {
      assert SlotValid(slots[i], kvs[i], pool);
    }
  }

  lemma InRepr(o: EprObj)
    requires o.Valid()
    ensures o in o.Repr
  {
  }

  /** The other slots do not need what the deleted one owned. */
  lemma SlotsWithout(slots: seq<Slot>, kvs: seq<KeyValue>, pool: set<object>, i: nat)
    requires SlotsValid(slots, kvs, pool) && i < |slots|
    ensures SlotsValid(slots[..i] + slots[i + 1..], Without(kvs, i), pool - Foot(slots[i]))
  {
    var r, t, rest := slots[..i] + slots[i + 1..], Without(kvs, i), pool - Foot(slots[i]);
    forall k | 0 <= k < |r| ensures SlotValid(r[k], t[k], rest) {
      var k' := if k < i then k else k + 1;
      assert r[k] == slots[k'] && t[k] == kvs[k'] && SlotValid(slots[k'], kvs[k'], pool);
      if slots[k'].value.RefTo? && slots[k'].value.epr != null { InRepr(slots[k'].value.epr); }
      assert if k' < i then Foot(slots[k']) !! Foot(slots[i]) else Foot(slots[i]) !! Foot(slots[k']);
    }
    forall j, k | 0 <= j < k < |r| ensures Foot(r[j]) !! Foot(r[k]) {
      assert r[j] == slots[if j < i then j else j + 1] && r[k] == slots[if k < i then k else k + 1];
    }
  }

  /** `key_value_copy`. */
  method CopySlot(slot: Slot, ghost kv: KeyValue, ghost pool: set<object>)
    returns (c: Slot, ghost copied: KeyValue, ghost foot: set<object>)
    requires SlotValid(slot, kv, pool) && CopyableIn(kv)
    ensures fresh(foot) && SlotValid(c, copied, foot) && CopyOfIn(kv, copied)
    decreases pool, 1
  {
    foot, copied := {}, kv;
    match slot.value
    case TextIs(text) => c := Slot(slot.key, TextIs(text));
    case RefTo(o) =>
      if o == null {
        c := Slot(slot.key, RefTo(null));
      } else {
        var copy := EprCopy(o);
        c, foot, copied := Slot(slot.key, RefTo(copy)), copy.Repr, KeyValue(kv.key, Ref(Some(copy.Val)));
      }
  }

  /** `epr_copy`. */
  method EprCopy(epr: EprObj) returns (c: EprObj)
    requires epr.Valid() && Copyable(epr.Val)
    ensures c.Valid() && fresh(c.Repr) && CopyOf(epr.Val, c.Val)
    ensures Addressed(epr.Val) ==> c.Val == epr.Val
    decreases epr.Repr, 0
  {
    var address: Option<string> := *;   // not initialised
    if epr.address.Some? { address := epr.address; }
    var copies, copied, pool := CopySlots(epr.selectors[..], epr.Val.selectors, epr.Pool);
    c := new EprObj(address, epr.uri, copies, copied, pool);
    if Addressed(epr.Val) { CopySame(epr.Val, c.Val); }
  }

  method CopySlots(slots: seq<Slot>, ghost kvs: seq<KeyValue>, ghost own: set<object>)
    returns (copies: array<Slot>, ghost copied: seq<KeyValue>, ghost pool: set<object>)
    requires SlotsValid(slots, kvs, own) && forall kv :: kv in kvs ==> CopyableIn(kv)
    ensures fresh(copies) && fresh(pool) && copies !in pool && SlotsValid(copies[..], copied, pool)
    ensures |copied| == |kvs| && forall i :: 0 <= i < |kvs| ==> CopyOfIn(kvs[i], copied[i])
    decreases own, 2
  {
    copies := new Slot[|slots|](_ => Slot(None, TextIs(None)));
    pool, copied := {}, [];
    var i := 0;
    while i < |slots|
      invariant i <= |slots| && fresh(pool) && copies !in pool && copies.Length == |slots|
      invariant SlotsValid(copies[..i], copied, pool)
      invariant |copied| == i && forall k :: 0 <= k < i ==> CopyOfIn(kvs[k], copied[k])
    {
      var slot, kv, foot := CopySlot(slots[i], kvs[i], own);
      SlotsExtend(copies[..i], copied, pool, slot, kv, foot);
      copies[i] := slot;
      assert copies[..i + 1] == copies[..i] + [slot];
      pool, copied := pool + foot, copied + [kv];
      i := i + 1;
    }
    assert copies[..i] == copies[..];
  }

  /** The search loops of `epr_add_selector` and `epr_delete_selector`. */
  method FindSelector(epr: EprObj, name: string) returns (i: nat)
    requires epr.Valid()
    ensures i == Find(epr.Val.selectors, name)
  {
    i := 0;
    while i < epr.selectors.Length
      invariant i <= epr.selectors.Length
      invariant forall k :: 0 <= k < i ==> epr.Val.selectors[k].key != Some(name)
    {
      assert SlotValid(epr.selectors[..][i], epr.Val.selectors[i], epr.Pool);
      if epr.selectors[i].key == Some(name) { return; }
      i := i + 1;
    }
  }

  /** `u_realloc` of a selector array: its first `keep` slots in an array of `size`. */
  method Realloc(old_: array<Slot>, keep: nat, size: nat) returns (a: array<Slot>)
    requires keep <= old_.Length && keep <= size
    ensures fresh(a) && a.Length == size && a[..keep] == old_[..keep]
  {
    a := new Slot[size](_ => Slot(None, TextIs(None)));
    var k := 0;
    while k < keep
      invariant k <= keep && a[..k] == old_[..k]
    {
      a[k] := old_[k];
      k := k + 1;
    }
  }

  /** `value` may be what a call of `epr_add_selector` adds: the text, or else a copy of the EPR. */
  ghost predicate Creates(text: Option<string>, source: Option<Epr>, value: Value) {
    if text.Some? then value == Text(text)
    else if source.None? then value == Ref(None)
    else value.Ref? && value.epr.Some? && CopyOf(source.value, value.epr.value)
  }

  ghost function ValueIn(o: EprObj?): Option<Epr>
    reads o
  {
    if o == null then None else Some(o.Val)
  }

  /** `epr_add_selector`.  `added` may be any EPR, also `epr` itself or one nested in it. */
  method EprAddSelector(epr: EprObj, name: string, text: Option<string>, added: EprObj?)
    returns (rc: int, ghost value: Value)
    requires epr.Valid() && (added != null ==> added.Valid() && Copyable(added.Val))
    modifies epr
    ensures epr.Valid() && fresh(epr.Repr - old(epr.Repr))
    ensures epr.selectors == old(epr.selectors) || fresh(epr.selectors)
    ensures rc == if Has(old(epr.Val.selectors), name) then -1 else 0
    ensures Creates(text, old(ValueIn(added)), value)
    ensures epr.Val == old(epr.Val).(selectors := Edited(old(epr.Val.selectors), Add(name, value)))
  {
    if added != null { CopyOfSelf(added.Val); }
    value := if text.Some? then Text(text) else Ref(ValueIn(added));
    var i := FindSelector(epr, name);
    if i < epr.selectors.Length { return -1, value; }
    var slot;
    ghost var foot;
    slot, value, foot := CreateSlot(name, text, added);
    Append(epr, slot, KeyValue(Some(name), value), foot);
    rc := 0;
  }

  method Append(epr: EprObj, slot: Slot, ghost kv: KeyValue, ghost foot: set<object>)
    requires epr.Valid() && SlotValid(slot, kv, foot) && foot !! epr.Repr
    modifies epr
    ensures epr.Valid() && fresh(epr.Repr - old(epr.Repr) - foot) && fresh(epr.selectors)
    ensures epr.Val == old(epr.Val).(selectors := old(epr.Val.selectors) + [kv])
  {
    var count := epr.selectors.Length;
    var p := Realloc(epr.selectors, count, count + 1);
    SlotsExtend(epr.selectors[..], epr.Val.selectors, epr.Pool, slot, kv, foot);
    p[count] := slot;
    assert p[..] == epr.selectors[..] + [slot];
    epr.selectors := p;
    epr.Pool := epr.Pool + foot;
    epr.Repr := epr.Pool + {epr, p};
    epr.Val := epr.Val.(selectors := epr.Val.selectors + [kv]);
  }

  /** `key_value_create`. */
  method CreateSlot(name: string, text: Option<string>, added: EprObj?)
    returns (c: Slot, ghost value: Value, ghost foot: set<object>)
    requires added != null ==> added.Valid() && Copyable(added.Val)
    ensures fresh(foot) && SlotValid(c, KeyValue(Some(name), value), foot) && Creates(text, ValueIn(added), value)
  {
    foot := {};
    if text.Some? {
      c, value := Slot(Some(name), TextIs(text)), Text(text);
    } else if added == null {
      c, value := Slot(Some(name), RefTo(null)), Ref(None);
    } else {
      var copy := EprCopy(added);
      c, value, foot := Slot(Some(name), RefTo(copy)), Ref(Some(copy.Val)), copy.Repr;
    }
  }

  /** The shift of `epr_delete_selector`, in place. */
  method ShiftDown(a: array<Slot>, i: nat)
    requires i < a.Length
    modifies a
    ensures a[..a.Length - 1] == old(a[..i]) + old(a[i + 1..])
  {
    var k := i;
    while k < a.Length - 1
      invariant i <= k <= a.Length - 1
      invariant a[..k] == old(a[..i]) + old(a[i + 1..k + 1])
      invariant a[k + 1..] == old(a[k + 1..])
    {
      assert a[k + 1] == a[k + 1..][0] && a[k + 2..] == a[k + 1..][1..];
      a[k] := a[k + 1];
      k := k + 1;
    }
  }

  /** `epr_delete_selector`; `strcmp` meets no NULL key before the name.  What the deleted selector
      owned is given up. */
  method EprDeleteSelector(epr: EprObj, name: string) returns (rc: int)
    requires epr.Valid()
    requires forall k :: 0 <= k < Find(epr.Val.selectors, name) ==> epr.Val.selectors[k].key.Some?
    modifies epr, epr.selectors
    ensures epr.Valid() && fresh(epr.Repr - old(epr.Repr))
    ensures epr.selectors == old(epr.selectors) || fresh(epr.selectors)
    ensures rc == if Has(old(epr.Val.selectors), name) then 0 else -1
    ensures epr.Val == old(epr.Val).(selectors := Edited(old(epr.Val.selectors), Delete(name)))
    ensures rc == 0 ==> Find(old(epr.Val.selectors), name) < old(epr.selectors.Length)
    ensures rc == 0 ==> epr.Repr !! old(Foot(epr.selectors[Find(epr.Val.selectors, name)]))
  {
    var i := FindSelector(epr, name);
    var selectors := epr.selectors;
    var count := selectors.Length;
    if i == count { return -1; }
    assert SlotValid(selectors[..][i], epr.Val.selectors[i], epr.Pool);
    SlotsWithout(selectors[..], epr.Val.selectors, epr.Pool, i);
    ghost var kept, gone := selectors[..i] + selectors[i + 1..], Foot(selectors[i]);
    ShiftDown(selectors, i);
    var temp := Realloc(selectors, count - 1, count - 1);
    assert temp[..] == kept;
    epr.selectors := temp;
    epr.Pool := epr.Pool - gone;
    epr.Repr := epr.Pool + {epr, temp};
    epr.Val := epr.Val.(selectors := Without(epr.Val.selectors, i));
    return 0;
  }

  // ---------------------------------------------------------------- independence

  /** Where an added EPR comes from: `path` leads to one nested in the original or in the copy, and
      is empty for these themselves. */
  datatype Source = Nowhere | Original(path: seq<nat>) | Copy(path: seq<nat>) | Outside(obj: EprObj)

  /** The EPR at the end of a path of selector positions, if there is one. */
  function NestedAt(e: Epr, path: seq<nat>): Option<Epr>
    decreases |path|
  {
    if path == [] then Some(e)
    else if path[0] >= |e.selectors| then None
    else
      var value := e.selectors[path[0]].value;
      if value.Ref? && value.epr.Some? then NestedAt(value.epr.value, path[1..]) else None
  }

  method Follow(o: EprObj, path: seq<nat>) returns (r: EprObj?)
    requires o.Valid() && Copyable(o.Val)
    ensures r != null ==> r.Valid() && Copyable(r.Val)
    ensures ValueIn(r) == NestedAt(o.Val, path)
    decreases |path|
  {
    if path == [] { return o; }
    var i := path[0];
    if i >= o.selectors.Length { return null; }
    assert SlotValid(o.selectors[..][i], o.Val.selectors[i], o.Pool) && o.Val.selectors[i] in o.Val.selectors;
    match o.selectors[i].value
    case TextIs(_) => return null;
    case RefTo(nested) =>
      if nested == null { return null; }
      r := Follow(nested, path[1..]);
  }

  /** A call on the original or on its copy. */
  datatype Call =
    | AddText(onCopy: bool, name: string, text: string)
    | AddEpr(onCopy: bool, name: string, from: Source)
    | Remove(onCopy: bool, name: string)

  /** `edit` is what `call` does when the EPR it adds has value `source`. */
  ghost predicate Means(call: Call, edit: Edit, source: Option<Epr>) {
    match call
    case AddText(_, name, text) => edit == Add(name, Text(Some(text)))
    case AddEpr(_, name, _) => edit.Add? && edit.name == name && Creates(None, source, edit.value)
    case Remove(_, name) => edit == Delete(name)
  }

  /** The value of the EPR that `call` adds: `v` and `w` are the original and the copy at that
      time, `out` is an EPR outside both. */
  ghost function SourceOf(call: Call, out: Epr, v: Epr, w: Epr): Option<Epr> {
    if !call.AddEpr? then None
    else
      match call.from
      case Nowhere => None
      case Original(path) => NestedAt(v, path)
      case Copy(path) => NestedAt(w, path)
      case Outside(_) => Some(out)
  }

  /** An EPR from outside can be copied, has value `out` and is apart from `busy`. */
  ghost predicate Apart(call: Call, out: Epr, busy: set<object>)
    reads if call.AddEpr? && call.from.Outside? then {call.from.obj} + call.from.obj.Repr else {}
  {
    call.AddEpr? && call.from.Outside? ==>
      call.from.obj.Valid() && call.from.obj.Val == out && Copyable(out) && call.from.obj.Repr !! busy
  }

  ghost predicate AllApart(calls: seq<Call>, outs: seq<Epr>, busy: set<object>)
    requires |calls| == |outs|
    reads *
  {
    forall k :: 0 <= k < |calls| ==> Apart(calls[k], outs[k], busy)
  }

  /** An EPR on which any call can be made. */
  ghost predicate Editable(e: Epr) {
    Copyable(e) && Named(e.selectors)
  }

  lemma EditedEditable(e: Epr, call: Call, edit: Edit, source: Option<Epr>)
    requires Editable(e) && Means(call, edit, source) && (source.Some? ==> Copyable(source.value))
    ensures Editable(e.(selectors := Edited(e.selectors, edit)))
  {
    var t := Edited(e.selectors, edit);
    if edit.Add? && edit.value.Ref? && edit.value.epr.Some? { CopyCopyable(source.value, edit.value.epr.value); }
    assert forall kv :: kv in t ==> kv in e.selectors || (edit.Add? && kv == KeyValue(Some(edit.name), edit.value));
  }

  method ApplyCall(epr: EprObj, call: Call, added: EprObj?) returns (ghost edit: Edit)
    requires epr.Valid() && Editable(epr.Val) && (added != null ==> added.Valid() && Copyable(added.Val))
    modifies epr, epr.selectors
    ensures epr.Valid() && fresh(epr.Repr - old(epr.Repr))
    ensures epr.selectors == old(epr.selectors) || fresh(epr.selectors)
    ensures Means(call, edit, old(ValueIn(added)))
    ensures epr.Val == old(epr.Val).(selectors := Edited(old(epr.Val.selectors), edit))
  {
    match call
    case AddText(_, name, text) =>
      var _, value := EprAddSelector(epr, name, Some(text), null);
      edit := Add(name, value);
    case AddEpr(_, name, _) =>
      var _, value := EprAddSelector(epr, name, None, added);
      edit := Add(name, value);
    case Remove(_, name) =>
      edit := Delete(name);
      var _ := EprDeleteSelector(epr, name);
  }

  /** One call on `a`; `b` and the EPRs from outside stay as they are. */
  method EditOne(a: EprObj, b: EprObj, calls: seq<Call>, ghost outs: seq<Epr>, i: nat, added: EprObj?)
    returns (ghost edit: Edit)
    requires a.Valid() && b.Valid() && a.Repr !! b.Repr && i < |calls| == |outs| && Editable(a.Val)
    requires added != null ==> added.Valid() && Copyable(added.Val)
    requires AllApart(calls, outs, a.Repr) && AllApart(calls, outs, b.Repr)
    modifies a, a.selectors
    ensures a.Valid() && b.Valid() && a.Repr !! b.Repr
    ensures a.selectors == old(a.selectors) || fresh(a.selectors)
    ensures b.selectors == old(b.selectors) && b.Repr == old(b.Repr) && b.Val == old(b.Val)
    ensures AllApart(calls, outs, a.Repr) && AllApart(calls, outs, b.Repr)
    ensures Means(calls[i], edit, old(ValueIn(added)))
    ensures a.Val == old(a.Val).(selectors := Edited(old(a.Val.selectors), edit))
  {
    edit := ApplyCall(a, calls[i], added);
    forall k | 0 <= k < |calls| ensures Apart(calls[k], outs[k], a.Repr) && Apart(calls[k], outs[k], b.Repr) {
      assert old(Apart(calls[k], outs[k], a.Repr) && Apart(calls[k], outs[k], b.Repr));
    }
  }

  /** Both EPRs are there, apart from each other and from what comes from outside. */
  ghost predicate Pair(epr: EprObj, c: EprObj) reads epr, epr.Repr, c, c.Repr {
    epr.Valid() && c.Valid() && epr.Repr !! c.Repr && Editable(epr.Val) && Editable(c.Val)
  }

  /** The EPR that a call adds. */
  method Fetch(epr: EprObj, c: EprObj, call: Call, ghost out: Epr) returns (added: EprObj?)
    requires Pair(epr, c) && Apart(call, out, epr.Repr)
    ensures added != null ==> added.Valid() && Copyable(added.Val)
    ensures ValueIn(added) == SourceOf(call, out, epr.Val, c.Val)
  {
    if !call.AddEpr? { return null; }
    match call.from
    case Nowhere => return null;
    case Original(path) => added := Follow(epr, path);
    case Copy(path) => added := Follow(c, path);
    case Outside(o) => added := o;
  }

  method EditNext(epr: EprObj, c: EprObj, calls: seq<Call>, ghost outs: seq<Epr>, i: nat) returns (ghost edit: Edit)
    requires Pair(epr, c) && i < |calls| == |outs|
    requires AllApart(calls, outs, epr.Repr) && AllApart(calls, outs, c.Repr)
    modifies epr, epr.selectors, c, c.selectors
    ensures Pair(epr, c)
    ensures epr.selectors == old(epr.selectors) || fresh(epr.selectors)
    ensures c.selectors == old(c.selectors) || fresh(c.selectors)
    ensures AllApart(calls, outs, epr.Repr) && AllApart(calls, outs, c.Repr)
    ensures Turn(calls[i], outs[i], edit, old(epr.Val), old(c.Val), epr.Val, c.Val)
  {
    assert Apart(calls[i], outs[i], epr.Repr);
    var added := Fetch(epr, c, calls[i], outs[i]);
    ghost var source := ValueIn(added);
    if calls[i].onCopy {
      edit := EditOne(c, epr, calls, outs, i, added);
      EditedEditable(old(c.Val), calls[i], edit, source);
    } else {
      edit := EditOne(epr, c, calls, outs, i, added);
      EditedEditable(old(epr.Val), calls[i], edit, source);
    }
  }

  /** The edit, if it is made on this side. */
  ghost function OneSide(e: Epr, call: Call, edit: Edit, onCopy: bool): Epr {
    if call.onCopy == onCopy then e.(selectors := Edited(e.selectors, edit)) else e
  }

  /** The edits made on one side. */
  ghost function Side(calls: seq<Call>, edits: seq<Edit>, onCopy: bool): seq<Edit>
    requires |calls| == |edits|
  {
    if calls == [] then []
    else
      var n := |calls| - 1;
      Side(calls[..n], edits[..n], onCopy) + if calls[n].onCopy == onCopy then [edits[n]] else []
  }

  /** One call turns the original `v` and the copy `w` into `v'` and `w'`: it is made on one of
      them, and adds what its source is at that time. */
  ghost predicate Turn(call: Call, out: Epr, edit: Edit, v: Epr, w: Epr, v': Epr, w': Epr) {
    && Means(call, edit, SourceOf(call, out, v, w))
    && v' == OneSide(v, call, edit, false) && w' == OneSide(w, call, edit, true)
  }

  /** The values of original and copy along the calls. */
  ghost predicate Trace(calls: seq<Call>, outs: seq<Epr>, edits: seq<Edit>, vs: seq<Epr>, ws: seq<Epr>) {
    && |edits| <= |calls| == |outs| && |vs| == |ws| == |edits| + 1
    && forall k :: 0 <= k < |edits| ==> Turn(calls[k], outs[k], edits[k], vs[k], ws[k], vs[k + 1], ws[k + 1])
  }

  lemma TraceNext(calls: seq<Call>, outs: seq<Epr>, edits: seq<Edit>, vs: seq<Epr>, ws: seq<Epr>,
                  edit: Edit, v: Epr, w: Epr)
    requires Trace(calls, outs, edits, vs, ws) && |edits| < |calls|
    requires var n := |edits|; Turn(calls[n], outs[n], edit, vs[n], ws[n], v, w)
    ensures Trace(calls, outs, edits + [edit], vs + [v], ws + [w])
  {
  }

  /** Each EPR becomes what its own edits alone make it. */
  lemma {:induction false} TraceAlone(calls: seq<Call>, outs: seq<Epr>, edits: seq<Edit>,
                                      vs: seq<Epr>, ws: seq<Epr>, n: nat)
    requires Trace(calls, outs, edits, vs, ws) && n <= |edits|
    ensures vs[n] == vs[0].(selectors := EditedAll(vs[0].selectors, Side(calls[..n], edits[..n], false)))
    ensures ws[n] == ws[0].(selectors := EditedAll(ws[0].selectors, Side(calls[..n], edits[..n], true)))
  {
    if n > 0 {
      TraceAlone(calls, outs, edits, vs, ws, n - 1);
      assert Turn(calls[n - 1], outs[n - 1], edits[n - 1], vs[n - 1], ws[n - 1], vs[n], ws[n]);
      SideNext(vs[0].selectors, calls, edits, n, false);
      SideNext(ws[0].selectors, calls, edits, n, true);
    }
  }

  lemma SideNext(s: seq<KeyValue>, calls: seq<Call>, edits: seq<Edit>, n: nat, onCopy: bool)
    requires 0 < n <= |edits| <= |calls|
    ensures EditedAll(s, Side(calls[..n], edits[..n], onCopy)) ==
            var t := EditedAll(s, Side(calls[..n - 1], edits[..n - 1], onCopy));
            if calls[n - 1].onCopy == onCopy then Edited(t, edits[n - 1]) else t
  {
    assert calls[..n][..n - 1] == calls[..n - 1] && edits[..n][..n - 1] == edits[..n - 1];
    var side := Side(calls[..n - 1], edits[..n - 1], onCopy);
    assert side + [] == side;
    EditedAllLast(s, side, edits[n - 1]);
  }

  /** The first `n` calls, on the two EPRs they are made on. */
  method EditBoth(epr: EprObj, c: EprObj, calls: seq<Call>, ghost outs: seq<Epr>, n: nat)
    returns (ghost edits: seq<Edit>, ghost vs: seq<Epr>, ghost ws: seq<Epr>)
    requires Pair(epr, c) && n <= |calls| == |outs|
    requires AllApart(calls, outs, epr.Repr) && AllApart(calls, outs, c.Repr)
    modifies epr, epr.selectors, c, c.selectors
    ensures Pair(epr, c) && |edits| == n
    ensures epr.selectors == old(epr.selectors) || fresh(epr.selectors)
    ensures c.selectors == old(c.selectors) || fresh(c.selectors)
    ensures AllApart(calls, outs, epr.Repr) && AllApart(calls, outs, c.Repr)
    ensures Trace(calls, outs, edits, vs, ws)
    ensures vs[0] == old(epr.Val) && ws[0] == old(c.Val) && vs[n] == epr.Val && ws[n] == c.Val
  {
    edits, vs, ws := [], [epr.Val], [c.Val];
    if n > 0 {
      edits, vs, ws := EditBoth(epr, c, calls, outs, n - 1);
      ghost var edit := EditNext(epr, c, calls, outs, n - 1);
      TraceNext(calls, outs, edits, vs, ws, edit, epr.Val, c.Val);
      edits, vs, ws := edits + [edit], vs + [epr.Val], ws + [c.Val];
    }
  }

  /** `epr_copy` and then any run of adds and deletes, on the original and on the copy in any
      order, which may also add the one to the other or to itself, whole or an EPR nested in it:
      each EPR ends as its own edits alone make it, and owns nothing of the other. */
  method CopyThenEdit(epr: EprObj, calls: seq<Call>, ghost outs: seq<Epr>)
    returns (c: EprObj, ghost edits: seq<Edit>, ghost vs: seq<Epr>, ghost ws: seq<Epr>)
    requires epr.Valid() && Editable(epr.Val) && |outs| == |calls| && AllApart(calls, outs, epr.Repr)
    modifies epr, epr.selectors
    ensures epr.Valid() && c.Valid() && epr.Repr !! c.Repr
    ensures |edits| == |calls| && Trace(calls, outs, edits, vs, ws) && vs[0] == old(epr.Val)
    ensures CopyOf(old(epr.Val), ws[0]) && (Addressed(old(epr.Val)) ==> ws[0] == old(epr.Val))
    ensures epr.Val == vs[0].(selectors := EditedAll(vs[0].selectors, Side(calls, edits, false)))
    ensures c.Val == ws[0].(selectors := EditedAll(ws[0].selectors, Side(calls, edits, true)))
  {
    c := EprCopy(epr);
    CopyCopyable(epr.Val, c.Val);
    CopyNamed(epr.Val, c.Val);
    edits, vs, ws := EditBoth(epr, c, calls, outs, |calls|);
    TraceAlone(calls, outs, edits, vs, ws, |calls|);
    assert calls[..|calls|] == calls && edits[..|calls|] == edits;
  }

  lemma CopyNamed(e: Epr, c: Epr)
    requires CopyOf(e, c) && Named(e.selectors)
    ensures Named(c.selectors)
  {
    forall q | q in c.selectors ensures q.key.Some? {
      var i :| 0 <= i < |c.selectors| && c.selectors[i] == q;
      assert CopyOfIn(e.selectors[i], q) && e.selectors[i] in e.selectors;
    }
  }
}
