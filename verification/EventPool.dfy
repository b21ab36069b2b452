/** The in-memory event pool: a global list of per-subscription event queues
    (src/lib/wsman-event-pool.c), and the map of FIFO queues it refines. */
module EventPool {
  import opened Basics

  // ---------------------------------------------------------------- strcasecmp

  function FoldChar(c: char): char {
    if 'A' <= c <= 'Z' then (c as int + 32) as char else c
  }

  /** Two ids are equal under `strcasecmp` exactly when they have the same fold. */
  function Fold(s: string): string {
    if s == "" then "" else [FoldChar(s[0])] + Fold(s[1..])
  }

  /** The same character, or the same letter in either case. */
  predicate SameLetter(a: char, b: char) {
    a == b || ('A' <= a <= 'Z' && b as int == a as int + 32) || ('A' <= b <= 'Z' && a as int == b as int + 32)
  }

  /** `strcasecmp` answers 0: as many characters, each the same ignoring case. */
  predicate SameIgnoringCase(a: string, b: string) {
    |a| == |b| && forall i :: 0 <= i < |a| ==> SameLetter(a[i], b[i])
  }

  lemma {:induction false} FoldExactly(a: string, b: string)
    ensures Fold(a) == Fold(b) <==> SameIgnoringCase(a, b)
  {
    if a != "" && b != "" {
      FoldExactly(a[1..], b[1..]);
      assert FoldChar(a[0]) == FoldChar(b[0]) <==> SameLetter(a[0], b[0]);
      assert Fold(a)[0] == FoldChar(a[0]) && Fold(a)[1..] == Fold(a[1..]);
      assert Fold(b)[0] == FoldChar(b[0]) && Fold(b)[1..] == Fold(b[1..]);
      HeadAndTail(a, b);
    }
  }

  lemma HeadAndTail(a: string, b: string)
    requires a != "" && b != ""
    ensures SameIgnoringCase(a, b) <==> SameLetter(a[0], b[0]) && SameIgnoringCase(a[1..], b[1..])
  {
    if SameLetter(a[0], b[0]) && SameIgnoringCase(a[1..], b[1..]) {
      forall i | 0 <= i < |a| ensures SameLetter(a[i], b[i]) {
        if i > 0 { assert a[i] == a[1..][i - 1] && b[i] == b[1..][i - 1]; }
      }
    }
  }

  // ---------------------------------------------------------------- the abstract pool

  /** Case-folded subscription id to the queue of its undelivered events. */
  type Pool<E> = map<string, seq<E>>

  function Queue<E>(p: Pool<E>, id: string): seq<E> {
    if id in p then p[id] else []
  }

  function Put<E>(p: Pool<E>, id: string, e: E): Pool<E> {
    p[id := Queue(p, id) + [e]]
  }

  /** The pull-mode add: an entry is made in any case, the event is refused above the limit. */
  predicate Accepts<E>(p: Pool<E>, id: string, maxPull: int) {
    |Queue(p, id)| <= maxPull
  }

  function PutPull<E>(p: Pool<E>, id: string, e: E, maxPull: int): Pool<E> {
    if Accepts(p, id, maxPull) then Put(p, id, e) else p[id := Queue(p, id)]
  }

  /** Drops the first `n` events of a queue. */
  function Drop<E>(p: Pool<E>, id: string, n: nat): Pool<E>
    requires n <= |Queue(p, id)|
  {
    if id in p then p[id := p[id][n..]] else p
  }

  function Clear<E>(p: Pool<E>, id: string): Pool<E> {
    p - {id}
  }

  /** `p'` differs from `p` at most in the queue of `id`. */
  ghost predicate OthersKept<E>(p: Pool<E>, p': Pool<E>, id: string) {
    forall k :: k != id ==> Queue(p', k) == Queue(p, k)
  }

  /** What each operation does to its own queue and to the others. */
  lemma QueueEffects<E>(p: Pool<E>, id: string, e: E, maxPull: int, n: nat)
    requires n <= |Queue(p, id)|
    ensures Queue(Put(p, id, e), id) == Queue(p, id) + [e] && OthersKept(p, Put(p, id, e), id)
    ensures Queue(PutPull(p, id, e, maxPull), id) == Queue(p, id) + (if Accepts(p, id, maxPull) then [e] else [])
    ensures OthersKept(p, PutPull(p, id, e, maxPull), id)
    ensures Queue(Drop(p, id, n), id) == Queue(p, id)[n..] && OthersKept(p, Drop(p, id, n), id)
    ensures Queue(Clear(p, id), id) == [] && OthersKept(p, Clear(p, id), id)
  {
  }

  // ---------------------------------------------------------------- runs over the abstract pool

  datatype PoolOp<E> =
    | Add(id: string, event: E)
    | AddPull(id: string, event: E)
    | GetAndDelete(id: string)
    | ClearAll(id: string)

  function Apply<E>(p: Pool<E>, op: PoolOp<E>, maxPull: int): Pool<E> {
    match op
    case Add(id, e) => Put(p, id, e)
    case AddPull(id, e) => PutPull(p, id, e, maxPull)
    case GetAndDelete(id) => if Queue(p, id) == [] then p else Drop(p, id, 1)
    case ClearAll(id) => Clear(p, id)
  }

  function RunPool<E>(p: Pool<E>, ops: seq<PoolOp<E>>, maxPull: int): Pool<E> {
    if ops == [] then p
    else Apply(RunPool(p, ops[..|ops| - 1], maxPull), ops[|ops| - 1], maxPull)
  }

  /** A queue that only ever receives pull-mode adds holds at most `maxPull + 1` events,
      whatever is done to it and to the other queues. */
  lemma {:induction false} PullQueueBounded<E>(ops: seq<PoolOp<E>>, maxPull: int, id: string)
    requires forall i :: 0 <= i < |ops| && ops[i].Add? ==> ops[i].id != id
    ensures |Queue(RunPool(map[], ops, maxPull), id)| <= (if maxPull < 0 then 0 else maxPull + 1)
  {
    if ops != [] {
      PullQueueBounded(ops[..|ops| - 1], maxPull, id);
    }
  }

  /** The bound is reached: `maxPull + 2` pull-mode adds leave `maxPull + 1` events. */
  lemma {:induction false} PullBoundReached<E>(e: E, id: string, maxPull: nat, n: nat)
    ensures var ops := seq(n, i => AddPull(id, e));
            |Queue(RunPool(map[], ops, maxPull), id)| == (if n <= maxPull + 1 then n else maxPull + 1)
  {
    var ops := seq(n, i => AddPull(id, e));
    if n > 0 {
      PullBoundReached(e, id, maxPull, n - 1);
      assert ops[..n - 1] == seq(n - 1, i => AddPull(id, e));
    }
  }

  // ---------------------------------------------------------------- the list of entries

  /** struct __event_entry */
  datatype Entry<E> = Entry(id: string, events: seq<E>)

  /** No two entries share an id ignoring case. */
  ghost predicate DistinctIds<E>(es: seq<Entry<E>>) {
    forall i, j :: 0 <= i < j < |es| ==> Fold(es[i].id) != Fold(es[j].id)
  }

  ghost function ViewOf<E>(es: seq<Entry<E>>): Pool<E> {
    if es == [] then map[]
    else ViewOf(es[..|es| - 1])[Fold(es[|es| - 1].id) := es[|es| - 1].events]
  }

  lemma {:induction false} ViewKeys<E>(es: seq<Entry<E>>, k: string)
    ensures k in ViewOf(es) <==> exists i :: 0 <= i < |es| && Fold(es[i].id) == k
  {
    if es != [] {
      ViewKeys(es[..|es| - 1], k);
    }
  }

  lemma {:induction false} ViewUpdated<E>(es: seq<Entry<E>>, i: nat, q: seq<E>)
    requires DistinctIds(es) && i < |es|
    ensures DistinctIds(es[i := es[i].(events := q)])
    ensures Fold(es[i].id) in ViewOf(es) && ViewOf(es)[Fold(es[i].id)] == es[i].events
    ensures ViewOf(es[i := es[i].(events := q)]) == ViewOf(es)[Fold(es[i].id) := q]
  {
    var n, x := |es| - 1, es[i].(events := q);
    if i == n {
      assert es[i := x][..n] == es[..n];
    } else {
      ViewUpdated(es[..n], i, q);
      assert es[i := x][..n] == es[..n][i := x];
    }
  }

  lemma IdsRemoved<E>(es: seq<Entry<E>>, i: nat)
    requires DistinctIds(es) && i < |es|
    ensures DistinctIds(es[..i] + es[i + 1..])
  {
    var r := es[..i] + es[i + 1..];
    forall a, b | 0 <= a < b < |r| ensures Fold(r[a].id) != Fold(r[b].id) {
      var a', b' := if a < i then a else a + 1, if b < i then b else b + 1;
      assert r[a] == es[a'] && r[b] == es[b'];
    }
  }

  lemma RemoveKeyCommutes<K, V>(m: map<K, V>, k: K, l: K, v: V)
    ensures k !in m ==> m[k := v] - {k} == m
    ensures k != l ==> (m - {k})[l := v] == m[l := v] - {k}
  {
  }

  lemma ViewLast<E>(es: seq<Entry<E>>, e: Entry<E>)
    ensures ViewOf(es + [e]) == ViewOf(es)[Fold(e.id) := e.events]
  {
    assert (es + [e])[..|es|] == es;
  }

  lemma LastRemoved<E>(init: seq<Entry<E>>, last: Entry<E>)
    requires DistinctIds(init + [last])
    ensures ViewOf(init) == ViewOf(init + [last]) - {Fold(last.id)}
  {
    ViewLast(init, last);
    assert Fold(last.id) !in ViewOf(init) by {
      ViewKeys(init, Fold(last.id));
      var all := init + [last];
      assert all[|init|] == last && forall i :: 0 <= i < |init| ==> all[i] == init[i];
    }
    RemoveKeyCommutes(ViewOf(init), Fold(last.id), Fold(last.id), last.events);
  }

  lemma OtherRemoved<E>(init: seq<Entry<E>>, rest: seq<Entry<E>>, last: Entry<E>, k: string)
    requires ViewOf(rest) == ViewOf(init) - {k} && k != Fold(last.id)
    ensures ViewOf(rest + [last]) == ViewOf(init + [last]) - {k}
  {
    ViewLast(rest, last);
    ViewLast(init, last);
    RemoveKeyCommutes(ViewOf(init), k, Fold(last.id), last.events);
  }

  lemma CutBefore<E>(init: seq<Entry<E>>, last: Entry<E>, i: nat)
    requires i < |init|
    ensures var es := init + [last]; es[..i] + es[i + 1..] == init[..i] + init[i + 1..] + [last]
  {
  }

  lemma {:induction false} ViewRemoved<E>(es: seq<Entry<E>>, i: nat)
    requires DistinctIds(es) && i < |es|
    ensures ViewOf(es[..i] + es[i + 1..]) == ViewOf(es) - {Fold(es[i].id)}
  {
    var init, last := es[..|es| - 1], es[|es| - 1];
    assert es == init + [last];
    if i == |init| {
      assert es[..i] + es[i + 1..] == init;
      LastRemoved(init, last);
    } else {
      ViewRemoved(init, i);
      CutBefore(init, last, i);
      OtherRemoved(init, init[..i] + init[i + 1..], last, Fold(es[i].id));
    }
  }

  /** `global_event_list` and `max_pull_event_number` with the operations of the pool. */
  class MemEventPool<E> {
    var entries: seq<Entry<E>>
    var maxPull: int
    ghost var Contents: Pool<E>

    ghost predicate Valid()
      reads this
    {
      DistinctIds(entries) && Contents == ViewOf(entries)
    }

    constructor (limit: Option<int>)
      ensures Valid() && Contents == map[]
      ensures maxPull == if limit.Some? then limit.value else 16
    {
      entries, Contents := [], map[];
      maxPull := if limit.Some? then limit.value else 16;
    }

    /** The search loop every operation starts with: the entry of `uuid`, or `|entries|`. */
    method Find(uuid: string) returns (i: nat)
      requires Valid()
      ensures i <= |entries|
      ensures i < |entries| ==> Fold(entries[i].id) == Fold(uuid)
      ensures i < |entries| ==> Fold(uuid) in Contents && Contents[Fold(uuid)] == entries[i].events
      ensures i == |entries| ==> Fold(uuid) !in Contents
      ensures i == |entries| ==> forall j :: 0 <= j < |entries| ==> Fold(entries[j].id) != Fold(uuid)
    {
      i := 0;
      while i < |entries|
        invariant i <= |entries|
        invariant forall j :: 0 <= j < i ==> Fold(entries[j].id) != Fold(uuid)
      {
        if Fold(entries[i].id) == Fold(uuid) {
          ViewUpdated(entries, i, []);
          return;
        }
        i := i + 1;
      }
      ViewKeys(entries, Fold(uuid));
    }

    /** `list_append` or `list_delete` on the queue of entry `i`. */
    method SetQueue(i: nat, events: seq<E>)
      requires Valid() && i < |entries|
      modifies this
      ensures Valid() && maxPull == old(maxPull)
      ensures Contents == old(Contents)[old(Fold(entries[i].id)) := events]
    {
      ViewUpdated(entries, i, events);
      Contents := Contents[Fold(entries[i].id) := events];
      entries := entries[i := entries[i].(events := events)];
    }

    /** The entry of `uuid`, created empty when there is none. */
    method FindOrCreate(uuid: string) returns (i: nat)
      requires Valid()
      modifies this
      ensures Valid() && maxPull == old(maxPull)
      ensures i < |entries| && Fold(entries[i].id) == Fold(uuid)
      ensures entries[i].events == old(Queue(Contents, Fold(uuid)))
      ensures Contents == old(Contents)[Fold(uuid) := old(Queue(Contents, Fold(uuid)))]
    {
      i := Find(uuid);
      if i == |entries| {
        ghost var before := entries;
        entries := entries + [Entry(uuid, [])];
        assert entries[..i] == before;
        Contents := Contents[Fold(uuid) := []];
      }
    }

    /** `list_delete` on the list of entries. */
    method RemoveEntry(i: nat)
      requires Valid() && i < |entries|
      modifies this
      ensures Valid() && maxPull == old(maxPull)
      ensures Contents == old(Contents) - {old(Fold(entries[i].id))}
    {
      ViewRemoved(entries, i);
      IdsRemoved(entries, i);
      Contents := Contents - {Fold(entries[i].id)};
      entries := entries[..i] + entries[i + 1..];
    }

    method Count(uuid: string) returns (n: nat)
      requires Valid()
      ensures n == |Queue(Contents, Fold(uuid))|
    {
      var i := Find(uuid);
      if i < |entries| {
        n := |entries[i].events|;
      } else {
        n := 0;
      }
    }

    method AddEvent(uuid: string, notification: Option<E>) returns (rc: int)
      requires Valid()
      modifies this
      ensures Valid() && maxPull == old(maxPull) && rc == 0
      ensures Contents == match notification
                          case None => old(Contents)
                          case Some(e) => Put(old(Contents), Fold(uuid), e)
    {
      rc := 0;
      if notification.None? { return; }
      var i := FindOrCreate(uuid);
      SetQueue(i, entries[i].events + [notification.value]);
    }

    method AddPullEvent(uuid: string, notification: Option<E>) returns (rc: int)
      requires Valid()
      modifies this
      ensures Valid() && maxPull == old(maxPull)
      ensures Contents == match notification
                          case None => old(Contents)
                          case Some(e) => PutPull(old(Contents), Fold(uuid), e, maxPull)
      ensures rc == if notification.None? || Accepts(old(Contents), Fold(uuid), maxPull) then 0 else -1
    {
      rc := 0;
      if notification.None? { return; }
      var i := FindOrCreate(uuid);
      if |entries[i].events| > maxPull {
        rc := -1;
        return;
      }
      SetQueue(i, entries[i].events + [notification.value]);
    }

    method GetAndDeleteEvent(uuid: string) returns (rc: int, notification: Option<E>)
      requires Valid()
      modifies this
      ensures Valid() && maxPull == old(maxPull)
      ensures var q := old(Queue(Contents, Fold(uuid)));
              if q == [] then rc == -1 && notification == None && Contents == old(Contents)
              else rc == 0 && notification == Some(q[0]) && Contents == Drop(old(Contents), Fold(uuid), 1)
    {
      var i := Find(uuid);
      if i == |entries| || entries[i].events == [] {
        return -1, None;
      }
      rc, notification := 0, Some(entries[i].events[0]);
      SetQueue(i, entries[i].events[1..]);
    }

    /** Removes the entry and hands every event still queued to `proc`, in queue order. */
    method ClearEvent(uuid: string) returns (rc: int, disposed: seq<E>)
      requires Valid()
      modifies this
      ensures Valid() && maxPull == old(maxPull)
      ensures rc == if Fold(uuid) in old(Contents) then 0 else -1
      ensures Contents == Clear(old(Contents), Fold(uuid))
      ensures disposed == old(Queue(Contents, Fold(uuid)))
    {
      disposed := [];
      var i := Find(uuid);
      if i == |entries| {
        return -1, [];
      }
      ghost var queued := entries[i].events;
      var rest := entries[i].events;
      RemoveEntry(i);
      while rest != []
        invariant disposed + rest == queued
        decreases |rest|
      {
        disposed, rest := disposed + [rest[0]], rest[1..];
      }
      rc := 0;
    }
  }
}
