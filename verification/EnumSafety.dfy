/** What every run of the enumeration stubs and the sweeper keeps, over all interleavings. */
module EnumSafety {
  import opened Basics
  import opened EnumContexts

  // ---------------------------------------------------------------- handlers

  lemma UpdateCard(a: set<nat>, b: set<nat>, h: nat, before: bool, after: bool)
    requires before <==> h in a
    requires b == if after then a + {h} else a - {h}
    ensures |b| + One(before) == |a| + One(after)
  {
    if before && !after {
      assert a == b + {h};
    }
  }

  /** When one handler changes phase, only its own contribution to the counts changes. */
  lemma HolderCounts(phases: map<nat, Phase>, h: nat, p: Phase, id: nat)
    requires h in phases
    ensures |Holders(phases[h := p], id)| + One(Holds(phases[h], id)) == |Holders(phases, id)| + One(Holds(p, id))
  {
    var holders := Holders(phases, id);
    assert Holders(phases[h := p], id) == if Holds(p, id) then holders + {h} else holders - {h};
    UpdateCard(holders, Holders(phases[h := p], id), h, Holds(phases[h], id), Holds(p, id));
  }

  lemma OwnerCounts(phases: map<nat, Phase>, h: nat, p: Phase, id: nat)
    requires h in phases
    ensures |Owners(phases[h := p], id)| + One(Owns(phases[h], id)) == |Owners(phases, id)| + One(Owns(p, id))
  {
    var owners := Owners(phases, id);
    assert Owners(phases[h := p], id) == if Owns(p, id) then owners + {h} else owners - {h};
    UpdateCard(owners, Owners(phases[h := p], id), h, Owns(phases[h], id), Owns(p, id));
  }

  /** A holder's context is in the table and locked; an owner's is nowhere else. */
  lemma HolderFacts(s: State, h: nat, id: nat)
    requires LockDiscipline(s) && Tracked(s) && h in s.phases
    ensures Holds(s.phases[h], id) ==> id in s.table && s.table[id].inWork
    ensures Owns(s.phases[h], id) ==>
              id in s.issued && id !in s.table && id !in Queued(s.sweeper) && id !in s.destroyed
  {
    assert h in Holders(s.phases, id) <==> Holds(s.phases[h], id);
    assert h in Owners(s.phases, id) <==> Owns(s.phases[h], id);
    assert |Holders(s.phases, id)| == One(id in s.table && s.table[id].inWork);
    assert Places(s, id) == One(id in s.issued);
    if Owns(s.phases[h], id) {
      assert Owners(s.phases, id) != {};
    }
  }

  /** The lock discipline for one context. */
  ghost predicate LockedOnce(s: State, id: nat) {
    |Holders(s.phases, id)| == One(id in s.table && s.table[id].inWork)
  }

  lemma HolderLocks(s: State, a: Action, h: nat, id: nat)
    requires Inv(s) && h in s.phases && (s.phases[h].Holding? || s.phases[h].Unlocking?)
    ensures LockedOnce(Handle(s, a, h, s.phases[h]), id)
  {
    var s' := Handle(s, a, h, s.phases[h]);
    assert LockedOnce(s, id);
    HolderFacts(s, h, id);
    HolderCounts(s.phases, h, s'.phases[h], id);
  }

  lemma OwnerLocks(s: State, a: Action, h: nat, id: nat)
    requires Inv(s) && h in s.phases && (s.phases[h].Created? || s.phases[h].Removed?)
    ensures LockedOnce(Handle(s, a, h, s.phases[h]), id)
  {
    var s' := Handle(s, a, h, s.phases[h]);
    assert LockedOnce(s, id);
    HolderFacts(s, h, id);
    HolderCounts(s.phases, h, s'.phases[h], id);
  }

  lemma IdleLocks(s: State, a: Action, h: nat, id: nat)
    requires Inv(s) && h in s.phases && (s.phases[h].Idle? || s.phases[h].Admitted?)
    ensures LockedOnce(Handle(s, a, h, s.phases[h]), id)
  {
    var s' := Handle(s, a, h, s.phases[h]);
    assert LockedOnce(s, id);
    HolderCounts(s.phases, h, s'.phases[h], id);
  }

  lemma HandleLocks(s: State, a: Action, h: nat, id: nat)
    requires Inv(s) && h in s.phases
    ensures LockedOnce(Handle(s, a, h, s.phases[h]), id)
  {
    if s.phases[h].Holding? || s.phases[h].Unlocking? {
      HolderLocks(s, a, h, id);
    } else if s.phases[h].Created? || s.phases[h].Removed? {
      OwnerLocks(s, a, h, id);
    } else {
      IdleLocks(s, a, h, id);
    }
  }

  ghost predicate PlacedAfter(s: State, a: Action, h: nat, id: nat)
    requires h in s.phases
  {
    var s' := Handle(s, a, h, s.phases[h]);
    Places(s', id) == One(id in s'.issued)
  }

  lemma OwnerPlaces(s: State, a: Action, h: nat, id: nat)
    requires Inv(s) && h in s.phases && (s.phases[h].Created? || s.phases[h].Removed?)
    ensures PlacedAfter(s, a, h, id)
  {
    var s' := Handle(s, a, h, s.phases[h]);
    assert Places(s, id) == One(id in s.issued);
    OwnerCounts(s.phases, h, s'.phases[h], id);
    HolderFacts(s, h, id);
  }

  lemma HolderPlaces(s: State, a: Action, h: nat, id: nat)
    requires Inv(s) && h in s.phases && (s.phases[h].Holding? || s.phases[h].Unlocking?)
    ensures PlacedAfter(s, a, h, id)
  {
    var s' := Handle(s, a, h, s.phases[h]);
    assert Places(s, id) == One(id in s.issued);
    OwnerCounts(s.phases, h, s'.phases[h], id);
    HolderFacts(s, h, id);
  }

  lemma IdlePlaces(s: State, a: Action, h: nat, id: nat)
    requires Inv(s) && h in s.phases && (s.phases[h].Idle? || s.phases[h].Admitted?)
    ensures PlacedAfter(s, a, h, id)
  {
    var s' := Handle(s, a, h, s.phases[h]);
    assert Places(s, id) == One(id in s.issued);
    OwnerCounts(s.phases, h, s'.phases[h], id);
  }

  lemma HandlePlaces(s: State, a: Action, h: nat, id: nat)
    requires Inv(s) && h in s.phases
    ensures PlacedAfter(s, a, h, id)
  {
    match s.phases[h]
    case Created(_, _) => OwnerPlaces(s, a, h, id);
    case Removed(_) => OwnerPlaces(s, a, h, id);
    case Holding(_) => HolderPlaces(s, a, h, id);
    case Unlocking(_, _) => HolderPlaces(s, a, h, id);
    case _ => IdlePlaces(s, a, h, id);
  }

  lemma HolderTimely(s: State, a: Action, h: nat)
    requires Timely(s) && h in s.phases && (s.phases[h].Holding? || s.phases[h].Unlocking?)
    ensures Timely(Handle(s, a, h, s.phases[h]))
  {
  }

  lemma HandleTimely(s: State, a: Action, h: nat)
    requires Timely(s) && h in s.phases
    ensures Timely(Handle(s, a, h, s.phases[h]))
  {
    if s.phases[h].Holding? || s.phases[h].Unlocking? {
      HolderTimely(s, a, h);
    } else if s.phases[h].Created? || s.phases[h].Removed? {
      OwnerTimely(s, a, h);
    }
  }

  lemma OwnerTimely(s: State, a: Action, h: nat)
    requires Timely(s) && h in s.phases && (s.phases[h].Created? || s.phases[h].Removed?)
    ensures Timely(Handle(s, a, h, s.phases[h]))
  {
  }

  lemma HandleKeeps(s: State, a: Action, h: nat)
    requires Inv(s) && h in s.phases
    ensures Inv(Handle(s, a, h, s.phases[h]))
  {
    HandleTimely(s, a, h);
    var s' := Handle(s, a, h, s.phases[h]);
    forall id ensures |Holders(s'.phases, id)| == One(id in s'.table && s'.table[id].inWork) {
      HandleLocks(s, a, h, id);
      assert LockedOnce(s', id);
    }
    forall id ensures Places(s', id) == One(id in s'.issued) {
      HandlePlaces(s, a, h, id);
      assert PlacedAfter(s, a, h, id);
    }
  }

  // ---------------------------------------------------------------- the sweeper

  lemma {:induction false} DistinctCount(xs: seq<nat>, x: nat)
    requires Distinct(xs)
    ensures multiset(xs)[x] == One(x in xs)
  {
    if xs != [] {
      var n := |xs| - 1;
      DistinctCount(xs[..n], x);
      assert xs == xs[..n] + [xs[n]];
    }
  }

  lemma SweepTakePlaces(s: State, order: seq<nat>, id: nat)
    requires Inv(s) && s.sweeper.Timed? && ListsOnce(order, Stale(s.table, s.idle, s.sweeper.t))
    ensures Places(Sweep(s, SweepTake(order)), id) == One(id in s.issued)
  {
    var stale, s' := Stale(s.table, s.idle, s.sweeper.t), Sweep(s, SweepTake(order));
    assert Places(s, id) == One(id in s.issued);
    DistinctCount(order, id);
    assert id in order <==> id in Elements(order);
    assert Queued(s'.sweeper) == order && Queued(s.sweeper) == [];
    assert id in s'.table <==> id in s.table && id !in stale;
  }

  lemma MovedCount(q: seq<nat>, d: seq<nat>, id: nat)
    requires q != []
    ensures multiset(q[1..])[id] + multiset(d + [q[0]])[id] == multiset(q)[id] + multiset(d)[id]
  {
    assert q == [q[0]] + q[1..];
  }

  lemma SweepDestroyEffect(s: State)
    requires Queued(s.sweeper) != []
    ensures var s', q := Sweep(s, SweepDestroy), Queued(s.sweeper);
            && Queued(s'.sweeper) == q[1..] && s'.destroyed == s.destroyed + [q[0]]
            && s'.table == s.table && s'.phases == s.phases
  {
  }

  lemma PlacesMoved(s: State, s': State, id: nat)
    requires Queued(s.sweeper) != [] && s'.table == s.table && s'.phases == s.phases
    requires var q := Queued(s.sweeper); Queued(s'.sweeper) == q[1..] && s'.destroyed == s.destroyed + [q[0]]
    ensures Places(s', id) == Places(s, id)
  {
    MovedCount(Queued(s.sweeper), s.destroyed, id);
  }

  lemma SweepPlaces(s: State, a: Action, id: nat)
    requires Inv(s)
    ensures Places(Sweep(s, a), id) == One(id in s.issued)
  {
    if a.SweepTake? && s.sweeper.Timed? && ListsOnce(a.order, Stale(s.table, s.idle, s.sweeper.t)) {
      SweepTakePlaces(s, a.order, id);
    } else if a.SweepDestroy? && Queued(s.sweeper) != [] {
      SweepDestroyEffect(s);
      PlacesMoved(s, Sweep(s, a), id);
      assert Places(s, id) == One(id in s.issued);
    } else {
      assert Places(s, id) == One(id in s.issued);
    }
  }

  lemma SweepLocks(s: State, a: Action, id: nat)
    requires Inv(s)
    ensures LockedOnce(Sweep(s, a), id)
  {
    assert LockedOnce(s, id);
  }

  lemma SweepTimely(s: State, a: Action)
    requires Timely(s)
    ensures Timely(Sweep(s, a))
  {
  }

  lemma SweepKeeps(s: State, a: Action)
    requires Inv(s)
    ensures Inv(Sweep(s, a))
  {
    var s' := Sweep(s, a);
    assert s'.issued == s.issued;
    forall id ensures Places(s', id) == One(id in s'.issued) { SweepPlaces(s, a, id); }
    forall id ensures |Holders(s'.phases, id)| == One(id in s'.table && s'.table[id].inWork) {
      SweepLocks(s, a, id);
      assert LockedOnce(s', id);
    }
    SweepTimely(s, a);
  }

  // ---------------------------------------------------------------- runs

  lemma StepKeeps(s: State, a: Action)
    requires Inv(s)
    ensures Inv(Step(s, a))
  {
    if a.Elapse? {
      forall id ensures Places(Step(s, a), id) == One(id in s.issued) {
        assert Places(s, id) == One(id in s.issued);
      }
    } else if BySweeper(a) {
      SweepKeeps(s, a);
    } else if a.h in s.phases {
      HandleKeeps(s, a, a.h);
    }
  }

  lemma StartInv(handlers: set<nat>, quota: Option<nat>, idle: nat)
    ensures Inv(Start(handlers, quota, idle))
  {
    var s := Start(handlers, quota, idle);
    forall id ensures Holders(s.phases, id) == {} && Owners(s.phases, id) == {} {
    }
  }

  /** Safety over whole runs of any number of handlers and the sweeper. */
  lemma {:induction false} AlwaysInv(handlers: set<nat>, quota: Option<nat>, idle: nat, acts: seq<Action>)
    ensures Inv(RunAll(Start(handlers, quota, idle), acts))
  {
    if acts == [] {
      StartInv(handlers, quota, idle);
    } else {
      AlwaysInv(handlers, quota, idle, acts[..|acts| - 1]);
      StepKeeps(RunAll(Start(handlers, quota, idle), acts[..|acts| - 1]), acts[|acts| - 1]);
    }
  }

  /** A context is IN-WORK exactly when one stub holds it, and then it is in the table. */
  lemma InWorkMeansHeldOnce(handlers: set<nat>, quota: Option<nat>, idle: nat, acts: seq<Action>, id: nat)
    ensures var s := RunAll(Start(handlers, quota, idle), acts);
            && (id in s.table && s.table[id].inWork <==> exists h :: h in s.phases && Holds(s.phases[h], id))
            && (forall h, k ::
                  h in s.phases && k in s.phases && Holds(s.phases[h], id) && Holds(s.phases[k], id) ==> h == k)
  {
    AlwaysInv(handlers, quota, idle, acts);
    HeldOnce(RunAll(Start(handlers, quota, idle), acts), id);
  }

  lemma AtMostOne<T>(a: set<T>, x: T, y: T)
    requires |a| <= 1 && x in a && y in a
    ensures x == y
  {
    if x != y {
      assert |{x, y}| <= |a| by { SubsetCard({x, y}, a); }
    }
  }

  lemma SubsetCard<T>(a: set<T>, b: set<T>)
    requires a <= b
    ensures |a| <= |b|
  {
    assert b == a + (b - a);
  }

  lemma HeldOnce(s: State, id: nat)
    requires LockDiscipline(s)
    ensures id in s.table && s.table[id].inWork <==> exists h :: h in s.phases && Holds(s.phases[h], id)
    ensures forall h, k :: h in s.phases && k in s.phases && Holds(s.phases[h], id) && Holds(s.phases[k], id) ==> h == k
  {
    var holders := Holders(s.phases, id);
    assert |holders| == One(id in s.table && s.table[id].inWork);
    if h :| h in holders {
      assert h in s.phases && Holds(s.phases[h], id);
    } else {
      assert holders == {};
      assert forall h :: h in s.phases && Holds(s.phases[h], id) ==> h in holders;
    }
    forall h, k | h in s.phases && k in s.phases && Holds(s.phases[h], id) && Holds(s.phases[k], id) ensures h == k {
      AtMostOne(holders, h, k);
    }
  }

  /** Every context ever created is in exactly one place: so it is destroyed at most once, never
      while it is in the table, and never forgotten. */
  lemma ContextsTracked(handlers: set<nat>, quota: Option<nat>, idle: nat, acts: seq<Action>, id: nat)
    ensures var s := RunAll(Start(handlers, quota, idle), acts);
            && multiset(s.destroyed)[id] <= 1
            && (id in s.destroyed ==> id !in s.table && id in s.issued)
            && (id in s.issued && id !in s.table && id !in s.destroyed ==>
                  id in Queued(s.sweeper) || exists h :: h in s.phases && Owns(s.phases[h], id))
  {
    AlwaysInv(handlers, quota, idle, acts);
    var s := RunAll(Start(handlers, quota, idle), acts);
    assert Places(s, id) == One(id in s.issued);
    if id in s.issued && id !in s.table && id !in s.destroyed && id !in Queued(s.sweeper) {
      var h :| h in Owners(s.phases, id);
      assert h in s.phases && Owns(s.phases[h], id);
    }
  }

  /** The sweeper never takes a context that a stub holds, and takes only stale ones. */
  lemma SweeperSparesHeld(handlers: set<nat>, quota: Option<nat>, idle: nat, acts: seq<Action>,
                          order: seq<nat>, id: nat)
    requires var s := RunAll(Start(handlers, quota, idle), acts);
             id in s.table && id !in Step(s, SweepTake(order)).table
    ensures var s := RunAll(Start(handlers, quota, idle), acts);
            && (forall h :: h in s.phases ==> !Holds(s.phases[h], id))
            && (s.now >= s.table[id].timeStamp + s.idle || (s.table[id].expires > 0 && s.now >= s.table[id].expires))
  {
    AlwaysInv(handlers, quota, idle, acts);
    HeldOnce(RunAll(Start(handlers, quota, idle), acts), id);
  }

  /** The only thing handler `h` does is to read the clock, as it does after a failed endpoint. */
  ghost predicate OnlyReadsClock(more: seq<Action>, h: nat) {
    forall i :: 0 <= i < |more| && By(more[i], h) ==> more[i] == ReadClock(h)
  }

  lemma OthersLeaveHeld(s: State, a: Action, g: nat, h: nat, id: nat)
    requires Inv(s) && g in s.phases && h in s.phases && g != h && Holds(s.phases[h], id)
    ensures var s' := Handle(s, a, g, s.phases[g]);
            id in s.table && id in s'.table && s'.table[id] == s.table[id] && s'.phases[h] == s.phases[h]
  {
    HolderFacts(s, h, id);
    HolderFacts(s, g, id);
    if Holds(s.phases[g], id) { AtMostOne(Holders(s.phases, id), g, h); }
  }

  lemma SweepLeavesHeld(s: State, a: Action, h: nat, id: nat)
    requires Inv(s) && h in s.phases && Holds(s.phases[h], id)
    ensures var s' := Sweep(s, a);
            id in s.table && id in s'.table && s'.table[id] == s.table[id] && s'.phases[h] == s.phases[h]
  {
    HolderFacts(s, h, id);
  }

  lemma ClockReadHolds(s: State, h: nat, id: nat)
    requires h in s.phases && Holds(s.phases[h], id)
    ensures var s' := Handle(s, ReadClock(h), h, s.phases[h]); s'.table == s.table && Holds(s'.phases[h], id)
  {
  }

  lemma HeldUntouched(s: State, a: Action, h: nat, id: nat)
    requires Inv(s) && h in s.phases && Holds(s.phases[h], id) && (By(a, h) ==> a == ReadClock(h))
    ensures var s' := Step(s, a);
            id in s.table && id in s'.table && s'.table[id] == s.table[id] && h in s'.phases && Holds(s'.phases[h], id)
  {
    HolderFacts(s, h, id);
    if !a.Elapse? {
      if BySweeper(a) {
        SweepLeavesHeld(s, a, h, id);
      } else if a.h == h {
        ClockReadHolds(s, h, id);
      } else if a.h in s.phases {
        OthersLeaveHeld(s, a, a.h, h, id);
      }
    }
  }

  lemma {:induction false} HeldAlong(s: State, more: seq<Action>, h: nat, id: nat)
    requires Inv(s) && h in s.phases && Holds(s.phases[h], id) && OnlyReadsClock(more, h)
    ensures var s' := RunAll(s, more);
            && Inv(s') && id in s.table && id in s'.table && s'.table[id] == s.table[id]
            && h in s'.phases && Holds(s'.phases[h], id)
  {
    if more == [] {
      HolderFacts(s, h, id);
    } else {
      var init, last := more[..|more| - 1], more[|more| - 1];
      HeldAlong(s, init, h, id);
      HeldUntouched(RunAll(s, init), last, h, id);
      StepKeeps(RunAll(s, init), last);
    }
  }

  lemma UnlockReleases(s: State, h: nat, id: nat, stamp: nat)
    requires Inv(s) && h in s.phases && s.phases[h] == Unlocking(id, stamp)
    ensures var s' := Step(s, Unlock(h));
            && id in s.table && id in s'.table && s'.table[id] == s.table[id].(inWork := false, timeStamp := stamp)
            && Holders(s'.phases, id) == {}
  {
    HolderFacts(s, h, id);
    StepKeeps(s, Unlock(h));
    var s' := Step(s, Unlock(h));
    assert |Holders(s'.phases, id)| == One(s'.table[id].inWork);
  }

  /** A failed Pull or Release endpoint: from the moment a stub holds a context, whatever the others
      do until it has read the clock and gets the lock back, it leaves the context in the table
      exactly as it found it, unlocked and with the new time. */
  lemma FailedEndpointLeavesContext(handlers: set<nat>, quota: Option<nat>, idle: nat, acts: seq<Action>,
                                    more: seq<Action>, h: nat, id: nat, stamp: nat)
    requires var s := RunAll(Start(handlers, quota, idle), acts);
             h in s.phases && s.phases[h] == Holding(id) && OnlyReadsClock(more, h)
    requires var mid := RunAll(RunAll(Start(handlers, quota, idle), acts), more);
             h in mid.phases && mid.phases[h] == Unlocking(id, stamp)
    ensures var s := RunAll(Start(handlers, quota, idle), acts);
            var s' := Step(RunAll(s, more), Unlock(h));
            && id in s.table && id in s'.table && s'.table[id] == s.table[id].(inWork := false, timeStamp := stamp)
            && Holders(s'.phases, id) == {}
  {
    AlwaysInv(handlers, quota, idle, acts);
    var s := RunAll(Start(handlers, quota, idle), acts);
    HeldAlong(s, more, h, id);
    UnlockReleases(RunAll(s, more), h, id, stamp);
  }

  /** The cursor of `id`, if it is still in the table, is where it was. */
  ghost predicate CursorKept(s: State, s': State, id: nat) {
    id in s.table && id in s'.table ==> s'.table[id].index == s.table[id].index
  }

  lemma HolderCursor(s: State, a: Action, h: nat, id: nat)
    requires h in s.phases && (s.phases[h].Holding? || s.phases[h].Unlocking?)
    ensures CursorKept(s, Handle(s, a, h, s.phases[h]), id) || (a.Work? && Holds(s.phases[h], id))
  {
  }

  lemma HandleCursor(s: State, a: Action, h: nat, id: nat)
    requires Inv(s) && h in s.phases
    ensures CursorKept(s, Handle(s, a, h, s.phases[h]), id) || (a.Work? && Holds(s.phases[h], id))
  {
    if s.phases[h].Holding? || s.phases[h].Unlocking? { HolderCursor(s, a, h, id); } else { HolderFacts(s, h, id); }
  }

  /** Only the stub that holds a context moves its cursor. */
  lemma CursorMovedByHolder(handlers: set<nat>, quota: Option<nat>, idle: nat, acts: seq<Action>, a: Action, id: nat)
    requires var s := RunAll(Start(handlers, quota, idle), acts);
             id in s.table && id in Step(s, a).table && Step(s, a).table[id].index != s.table[id].index
    ensures var s := RunAll(Start(handlers, quota, idle), acts);
            a.Work? && a.h in s.phases && Holds(s.phases[a.h], id)
  {
    AlwaysInv(handlers, quota, idle, acts);
    var s := RunAll(Start(handlers, quota, idle), acts);
    if !a.Elapse? && !BySweeper(a) && a.h in s.phases { HandleCursor(s, a, a.h, id); }
  }

  // ---------------------------------------------------------------- idle expiry over runs

  /** A context stamped `ts` or later, with the given absolute expiry, and never swept. */
  ghost predicate Kept(s: State, id: nat, ts: nat, expires: nat) {
    && id in s.issued && id !in s.swept
    && (forall h :: h in s.phases && s.phases[h].Unlocking? && s.phases[h].id == id ==> s.phases[h].stamp >= ts)
    && (forall h :: h in s.phases && s.phases[h].Created? ==> s.phases[h].id != id)
    && (id in s.table ==> s.table[id].timeStamp >= ts && s.table[id].expires == expires)
  }

  lemma StepMonotone(s: State, a: Action)
    ensures Step(s, a).idle == s.idle && Step(s, a).now >= s.now && Step(s, a).phases.Keys == s.phases.Keys
  {
    if !a.Elapse? && !BySweeper(a) && a.h in s.phases { assert Framed(s, Step(s, a), a.h); }
  }

  lemma HolderKeepsKept(s: State, a: Action, h: nat, id: nat, ts: nat, expires: nat)
    requires Timely(s) && ts <= s.now && Kept(s, id, ts, expires) && h in s.phases
    requires s.phases[h].Holding? || s.phases[h].Unlocking?
    ensures Kept(Handle(s, a, h, s.phases[h]), id, ts, expires)
  {
  }

  lemma HandleKeepsKept(s: State, a: Action, h: nat, id: nat, ts: nat, expires: nat)
    requires Timely(s) && ts <= s.now && Kept(s, id, ts, expires) && h in s.phases
    ensures Kept(Handle(s, a, h, s.phases[h]), id, ts, expires)
  {
    if s.phases[h].Holding? || s.phases[h].Unlocking? { HolderKeepsKept(s, a, h, id, ts, expires); }
  }

  lemma StepKeepsKept(s: State, a: Action, id: nat, ts: nat, expires: nat)
    requires Timely(s) && ts <= s.now && Kept(s, id, ts, expires)
    requires s.now < ts + s.idle && (expires == 0 || s.now < expires)
    ensures Kept(Step(s, a), id, ts, expires)
  {
    if !a.Elapse? && !BySweeper(a) && a.h in s.phases { HandleKeepsKept(s, a, a.h, id, ts, expires); }
  }

  lemma {:induction false} KeptAlong(s: State, more: seq<Action>, id: nat, ts: nat, expires: nat)
    requires Inv(s) && ts <= s.now && Kept(s, id, ts, expires)
    requires RunAll(s, more).now < ts + s.idle && (expires == 0 || RunAll(s, more).now < expires)
    ensures Kept(RunAll(s, more), id, ts, expires) && Inv(RunAll(s, more))
    ensures RunAll(s, more).idle == s.idle && RunAll(s, more).now >= s.now
  {
    if more != [] {
      var mid, last := RunAll(s, more[..|more| - 1]), more[|more| - 1];
      StepMonotone(mid, last);
      KeptAlong(s, more[..|more| - 1], id, ts, expires);
      StepKeepsKept(mid, last, id, ts, expires);
      StepKeeps(mid, last);
    }
  }

  /** What the sweeper took is on its list or destroyed; a pending unlock never sets a clock back. */
  ghost predicate Forward(s: State) {
    && (forall id :: id in s.swept ==> id in Queued(s.sweeper) || id in s.destroyed)
    && (forall h :: h in s.phases && s.phases[h].Unlocking? && s.phases[h].id in s.table ==>
          s.table[s.phases[h].id].timeStamp <= s.phases[h].stamp)
  }

  lemma HandleForward(s: State, a: Action, h: nat)
    requires Inv(s) && Forward(s) && h in s.phases
    ensures Forward(Handle(s, a, h, s.phases[h]))
  {
    var s' := Handle(s, a, h, s.phases[h]);
    forall k | k in s'.phases && s'.phases[k].Unlocking? && s'.phases[k].id in s'.table
      ensures s'.table[s'.phases[k].id].timeStamp <= s'.phases[k].stamp
    {
      if k == h {
        OwnForward(s, a, h);
        assert ClockForward(s', h);
      } else {
        OthersLeaveHeld(s, a, h, k, s.phases[k].id);
      }
    }
  }

  /** A pending unlock of `h` does not set a clock back. */
  ghost predicate ClockForward(s: State, h: nat) {
    h in s.phases && s.phases[h].Unlocking? && s.phases[h].id in s.table ==>
      s.table[s.phases[h].id].timeStamp <= s.phases[h].stamp
  }

  lemma HolderForward(s: State, a: Action, h: nat)
    requires Timely(s) && Forward(s) && h in s.phases && (s.phases[h].Holding? || s.phases[h].Unlocking?)
    ensures ClockForward(Handle(s, a, h, s.phases[h]), h)
  {
  }

  lemma OwnForward(s: State, a: Action, h: nat)
    requires Timely(s) && Forward(s) && h in s.phases
    ensures ClockForward(Handle(s, a, h, s.phases[h]), h)
  {
    if s.phases[h].Holding? || s.phases[h].Unlocking? { HolderForward(s, a, h); }
  }

  lemma StepForward(s: State, a: Action)
    requires Inv(s) && Forward(s)
    ensures Forward(Step(s, a))
  {
    if a.SweepTake? && s.sweeper.Timed? {
      assert forall id :: id in Elements(a.order) ==> id in a.order;
    } else if a.SweepDestroy? && Queued(s.sweeper) != [] {
      var q := Queued(s.sweeper);
      assert q == [q[0]] + q[1..];
    } else if !a.Elapse? && !BySweeper(a) && a.h in s.phases {
      HandleForward(s, a, a.h);
    }
  }

  lemma {:induction false} AlwaysForward(handlers: set<nat>, quota: Option<nat>, idle: nat, acts: seq<Action>)
    ensures Forward(RunAll(Start(handlers, quota, idle), acts))
  {
    if acts != [] {
      AlwaysForward(handlers, quota, idle, acts[..|acts| - 1]);
      AlwaysInv(handlers, quota, idle, acts[..|acts| - 1]);
      StepForward(RunAll(Start(handlers, quota, idle), acts[..|acts| - 1]), acts[|acts| - 1]);
    }
  }

  /** A context whose last unlock read time `ts` is never swept before `ts` plus the idle timeout,
      unless its absolute expiry passes: whatever happens meanwhile, in any run. */
  lemma NotSweptEarly(handlers: set<nat>, quota: Option<nat>, idle: nat, acts: seq<Action>, more: seq<Action>, id: nat)
    requires id in RunAll(Start(handlers, quota, idle), acts).table
    requires var s := RunAll(Start(handlers, quota, idle), acts);
             var info, later := s.table[id], RunAll(s, more).now;
             later < info.timeStamp + s.idle && (info.expires == 0 || later < info.expires)
    ensures id !in RunAll(RunAll(Start(handlers, quota, idle), acts), more).swept
  {
    var s := RunAll(Start(handlers, quota, idle), acts);
    AlwaysInv(handlers, quota, idle, acts);
    AlwaysForward(handlers, quota, idle, acts);
    assert Places(s, id) == One(id in s.issued);
    forall h | h in s.phases && s.phases[h].Created? ensures s.phases[h].id != id { HolderFacts(s, h, id); }
    KeptAlong(s, more, id, s.table[id].timeStamp, s.table[id].expires);
  }

  // ---------------------------------------------------------------- the quota

  lemma InFlightCounts(phases: map<nat, Phase>, h: nat, p: Phase)
    requires h in phases
    ensures |InFlight(phases[h := p])| + One(phases[h].Admitted? || phases[h].Created?)
            == |InFlight(phases)| + One(p.Admitted? || p.Created?)
    ensures |phases[h := p]| == |phases|
  {
    var a := InFlight(phases);
    assert InFlight(phases[h := p]) == if p.Admitted? || p.Created? then a + {h} else a - {h};
    UpdateCard(a, InFlight(phases[h := p]), h, phases[h].Admitted? || phases[h].Created?, p.Admitted? || p.Created?);
    assert phases[h := p].Keys == phases.Keys;
  }

  lemma MapCards(m: Table, id: nat, info: Info, ids: set<nat>)
    ensures |m[id := info]| == |m| + One(id !in m)
    ensures |m - ids| <= |m|
  {
    assert m[id := info].Keys == m.Keys + {id};
    SubsetCard((m - ids).Keys, m.Keys);
  }

  lemma InFlightBounded(phases: map<nat, Phase>)
    ensures |InFlight(phases)| <= |phases|
  {
    SubsetCard(InFlight(phases), phases.Keys);
  }

  predicate Flying(p: Phase) {
    p.Admitted? || p.Created?
  }

  /** A step of `h` takes a context from its hands to the table at most, or takes up a new one
      within the quota. */
  ghost predicate FlightMove(s: State, s': State, h: nat)
    requires h in s.phases && h in s'.phases
  {
    || |s'.table| + One(Flying(s'.phases[h])) <= |s.table| + One(Flying(s.phases[h]))
    || (!Flying(s.phases[h]) && s'.phases[h] == Admitted && s'.table == s.table && Admits(s.quota, |s.table|))
  }

  lemma IdleFlight(s: State, a: Action, h: nat)
    requires h in s.phases && s.phases[h] == Idle
    ensures FlightMove(s, FromIdle(s, a, h), h)
  {
    if a.Lock? && a.id in s.table { MapCards(s.table, a.id, Locked(s.table, a.id)[a.id], {}); }
  }

  lemma CreatedFlight(s: State, a: Action, h: nat, id: nat, info: Info)
    requires h in s.phases && s.phases[h] == Created(id, info)
    ensures FlightMove(s, FromCreated(s, a, h, id, info), h)
  {
    MapCards(s.table, id, info.(timeStamp := s.now), {});
  }

  lemma WorkFlight(s: State, h: nat, id: nat, k: nat)
    requires h in s.phases && s.phases[h] == Holding(id) && id in s.table && id in s.sent
    ensures FlightMove(s, Worked(s, id, k), h)
  {
    MapCards(s.table, id, Advanced(s.table[id], k), {});
  }

  lemma RemoveFlight(s: State, h: nat, id: nat)
    requires h in s.phases && s.phases[h] == Holding(id)
    ensures FlightMove(s, Go(s.(table := RemovedLocked(s.table, id)), h, Removed(id)), h)
  {
    MapCards(s.table, id, Info(false, 0, 0, 0, 0), {id});
  }

  lemma HoldingFlight(s: State, a: Action, h: nat, id: nat)
    requires h in s.phases && s.phases[h] == Holding(id)
    ensures FlightMove(s, FromHolding(s, a, h, id), h)
  {
    if a.Work? {
      if id in s.table && id in s.sent { WorkFlight(s, h, id, a.k); }
    } else if a.RemoveLocked? {
      RemoveFlight(s, h, id);
    }
  }

  lemma UnlockingFlight(s: State, a: Action, h: nat, id: nat, stamp: nat)
    requires h in s.phases && s.phases[h] == Unlocking(id, stamp)
    ensures FlightMove(s, FromUnlocking(s, a, h, id, stamp), h)
  {
    if id in s.table { MapCards(s.table, id, Unlocked(s.table, id, stamp)[id], {}); }
  }

  lemma HandleFlight(s: State, a: Action, h: nat)
    requires h in s.phases
    ensures FlightMove(s, Handle(s, a, h, s.phases[h]), h)
  {
    match s.phases[h]
    case Idle => IdleFlight(s, a, h);
    case Created(id, info) => CreatedFlight(s, a, h, id, info);
    case Holding(id) => HoldingFlight(s, a, h, id);
    case Unlocking(id, stamp) => UnlockingFlight(s, a, h, id, stamp);
    case _ =>
  }

  lemma FlightWithinQuota(s: State, s': State, h: nat)
    requires WithinQuota(s) && h in s.phases && Framed(s, s', h) && FlightMove(s, s', h)
    ensures WithinQuota(s') && |s'.phases| == |s.phases|
  {
    InFlightCounts(s.phases, h, s'.phases[h]);
    InFlightBounded(s'.phases);
    assert Flying(s.phases[h]) ==> h in InFlight(s.phases);
  }

  lemma SweepQuota(s: State, a: Action)
    requires WithinQuota(s)
    ensures WithinQuota(Sweep(s, a)) && Sweep(s, a).quota == s.quota && Sweep(s, a).phases == s.phases
  {
    if a.SweepTake? && s.sweeper.Timed? {
      MapCards(s.table, 0, Info(false, 0, 0, 0, 0), Stale(s.table, s.idle, s.sweeper.t));
    }
  }

  lemma StepQuota(s: State, a: Action)
    requires WithinQuota(s)
    ensures WithinQuota(Step(s, a)) && Step(s, a).quota == s.quota && |Step(s, a).phases| == |s.phases|
  {
    if !a.Elapse? {
      if BySweeper(a) {
        SweepQuota(s, a);
      } else if a.h in s.phases {
        HandleFlight(s, a, a.h);
        FlightWithinQuota(s, Handle(s, a, a.h, s.phases[a.h]), a.h);
      }
    }
  }

  /** With `N` handlers and a quota `Q > 0` the table never holds more than `Q - 1 + N` contexts,
      and none at all with quota 0: the quota check and the insertion are separate sections. */
  lemma {:induction false} QuotaRespected(handlers: set<nat>, quota: nat, idle: nat, acts: seq<Action>)
    ensures var s := RunAll(Start(handlers, Some(quota), idle), acts);
            && WithinQuota(s) && s.quota == Some(quota) && |s.phases| == |handlers|
            && |s.table| <= if quota == 0 then 0 else quota - 1 + |handlers|
  {
    if acts == [] {
      var s := Start(handlers, Some(quota), idle);
      assert InFlight(s.phases) == {} && s.phases.Keys == handlers;
    } else {
      QuotaRespected(handlers, quota, idle, acts[..|acts| - 1]);
      StepQuota(RunAll(Start(handlers, Some(quota), idle), acts[..|acts| - 1]), acts[|acts| - 1]);
    }
  }
}
