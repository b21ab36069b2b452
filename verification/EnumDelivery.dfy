/** What the Pulls on an enumeration context deliver, over all interleavings of handlers and
    sweeper. */
module EnumDelivery {
  import opened Basics
  import opened EnumContexts
  import EnumSafety

  /** The items delivered are the first ones, each once and in order. */
  ghost predicate InSequence(sent: Sent) {
    sent.items == Positions(0, |sent.items|) && |sent.items| <= sent.total
  }

  /** The cursor of a context is behind what has been delivered from it. */
  ghost predicate Agrees(info: Info, sent: Sent) {
    && sent.total == info.totalItems
    && (if info.totalItems == 0 then sent.items == [] else info.index == |sent.items|)
  }

  ghost predicate TableAgrees(table: Table, sent: map<nat, Sent>) {
    forall id :: id in table ==> id in sent && Agrees(table[id], sent[id])
  }

  ghost predicate PhasesAgree(phases: map<nat, Phase>, sent: map<nat, Sent>) {
    forall h :: h in phases && phases[h].Created? ==>
      phases[h].id in sent && Agrees(phases[h].info, sent[phases[h].id])
  }

  ghost predicate AllInSequence(sent: map<nat, Sent>) {
    forall id :: id in sent ==> InSequence(sent[id])
  }

  ghost predicate Delivering(s: State) {
    s.sent.Keys == s.issued && AllInSequence(s.sent) && TableAgrees(s.table, s.sent) && PhasesAgree(s.phases, s.sent)
  }

  // ---------------------------------------------------------------- steps

  lemma NextInSequence(info: Info, sent: Sent, k: nat)
    requires InSequence(sent) && Agrees(info, sent) && CanDeliver(info, k)
    ensures var after := sent.(items := sent.items + Positions(info.index, k));
            InSequence(after) && Agrees(Advanced(info, k), after)
  {
    if info.totalItems == 0 {
      assert sent.items + Positions(info.index, k) == [];
    }
  }

  lemma WorkedDelivers(s: State, h: nat, id: nat, k: nat)
    requires Inv(s) && Delivering(s) && h in s.phases && s.phases[h] == Holding(id)
    requires id in s.table && CanDeliver(s.table[id], k)
    ensures Delivering(Worked(s, id, k))
  {
    NextInSequence(s.table[id], s.sent[id], k);
    var s' := Worked(s, id, k);
    forall g | g in s.phases && s.phases[g].Created? ensures s.phases[g].id != id {
      EnumSafety.HolderFacts(s, g, s.phases[g].id);
    }
    assert s'.sent.Keys == s.sent.Keys;
  }

  lemma CreateDelivers(s: State, h: nat, id: nat, info: Info)
    requires Delivering(s) && h in s.phases && id !in s.issued && info.index <= info.totalItems
    ensures var sent := s.sent[id := Sent(info.totalItems, Positions(0, info.index))];
            && sent.Keys == s.issued + {id} && AllInSequence(sent) && TableAgrees(s.table, sent)
            && PhasesAgree(s.phases[h := Created(id, info)], sent)
  {
  }

  /** `table` has only contexts of `was`, with the cursors they had there. */
  ghost predicate CursorsKept(was: Table, table: Table) {
    forall id :: id in table ==>
      id in was && table[id].index == was[id].index && table[id].totalItems == was[id].totalItems
  }

  lemma TableKept(s: State, table: Table, h: nat, p: Phase)
    requires Delivering(s) && CursorsKept(s.table, table) && h in s.phases && (p.Created? ==> p == s.phases[h])
    ensures TableAgrees(table, s.sent) && PhasesAgree(s.phases[h := p], s.sent)
  {
  }

  /** A step that delivers nothing leaves cursors and log alone. */
  ghost predicate Quiet(s: State, s': State, h: nat) {
    && s'.sent == s.sent && s'.issued == s.issued && CursorsKept(s.table, s'.table)
    && h in s.phases && h in s'.phases && (s'.phases[h].Created? ==> s'.phases[h] == s.phases[h])
  }

  lemma QuietHolder(s: State, a: Action, h: nat)
    requires h in s.phases && !a.Work? && (s.phases[h].Holding? || s.phases[h].Unlocking?)
    ensures Quiet(s, Handle(s, a, h, s.phases[h]), h)
  {
  }

  lemma QuietHandle(s: State, a: Action, h: nat)
    requires h in s.phases && !a.Create? && !a.Insert? && !a.Work?
    ensures Quiet(s, Handle(s, a, h, s.phases[h]), h)
  {
    if s.phases[h].Holding? || s.phases[h].Unlocking? { QuietHolder(s, a, h); }
  }

  lemma InsertDelivers(s: State, h: nat, now: nat)
    requires Delivering(s) && h in s.phases && s.phases[h].Created?
    ensures TableAgrees(Inserted(s.table, s.phases[h].id, s.phases[h].info, now), s.sent)
    ensures PhasesAgree(s.phases[h := Idle], s.sent)
  {
  }

  lemma QuietDelivers(s: State, a: Action, h: nat)
    requires Delivering(s) && h in s.phases && !a.Create? && !a.Insert? && !a.Work?
    ensures Delivering(Handle(s, a, h, s.phases[h]))
  {
    QuietHandle(s, a, h);
    var s' := Handle(s, a, h, s.phases[h]);
    TableKept(s, s'.table, h, s'.phases[h]);
  }

  lemma HandleDelivers(s: State, a: Action, h: nat)
    requires Inv(s) && Delivering(s) && h in s.phases
    ensures Delivering(Handle(s, a, h, s.phases[h]))
  {
    if a.Create? {
      if Handle(s, a, h, s.phases[h]) != s { CreateDelivers(s, h, a.id, a.info); }
    } else if a.Insert? {
      if s.phases[h].Created? { InsertDelivers(s, h, s.now); }
    } else if a.Work? {
      if Handle(s, a, h, s.phases[h]) != s { WorkedDelivers(s, h, s.phases[h].id, a.k); }
    } else {
      QuietDelivers(s, a, h);
    }
  }

  lemma StepDelivers(s: State, a: Action)
    requires Inv(s) && Delivering(s)
    ensures Delivering(Step(s, a))
  {
    if !a.Elapse? && !BySweeper(a) && a.h in s.phases {
      HandleDelivers(s, a, a.h);
    }
  }

  lemma {:induction false} AlwaysDelivering(handlers: set<nat>, quota: Option<nat>, idle: nat, acts: seq<Action>)
    ensures Delivering(RunAll(Start(handlers, quota, idle), acts))
  {
    if acts != [] {
      AlwaysDelivering(handlers, quota, idle, acts[..|acts| - 1]);
      EnumSafety.AlwaysInv(handlers, quota, idle, acts[..|acts| - 1]);
      StepDelivers(RunAll(Start(handlers, quota, idle), acts[..|acts| - 1]), acts[|acts| - 1]);
    }
  }

  // ---------------------------------------------------------------- theorems about runs

  /** The items of `results` at the given positions. */
  function ItemsAt<T>(results: seq<T>, at: seq<nat>): seq<T>
    requires forall i :: 0 <= i < |at| ==> at[i] < |results|
  {
    seq(|at|, i requires 0 <= i < |at| => results[at[i]])
  }

  /** Whatever the interleaving of Enumerates, Pulls, Releases and sweeps, what has been delivered
      from a context is a prefix of its results, so every item at most once and in order; and the
      cursor of a context in the table is behind that prefix. */
  lemma DeliveredInOrder<T>(handlers: set<nat>, quota: Option<nat>, idle: nat, acts: seq<Action>,
                            id: nat, results: seq<T>)
    requires var s := RunAll(Start(handlers, quota, idle), acts); id in s.issued
    requires var s := RunAll(Start(handlers, quota, idle), acts); id in s.sent && s.sent[id].total == |results|
    ensures var s := RunAll(Start(handlers, quota, idle), acts);
            var sent := s.sent[id];
            && |sent.items| <= |results|
            && (forall i :: 0 <= i < |sent.items| ==> sent.items[i] < |results|)
            && ItemsAt(results, sent.items) == results[..|sent.items|]
            && (id in s.table && results != [] ==> s.table[id].index == |sent.items|)
  {
    AlwaysDelivering(handlers, quota, idle, acts);
  }

  /** A Pull that takes its context out of the table has delivered the last of the results. */
  lemma EndMeansAll(handlers: set<nat>, quota: Option<nat>, idle: nat, acts: seq<Action>, h: nat, id: nat)
    requires var s := RunAll(Start(handlers, quota, idle), acts);
             h in s.phases && s.phases[h] == Holding(id) && Step(s, RemoveLocked(h, true)) != s
    ensures var s := RunAll(Start(handlers, quota, idle), acts);
            id in s.sent && s.sent[id].items == Positions(0, s.sent[id].total)
  {
    AlwaysDelivering(handlers, quota, idle, acts);
    EnumSafety.AlwaysInv(handlers, quota, idle, acts);
    EnumSafety.HolderFacts(RunAll(Start(handlers, quota, idle), acts), h, id);
  }
}
