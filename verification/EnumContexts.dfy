/** Enumeration contexts (src/lib/wsman-soap.c): request handlers running the Enumerate, Pull and
    Release stubs, and the timeout sweeper, over the shared table `enuminfos`.  Every
    `u_lock` … `u_unlock` section is one step, and so is every reading of the clock. */
module EnumContexts {
  import opened Basics

  /** struct __WsEnumerateInfo, as far as the table and the stubs use it. */
  datatype Info = Info(inWork: bool, timeStamp: nat, expires: nat, totalItems: nat, index: nat)

  type Table = map<nat, Info>

  // ---------------------------------------------------------------- lock sections on the table

  function Inserted(table: Table, id: nat, info: Info, now: nat): Table {
    table[id := info.(timeStamp := now)]
  }

  predicate Lockable(table: Table, id: nat) {
    id in table && !table[id].inWork
  }

  function Locked(table: Table, id: nat): Table
    requires id in table
  {
    table[id := table[id].(inWork := true)]
  }

  /** `unlock_enuminfo`, with the time it has read before taking the lock. */
  function Unlocked(table: Table, id: nat, stamp: nat): Table {
    if id in table && table[id].inWork then table[id := table[id].(inWork := false, timeStamp := stamp)] else table
  }

  function RemovedLocked(table: Table, id: nat): Table {
    if id in table && table[id].inWork then table - {id} else table
  }

  /** Fresh on both clocks. */
  predicate Fresh(info: Info, idle: nat, t: nat) {
    info.timeStamp + idle > t && (info.expires == 0 || info.expires > t)
  }

  /** What a sweep at time `t` takes. */
  function Stale(table: Table, idle: nat, t: nat): set<nat> {
    set id | id in table && !table[id].inWork && !Fresh(table[id], idle, t)
  }

  /** A sweep at time `t` turns `before` into `after`: what is left is in work or within both its
      times, what is taken is neither. */
  ghost predicate SweptExactly(before: Table, after: Table, idle: nat, t: nat) {
    && after.Keys <= before.Keys
    && (forall id :: id in after ==>
          var e := after[id];
          && e == before[id]
          && (e.inWork || (e.timeStamp + idle > t && (e.expires == 0 || e.expires > t))))
    && forall id :: id in before && id !in after ==>
         var e := before[id];
         !e.inWork && (e.timeStamp + idle <= t || 0 < e.expires <= t)
  }

  lemma StaleSplits(table: Table, idle: nat, t: nat)
    ensures SweptExactly(table, table - Stale(table, idle, t), idle, t)
  {
  }

  // ---------------------------------------------------------------- handlers and sweeper

  /** Where a request handler is. */
  datatype Phase =
    | Idle
    | Admitted                            // Enumerate: passed the quota check
    | Created(id: nat, info: Info)        // Enumerate: owns a context that is not in the table
    | Holding(id: nat)                    // Pull, Release: its context is locked, the endpoint runs
    | Unlocking(id: nat, stamp: nat)      // has read the clock, not yet taken the lock
    | Removed(id: nat)                    // has taken its context out of the table

  datatype Sweeper =
    | Asleep
    | Timed(t: nat)                       // has read the clock
    | Disposing(queue: seq<nat>)          // owns the expired contexts

  /** How many items a context has, and the positions of those delivered, in order. */
  datatype Sent = Sent(total: nat, items: seq<nat>)

  datatype State = State(
    table: Table,
    phases: map<nat, Phase>,              // one per request handler
    sweeper: Sweeper,
    issued: set<nat>,                     // context ids handed out by generate_uuid
    destroyed: seq<nat>,                  // log of destroy_enuminfo
    swept: set<nat>,                      // log of what the sweeper has taken
    sent: map<nat, Sent>,                 // log of what has been delivered, by context id
    quota: Option<nat>,                   // max_threads * max_connections_per_thread, if max_threads is not 0
    idle: nat,                            // enumIdleTimeout
    now: nat)

  function Start(handlers: set<nat>, quota: Option<nat>, idle: nat): State {
    State(map[], map h | h in handlers :: Idle, Asleep, {}, [], {}, map[], quota, idle, 0)
  }

  datatype Action =
    | CheckQuota(h: nat)                          // get_total_enum_context
    | Create(h: nat, id: nat, info: Info)         // create_enum_info and the Enumerate endpoint, first items
    | GiveUp(h: nat)                              // a fault, or everything already delivered
    | Insert(h: nat)                              // insert_enum_info
    | Lock(h: nat, id: nat, verified: bool)       // get_locked_enuminfo
    | Work(h: nat, k: nat)                        // the Pull endpoint and stub deliver the next k items
    | ReadClock(h: nat)                           // unlock_enuminfo, before the lock
    | Unlock(h: nat)                              // unlock_enuminfo, under the lock
    | RemoveLocked(h: nat, atEnd: bool)           // remove_locked_enuminfo, by Pull at the end or by Release
    | Destroy(h: nat)                             // destroy_enuminfo
    | SweepTime                                   // wsman_get_expired_enuminfos, before the lock
    | SweepTake(order: seq<nat>)                  // … and under the lock; `order` is the scan order
    | SweepDestroy                                // wsman_timeouts_manager
    | Elapse(seconds: nat)

  predicate Admits(quota: Option<nat>, total: nat) {
    quota.Some? ==> total < quota.value
  }

  /** `order` lists each element of `ids` once. */
  ghost predicate ListsOnce(order: seq<nat>, ids: set<nat>) {
    Distinct(order) && Elements(order) == ids
  }

  function Go(s: State, h: nat, p: Phase): State {
    s.(phases := s.phases[h := p])
  }

  /** The positions `from`, …, `from + n - 1`. */
  function Positions(from: nat, n: nat): (r: seq<nat>)
    ensures |r| == n && forall i :: 0 <= i < n ==> r[i] == from + i
  {
    seq(n, i => from + i)
  }

  /** `k` items can be delivered: at least one of those left, or none if there are none at all. */
  predicate CanDeliver(info: Info, k: nat) {
    if info.totalItems == 0 then k == 0 else 1 <= k && info.index + k <= info.totalItems
  }

  /** The cursor after a Pull: the endpoint leaves it on the last item, the stub steps over that. */
  function Advanced(info: Info, k: nat): Info {
    info.(index := if info.totalItems == 0 then info.index + 1 else info.index + k)
  }

  /** Everything has been delivered. */
  predicate Done(info: Info) {
    info.totalItems == 0 || info.index == info.totalItems
  }

  function Worked(s: State, id: nat, k: nat): State
    requires id in s.table && id in s.sent
  {
    var info, sent := s.table[id], s.sent[id];
    s.(table := s.table[id := Advanced(info, k)],
       sent := s.sent[id := sent.(items := sent.items + Positions(info.index, k))])
  }

  /** What a step of handler `h` leaves alone. */
  ghost predicate Framed(s: State, r: State, h: nat) {
    && r.idle == s.idle && r.now == s.now && r.quota == s.quota && r.sweeper == s.sweeper && r.swept == s.swept
    && s.issued <= r.issued && s.destroyed <= r.destroyed
    && h in r.phases && r.phases == s.phases[h := r.phases[h]]
  }

  /** A step of handler `h`, by the phase it is in. */
  function FromIdle(s: State, a: Action, h: nat): (r: State)
    requires h in s.phases
    ensures Framed(s, r, h)
  {
    if a.CheckQuota? && Admits(s.quota, |s.table|) then Go(s, h, Admitted)
    else if a.Lock? && Lockable(s.table, a.id) && a.verified then
      Go(s.(table := Locked(s.table, a.id)), h, Holding(a.id))
    else s
  }

  function FromAdmitted(s: State, a: Action, h: nat): (r: State)
    requires h in s.phases
    ensures Framed(s, r, h)
  {
    if a.Create? && a.id !in s.issued && !a.info.inWork && a.info.index <= a.info.totalItems then
      Go(s.(issued := s.issued + {a.id},
            sent := s.sent[a.id := Sent(a.info.totalItems, Positions(0, a.info.index))]), h, Created(a.id, a.info))
    else if a.GiveUp? then Go(s, h, Idle)
    else s
  }

  function FromCreated(s: State, a: Action, h: nat, id: nat, info: Info): (r: State)
    requires h in s.phases
    ensures Framed(s, r, h)
  {
    if a.GiveUp? then Go(s.(destroyed := s.destroyed + [id]), h, Idle)
    else if a.Insert? then Go(s.(table := Inserted(s.table, id, info, s.now)), h, Idle)
    else s
  }

  function FromHolding(s: State, a: Action, h: nat, id: nat): (r: State)
    requires h in s.phases
    ensures Framed(s, r, h)
  {
    if a.Work? && id in s.table && id in s.sent && CanDeliver(s.table[id], a.k) then Worked(s, id, a.k)
    else if a.ReadClock? then Go(s, h, Unlocking(id, s.now))
    else if a.RemoveLocked? && !(a.atEnd && id in s.table && !Done(s.table[id])) then
      Go(s.(table := RemovedLocked(s.table, id)), h, Removed(id))
    else s
  }

  function FromUnlocking(s: State, a: Action, h: nat, id: nat, stamp: nat): (r: State)
    requires h in s.phases
    ensures Framed(s, r, h)
  {
    if a.Unlock? then Go(s.(table := Unlocked(s.table, id, stamp)), h, Idle) else s
  }

  function FromRemoved(s: State, a: Action, h: nat, id: nat): (r: State)
    requires h in s.phases
    ensures Framed(s, r, h)
  {
    if a.Destroy? then Go(s.(destroyed := s.destroyed + [id]), h, Idle) else s
  }

  function Handle(s: State, a: Action, h: nat, p: Phase): (r: State)
    requires h in s.phases
    ensures Framed(s, r, h)
  {
    match p
    case Idle => FromIdle(s, a, h)
    case Admitted => FromAdmitted(s, a, h)
    case Created(id, info) => FromCreated(s, a, h, id, info)
    case Holding(id) => FromHolding(s, a, h, id)
    case Unlocking(id, stamp) => FromUnlocking(s, a, h, id, stamp)
    case Removed(id) => FromRemoved(s, a, h, id)
  }

  /** A step of the sweeper. */
  ghost function Sweep(s: State, a: Action): State {
    match (a, s.sweeper)
    case (SweepTime, Asleep) => if s.idle == 0 then s else s.(sweeper := Timed(s.now))
    case (SweepTake(order), Timed(t)) =>
      var stale := Stale(s.table, s.idle, t);
      if !ListsOnce(order, stale) then s
      else s.(table := s.table - stale, swept := s.swept + stale,
              sweeper := if order == [] then Asleep else Disposing(order))
    case (SweepDestroy, Disposing(queue)) =>
      if queue == [] then s
      else s.(destroyed := s.destroyed + [queue[0]],
              sweeper := if |queue| == 1 then Asleep else Disposing(queue[1..]))
    case _ => s
  }

  predicate BySweeper(a: Action) {
    a.SweepTime? || a.SweepTake? || a.SweepDestroy?
  }

  /** The action is a step of handler `h`. */
  predicate By(a: Action, h: nat) {
    !a.Elapse? && !BySweeper(a) && a.h == h
  }

  /** An action that is not possible in `s` leaves it as it is. */
  ghost function Step(s: State, a: Action): State {
    if a.Elapse? then s.(now := s.now + a.seconds)
    else if BySweeper(a) then Sweep(s, a)
    else if a.h in s.phases then Handle(s, a, a.h, s.phases[a.h])
    else s
  }

  ghost function RunAll(s: State, acts: seq<Action>): State {
    if acts == [] then s
    else Step(RunAll(s, acts[..|acts| - 1]), acts[|acts| - 1])
  }

  lemma RunOneMore(s: State, acts: seq<Action>, a: Action)
    ensures RunAll(s, acts + [a]) == Step(RunAll(s, acts), a)
  {
    assert (acts + [a])[..|acts|] == acts;
  }

  // ---------------------------------------------------------------- what is kept

  /** Handler phase `p` has context `id` locked. */
  predicate Holds(p: Phase, id: nat) {
    p == Holding(id) || (p.Unlocking? && p.id == id)
  }

  /** Handler phase `p` is alone in knowing context `id`. */
  predicate Owns(p: Phase, id: nat) {
    (p.Created? || p.Removed?) && p.id == id
  }

  function Queued(sw: Sweeper): seq<nat> {
    if sw.Disposing? then sw.queue else []
  }

  ghost function Holders(phases: map<nat, Phase>, id: nat): set<nat> {
    set h | h in phases && Holds(phases[h], id)
  }

  ghost function Owners(phases: map<nat, Phase>, id: nat): set<nat> {
    set h | h in phases && Owns(phases[h], id)
  }

  function One(b: bool): nat {
    if b then 1 else 0
  }

  /** A context is IN-WORK exactly when one stub holds it, and then it is in the table. */
  ghost predicate LockDiscipline(s: State) {
    forall id :: |Holders(s.phases, id)| == One(id in s.table && s.table[id].inWork)
  }

  /** In how many places a context is: the table, a handler's hands, the sweeper's list, the
      log of destroyed contexts. */
  ghost function Places(s: State, id: nat): nat {
    One(id in s.table) + |Owners(s.phases, id)| + multiset(Queued(s.sweeper))[id] + multiset(s.destroyed)[id]
  }

  /** Every context ever created is in exactly one place; nothing else is anywhere. */
  ghost predicate Tracked(s: State) {
    forall id :: Places(s, id) == One(id in s.issued)
  }

  ghost predicate Timely(s: State) {
    && (forall id :: id in s.table ==> s.table[id].timeStamp <= s.now)
    && (forall h :: h in s.phases && s.phases[h].Unlocking? ==> s.phases[h].stamp <= s.now)
    && (s.sweeper.Timed? ==> s.sweeper.t <= s.now)
    && (forall h :: h in s.phases && s.phases[h].Created? ==> !s.phases[h].info.inWork)
  }

  ghost predicate Inv(s: State) {
    LockDiscipline(s) && Tracked(s) && Timely(s)
  }

  /** Handlers that have passed the quota check and not yet inserted. */
  ghost function InFlight(phases: map<nat, Phase>): set<nat> {
    set h | h in phases && (phases[h].Admitted? || phases[h].Created?)
  }

  ghost predicate WithinQuota(s: State) {
    s.quota.Some? ==>
      if s.quota.value == 0 then s.table == map[] && InFlight(s.phases) == {}
      else |s.table| + |InFlight(s.phases)| <= s.quota.value - 1 + |s.phases|
  }
}
