/** What every run of the subscription machinery keeps, whatever the interleaving of the
    request stubs, the producers, the manager, the heartbeat thread and the sender threads. */
module SubscriptionSafety {
  import opened Basics
  import opened Fates
  import opened Subscriptions

  // ---------------------------------------------------------------- one subscription

  lemma FlattenLast<E>(docs: seq<Doc<E>>, d: Doc<E>)
    ensures Flatten(docs + [d]) == Flatten(docs) + if d.Notification? then d.batch else []
  {
    assert (docs + [d])[..|docs|] == docs;
  }

  lemma MarkedSince(ms: seq<Mark>, m: Mark)
    ensures TicksSince(ms + [m]) == if m.Reset? then 0 else TicksSince(ms) + if m.Tick? then 1 else 0
    ensures RunsSince(ms + [m]) == if m.Reset? then 0 else RunsSince(ms) + if m.Run? then 1 else 0
    ensures forall t: nat :: Spaced(ms + [m], t) <==>
              && Spaced(ms, t)
              && (m.Tick? ==> TicksSince(ms) < t)
              && (m.Reset? ==> TicksSince(ms) == t && (m.beat ==> RunsSince(ms) == 0))
  {
    assert (ms + [m])[..|ms|] == ms;
  }

  lemma LabelsAppended(fates: seq<Fate>, n: nat, fate: Fate)
    requires InOrder(fates) && fate != Transmitted
    ensures InOrder(fates + Labels(n, fate))
    ensures fate != InFlight && (forall i :: 0 <= i < |fates| ==> fates[i] != InFlight) ==>
              forall i :: 0 <= i < |fates + Labels(n, fate)| ==> (fates + Labels(n, fate))[i] != InFlight
  {
  }

  lemma RemovedLabelled<E>(l: Log<E>, threads: seq<Doc<E>>, batch: seq<E>, fate: Fate, l': Log<E>)
    requires Labelled(l, threads) && fate != Transmitted
    requires l'.removed == l.removed + batch && l'.fates == l.fates + Labels(|batch|, fate) && l'.wire == l.wire
    ensures fate != InFlight ==> Labelled(l', threads)
    ensures fate == InFlight && threads == [] && batch != [] ==> Labelled(l', [Notification(batch)])
  {
    SelectAppend(l.removed, l.fates, batch, fate, Transmitted);
    SelectAppend(l.removed, l.fates, batch, fate, InFlight);
    LabelsAppended(l.fates, |batch|, fate);
    if fate == InFlight && threads == [] && batch != [] {
      FlattenOne(Notification(batch));
      assert Flatten<E>([]) == [];
    }
  }

  /** Taking the front of the queue out of the pool. */
  lemma RemovedKeeps<E>(sub: Sub<E>, n: nat, fate: Fate)
    requires SubInv(sub) && sub.listed && n <= |sub.queue| && fate !in {InFlight, Transmitted}
    ensures SubInv(Removed(sub, n, fate))
  {
    var q, sub' := sub.queue, Removed(sub, n, fate);
    RemovedLabelled(sub.log, sub.threads, q[..n], fate, sub'.log);
    CutConserves(sub.log.removed, q, n);
  }

  lemma DeliveredKeeps<E>(sub: Sub<E>, n: nat, created: bool)
    requires SubInv(sub) && sub.listed && 0 < n <= |sub.queue|
    ensures SubInv(Delivered(sub, n, created))
  {
    if sub.pending {
      RemovedKeeps(sub, n, Dropped);
    } else if !created {
      RemovedKeeps(sub, n, ThreadFailed);
    } else {
      SentLabelled(sub, n);
      CutConserves(sub.log.removed, sub.queue, n);
    }
  }

  lemma CutConserves<E>(removed: seq<E>, q: seq<E>, n: nat)
    requires n <= |q|
    ensures removed + q[..n] + q[n..] + [] == removed + q + []
  {
  }

  /** The events of a new sender are in flight. */
  lemma SentLabelled<E>(sub: Sub<E>, n: nat)
    requires Labelled(sub.log, []) && 0 < n <= |sub.queue|
    ensures Labelled(Removed(sub, n, InFlight).log, [Notification(sub.queue[..n])])
  {
    RemovedLabelled(sub.log, [], sub.queue[..n], InFlight, Removed(sub, n, InFlight).log);
  }

  lemma BeatenClocked<E>(sub: Sub<E>, now: nat, created: bool)
    requires Clocked(sub)
    ensures Clocked(Beaten(sub, now, created))
  {
    if CountsTicks(sub, now) {
      var ms := sub.log.marks;
      MarkedSince(ms, Tick);
      MarkedSince(ms + [Tick], Reset(true));
      MarkedSince(ms + [Tick], Reset(false));
    }
  }

  lemma HeartbeatLabelled<E>(l: Log<E>, threads: seq<Doc<E>>)
    requires Labelled(l, threads)
    ensures Labelled(l, threads + [Heartbeat])
    ensures forall ms :: Labelled(l.(marks := ms), threads) && Labelled(l.(marks := ms), threads + [Heartbeat])
  {
    FlattenLast(threads, Heartbeat);
  }

  lemma BeatenKeeps<E>(sub: Sub<E>, now: nat, created: bool)
    requires SubInv(sub) && sub.listed
    ensures SubInv(Beaten(sub, now, created))
  {
    var sub' := Beaten(sub, now, created);
    BeatenClocked(sub, now, created);
    HeartbeatLabelled(sub.log, sub.threads);
    assert sub'.log == sub.log.(marks := sub'.log.marks);
    assert OneSender(sub') && Conserved(sub');
  }

  lemma SettledLabels<E>(removed: seq<E>, fates: seq<Fate>, fate: Fate)
    requires |removed| == |fates| && InOrder(fates) && fate in {Transmitted, Suppressed}
    ensures InOrder(Settle(fates, fate))
    ensures Select(removed, Settle(fates, fate), InFlight) == []
    ensures Select(removed, Settle(fates, fate), Transmitted) == Select(removed, fates, Transmitted) +
              if fate == Transmitted then Select(removed, fates, InFlight) else []
  {
    SelectNone(removed, Settle(fates, fate), InFlight);
    if fate == Transmitted {
      assert FlightLast(fates, fate);
      SelectSettled(removed, fates, fate);
    } else {
      SelectUnsettled(removed, fates, fate, Transmitted);
    }
  }

  lemma FlattenOne<E>(doc: Doc<E>)
    ensures Flatten([doc]) == if doc.Notification? then doc.batch else []
  {
    assert [doc] == [] + [doc];
    FlattenLast([], doc);
  }

  lemma HeartbeatRan<E>(l: Log<E>, sends: bool, l': Log<E>)
    requires Labelled(l, [Heartbeat]) && l'.removed == l.removed && l'.fates == l.fates
    requires l'.wire == if sends then l.wire + [Heartbeat] else l.wire
    ensures Labelled(l', [])
  {
    FlattenOne<E>(Heartbeat);
    FlattenLast(l.wire, Heartbeat);
  }

  lemma NotificationRan<E>(l: Log<E>, batch: seq<E>, sends: bool, l': Log<E>)
    requires Labelled(l, [Notification(batch)]) && l'.removed == l.removed
    requires l'.fates == Settle(l.fates, if sends then Transmitted else Suppressed)
    requires l'.wire == if sends then l.wire + [Notification(batch)] else l.wire
    ensures Labelled(l', [])
  {
    FlattenOne(Notification(batch));
    FlattenLast(l.wire, Notification(batch));
    SettledLabels(l.removed, l.fates, if sends then Transmitted else Suppressed);
    assert Flatten<E>([]) == [];
  }

  lemma RanKeeps<E>(sub: Sub<E>, k: nat, now: nat, acked: bool)
    requires SubInv(sub) && k < |sub.threads|
    ensures SubInv(Ran(sub, k, now, acked))
  {
    var sub' := Ran(sub, k, now, acked);
    assert sub.threads == [sub.threads[k]] && sub'.threads == [];
    match sub.threads[k] {
      case Heartbeat => HeartbeatRan(sub.log, MaySend(sub, now), sub'.log);
      case Notification(batch) => NotificationRan(sub.log, batch, MaySend(sub, now), sub'.log);
    }
    MarkedSince(sub.log.marks, Run);
  }

  lemma AddedKeeps<E>(sub: Sub<E>, e: E, maxPull: int)
    requires SubInv(sub) && sub.listed
    ensures SubInv(Added(sub, e, maxPull))
  {
    assert sub.log.removed + (sub.queue + [e]) + [] == sub.log.removed + sub.queue + [] + [e];
  }

  lemma ManagedKeeps<E>(sub: Sub<E>, now: nat, pollPending: bool, created: bool)
    requires SubInv(sub) && sub.listed
    ensures SubInv(Managed(sub, now, pollPending, created))
  {
    if Dead(sub, now) && !sub.pending {
      assert sub.log.removed + sub.queue + [] == sub.log.removed + [] + sub.queue;
    } else if !(pollPending || sub.mode == PullMode || sub.queue == []) {
      DeliveredKeeps(sub, if sub.mode == Events then |sub.queue| else 1, created);
    }
  }

  lemma LocalKeeps<E>(sub: Sub<E>, now: nat, maxPull: int, a: Action<E>)
    requires SubInv(sub)
    ensures SubInv(Local(sub, now, maxPull, a))
  {
    if a.RunSender? {
      if a.k < |sub.threads| { RanKeeps(sub, a.k, now, a.acked); }
    } else if sub.listed {
      match a
      case AddEvent(_, e) => AddedKeeps(sub, e, maxPull);
      case PullEvents(_, maxElements) => RemovedKeeps(sub, Clamp(maxElements, |sub.queue|), Pulled);
      case Manage(_, pollPending, created) => ManagedKeeps(sub, now, pollPending, created);
      case Beat(_, created) => BeatenKeeps(sub, now, created);
      case _ =>
    }
  }

  // ---------------------------------------------------------------- the system

  /** Every step keeps the invariant of every subscription, its own and the others'. */
  lemma StepKeeps<E>(s: System<E>, a: Action<E>)
    requires Inv(s)
    ensures Inv(Step(s, a))
  {
    if !a.Advance? && !a.Subscribe? && a.id in s.subs {
      LocalKeeps(s.subs[a.id], s.now, s.maxPull, a);
    }
  }

  /** Safety over whole runs: from the empty system, any sequence of steps whatsoever. */
  lemma {:induction false} AlwaysInv<E>(maxPull: int, acts: seq<Action<E>>)
    ensures Inv(RunAll(Start(maxPull), acts))
  {
    if acts != [] {
      AlwaysInv(maxPull, acts[..|acts| - 1]);
      StepKeeps(RunAll(Start(maxPull), acts[..|acts| - 1]), acts[|acts| - 1]);
    }
  }

  // ---------------------------------------------------------------- theorems about runs

  lemma {:induction false} RunAppend<E>(s: System<E>, a: seq<Action<E>>, b: seq<Action<E>>)
    ensures RunAll(s, a + b) == RunAll(RunAll(s, a), b)
  {
    if b == [] {
      assert a + b == a;
    } else {
      RunAppend(s, a, b[..|b| - 1]);
      assert (a + b)[..|a + b| - 1] == a + b[..|b| - 1];
    }
  }

  lemma ReachableSub<E>(maxPull: int, acts: seq<Action<E>>, id: string)
    requires id in RunAll(Start<E>(maxPull), acts).subs
    ensures SubInv(RunAll(Start<E>(maxPull), acts).subs[id])
  {
    AlwaysInv(maxPull, acts);
  }

  lemma ConservedFacts<E>(sub: Sub<E>)
    requires Conserved(sub)
    ensures if sub.listed then sub.log.added == sub.log.removed + sub.queue
            else sub.log.added == sub.log.removed + sub.log.cleared && sub.queue == []
  {
    var l, q := sub.log, sub.queue;
    assert l.removed + q + [] == l.removed + q && l.removed + [] + l.cleared == l.removed + l.cleared;
  }

  /** Events added are the events removed, then those still pooled (until the subscription is
      destroyed, when what was pooled is discarded). */
  lemma EventsConserved<E>(maxPull: int, acts: seq<Action<E>>, id: string)
    requires id in RunAll(Start<E>(maxPull), acts).subs
    ensures var sub := RunAll(Start(maxPull), acts).subs[id];
            if sub.listed then sub.log.added == sub.log.removed + sub.queue
            else sub.log.added == sub.log.removed + sub.log.cleared && sub.queue == []
  {
    ReachableSub(maxPull, acts, id);
    ConservedFacts(RunAll(Start(maxPull), acts).subs[id]);
  }

  /** What the sender threads transmit, flattened, is an in-order subsequence of the removed
      events, none twice; and the events not yet settled are those of the one outstanding thread. */
  lemma TransmittedInOrder<E>(maxPull: int, acts: seq<Action<E>>, id: string)
    requires id in RunAll(Start<E>(maxPull), acts).subs
    ensures var sub := RunAll(Start(maxPull), acts).subs[id];
            && |sub.log.fates| == |sub.log.removed|
            && Flatten(sub.log.wire) == Select(sub.log.removed, sub.log.fates, Transmitted)
            && IsSubsequence(Flatten(sub.log.wire), sub.log.removed)
            && Flatten(sub.threads) == Select(sub.log.removed, sub.log.fates, InFlight)
  {
    ReachableSub(maxPull, acts, id);
    var sub := RunAll(Start(maxPull), acts).subs[id];
    SelectIsSubsequence(sub.log.removed, sub.log.fates, Transmitted);
  }

  lemma {:induction false} FatesPartition<E>(xs: seq<E>, fs: seq<Fate>)
    requires |xs| == |fs|
    ensures |xs| == |Select(xs, fs, InFlight)| + |Select(xs, fs, Transmitted)| + |Select(xs, fs, Suppressed)|
                    + |Select(xs, fs, Dropped)| + |Select(xs, fs, ThreadFailed)| + |Select(xs, fs, Pulled)|
  {
    if xs != [] {
      FatesPartition(xs[..|xs| - 1], fs[..|xs| - 1]);
    }
  }

  /** Every event that left the pool is accounted for exactly once. */
  lemma EventsAccounted<E>(maxPull: int, acts: seq<Action<E>>, id: string)
    requires id in RunAll(Start<E>(maxPull), acts).subs
    ensures var sub := RunAll(Start(maxPull), acts).subs[id];
            var l := sub.log;
            && |l.fates| == |l.removed|
            && |l.removed| == |Flatten(l.wire)| + |Flatten(sub.threads)| + |Select(l.removed, l.fates, Suppressed)|
                 + |Select(l.removed, l.fates, Dropped)| + |Select(l.removed, l.fates, ThreadFailed)|
                 + |Select(l.removed, l.fates, Pulled)|
  {
    ReachableSub(maxPull, acts, id);
    var l := RunAll(Start(maxPull), acts).subs[id].log;
    FatesPartition(l.removed, l.fates);
  }

  /** The PENDING flag is set exactly when one sender thread is outstanding, never two, and no
      sender thread outlives its subscription. */
  lemma PendingMeansOneSender<E>(maxPull: int, acts: seq<Action<E>>, id: string)
    requires id in RunAll(Start<E>(maxPull), acts).subs
    ensures var sub := RunAll(Start(maxPull), acts).subs[id];
            && |sub.threads| <= 1
            && (sub.pending <==> |sub.threads| == 1)
            && (!sub.listed ==> sub.threads == [])
  {
    ReachableSub(maxPull, acts, id);
  }

  /** A subscription is destroyed only by the manager, with no sender outstanding, and only if
      unsubscribed, cancelled or expired. */
  lemma DestroyedOnlyWhenDead<E>(maxPull: int, acts: seq<Action<E>>, a: Action<E>, id: string)
    requires Listed(RunAll(Start<E>(maxPull), acts), id)
    requires !Listed(Step(RunAll(Start(maxPull), acts), a), id)
    ensures var s := RunAll(Start(maxPull), acts);
            && a.Manage? && a.id == id
            && s.subs[id].threads == []
            && (s.subs[id].unsubscribed || s.subs[id].cancelled || Expired(s.subs[id].expires, s.now))
  {
    PendingMeansOneSender(maxPull, acts, id);
  }

  /** No step transmits for a subscription whose unsubscribe flag is set or whose current
      expiry has passed; what a step transmits is the document of an outstanding thread. */
  lemma TransmitsOnlyWhenLive<E>(s: System<E>, a: Action<E>, id: string)
    requires id in s.subs
    ensures id in Step(s, a).subs
    ensures Step(s, a).subs[id].log.wire != s.subs[id].log.wire ==>
              && !s.subs[id].unsubscribed && !Expired(s.subs[id].expires, s.now)
              && exists k :: 0 <= k < |s.subs[id].threads|
                   && Step(s, a).subs[id].log.wire == s.subs[id].log.wire + [s.subs[id].threads[k]]
  {
  }

  lemma FlagIsSticky<E>(s: System<E>, a: Action<E>, id: string)
    requires id in s.subs && s.subs[id].unsubscribed
    ensures id in Step(s, a).subs && Step(s, a).subs[id].unsubscribed
  {
  }

  /** From the moment the unsubscribe flag is set nothing is transmitted any more. */
  lemma {:induction false} UnsubscribedStaysSilent<E>(s: System<E>, more: seq<Action<E>>, id: string)
    requires id in s.subs && s.subs[id].unsubscribed
    ensures id in RunAll(s, more).subs && RunAll(s, more).subs[id].unsubscribed
    ensures RunAll(s, more).subs[id].log.wire == s.subs[id].log.wire
  {
    if more != [] {
      var mid, last := RunAll(s, more[..|more| - 1]), more[|more| - 1];
      UnsubscribedStaysSilent(s, more[..|more| - 1], id);
      FlagIsSticky(mid, last, id);
      TransmitsOnlyWhenLive(mid, last, id);
    }
  }

  lemma ManagedExpiry<E>(sub: Sub<E>, now: nat, pollPending: bool, created: bool)
    ensures Managed(sub, now, pollPending, created).expires == sub.expires
  {
  }

  lemma BeatenExpiry<E>(sub: Sub<E>, now: nat, created: bool)
    ensures Beaten(sub, now, created).expires == sub.expires
  {
  }

  lemma LocalExpiry<E>(sub: Sub<E>, now: nat, maxPull: int, a: Action<E>)
    requires !a.Renew?
    ensures Local(sub, now, maxPull, a).expires == sub.expires
  {
    if a.Manage? {
      ManagedExpiry(sub, now, a.pollPending, a.created);
    } else if a.Beat? {
      BeatenExpiry(sub, now, a.created);
    }
  }

  lemma ExpiryStays<E>(s: System<E>, a: Action<E>, id: string)
    requires id in s.subs && Expired(s.subs[id].expires, s.now) && !(a.Renew? && a.id == id)
    ensures id in Step(s, a).subs && Expired(Step(s, a).subs[id].expires, Step(s, a).now)
  {
    if !a.Renew? { LocalExpiry(s.subs[id], s.now, s.maxPull, a); }
  }

  /** From the moment the expiry has passed nothing is transmitted unless there is a Renew. */
  lemma {:induction false} ExpiredStaysSilent<E>(s: System<E>, more: seq<Action<E>>, id: string)
    requires id in s.subs && Expired(s.subs[id].expires, s.now)
    requires forall a :: a in more && a.Renew? ==> a.id != id
    ensures id in RunAll(s, more).subs && Expired(RunAll(s, more).subs[id].expires, RunAll(s, more).now)
    ensures RunAll(s, more).subs[id].log.wire == s.subs[id].log.wire
  {
    if more != [] {
      var mid, last := RunAll(s, more[..|more| - 1]), more[|more| - 1];
      assert last in more;
      ExpiredStaysSilent(s, more[..|more| - 1], id);
      ExpiryStays(mid, last, id);
      TransmitsOnlyWhenLive(mid, last, id);
    }
  }

  /** `later` is what may become of label `f`: only an event in flight is still undecided. */
  ghost predicate MayBecome(f: Fate, later: Fate) {
    later == f || (f == InFlight && later in {Transmitted, Suppressed})
  }

  ghost predicate Extends<E>(l: Log<E>, l': Log<E>) {
    && l.removed <= l'.removed && l.wire <= l'.wire && l.added <= l'.added
    && |l.fates| <= |l'.fates|
    && forall i :: 0 <= i < |l.fates| ==> MayBecome(l.fates[i], l'.fates[i])
  }

  lemma RanExtends<E>(sub: Sub<E>, k: nat, now: nat, acked: bool)
    requires k < |sub.threads|
    ensures Extends(sub.log, Ran(sub, k, now, acked).log)
  {
  }

  lemma DeliveredExtends<E>(sub: Sub<E>, n: nat, created: bool)
    requires n <= |sub.queue|
    ensures Extends(sub.log, Delivered(sub, n, created).log)
  {
  }

  lemma ManagedExtends<E>(sub: Sub<E>, now: nat, pollPending: bool, created: bool)
    ensures Extends(sub.log, Managed(sub, now, pollPending, created).log)
  {
    if sub.queue != [] {
      DeliveredExtends(sub, if sub.mode == Events then |sub.queue| else 1, created);
    }
  }

  lemma LocalExtends<E>(sub: Sub<E>, now: nat, maxPull: int, a: Action<E>)
    ensures Extends(sub.log, Local(sub, now, maxPull, a).log)
  {
    if a.RunSender? && a.k < |sub.threads| {
      RanExtends(sub, a.k, now, a.acked);
    } else if a.Manage? {
      ManagedExtends(sub, now, a.pollPending, a.created);
    }
  }

  /** Along any run the history only grows: a removed event is never put back, a transmitted one
      never withdrawn, and a label other than `InFlight` is final. */
  lemma {:induction false} HistoryOnlyGrows<E>(s: System<E>, more: seq<Action<E>>, id: string)
    requires id in s.subs
    ensures id in RunAll(s, more).subs && Extends(s.subs[id].log, RunAll(s, more).subs[id].log)
  {
    if more != [] {
      var mid := RunAll(s, more[..|more| - 1]);
      HistoryOnlyGrows(s, more[..|more| - 1], id);
      LocalExtends(mid.subs[id], mid.now, mid.maxPull, more[|more| - 1]);
    }
  }

  /** The labels of the events that left the queue between `sub` and `sub'`. */
  ghost predicate HandedOver<E>(sub: Sub<E>, sub': Sub<E>, created: bool) {
    var n, n' := |sub.log.removed|, |sub'.log.removed|;
    && n == |sub.log.fates| <= n' == |sub'.log.fates|
    && (forall i :: n <= i < n' ==>
          sub'.log.fates[i] == if |sub.threads| == 1 then Dropped else if created then InFlight else ThreadFailed)
    && (|sub.threads| == 0 && created && n < n' ==> sub'.threads == [Notification(sub'.log.removed[n..])])
    && (|sub.threads| == 1 || !created || n == n' ==> sub'.threads == sub.threads)
  }

  lemma ManagedHandsOver<E>(sub: Sub<E>, now: nat, pollPending: bool, created: bool)
    requires SubInv(sub)
    ensures HandedOver(sub, Managed(sub, now, pollPending, created), created)
  {
    var q := sub.queue;
    var n := if sub.mode == Events then |q| else if q == [] then 0 else 1;
    assert (sub.log.removed + q[..n])[|sub.log.removed|..] == q[..n];
  }

  /** What the manager takes out of the pool goes to exactly one sender thread when none is
      pending and the thread can be created; while one is pending it is dropped. */
  lemma ManagerHandsOver<E>(maxPull: int, acts: seq<Action<E>>, id: string, pollPending: bool, created: bool)
    requires Listed(RunAll(Start<E>(maxPull), acts), id)
    ensures var s := RunAll(Start(maxPull), acts);
            HandedOver(s.subs[id], Step(s, Manage(id, pollPending, created)).subs[id], created)
  {
    ReachableSub(maxPull, acts, id);
    var s := RunAll(Start(maxPull), acts);
    ManagedHandsOver(s.subs[id], s.now, pollPending, created);
  }

  /** What `HeartbeatsSpaced` says, for one subscription. */
  ghost predicate SpacedBy<E>(sub: Sub<E>, t: nat) {
    var ms := sub.log.marks;
    var resets := Count(ms, Reset(true)) + Count(ms, Reset(false));
    && Spaced(ms, t)
    && 0 < sub.countdown <= sub.interval
    && sub.countdown == 1000 * (t - (Count(ms, Tick) - t * resets))
    && t * Count(ms, Reset(true)) <= Count(ms, Tick)
  }

  lemma ClockFacts<E>(sub: Sub<E>, t: nat)
    requires Clocked(sub) && sub.interval == 1000 * t > 0
    ensures SpacedBy(sub, t)
  {
    assert sub.interval / 1000 == t;
    TicksPerReset(sub.log.marks, t);
  }

  /** Heartbeats: with an interval of `t` seconds the countdown stays a multiple of 1000 in
      (0, interval], it is reset every exactly `t` counted ticks, and a heartbeat sender is started
      only at a reset with no notification sender run since the previous one. */
  lemma HeartbeatsSpaced<E>(maxPull: int, acts: seq<Action<E>>, id: string, t: nat)
    requires id in RunAll(Start<E>(maxPull), acts).subs
    requires RunAll(Start(maxPull), acts).subs[id].interval == 1000 * t > 0
    ensures SpacedBy(RunAll(Start(maxPull), acts).subs[id], t)
  {
    ReachableSub(maxPull, acts, id);
    ClockFacts(RunAll(Start(maxPull), acts).subs[id], t);
  }
}
