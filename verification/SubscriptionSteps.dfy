/** What each step does to a subscription, in its fields alone, in every state that a run reaches;
    and that the manager and the senders together deliver what is queued. */
module SubscriptionSteps {
  import opened Fates
  import opened Subscriptions
  import opened SubscriptionSafety

  /** The state after a run from the start. */
  function Reached<E>(maxPull: int, acts: seq<Action<E>>): System<E> {
    RunAll(Start(maxPull), acts)
  }

  // ---------------------------------------------------------------- the sender

  /** The label of an event after a sender has run. */
  function LabelAfter(fate: Fate, live: bool): Fate {
    if fate != InFlight then fate else if live then Transmitted else Suppressed
  }

  /** All that a sender leaves alone. */
  ghost predicate SenderFrame<E>(v: Sub<E>, w: Sub<E>) {
    && w.listed == v.listed && w.mode == v.mode && w.unsubscribed == v.unsubscribed && w.expires == v.expires
    && w.interval == v.interval && w.countdown == v.countdown && w.queue == v.queue
    && w.log.added == v.log.added && w.log.removed == v.log.removed && w.log.cleared == v.log.cleared
  }

  /** The events in flight get their final label, the others keep theirs. */
  ghost predicate LabelsSettled(before: seq<Fate>, after: seq<Fate>, live: bool) {
    |after| == |before| && forall i :: 0 <= i < |before| ==> after[i] == LabelAfter(before[i], live)
  }

  /** The sender was for `doc`, and found the subscription live or not. */
  ghost predicate SenderLeaves<E>(v: Sub<E>, w: Sub<E>, doc: Doc<E>, live: bool, acked: bool) {
    && w.log.wire == v.log.wire + (if live then [doc] else [])
    && (w.cancelled <==> v.cancelled || (live && v.mode in {Events, PushWithAck} && !acked))
    && w.log.marks == v.log.marks + (if doc.Notification? then [Run] else [])
    && (w.eventSent <==> v.eventSent || doc.Notification?)
  }

  ghost predicate SenderEffect<E>(v: Sub<E>, w: Sub<E>, k: nat, now: nat, acked: bool)
    requires k < |v.threads|
  {
    var live := !v.unsubscribed && (v.expires == 0 || now < v.expires);
    && LabelsSettled(v.log.fates, w.log.fates, live) && SenderLeaves(v, w, v.threads[k], live, acked)
    && w.threads == [] && !w.pending && SenderFrame(v, w)
  }

  lemma {:induction false} RanLabels<E>(v: Sub<E>, k: nat, now: nat, acked: bool)
    requires SubInv(v) && k < |v.threads|
    ensures LabelsSettled(v.log.fates, Ran(v, k, now, acked).log.fates,
                          !v.unsubscribed && (v.expires == 0 || now < v.expires))
  {
    assert v.threads == [v.threads[k]];
    if v.threads[k].Heartbeat? { FlattenOne(v.threads[k]); }
  }

  lemma {:induction false} RanLeaves<E>(v: Sub<E>, k: nat, now: nat, acked: bool)
    requires k < |v.threads|
    ensures SenderLeaves(v, Ran(v, k, now, acked), v.threads[k],
                         !v.unsubscribed && (v.expires == 0 || now < v.expires), acked)
  {
  }

  lemma {:induction false} RanFrame<E>(v: Sub<E>, k: nat, now: nat, acked: bool)
    requires OneSender(v) && k < |v.threads|
    ensures var w := Ran(v, k, now, acked); w.threads == [] && !w.pending && SenderFrame(v, w)
  {
  }

  lemma {:induction false} RanEffect<E>(v: Sub<E>, k: nat, now: nat, acked: bool)
    requires SubInv(v) && k < |v.threads|
    ensures SenderEffect(v, Ran(v, k, now, acked), k, now, acked)
  {
    RanLabels(v, k, now, acked);
    RanLeaves(v, k, now, acked);
    RanFrame(v, k, now, acked);
  }

  /** A sender transmits its document exactly if the subscription is live, settles the events in
      flight accordingly, and cancels exactly for a missing acknowledgement. */
  lemma {:induction false} SenderActs<E>(maxPull: int, acts: seq<Action<E>>, id: string, k: nat, acked: bool)
    requires var s := Reached<E>(maxPull, acts); id in s.subs && k < |s.subs[id].threads|
    ensures var s := Reached(maxPull, acts);
            SenderEffect(s.subs[id], Step(s, RunSender(id, k, acked)).subs[id], k, s.now, acked)
  {
    var s := Reached(maxPull, acts);
    ReachableSub(maxPull, acts, id);
    RanEffect(s.subs[id], k, s.now, acked);
  }

  // ---------------------------------------------------------------- the manager

  /** The manager finds the subscription unsubscribed, cancelled or expired. */
  predicate Over<E>(v: Sub<E>, now: nat) {
    v.unsubscribed || v.cancelled || (v.expires != 0 && v.expires <= now)
  }

  /** All that a manager leaves alone. */
  ghost predicate ManagerFrame<E>(v: Sub<E>, w: Sub<E>) {
    && w.mode == v.mode && w.unsubscribed == v.unsubscribed && w.cancelled == v.cancelled && w.expires == v.expires
    && w.interval == v.interval && w.countdown == v.countdown && w.eventSent == v.eventSent
    && w.log.added == v.log.added && w.log.wire == v.log.wire && w.log.marks == v.log.marks
  }

  /** The first `n` events leave the queue for a sender, or are lost. */
  ghost predicate HandsOn<E>(v: Sub<E>, w: Sub<E>, n: nat, created: bool)
    requires n <= |v.queue|
  {
    && w.listed && w.queue == v.queue[n..]
    && w.log.removed == v.log.removed + v.queue[..n]
    && w.log.fates == v.log.fates +
         Labels(n, if v.threads != [] then Dropped else if created then InFlight else ThreadFailed)
    && w.threads == (if v.threads == [] && created then [Notification(v.queue[..n])] else v.threads)
    && (w.pending <==> w.threads != []) && w.log.cleared == v.log.cleared
  }

  ghost predicate ManagerEffect<E>(v: Sub<E>, w: Sub<E>, now: nat, pollPending: bool, created: bool) {
    && ManagerFrame(v, w)
    && if Over(v, now) && v.threads == [] then
         && !w.listed && w.queue == [] && w.log.cleared == v.queue
         && w.log.removed == v.log.removed && w.log.fates == v.log.fates && w.threads == [] && !w.pending
       else if !pollPending && v.mode != PullMode && v.queue != [] then
         HandsOn(v, w, if v.mode == Events then |v.queue| else 1, created)
       else w == v
  }

  lemma {:induction false} DeliveredEffect<E>(v: Sub<E>, n: nat, created: bool)
    requires OneSender(v) && v.listed && n <= |v.queue|
    ensures ManagerFrame(v, Delivered(v, n, created)) && HandsOn(v, Delivered(v, n, created), n, created)
  {
  }

  lemma {:induction false} ManagedEffect<E>(v: Sub<E>, now: nat, pollPending: bool, created: bool)
    requires OneSender(v) && v.listed
    ensures ManagerEffect(v, Managed(v, now, pollPending, created), now, pollPending, created)
  {
    if v.queue != [] { DeliveredEffect(v, if v.mode == Events then |v.queue| else 1, created); }
  }

  /** A manager visit destroys a subscription that is over and has no sender; else, unless there is
      nothing to do, it takes the oldest event, or in Events mode all of them, and hands them on;
      else it changes nothing. */
  lemma {:induction false} ManagerActs<E>(maxPull: int, acts: seq<Action<E>>, id: string, pollPending: bool,
                                          created: bool)
    requires Listed(Reached<E>(maxPull, acts), id)
    ensures var s := Reached(maxPull, acts);
            ManagerEffect(s.subs[id], Step(s, Manage(id, pollPending, created)).subs[id], s.now, pollPending, created)
  {
    var s := Reached(maxPull, acts);
    ReachableSub(maxPull, acts, id);
    ManagedEffect(s.subs[id], s.now, pollPending, created);
  }

  // ---------------------------------------------------------------- the heartbeat

  /** With `t` ticks to a heartbeat: a tick is counted; if it is the t-th, the countdown starts
      anew, and a heartbeat sender starts exactly if no notification sender has run since, none is
      outstanding and the thread can be created. */
  ghost predicate BeatEffect<E>(v: Sub<E>, w: Sub<E>, t: nat, created: bool) {
    var ticks := TicksSince(v.log.marks) + 1;
    var beat := RunsSince(v.log.marks) == 0 && v.threads == [] && created;
    && w.log.marks == v.log.marks + (if ticks < t then [Tick] else [Tick, Reset(beat)])
    && w.threads == v.threads + (if ticks == t && beat then [Heartbeat] else [])
    && (w.pending <==> w.threads != [])
    && w.countdown == (if ticks < t then v.interval - 1000 * ticks else v.interval)
    && (w.eventSent <==> v.eventSent && ticks < t)
    && w == v.(log := v.log.(marks := w.log.marks), threads := w.threads, pending := w.pending,
               countdown := w.countdown, eventSent := w.eventSent)
  }

  lemma {:induction false} TickEffect<E>(v: Sub<E>, now: nat, t: nat, created: bool)
    requires SubInv(v) && v.interval == 1000 * t > 0 && CountsTicks(v, now) && TicksSince(v.log.marks) + 1 < t
    ensures BeatEffect(v, Beaten(v, now, created), t, created)
  {
    assert v.interval / 1000 == t && v.countdown > 1000;
  }

  lemma {:induction false} ResetEffect<E>(v: Sub<E>, now: nat, t: nat, created: bool)
    requires SubInv(v) && v.interval == 1000 * t > 0 && CountsTicks(v, now) && TicksSince(v.log.marks) + 1 >= t
    ensures BeatEffect(v, Beaten(v, now, created), t, created)
  {
    var ms := v.log.marks;
    assert v.interval / 1000 == t && v.countdown == 1000 && TicksSince(ms) + 1 == t;
    forall b: bool ensures ms + [Tick] + [Reset(b)] == ms + [Tick, Reset(b)] { }
  }

  /** One visit of the heartbeat generator. */
  lemma {:induction false} HeartbeatActs<E>(maxPull: int, acts: seq<Action<E>>, id: string, t: nat, created: bool)
    requires Listed(Reached<E>(maxPull, acts), id) && Reached(maxPull, acts).subs[id].interval == 1000 * t
    ensures var s := Reached(maxPull, acts);
            var v, w := s.subs[id], Step(s, Beat(id, created)).subs[id];
            if t > 0 && !v.unsubscribed && (v.expires == 0 || s.now < v.expires) && v.mode != PullMode
            then BeatEffect(v, w, t, created) else w == v
  {
    var s := Reached(maxPull, acts);
    var v := s.subs[id];
    ReachableSub(maxPull, acts, id);
    if t > 0 && !v.unsubscribed && (v.expires == 0 || s.now < v.expires) && v.mode != PullMode {
      if TicksSince(v.log.marks) + 1 < t {
        TickEffect(v, s.now, t, created);
      } else {
        ResetEffect(v, s.now, t, created);
      }
    }
  }

  // ---------------------------------------------------------------- the other steps

  /** An event is appended, unless the mode is pull and the queue is above the limit. */
  lemma {:induction false} ProducerActs<E>(s: System<E>, id: string, e: E)
    requires Listed(s, id)
    ensures var v, w := s.subs[id], Step(s, AddEvent(id, e)).subs[id];
            if v.mode == PullMode && |v.queue| > s.maxPull then w == v
            else w == v.(queue := v.queue + [e], log := v.log.(added := v.log.added + [e]))
  {
  }

  /** A Pull takes as many of the oldest events as asked for and available. */
  lemma {:induction false} PullActs<E>(s: System<E>, id: string, maxElements: int, n: nat)
    requires Listed(s, id) && n <= |s.subs[id].queue|
    requires if maxElements <= 0 then n == 0 else n == maxElements || (n == |s.subs[id].queue| && n < maxElements)
    ensures var v, w := s.subs[id], Step(s, PullEvents(id, maxElements)).subs[id];
            w == v.(queue := v.queue[n..], log := v.log.(removed := v.log.removed + v.queue[..n],
                                                         fates := v.log.fates + Labels(n, Pulled)))
  {
  }

  /** Subscribe makes a new subscription of the given terms, its countdown full, unless its id is
      taken or it has expired already. */
  lemma {:induction false} SubscribeActs<E>(s: System<E>, id: string, mode: Mode, expires: nat, seconds: nat)
    ensures var t := Step(s, Subscribe(id, mode, expires, seconds));
            if id in s.subs || (expires != 0 && expires <= s.now) then t == s
            else && id in t.subs && t == s.(subs := s.subs[id := t.subs[id]])
                 && t.subs[id] == Sub(true, mode, false, false, false, expires, 1000 * seconds, 1000 * seconds, false,
                                      [], [], Log([], [], [], [], [], []))
  {
  }

  /** Unsubscribe sets the flag and Renew the expiry. */
  lemma {:induction false} RequestsAct<E>(s: System<E>, id: string, expires: nat)
    requires Listed(s, id)
    ensures Step(s, Unsubscribe(id)).subs[id] == s.subs[id].(unsubscribed := true)
    ensures Step(s, Renew(id, expires)).subs[id] == s.subs[id].(expires := expires)
  {
  }

  /** A step is about one subscription, and about a listed one unless it is a sender's. */
  lemma {:induction false} OthersUntouched<E>(s: System<E>, a: Action<E>, id: string)
    requires id in s.subs
    requires a.Advance? || a.Subscribe? || a.id != id || (!s.subs[id].listed && !a.RunSender?)
    ensures id in Step(s, a).subs && Step(s, a).subs[id] == s.subs[id]
    ensures Step(s, a).now == s.now + if a.Advance? then a.elapsed else 0
  {
  }

  // ---------------------------------------------------------------- delivery

  /** One visit of the manager and the turn of the sender that it starts. */
  function Round<E>(id: string): seq<Action<E>> {
    [Manage(id, false, true), RunSender(id, 0, true)]
  }

  function Rounds<E>(id: string, n: nat): seq<Action<E>> {
    if n == 0 then [] else Rounds(id, n - 1) + Round(id)
  }

  /** Listed, live, not cancelled, without a sender, and not in pull mode. */
  ghost predicate Fit<E>(v: Sub<E>, now: nat) {
    SubInv(v) && v.listed && !Over(v, now) && v.threads == [] && v.mode != PullMode
  }

  ghost predicate Deliverable<E>(s: System<E>, id: string) {
    id in s.subs && Fit(s.subs[id], s.now)
  }

  /** `w` is `v` with its first `n` events transmitted in the document `Notification(v.queue[..n])`. */
  ghost predicate Sends<E>(v: Sub<E>, w: Sub<E>, n: nat)
    requires n <= |v.queue|
  {
    w.queue == v.queue[n..] && w.log.wire == v.log.wire + [Notification(v.queue[..n])] && w.mode == v.mode
  }

  lemma {:induction false} RunTwo<E>(s: System<E>, a: Action<E>, b: Action<E>)
    ensures RunAll(s, [a, b]) == Step(Step(s, a), b)
  {
    assert [a, b][..1] == [a] && [a][..0] == [];
    assert RunAll(s, [a]) == Step(s, a);
  }

  lemma {:induction false} VisitStarts<E>(v: Sub<E>, now: nat, n: nat)
    requires Fit(v, now) && v.queue != [] && n == if v.mode == Events then |v.queue| else 1
    ensures var m := Managed(v, now, false, true);
            SubInv(m) && ManagerFrame(v, m) && HandsOn(v, m, n, true) && m.threads == [Notification(v.queue[..n])]
  {
    ManagedKeeps(v, now, false, true);
    ManagedEffect(v, now, false, true);
  }

  lemma {:induction false} VisitSends<E>(v: Sub<E>, now: nat, n: nat)
    requires Fit(v, now) && v.queue != [] && n == if v.mode == Events then |v.queue| else 1
    ensures var m := Managed(v, now, false, true);
            m.threads != [] && Fit(Ran(m, 0, now, true), now) && Sends(v, Ran(m, 0, now, true), n)
  {
    VisitStarts(v, now, n);
    RanKeeps(Managed(v, now, false, true), 0, now, true);
    RanEffect(Managed(v, now, false, true), 0, now, true);
  }

  lemma {:induction false} StepsTo<E>(s: System<E>, a: Action<E>, id: string, w: Sub<E>)
    requires id in s.subs && !a.Advance? && !a.Subscribe? && a.id == id && w == Local(s.subs[id], s.now, s.maxPull, a)
    ensures var t := Step(s, a); id in t.subs && t.subs[id] == w && t.now == s.now && t.maxPull == s.maxPull
  {
  }

  lemma {:induction false} LocalRound<E>(v: Sub<E>, now: nat, maxPull: int, id: string)
    requires v.listed && Managed(v, now, false, true).threads != []
    ensures var m := Managed(v, now, false, true);
            && Local(v, now, maxPull, Manage(id, false, true)) == m
            && Local(m, now, maxPull, RunSender(id, 0, true)) == Ran(m, 0, now, true)
  {
  }

  lemma {:induction false} RoundSends<E>(s: System<E>, id: string)
    requires Deliverable(s, id) && s.subs[id].queue != []
    ensures var t := RunAll(s, Round(id));
            var v := s.subs[id];
            Deliverable(t, id) && Sends(v, t.subs[id], if v.mode == Events then |v.queue| else 1)
  {
    var v := s.subs[id];
    VisitSends(v, s.now, if v.mode == Events then |v.queue| else 1);
    LocalRound(v, s.now, s.maxPull, id);
    RoundRuns(s, id, Managed(v, s.now, false, true), Ran(Managed(v, s.now, false, true), 0, s.now, true));
  }

  lemma {:induction false} RoundRuns<E>(s: System<E>, id: string, m: Sub<E>, w: Sub<E>)
    requires id in s.subs && m == Local(s.subs[id], s.now, s.maxPull, Manage(id, false, true))
    requires w == Local(m, s.now, s.maxPull, RunSender(id, 0, true))
    ensures var t := RunAll(s, Round(id)); id in t.subs && t.subs[id] == w && t.now == s.now
  {
    RunTwo(s, Manage(id, false, true), RunSender(id, 0, true));
    StepsTo(s, Manage(id, false, true), id, m);
    StepsTo(Step(s, Manage(id, false, true)), RunSender(id, 0, true), id, w);
  }

  /** One document for each event. */
  function Singles<E>(q: seq<E>): (r: seq<Doc<E>>)
    ensures |r| == |q| && forall i :: 0 <= i < |r| ==> r[i] == Notification([q[i]])
  {
    seq(|q|, i requires 0 <= i < |q| => Notification([q[i]]))
  }

  lemma {:induction false} OneMoreSent<E>(u: Sub<E>, v: Sub<E>, w: Sub<E>, n: nat)
    requires n < |u.queue| && v.queue == u.queue[n..] && v.log.wire == u.log.wire + Singles(u.queue[..n])
    requires Sends(v, w, 1)
    ensures w.queue == u.queue[n + 1..] && w.log.wire == u.log.wire + Singles(u.queue[..n + 1])
  {
    assert v.queue[..1] == [u.queue[n]] && u.queue[..n + 1] == u.queue[..n] + [u.queue[n]];
    assert Singles(u.queue[..n + 1]) == Singles(u.queue[..n]) + [Notification([u.queue[n]])];
  }

  /** In `t` the first `n` events of what was `u` have been sent, each alone. */
  ghost predicate SentUpTo<E>(u: Sub<E>, t: System<E>, id: string, n: nat)
    requires n <= |u.queue|
  {
    && Deliverable(t, id) && t.subs[id].mode == u.mode && t.subs[id].queue == u.queue[n..]
    && t.subs[id].log.wire == u.log.wire + Singles(u.queue[..n])
  }

  lemma {:induction false} RoundsNext<E>(u: Sub<E>, t: System<E>, id: string, n: nat)
    requires n < |u.queue| && u.mode != Events && SentUpTo(u, t, id, n)
    ensures SentUpTo(u, RunAll(t, Round(id)), id, n + 1)
  {
    RoundSends(t, id);
    OneMoreSent(u, t.subs[id], RunAll(t, Round(id)).subs[id], n);
  }

  lemma {:induction false} RoundsSend<E>(s: System<E>, id: string, n: nat)
    requires Deliverable(s, id) && s.subs[id].mode != Events && n <= |s.subs[id].queue|
    ensures SentUpTo(s.subs[id], RunAll(s, Rounds(id, n)), id, n)
  {
    if n > 0 {
      RoundsSend(s, id, n - 1);
      RunAppend(s, Rounds(id, n - 1), Round(id));
      RoundsNext(s.subs[id], RunAll(s, Rounds(id, n - 1)), id, n - 1);
    }
  }

  /** In `t` the queue of `id`, which was `v`, is empty, and `docs` have been transmitted. */
  ghost predicate Drained<E>(v: Sub<E>, t: System<E>, id: string, docs: seq<Doc<E>>) {
    id in t.subs && t.subs[id].queue == [] && t.subs[id].log.wire == v.log.wire + docs
  }

  /** From any reachable state, manager and sender in turn deliver the queue of a live subscription
      in order: one event a round, or all of them at once in Events mode. */
  lemma {:induction false} QueueDelivered<E>(maxPull: int, acts: seq<Action<E>>, id: string)
    requires Listed(Reached<E>(maxPull, acts), id)
    requires var s := Reached(maxPull, acts);
             !Over(s.subs[id], s.now) && s.subs[id].threads == [] && s.subs[id].mode != PullMode
    ensures var s := Reached(maxPull, acts);
            var v := s.subs[id];
            && (v.mode != Events ==> Drained(v, RunAll(s, Rounds(id, |v.queue|)), id, Singles(v.queue)))
            && (v.mode == Events && v.queue != [] ==>
                  Drained(v, RunAll(s, Round(id)), id, [Notification(v.queue)]))
  {
    var s := Reached(maxPull, acts);
    var v := s.subs[id];
    ReachableSub(maxPull, acts, id);
    assert v.queue[..|v.queue|] == v.queue;
    if v.mode != Events { RoundsSend(s, id, |v.queue|); } else if v.queue != [] { RoundSends(s, id); }
  }
}
