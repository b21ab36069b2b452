/** Subscriptions and their notifications (src/lib/wsman-soap.c): the request stubs, the
    manager thread, the heartbeat thread and the short-lived sender threads, as a state
    machine whose steps are the sections run under `notificationlock`. */
module Subscriptions {
  import opened Fates

  datatype Mode = Push | PushWithAck | Events | PullMode

  /** What a sender thread was created to transmit. */
  datatype Doc<E> = Notification(batch: seq<E>) | Heartbeat

  /** What has happened to a subscription; nothing in the machinery reads it. */
  datatype Log<E> = Log(
    added: seq<E>,       // accepted by the pool
    removed: seq<E>,     // taken out of the pool by the manager or by Pull
    fates: seq<Fate>,    // one label per removed event
    wire: seq<Doc<E>>,   // documents transmitted
    cleared: seq<E>,     // left in the pool when the subscription was destroyed
    marks: seq<Mark>)    // heartbeat clock

  /** struct __WsSubscribeInfo, with its event queue and its sender threads. */
  datatype Sub<E> = Sub(
    listed: bool,          // still in subscriptionMemList, not yet destroyed
    mode: Mode,
    unsubscribed: bool,    // WSMAN_SUBSCRIBEINFO_UNSUBSCRIBE
    cancelled: bool,       // WSMAN_SUBSCRIPTION_CANCELLED
    pending: bool,         // WSMAN_SUBSCRIPTION_NOTIFICAITON_PENDING
    expires: nat,
    interval: nat,         // heartbeatInterval, in milliseconds
    countdown: int,        // heartbeatCountdown
    eventSent: bool,       // eventSentLastTime
    queue: seq<E>,         // its queue in the event pool
    threads: seq<Doc<E>>,  // sender threads created for it that have not run
    log: Log<E>)

  /** `time_expired`: 0 means that it never expires. */
  predicate Expired(expires: nat, now: nat) {
    expires != 0 && !(now < expires)
  }

  predicate Dead<E>(sub: Sub<E>, now: nat) {
    sub.unsubscribed || sub.cancelled || Expired(sub.expires, now)
  }

  predicate MaySend<E>(sub: Sub<E>, now: nat) {
    !sub.unsubscribed && !Expired(sub.expires, now)
  }

  // ---------------------------------------------------------------- one subscription

  function NewSub<E>(mode: Mode, expires: nat, seconds: nat): Sub<E> {
    Sub(true, mode, false, false, false, expires, seconds * 1000, seconds * 1000, false, [], [],
        Log([], [], [], [], [], []))
  }

  /** The producer adds an event; a pull-mode queue refuses it above the limit. */
  function Added<E>(sub: Sub<E>, e: E, maxPull: int): Sub<E> {
    if sub.mode == PullMode && |sub.queue| > maxPull then sub
    else sub.(queue := sub.queue + [e], log := sub.log.(added := sub.log.added + [e]))
  }

  /** The first `n` events leave the queue and are labelled `fate`. */
  function Removed<E>(sub: Sub<E>, n: nat, fate: Fate): Sub<E>
    requires n <= |sub.queue|
  {
    sub.(queue := sub.queue[n..],
         log := sub.log.(removed := sub.log.removed + sub.queue[..n],
                         fates := sub.log.fates + Labels(n, fate)))
  }

  /** The manager destroys a subscription together with what is left of its queue. */
  function Destroyed<E>(sub: Sub<E>): Sub<E> {
    sub.(listed := false, queue := [], log := sub.log.(cleared := sub.queue))
  }

  /** The manager takes `n` events and may create a sender thread for them. */
  function Delivered<E>(sub: Sub<E>, n: nat, created: bool): Sub<E>
    requires n <= |sub.queue|
  {
    if sub.pending then Removed(sub, n, Dropped)
    else if created then
      Removed(sub, n, InFlight).(threads := sub.threads + [Notification(sub.queue[..n])], pending := true)
    else Removed(sub, n, ThreadFailed)
  }

  /** One visit of the notification manager. */
  function Managed<E>(sub: Sub<E>, now: nat, pollPending: bool, created: bool): Sub<E> {
    if Dead(sub, now) && !sub.pending then Destroyed(sub)
    else if pollPending || sub.mode == PullMode || sub.queue == [] then sub
    else Delivered(sub, if sub.mode == Events then |sub.queue| else 1, created)
  }

  function Marked<E>(sub: Sub<E>, m: Mark): Sub<E> {
    sub.(log := sub.log.(marks := sub.log.marks + [m]))
  }

  predicate CountsTicks<E>(sub: Sub<E>, now: nat) {
    MaySend(sub, now) && sub.interval != 0 && sub.mode != PullMode
  }

  /** One visit of the heartbeat generator. */
  function Beaten<E>(sub: Sub<E>, now: nat, created: bool): Sub<E> {
    if !CountsTicks(sub, now) then sub
    else
      var s := Marked(sub, Tick).(countdown := sub.countdown - 1000);
      if s.countdown > 0 then s
      else if s.eventSent then Marked(s, Reset(false)).(eventSent := false, countdown := s.interval)
      else if !s.pending && created then
        Marked(s, Reset(true)).(threads := s.threads + [Heartbeat], pending := true, countdown := s.interval)
      else Marked(s, Reset(false)).(countdown := s.interval)
  }

  /** A sender thread enters its lock section; `acked` is the answer of the event sink. */
  function Ran<E>(sub: Sub<E>, k: nat, now: nat, acked: bool): Sub<E>
    requires k < |sub.threads|
  {
    var doc, sends := sub.threads[k], MaySend(sub, now);
    var s := if doc.Notification? then Marked(sub, Run).(eventSent := true) else sub;
    s.(pending := false,
       threads := sub.threads[..k] + sub.threads[k + 1..],
       cancelled := sub.cancelled || (sends && sub.mode in {Events, PushWithAck} && !acked),
       log := s.log.(wire := if sends then s.log.wire + [doc] else s.log.wire,
                     fates := if doc.Heartbeat? then s.log.fates
                              else Settle(s.log.fates, if sends then Transmitted else Suppressed)))
  }

  // ---------------------------------------------------------------- the system

  /** Subscriptions by case-folded id; a destroyed one is kept for its log. */
  datatype System<E> = System(subs: map<string, Sub<E>>, maxPull: int, now: nat)

  function Start<E>(maxPull: int): System<E> {
    System(map[], maxPull, 0)
  }

  /** The steps; every choice the environment makes is a parameter. */
  datatype Action<E> =
    | Subscribe(id: string, mode: Mode, expires: nat, seconds: nat)
    | Advance(elapsed: nat)
    | Unsubscribe(id: string)
    | Renew(id: string, expires: nat)
    | AddEvent(id: string, event: E)
    | PullEvents(id: string, maxElements: int)
    | Manage(id: string, pollPending: bool, created: bool)
    | Beat(id: string, created: bool)
    | RunSender(id: string, k: nat, acked: bool)

  predicate Listed<E>(s: System<E>, id: string) {
    id in s.subs && s.subs[id].listed
  }

  function Clamp(n: int, max: nat): (r: nat)
    ensures r <= max
  {
    if n <= 0 then 0 else if n <= max then n else max
  }

  /** What an action does to the one subscription it is about.  Only a sender thread can still
      reach a subscription that is no longer in the list. */
  function Local<E>(sub: Sub<E>, now: nat, maxPull: int, a: Action<E>): Sub<E> {
    if a.RunSender? then (if a.k < |sub.threads| then Ran(sub, a.k, now, a.acked) else sub)
    else if !sub.listed then sub
    else
      match a
      case Unsubscribe(_) => sub.(unsubscribed := true)
      case Renew(_, expires) => sub.(expires := expires)
      case AddEvent(_, e) => Added(sub, e, maxPull)
      case PullEvents(_, maxElements) => Removed(sub, Clamp(maxElements, |sub.queue|), Pulled)
      case Manage(_, pollPending, created) => Managed(sub, now, pollPending, created)
      case Beat(_, created) => Beaten(sub, now, created)
      case _ => sub
  }

  /** An action that is not possible in `s` leaves it as it is. */
  function Step<E>(s: System<E>, a: Action<E>): System<E> {
    if a.Advance? then s.(now := s.now + a.elapsed)
    else if a.Subscribe? then
      if a.id in s.subs || Expired(a.expires, s.now) then s
      else s.(subs := s.subs[a.id := NewSub(a.mode, a.expires, a.seconds)])
    else if a.id !in s.subs then s
    else s.(subs := s.subs[a.id := Local(s.subs[a.id], s.now, s.maxPull, a)])
  }

  function RunAll<E>(s: System<E>, acts: seq<Action<E>>): System<E> {
    if acts == [] then s
    else Step(RunAll(s, acts[..|acts| - 1]), acts[|acts| - 1])
  }

  // ---------------------------------------------------------------- the invariant

  /** Every event of the transmitted notifications, in order of transmission. */
  function Flatten<E>(docs: seq<Doc<E>>): seq<E> {
    if docs == [] then []
    else
      var last := docs[|docs| - 1];
      Flatten(docs[..|docs| - 1]) + if last.Notification? then last.batch else []
  }

  /** PENDING is set exactly when one sender thread is outstanding; there are never two. */
  ghost predicate OneSender<E>(sub: Sub<E>) {
    |sub.threads| == (if sub.pending then 1 else 0)
  }

  /** No event is lost or invented between the producer and the pool's consumers. */
  ghost predicate Conserved<E>(sub: Sub<E>) {
    && sub.log.added == sub.log.removed + sub.queue + sub.log.cleared
    && (if sub.listed then sub.log.cleared == [] else sub.queue == [] && sub.threads == [])
  }

  /** The labels tell the truth: what was transmitted is what is labelled so, in order, and
      the events in flight are those of the outstanding thread. */
  ghost predicate Labelled<E>(l: Log<E>, threads: seq<Doc<E>>) {
    && |l.fates| == |l.removed|
    && Flatten(l.wire) == Select(l.removed, l.fates, Transmitted)
    && Flatten(threads) == Select(l.removed, l.fates, InFlight)
    && InOrder(l.fates)
    && (Flatten(threads) == [] ==> forall i :: 0 <= i < |l.fates| ==> l.fates[i] != InFlight)
    && (forall i :: 0 <= i < |threads| && threads[i].Notification? ==> threads[i].batch != [])
  }

  /** The countdown follows the marks. */
  ghost predicate Clocked<E>(sub: Sub<E>) {
    && sub.interval % 1000 == 0
    && (sub.interval > 0 ==>
          && sub.countdown == sub.interval - 1000 * TicksSince(sub.log.marks)
          && 0 < sub.countdown <= sub.interval
          && Spaced(sub.log.marks, sub.interval / 1000))
    && (sub.eventSent <==> RunsSince(sub.log.marks) > 0)
  }

  ghost predicate SubInv<E>(sub: Sub<E>) {
    OneSender(sub) && Conserved(sub) && Labelled(sub.log, sub.threads) && Clocked(sub)
  }

  ghost predicate Inv<E>(s: System<E>) {
    forall id :: id in s.subs ==> SubInv(s.subs[id])
  }
}
