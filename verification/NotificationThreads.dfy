/** The code the subscription machine abstracts: the manager loop, the heartbeat loop, the sender
    threads and the request stubs, working in place on `subscriptionMemList`, on the flags of each
    `WsSubscribeInfo` and on the event pool (src/lib/wsman-soap.c). */
module NotificationThreads {
  import opened Basics
  import opened EventPool
  import opened Fates
  import opened Subscriptions

  class SubscribeInfo<E> {
    const subsId: string
    const mode: Mode
    const interval: nat
    var unsubscribed: bool
    var cancelled: bool
    var pending: bool
    var expires: nat
    var countdown: int
    var eventSent: bool
    var threads: seq<Doc<E>>   // sender threads created for it that have not run
    ghost var listed: bool
    ghost var log: Log<E>

    constructor (subsId: string, mode: Mode, expires: nat, seconds: nat)
      ensures this.subsId == subsId && View([]) == NewSub(mode, expires, seconds)
    {
      this.subsId, this.mode, this.interval := subsId, mode, seconds * 1000;
      unsubscribed, cancelled, pending, eventSent := false, false, false, false;
      this.expires, countdown := expires, seconds * 1000;
      listed, threads, log := true, [], Log([], [], [], [], [], []);
    }

    /** The subscription of the machine, given its queue in the pool. */
    ghost function View(queue: seq<E>): Sub<E>
      reads this
    {
      Sub(listed, mode, unsubscribed, cancelled, pending, expires, interval, countdown, eventSent, queue, threads, log)
    }

    /** The body of `wse_event_sender` for thread `k`, which carries `doc`. */
    method EventSender(k: nat, doc: Doc<E>, now: nat, acked: bool, ghost q: seq<E>)
      requires k < |threads| && threads[k] == doc
      modifies this
      ensures View(q) == Ran(old(View(q)), k, now, acked)
    {
      ghost var sends := !unsubscribed && !Expired(expires, now);
      if doc.Notification? {
        eventSent := true;
        log := log.(marks := log.marks + [Run], fates := Settle(log.fates, if sends then Transmitted else Suppressed));
      }
      if !unsubscribed && !Expired(expires, now) {
        log := log.(wire := log.wire + [doc]);
        if mode == Events || mode == PushWithAck {
          if !acked {
            cancelled := true;
          }
        }
      }
      pending := false;
      threads := threads[..k] + threads[k + 1..];
    }

    /** The end of a manager visit: a sender thread for the document made of `batch`, unless
        one is pending. */
    method Deliver(batch: seq<E>, created: bool, ghost q: seq<E>)
      requires batch <= q
      modifies this
      ensures View(q[|batch|..]) == Delivered(old(View(q)), |batch|, created)
    {
      assert batch == q[..|batch|];
      ghost var fate := if pending then Dropped else if created then InFlight else ThreadFailed;
      log := log.(removed := log.removed + batch, fates := log.fates + Labels(|batch|, fate));
      if !pending {
        if created {
          threads := threads + [Notification(batch)];
          pending := true;
        }
      }
    }

    /** One iteration of `wsman_heartbeat_generator`. */
    method HeartbeatVisit(now: nat, created: bool, ghost q: seq<E>)
      modifies this
      ensures View(q) == Beaten(old(View(q)), now, created)
    {
      if unsubscribed { return; }
      if Expired(expires, now) { return; }
      if interval == 0 || mode == PullMode { return; }
      countdown := countdown - 1000;
      log := log.(marks := log.marks + [Tick]);
      if countdown > 0 { return; }
      ghost var beat := false;
      if eventSent {
        eventSent := false;
      } else if !pending {
        if created {
          threads := threads + [Heartbeat];
          beat := true;
          pending := true;
        }
      }
      log := log.(marks := log.marks + [Reset(beat)]);
      countdown := interval;
    }
  }

  /** The queue of a subscription in the pool. */
  ghost function Pooled<E>(pool: MemEventPool<E>, sub: SubscribeInfo<E>): seq<E>
    reads pool
  {
    Queue(pool.Contents, Fold(sub.subsId))
  }

  /** Of the queue `q` of `uuid` the first `n` events are gone; the other queues are as in `was`. */
  ghost predicate Left<E>(pool: MemEventPool<E>, uuid: string, was: Pool<E>, q: seq<E>, n: nat)
    reads pool
  {
    && pool.Valid() && n <= |q| && Queue(pool.Contents, Fold(uuid)) == q[n..]
    && OthersKept(was, pool.Contents, Fold(uuid))
  }

  /** `eventpoolOpSet->remove` when `n` events of the queue `q` are gone already. */
  method RemoveNext<E>(pool: MemEventPool<E>, uuid: string, ghost was: Pool<E>, ghost q: seq<E>, ghost n: nat)
    returns (notification: Option<E>)
    requires Left(pool, uuid, was, q, n)
    modifies pool
    ensures pool.maxPull == old(pool.maxPull)
    ensures notification == if n < |q| then Some(q[n]) else None
    ensures Left(pool, uuid, was, q, if n < |q| then n + 1 else n)
  {
    var rc;
    rc, notification := pool.GetAndDeleteEvent(uuid);
    if n < |q| { MoveCut(q, n); }
  }

  /** The rest of the queue, behind the first event. */
  method TakeRest<E>(pool: MemEventPool<E>, uuid: string, first: E, ghost was: Pool<E>, ghost q: seq<E>)
    returns (batch: seq<E>)
    requires q != [] && first == q[0] && Left(pool, uuid, was, q, 1)
    modifies pool
    ensures pool.maxPull == old(pool.maxPull) && batch == q && Left(pool, uuid, was, q, |q|)
  {
    batch := [];
    var notification := Some(first);
    while notification.Some?
      invariant pool.maxPull == old(pool.maxPull)
      invariant |batch| <= |q| && batch == q[..|batch|]
      invariant notification == if |batch| < |q| then Some(q[|batch|]) else None
      invariant Left(pool, uuid, was, q, if |batch| < |q| then |batch| + 1 else |batch|)
      decreases |q| - |batch|
    {
      MoveCut(q, |batch|);
      batch := batch + [notification.value];
      notification := RemoveNext(pool, uuid, was, q, |batch|);
    }
    assert q[..|batch|] == q;
  }

  /** The events the manager puts in one document: the first, and in Events mode all the others. */
  method TakeBatch<E>(pool: MemEventPool<E>, uuid: string, all: bool) returns (batch: seq<E>)
    requires pool.Valid()
    modifies pool
    ensures pool.Valid() && pool.maxPull == old(pool.maxPull)
    ensures var q := old(Queue(pool.Contents, Fold(uuid)));
            && batch == (if all || q == [] then q else [q[0]])
            && Queue(pool.Contents, Fold(uuid)) == q[|batch|..]
    ensures OthersKept(old(pool.Contents), pool.Contents, Fold(uuid))
  {
    ghost var was, q := pool.Contents, Queue(pool.Contents, Fold(uuid));
    assert q[0..] == q;
    var notification := RemoveNext(pool, uuid, was, q, 0);
    if notification.None? { return []; }
    if all {
      batch := TakeRest(pool, uuid, notification.value, was, q);
    } else {
      batch := [notification.value];
    }
  }

  /** The manager deletes a subscription and clears its queue. */
  method DestroySub<E>(pool: MemEventPool<E>, sub: SubscribeInfo<E>)
    requires pool.Valid()
    modifies pool, sub
    ensures pool.Valid() && pool.maxPull == old(pool.maxPull)
    ensures sub.View(Pooled(pool, sub)) == Destroyed(old(sub.View(Pooled(pool, sub))))
    ensures OthersKept(old(pool.Contents), pool.Contents, Fold(sub.subsId))
  {
    var rc, disposed := pool.ClearEvent(sub.subsId);
    sub.listed, sub.log := false, sub.log.(cleared := disposed);
  }

  /** The manager takes events out of the pool and delivers them. */
  method TakeAndDeliver<E>(pool: MemEventPool<E>, sub: SubscribeInfo<E>, created: bool)
    requires pool.Valid()
    modifies pool, sub
    ensures pool.Valid() && pool.maxPull == old(pool.maxPull)
    ensures var v := old(sub.View(Pooled(pool, sub)));
            sub.View(Pooled(pool, sub)) ==
            if v.queue == [] then v else Delivered(v, if v.mode == Events then |v.queue| else 1, created)
    ensures OthersKept(old(pool.Contents), pool.Contents, Fold(sub.subsId))
  {
    ghost var q := Pooled(pool, sub);
    var batch := TakeBatch(pool, sub.subsId, sub.mode == Events);
    if batch != [] { sub.Deliver(batch, created, q); }
  }

  /** One iteration of the loop of `wse_notification_manager`. */
  method ManagerVisit<E>(pool: MemEventPool<E>, sub: SubscribeInfo<E>, now: nat, pollPending: bool, created: bool)
    returns (destroyed: bool)
    requires pool.Valid()
    modifies pool, sub
    ensures pool.Valid() && pool.maxPull == old(pool.maxPull)
    ensures sub.View(Pooled(pool, sub)) == Managed(old(sub.View(Pooled(pool, sub))), now, pollPending, created)
    ensures OthersKept(old(pool.Contents), pool.Contents, Fold(sub.subsId))
    ensures destroyed <==> old(Dead(sub.View([]), now) && !sub.pending)
  {
    destroyed := false;
    if (sub.unsubscribed || sub.cancelled || Expired(sub.expires, now)) && !sub.pending {
      DestroySub(pool, sub);
      return true;
    }
    if pollPending { return; }
    if sub.mode == PullMode { return; }
    TakeAndDeliver(pool, sub, created);
  }

  /** The elements of `xs` whose flag is not set, in order. */
  ghost function Kept<T>(xs: seq<T>, gone: seq<bool>): seq<T>
    requires |xs| == |gone|
  {
    if xs == [] then []
    else
      var n := |xs| - 1;
      Kept(xs[..n], gone[..n]) + if gone[n] then [] else [xs[n]]
  }

  lemma KeptLast<T>(xs: seq<T>, gone: seq<bool>, x: T, g: bool)
    requires |xs| == |gone|
    ensures Kept(xs + [x], gone + [g]) == Kept(xs, gone) + if g then [] else [x]
  {
    assert (xs + [x])[..|xs|] == xs && (gone + [g])[..|xs|] == gone;
  }

  /** No two subscriptions share an id ignoring case. */
  ghost predicate DistinctSubs<E>(subs: seq<SubscribeInfo<E>>) {
    forall i, j :: 0 <= i < j < |subs| ==> Fold(subs[i].subsId) != Fold(subs[j].subsId)
  }

  ghost predicate NamedIn<E>(subs: seq<SubscribeInfo<E>>, id: string) {
    exists k :: 0 <= k < |subs| && Fold(subs[k].subsId) == id
  }

  /** The part of `_WS_CONTEXT` and `__Soap` that eventing works on. */
  class EventingContext<E> {
    var subscriptionMemList: seq<SubscribeInfo<E>>
    const eventpool: MemEventPool<E>

    ghost predicate Valid()
      reads this, eventpool
    {
      eventpool.Valid() && DistinctSubs(subscriptionMemList)
    }

    constructor (limit: Option<int>)
      ensures Valid() && fresh(eventpool) && subscriptionMemList == [] && eventpool.Contents == map[]
      ensures eventpool.maxPull == if limit.Some? then limit.value else 16
    {
      eventpool := new MemEventPool<E>(limit);
      subscriptionMemList := [];
    }

    /** What the machine sees of a subscription. */
    ghost function ViewOf(sub: SubscribeInfo<E>): Sub<E>
      reads sub, eventpool
    {
      sub.View(Pooled(eventpool, sub))
    }

    /** The first `n` of `all` have been visited and turned from `before` into `after`. */
    ghost predicate Visited(all: seq<SubscribeInfo<E>>, before: seq<Sub<E>>, after: seq<Sub<E>>, n: nat)
      reads eventpool, all
    {
      && |all| == |before| == |after|
      && forall k :: 0 <= k < |all| ==> ViewOf(all[k]) == if k < n then after[k] else before[k]
    }

    /** The list cursor is at `i` when the first `|gone|` of `all` have been visited. */
    ghost predicate At(all: seq<SubscribeInfo<E>>, gone: seq<bool>, i: nat)
      reads this
    {
      && |gone| <= |all| && i <= |subscriptionMemList|
      && subscriptionMemList[i..] == all[|gone|..] && subscriptionMemList[..i] == Kept(all[..|gone|], gone)
    }

    /** A manager visit in the middle of the list leaves the other subscriptions alone. */
    method VisitAt(sub: SubscribeInfo<E>, now: nat, pollPending: bool, created: bool, ghost all: seq<SubscribeInfo<E>>,
                   ghost before: seq<Sub<E>>, ghost after: seq<Sub<E>>, ghost n: nat)
      returns (destroyed: bool)
      requires eventpool.Valid() && DistinctSubs(all) && n < |all| && all[n] == sub && Visited(all, before, after, n)
      requires after[n] == Managed(before[n], now, pollPending, created)
      modifies eventpool, sub
      ensures eventpool.Valid() && Visited(all, before, after, n + 1)
      ensures eventpool.maxPull == old(eventpool.maxPull)
      ensures OthersKept(old(eventpool.Contents), eventpool.Contents, Fold(sub.subsId))
      ensures destroyed <==> Dead(before[n], now) && !before[n].pending
    {
      assert ViewOf(all[n]) == before[n];
      destroyed := ManagerVisit(eventpool, sub, now, pollPending, created);
      forall k | 0 <= k < |all| && k != n ensures ViewOf(all[k]) == old(ViewOf(all[k])) {
        assert Fold(all[k].subsId) != Fold(all[n].subsId);
      }
    }

    /** The cursor moves on, or the visited subscription is deleted under it. */
    method AdvanceCursor(i: nat, destroyed: bool, ghost all: seq<SubscribeInfo<E>>, ghost gone: seq<bool>)
      returns (j: nat)
      requires At(all, gone, i) && |gone| < |all|
      modifies this
      ensures At(all, gone + [destroyed], j)
    {
      ghost var done, todo, n := Kept(all[..|gone|], gone), all[|gone|..], |gone|;
      MoveCut(all, n);
      KeptLast(all[..n], gone, all[n], destroyed);
      if destroyed {
        subscriptionMemList := subscriptionMemList[..i] + subscriptionMemList[i + 1..];
        j := i;
        assert subscriptionMemList[j..] == todo[1..] && subscriptionMemList[..j] == done;
      } else {
        j := i + 1;
        assert subscriptionMemList[j..] == todo[1..] && subscriptionMemList[..j] == done + [todo[0]];
      }
    }

    /** The queues of ids that are not in `all` are as in `was`. */
    ghost predicate ElsewhereKept(all: seq<SubscribeInfo<E>>, was: Pool<E>)
      reads eventpool
    {
      forall id :: !NamedIn(all, id) ==> Queue(eventpool.Contents, id) == Queue(was, id)
    }

    /** Where the manager loop stands. */
    ghost predicate Progress(all: seq<SubscribeInfo<E>>, before: seq<Sub<E>>, after: seq<Sub<E>>,
                             gone: seq<bool>, i: nat)
      reads this, eventpool, all
    {
      eventpool.Valid() && DistinctSubs(all) && Visited(all, before, after, |gone|) && At(all, gone, i)
    }

    method VisitNext(i: nat, now: nat, poll: string -> bool, create: string -> bool,
                     ghost all: seq<SubscribeInfo<E>>, ghost before: seq<Sub<E>>, ghost after: seq<Sub<E>>,
                     ghost gone: seq<bool>, ghost was: Pool<E>)
      returns (j: nat, destroyed: bool)
      requires Progress(all, before, after, gone, i) && |gone| < |all| && ElsewhereKept(all, was)
      requires var id := all[|gone|].subsId; after[|gone|] == Managed(before[|gone|], now, poll(id), create(id))
      modifies this, eventpool, all[|gone|]
      ensures Progress(all, before, after, gone + [destroyed], j) && ElsewhereKept(all, was)
      ensures eventpool.maxPull == old(eventpool.maxPull)
      ensures destroyed <==> Dead(before[|gone|], now) && !before[|gone|].pending
    {
      assert subscriptionMemList[i] == all[|gone|] by {
        assert subscriptionMemList[i] == subscriptionMemList[i..][0] && all[|gone|] == all[|gone|..][0];
      }
      var sub := subscriptionMemList[i];
      destroyed := VisitAt(sub, now, poll(sub.subsId), create(sub.subsId), all, before, after, |gone|);
      j := AdvanceCursor(i, destroyed, all, gone);
    }

    lemma AtEnd(all: seq<SubscribeInfo<E>>, gone: seq<bool>, i: nat)
      requires At(all, gone, i)
      ensures i < |subscriptionMemList| ==> |gone| < |all|
      ensures i >= |subscriptionMemList| ==> |gone| == |all| && subscriptionMemList == Kept(all, gone)
    {
      assert |all[|gone|..]| == |subscriptionMemList[i..]|;
      if i >= |subscriptionMemList| {
        assert all[..|gone|] == all && subscriptionMemList[..i] == subscriptionMemList;
      }
    }

    /** Exactly those destroyed are gone. */
    ghost predicate GoneRightly(before: seq<Sub<E>>, gone: seq<bool>, now: nat) {
      |gone| <= |before| && forall k :: 0 <= k < |gone| ==> (gone[k] <==> Dead(before[k], now) && !before[k].pending)
    }

    /** The loop of `wse_notification_manager`. */
    method VisitAll(now: nat, poll: string -> bool, create: string -> bool, ghost all: seq<SubscribeInfo<E>>,
                    ghost before: seq<Sub<E>>, ghost after: seq<Sub<E>>)
      returns (ghost gone: seq<bool>)
      requires Progress(all, before, after, [], 0)
      requires forall k :: 0 <= k < |all| ==>
                 after[k] == Managed(before[k], now, poll(all[k].subsId), create(all[k].subsId))
      modifies this, eventpool, all
      ensures eventpool.Valid() && Visited(all, before, after, |all|)
      ensures eventpool.maxPull == old(eventpool.maxPull) && ElsewhereKept(all, old(eventpool.Contents))
      ensures |gone| == |all| && GoneRightly(before, gone, now)
      ensures subscriptionMemList == Kept(all, gone)
    {
      gone := [];
      var i: nat := 0;
      while i < |subscriptionMemList|
        invariant Progress(all, before, after, gone, i) && GoneRightly(before, gone, now)
        invariant eventpool.maxPull == old(eventpool.maxPull) && ElsewhereKept(all, old(eventpool.Contents))
        decreases |all| - |gone|
      {
        AtEnd(all, gone, i);
        var destroyed;
        i, destroyed := VisitNext(i, now, poll, create, all, before, after, gone, old(eventpool.Contents));
        gone := gone + [destroyed];
      }
      AtEnd(all, gone, i);
    }

    /** `wse_notification_manager`: every subscription of the list gets exactly one manager visit,
        and those destroyed, and no others, leave the list. */
    method NotificationManager(now: nat, poll: string -> bool, create: string -> bool)
      returns (ghost before: seq<Sub<E>>, ghost gone: seq<bool>)
      requires Valid()
      modifies this, eventpool, subscriptionMemList
      ensures eventpool.Valid() && eventpool.maxPull == old(eventpool.maxPull)
      ensures ElsewhereKept(old(subscriptionMemList), old(eventpool.Contents))
      ensures |before| == |gone| == |old(subscriptionMemList)|
      ensures forall k :: 0 <= k < |before| ==> before[k] == old(ViewOf(subscriptionMemList[k]))
      ensures forall k :: 0 <= k < |before| ==>
                var sub := old(subscriptionMemList[k]);
                ViewOf(sub) == Managed(before[k], now, poll(sub.subsId), create(sub.subsId))
      ensures GoneRightly(before, gone, now) && subscriptionMemList == Kept(old(subscriptionMemList), gone)
    {
      ghost var all := subscriptionMemList;
      before := seq(|all|, k requires 0 <= k < |all| reads all, eventpool => ViewOf(all[k]));
      ghost var was := before;
      ghost var after := seq(|all|, k requires 0 <= k < |all| =>
                               Managed(was[k], now, poll(all[k].subsId), create(all[k].subsId)));
      gone := VisitAll(now, poll, create, all, before, after);
    }

    /** One heartbeat visit leaves the other subscriptions alone. */
    method BeatAt(sub: SubscribeInfo<E>, now: nat, created: bool, ghost all: seq<SubscribeInfo<E>>, ghost n: nat)
      requires DistinctSubs(all) && n < |all| && all[n] == sub
      modifies sub
      ensures ViewOf(sub) == Beaten(old(ViewOf(sub)), now, created)
      ensures forall k :: 0 <= k < |all| && k != n ==> ViewOf(all[k]) == old(ViewOf(all[k]))
    {
      sub.HeartbeatVisit(now, created, Pooled(eventpool, sub));
      assert forall k :: 0 <= k < |all| && k != n ==> Fold(all[k].subsId) != Fold(all[n].subsId);
    }

    /** `wsman_heartbeat_generator`: one heartbeat visit to every subscription of the list. */
    method HeartbeatGenerator(now: nat, create: string -> bool) returns (ghost before: seq<Sub<E>>)
      requires Valid()
      modifies subscriptionMemList
      ensures |before| == |subscriptionMemList|
      ensures forall k :: 0 <= k < |before| ==> before[k] == old(ViewOf(subscriptionMemList[k]))
      ensures forall k :: 0 <= k < |before| ==>
                ViewOf(subscriptionMemList[k]) == Beaten(before[k], now, create(subscriptionMemList[k].subsId))
    {
      ghost var all := subscriptionMemList;
      before := seq(|all|, k requires 0 <= k < |all| reads all, eventpool => ViewOf(all[k]));
      ghost var was := before;
      ghost var after := seq(|all|, k requires 0 <= k < |all| => Beaten(was[k], now, create(all[k].subsId)));
      for i := 0 to |subscriptionMemList|
        invariant forall k :: 0 <= k < |all| ==> ViewOf(all[k]) == if k < i then after[k] else before[k]
      {
        BeatAt(subscriptionMemList[i], now, create(subscriptionMemList[i].subsId), all, i);
      }
    }

    /** `wse_subscribe_stub`; `uuid` comes from `generate_uuid`, and `fails` if the request is not
        well-formed or the endpoint refuses it. */
    method Subscribe(uuid: string, mode: Mode, expires: nat, seconds: nat, now: nat, fails: bool)
      requires Valid() && !NamedIn(subscriptionMemList, Fold(uuid))
      modifies this
      ensures Valid()
      ensures fails || Expired(expires, now) ==> subscriptionMemList == old(subscriptionMemList)
      ensures !fails && !Expired(expires, now) ==>
                && |subscriptionMemList| == |old(subscriptionMemList)| + 1
                && subscriptionMemList[..|old(subscriptionMemList)|] == old(subscriptionMemList)
                && var sub := subscriptionMemList[|old(subscriptionMemList)|];
                   fresh(sub) && sub.subsId == uuid && sub.View([]) == NewSub(mode, expires, seconds)
    {
      if fails { return; }
      if Expired(expires, now) { return; }
      var subsInfo := new SubscribeInfo<E>(uuid, mode, expires, seconds);
      subscriptionMemList := subscriptionMemList + [subsInfo];
    }

    /** The search `strcasecmp` loop of the Unsubscribe and Renew stubs. */
    method FindSub(uuid: string) returns (i: nat)
      requires Valid()
      ensures i <= |subscriptionMemList|
      ensures i < |subscriptionMemList| ==> Fold(subscriptionMemList[i].subsId) == Fold(uuid)
      ensures forall k :: 0 <= k < |subscriptionMemList| && k != i ==> Fold(subscriptionMemList[k].subsId) != Fold(uuid)
    {
      i := 0;
      while i < |subscriptionMemList|
        invariant i <= |subscriptionMemList|
        invariant forall k :: 0 <= k < i ==> Fold(subscriptionMemList[k].subsId) != Fold(uuid)
      {
        if Fold(subscriptionMemList[i].subsId) == Fold(uuid) { return; }
        i := i + 1;
      }
    }

    /** `wse_unsubscribe_stub`; `uuid` is the Identifier header, `fails` the answer of the endpoint. */
    method Unsubscribe(uuid: Option<string>, fails: bool) returns (done: bool)
      requires Valid()
      modifies subscriptionMemList
      ensures done <==> uuid.Some? && !fails
                        && exists k :: 0 <= k < |subscriptionMemList|
                                       && Fold(subscriptionMemList[k].subsId) == Fold(uuid.value)
      ensures forall k :: 0 <= k < |subscriptionMemList| ==>
                var sub := subscriptionMemList[k];
                ViewOf(sub) == if done && Fold(sub.subsId) == Fold(uuid.value)
                               then old(ViewOf(sub)).(unsubscribed := true) else old(ViewOf(sub))
    {
      if uuid.None? { return false; }
      var i := FindSub(uuid.value);
      if i == |subscriptionMemList| { return false; }
      if fails { return false; }
      subscriptionMemList[i].unsubscribed := true;
      return true;
    }

    /** `wse_renew_stub`; `expires` is None if it does not parse.  The endpoint is asked only after
        the expiry has been changed. */
    method Renew(uuid: Option<string>, expires: Option<nat>, fails: bool) returns (done: bool)
      requires Valid()
      modifies subscriptionMemList
      ensures done <==> uuid.Some? && expires.Some? && !fails
                        && exists k :: 0 <= k < |subscriptionMemList|
                                       && Fold(subscriptionMemList[k].subsId) == Fold(uuid.value)
      ensures forall k :: 0 <= k < |subscriptionMemList| ==>
                var sub := subscriptionMemList[k];
                ViewOf(sub) == if uuid.Some? && expires.Some? && Fold(sub.subsId) == Fold(uuid.value)
                               then old(ViewOf(sub)).(expires := expires.value) else old(ViewOf(sub))
    {
      if uuid.None? { return false; }
      var i := FindSub(uuid.value);
      if i == |subscriptionMemList| { return false; }
      if expires.None? { return false; }
      subscriptionMemList[i].expires := expires.value;
      return !fails;
    }
  }

  /** What a batch of indications does to a subscription: each one that could be built is added. */
  function AddedAll<E>(sub: Sub<E>, entities: seq<Option<E>>, maxPull: int): Sub<E> {
    if entities == [] then sub
    else
      var n := |entities| - 1;
      var s := AddedAll(sub, entities[..n], maxPull);
      if entities[n].None? then s else Added(s, entities[n].value, maxPull)
  }

  /** `create_indication_event`: the producer side of the pool. */
  method CreateIndicationEvent<E>(pool: MemEventPool<E>, sub: SubscribeInfo<E>, entities: seq<Option<E>>)
    requires pool.Valid()
    modifies pool, sub
    ensures pool.Valid() && pool.maxPull == old(pool.maxPull)
    ensures OthersKept(old(pool.Contents), pool.Contents, Fold(sub.subsId))
    ensures sub.View(Pooled(pool, sub)) == AddedAll(old(sub.View(Pooled(pool, sub))), entities, pool.maxPull)
  {
    var i := 0;
    while i < |entities|
      invariant i <= |entities| && pool.Valid() && pool.maxPull == old(pool.maxPull)
      invariant OthersKept(old(pool.Contents), pool.Contents, Fold(sub.subsId))
      invariant sub.View(Pooled(pool, sub)) == AddedAll(old(sub.View(Pooled(pool, sub))), entities[..i], pool.maxPull)
    {
      AddOne(pool, sub, entities[i]);
      assert entities[..i + 1][..i] == entities[..i];
      i := i + 1;
    }
    assert entities[..i] == entities;
  }

  method AddOne<E>(pool: MemEventPool<E>, sub: SubscribeInfo<E>, entity: Option<E>)
    requires pool.Valid()
    modifies pool, sub
    ensures pool.Valid() && pool.maxPull == old(pool.maxPull)
    ensures OthersKept(old(pool.Contents), pool.Contents, Fold(sub.subsId))
    ensures var v := old(sub.View(Pooled(pool, sub)));
            sub.View(Pooled(pool, sub)) == if entity.None? then v else Added(v, entity.value, pool.maxPull)
  {
    if entity.None? { return; }
    var retval: int;
    if sub.mode == PullMode {
      retval := pool.AddPullEvent(sub.subsId, entity);
    } else {
      retval := pool.AddEvent(sub.subsId, entity);
    }
    if retval == 0 {
      sub.log := sub.log.(added := sub.log.added + [entity.value]);
    }
  }

  /** The notification branch of `wsenum_pull_direct_stub`: up to `maxElements` events. */
  method PullNotifications<E>(pool: MemEventPool<E>, sub: SubscribeInfo<E>, maxElements: int) returns (pulled: seq<E>)
    requires pool.Valid()
    modifies pool, sub
    ensures pool.Valid() && pool.maxPull == old(pool.maxPull)
    ensures OthersKept(old(pool.Contents), pool.Contents, Fold(sub.subsId))
    ensures var v := old(sub.View(Pooled(pool, sub)));
            && sub.View(Pooled(pool, sub)) == Removed(v, Clamp(maxElements, |v.queue|), Pulled)
            && pulled == v.queue[..Clamp(maxElements, |v.queue|)]
  {
    pulled := [];
    ghost var was, q := pool.Contents, Pooled(pool, sub);
    assert q[0..] == q;
    var left := maxElements;
    while left > 0
      invariant sub.View([]) == old(sub.View([])) && pool.maxPull == old(pool.maxPull)
      invariant |pulled| <= |q| && pulled == q[..|pulled|] && Left(pool, sub.subsId, was, q, |pulled|)
      invariant maxElements > 0 ==> left == maxElements - |pulled| >= 0
      invariant maxElements <= 0 ==> pulled == []
    {
      var notification := RemoveNext(pool, sub.subsId, was, q, |pulled|);
      if notification.None? { break; }
      MoveCut(q, |pulled|);
      pulled := pulled + [notification.value];
      left := left - 1;
    }
    assert |pulled| == Clamp(maxElements, |q|);
    sub.log := sub.log.(removed := sub.log.removed + pulled, fates := sub.log.fates + Labels(|pulled|, Pulled));
  }
}
