/** The eventing code in use: whatever requests, indications and turns of its threads come in, in
    any order, its state is that of a run of the subscription machine. */
module EventingRuns {
  import opened Basics
  import opened EventPool
  import opened Subscriptions
  import opened NotificationThreads
  import opened EventingCalls

  // ---------------------------------------------------------------- what the code shows of it

  ghost function Ids<E>(subs: seq<SubscribeInfo<E>>): (r: seq<string>)
    ensures |r| == |subs| && forall k :: 0 <= k < |r| ==> r[k] == subs[k].subsId
  {
    seq(|subs|, k requires 0 <= k < |subs| => subs[k].subsId)
  }

  /** Exactly the listed subscriptions are in `subs`. */
  ghost predicate Lists<E>(subs: seq<SubscribeInfo<E>>, s: System<E>) {
    && DistinctSubs(subs)
    && (forall k :: 0 <= k < |subs| ==> Listed(s, Fold(subs[k].subsId)))
    && forall id :: Listed(s, id) ==> NamedIn(subs, id)
  }

  /** Ids without a subscription have no events in the pool. */
  ghost predicate Quiet<E>(pool: Pool<E>, subs: seq<SubscribeInfo<E>>) {
    forall id :: !NamedIn(subs, id) ==> Queue(pool, id) == []
  }

  /** The subscriptions `subs` are as in `s`. */
  ghost predicate Seen<E>(cx: EventingContext<E>, subs: seq<SubscribeInfo<E>>, s: System<E>)
    reads cx.eventpool, subs
  {
    forall k :: 0 <= k < |subs| ==>
      Fold(subs[k].subsId) in s.subs && cx.ViewOf(subs[k]) == s.subs[Fold(subs[k].subsId)]
  }

  /** The state of the code is that of the machine. */
  ghost predicate Shows<E>(cx: EventingContext<E>, st: State<E>)
    reads cx, cx.eventpool, cx.subscriptionMemList
  {
    var subs := cx.subscriptionMemList;
    && cx.eventpool.Valid() && cx.eventpool.maxPull == st.s.maxPull && Quiet(cx.eventpool.Contents, subs)
    && st.order == Ids(subs) && Lists(subs, st.s) && Seen(cx, subs, st.s)
  }

  lemma {:induction false} ListsWith<E>(subs: seq<SubscribeInfo<E>>, s: System<E>, i: nat, v: Sub<E>)
    requires Lists(subs, s) && i < |subs| && v.listed
    ensures Lists(subs, With(s, Fold(subs[i].subsId), v))
  {
    var id, t := Fold(subs[i].subsId), With(s, Fold(subs[i].subsId), v);
    forall l | Listed(t, l) ensures NamedIn(subs, l) {
      if l != id { assert Listed(s, l); }
    }
  }

  /** Only subscription `i` has changed, and is still listed. */
  lemma {:induction false} OneShown<E>(cx: EventingContext<E>, st: State<E>, i: nat)
    requires cx.eventpool.Valid() && cx.eventpool.maxPull == st.s.maxPull
    requires Quiet(cx.eventpool.Contents, cx.subscriptionMemList) && i < |cx.subscriptionMemList|
    requires st.order == Ids(cx.subscriptionMemList) && Lists(cx.subscriptionMemList, st.s)
    requires forall k :: 0 <= k < |cx.subscriptionMemList| && k != i ==>
      cx.ViewOf(cx.subscriptionMemList[k]) == st.s.subs[Fold(cx.subscriptionMemList[k].subsId)]
    requires cx.ViewOf(cx.subscriptionMemList[i]).listed
    ensures var sub := cx.subscriptionMemList[i];
            Shows(cx, st.(s := With(st.s, Fold(sub.subsId), cx.ViewOf(sub))))
  {
    var subs := cx.subscriptionMemList;
    ListsWith(subs, st.s, i, cx.ViewOf(subs[i]));
    forall k | 0 <= k < |subs| && k != i ensures Fold(subs[k].subsId) != Fold(subs[i].subsId) { }
  }

  /** Subscription `i` and its queue have changed, and nothing else since the pool was `was`. */
  lemma {:induction false} OneChanged<E>(cx: EventingContext<E>, st: State<E>, i: nat, was: Pool<E>)
    requires st.order == Ids(cx.subscriptionMemList) && Lists(cx.subscriptionMemList, st.s)
    requires i < |cx.subscriptionMemList| && cx.ViewOf(cx.subscriptionMemList[i]).listed
    requires forall k :: 0 <= k < |cx.subscriptionMemList| && k != i ==>
      var sub := cx.subscriptionMemList[k];
      sub.View(Queue(was, Fold(sub.subsId))) == st.s.subs[Fold(sub.subsId)]
    requires cx.eventpool.Valid() && cx.eventpool.maxPull == st.s.maxPull && Quiet(was, cx.subscriptionMemList)
    requires OthersKept(was, cx.eventpool.Contents, Fold(cx.subscriptionMemList[i].subsId))
    ensures var sub := cx.subscriptionMemList[i];
            Shows(cx, st.(s := With(st.s, Fold(sub.subsId), cx.ViewOf(sub))))
  {
    var subs := cx.subscriptionMemList;
    forall k | 0 <= k < |subs| && k != i ensures cx.ViewOf(subs[k]) == st.s.subs[Fold(subs[k].subsId)] {
      assert Fold(subs[k].subsId) != Fold(subs[i].subsId);
    }
    forall id | !NamedIn(subs, id) ensures Queue(cx.eventpool.Contents, id) == [] {
      assert Queue(was, id) == [];
    }
    OneShown(cx, st, i);
  }

  /** … and has become what step `a` makes of it. */
  lemma {:induction false} StepShown<E>(cx: EventingContext<E>, st: State<E>, input: Input<E>, a: Action<E>, i: nat,
                                        was: Pool<E>)
    requires !input.SubscribeRequest? && Acts(input, st.order) == [a] && !a.Advance? && !a.Subscribe?
    requires st.order == Ids(cx.subscriptionMemList) && Lists(cx.subscriptionMemList, st.s)
    requires i < |cx.subscriptionMemList| && cx.ViewOf(cx.subscriptionMemList[i]).listed
    requires a.id == Fold(cx.subscriptionMemList[i].subsId)
    requires cx.ViewOf(cx.subscriptionMemList[i]) == Local(st.s.subs[a.id], st.s.now, st.s.maxPull, a)
    requires forall k :: 0 <= k < |cx.subscriptionMemList| && k != i ==>
      var sub := cx.subscriptionMemList[k];
      sub.View(Queue(was, Fold(sub.subsId))) == st.s.subs[Fold(sub.subsId)]
    requires cx.eventpool.Valid() && cx.eventpool.maxPull == st.s.maxPull && Quiet(was, cx.subscriptionMemList)
    requires OthersKept(was, cx.eventpool.Contents, a.id)
    ensures Shows(cx, Serve(st, input))
  {
    var v := cx.ViewOf(cx.subscriptionMemList[i]);
    OneChanged(cx, st, i, was);
    StepIs(st.s, a, v);
    Served(st, input, With(st.s, a.id, v));
  }

  // ---------------------------------------------------------------- the calls, one by one

  /** The search of the producer and of Pull, which minds case. */
  method FindExact<E>(cx: EventingContext<E>, id: string) returns (i: nat)
    ensures i <= |cx.subscriptionMemList|
    ensures i < |cx.subscriptionMemList| ==> cx.subscriptionMemList[i].subsId == id
    ensures i < |cx.subscriptionMemList| <==> id in Ids(cx.subscriptionMemList)
  {
    i := 0;
    while i < |cx.subscriptionMemList|
      invariant i <= |cx.subscriptionMemList|
      invariant forall k :: 0 <= k < i ==> cx.subscriptionMemList[k].subsId != id
    {
      if cx.subscriptionMemList[i].subsId == id {
        assert Ids(cx.subscriptionMemList)[i] == id;
        return;
      }
      i := i + 1;
    }
  }

  method ServePull<E>(cx: EventingContext<E>, input: Input<E>, ghost st: State<E>) returns (pulled: seq<E>)
    requires Shows(cx, st) && input.PullRequest?
    modifies cx.eventpool, cx.subscriptionMemList
    ensures Shows(cx, Serve(st, input))
  {
    var id, maxElements := input.id, input.maxElements;
    var i := FindExact(cx, id);
    if i == |cx.subscriptionMemList| {
      Served(st, input, st.s);
      return [];
    }
    var sub := cx.subscriptionMemList[i];
    LocalPull(cx.ViewOf(sub), st.s.now, st.s.maxPull, Fold(id), maxElements);
    pulled := PullNotifications(cx.eventpool, sub, maxElements);
    StepShown(cx, st, input, PullEvents(Fold(id), maxElements), i, old(cx.eventpool.Contents));
  }

  method ServeIndications<E>(cx: EventingContext<E>, input: Input<E>, ghost st: State<E>)
    requires Shows(cx, st) && input.Indications?
    modifies cx.eventpool, cx.subscriptionMemList
    ensures Shows(cx, Serve(st, input))
  {
    var id, entities := input.id, input.entities;
    var i := FindExact(cx, id);
    if i == |cx.subscriptionMemList| {
      Served(st, input, st.s);
      return;
    }
    var sub := cx.subscriptionMemList[i];
    CreateIndicationEvent(cx.eventpool, sub, entities);
    AdditionsRun(st.s, Fold(id), entities);
    OneChanged(cx, st, i, old(cx.eventpool.Contents));
    Served(st, input, With(st.s, Fold(id), cx.ViewOf(sub)));
  }

  /** The sender thread of a subscription, if there is one, gets its turn. */
  method ServeSender<E>(cx: EventingContext<E>, now: nat, input: Input<E>, ghost st: State<E>)
    requires Shows(cx, st) && now == st.s.now && input.SenderTurn?
    modifies cx.subscriptionMemList
    ensures Shows(cx, Serve(st, input))
  {
    var id, acked := input.id, input.acked;
    var i := FindExact(cx, id);
    if i == |cx.subscriptionMemList| {
      Served(st, input, st.s);
      return;
    }
    var sub := cx.subscriptionMemList[i];
    LocalSender(cx.ViewOf(sub), now, st.s.maxPull, Fold(id), acked);
    if sub.threads != [] { sub.EventSender(0, sub.threads[0], now, acked, Pooled(cx.eventpool, sub)); }
    StepShown(cx, st, input, RunSender(Fold(id), 0, acked), i, cx.eventpool.Contents);
  }

  /** Exactly the subscription that `a` is about has had it done to it. */
  ghost predicate DoneTo<E>(cx: EventingContext<E>, s: System<E>, a: Action<E>)
    requires Lists(cx.subscriptionMemList, s) && (a.Unsubscribe? || a.Renew?)
    reads cx, cx.eventpool, cx.subscriptionMemList
  {
    forall k :: 0 <= k < |cx.subscriptionMemList| ==>
      var sub := cx.subscriptionMemList[k];
      var v := s.subs[Fold(sub.subsId)];
      cx.ViewOf(sub) == if Fold(sub.subsId) == a.id then Local(v, s.now, s.maxPull, a) else v
  }

  lemma {:induction false} FoundServed<E>(cx: EventingContext<E>, st: State<E>, input: Input<E>, a: Action<E>, i: nat)
    requires (a.Unsubscribe? || a.Renew?) && !input.SubscribeRequest? && Acts(input, st.order) == [a]
    requires cx.eventpool.Valid() && cx.eventpool.maxPull == st.s.maxPull
    requires Quiet(cx.eventpool.Contents, cx.subscriptionMemList)
    requires st.order == Ids(cx.subscriptionMemList) && Lists(cx.subscriptionMemList, st.s) && DoneTo(cx, st.s, a)
    requires i < |cx.subscriptionMemList| && Fold(cx.subscriptionMemList[i].subsId) == a.id
    ensures Shows(cx, Serve(st, input))
  {
    var subs := cx.subscriptionMemList;
    assert Listed(st.s, a.id);
    LocalRequest(st.s.subs[a.id], st.s.now, st.s.maxPull, a);
    forall k | 0 <= k < |subs| && k != i ensures cx.ViewOf(subs[k]) == st.s.subs[Fold(subs[k].subsId)] {
      assert Fold(subs[k].subsId) != a.id;
    }
    StepShown(cx, st, input, a, i, cx.eventpool.Contents);
  }

  /** A call that looks a subscription up ignoring case and does `a` to it if it is there. */
  lemma {:induction false} NamedServed<E>(cx: EventingContext<E>, st: State<E>, input: Input<E>, a: Action<E>)
    requires (a.Unsubscribe? || a.Renew?) && !input.SubscribeRequest? && Acts(input, st.order) == [a]
    requires cx.eventpool.Valid() && cx.eventpool.maxPull == st.s.maxPull
    requires Quiet(cx.eventpool.Contents, cx.subscriptionMemList)
    requires st.order == Ids(cx.subscriptionMemList) && Lists(cx.subscriptionMemList, st.s) && DoneTo(cx, st.s, a)
    ensures Shows(cx, Serve(st, input))
  {
    var subs := cx.subscriptionMemList;
    if i :| 0 <= i < |subs| && Fold(subs[i].subsId) == a.id {
      FoundServed(cx, st, input, a, i);
    } else {
      StepUnlisted(st.s, a);
      Served(st, input, st.s);
    }
  }

  method ServeUnsubscribe<E>(cx: EventingContext<E>, input: Input<E>, ghost st: State<E>)
    requires Shows(cx, st) && input.UnsubscribeRequest?
    modifies cx.subscriptionMemList
    ensures Shows(cx, Serve(st, input))
  {
    var done := cx.Unsubscribe(input.name, input.fails);
    if input.name.None? || input.fails {
      Served(st, input, st.s);
    } else {
      NamedServed(cx, st, input, Unsubscribe(Fold(input.name.value)));
    }
  }

  method ServeRenew<E>(cx: EventingContext<E>, input: Input<E>, ghost st: State<E>)
    requires Shows(cx, st) && input.RenewRequest?
    modifies cx.subscriptionMemList
    ensures Shows(cx, Serve(st, input))
  {
    var done := cx.Renew(input.name, input.until, input.fails);
    if input.name.None? || input.until.None? {
      Served(st, input, st.s);
    } else {
      NamedServed(cx, st, input, Renew(Fold(input.name.value), input.until.value));
    }
  }

  lemma {:induction false} ListsNew<E>(subs: seq<SubscribeInfo<E>>, sub: SubscribeInfo<E>, s: System<E>, v: Sub<E>)
    requires Lists(subs, s) && DistinctSubs(subs + [sub]) && Fold(sub.subsId) !in s.subs && v.listed
    ensures Lists(subs + [sub], With(s, Fold(sub.subsId), v))
  {
    var all, id, t := subs + [sub], Fold(sub.subsId), With(s, Fold(sub.subsId), v);
    assert all[|subs|] == sub;
    forall l | Listed(t, l) ensures NamedIn(all, l) {
      if l != id {
        assert Listed(s, l);
        var k :| 0 <= k < |subs| && Fold(subs[k].subsId) == l;
        assert all[k] == subs[k];
      }
    }
  }

  lemma {:induction false} NewShown<E>(cx: EventingContext<E>, st: State<E>, subs: seq<SubscribeInfo<E>>,
                                       sub: SubscribeInfo<E>)
    requires cx.Valid() && cx.subscriptionMemList == subs + [sub] && Fold(sub.subsId) !in st.s.subs
    requires sub.View([]).listed
    requires cx.eventpool.maxPull == st.s.maxPull && Quiet(cx.eventpool.Contents, subs)
    requires st.order == Ids(subs) && Lists(subs, st.s) && Seen(cx, subs, st.s)
    ensures Shows(cx, State(st.order + [sub.subsId], With(st.s, Fold(sub.subsId), sub.View([]))))
  {
    ListsNew(subs, sub, st.s, sub.View([]));
    assert !NamedIn(subs, Fold(sub.subsId));
    forall id | !NamedIn(subs + [sub], id) ensures !NamedIn(subs, id) {
      forall k | 0 <= k < |subs| ensures Fold(subs[k].subsId) != id { assert (subs + [sub])[k] == subs[k]; }
    }
  }

  lemma {:induction false} SubscribeShown<E>(cx: EventingContext<E>, st: State<E>, input: Input<E>,
                                             subs: seq<SubscribeInfo<E>>, sub: SubscribeInfo<E>)
    requires input.SubscribeRequest? && !input.fails && !Expired(input.expires, st.s.now)
    requires cx.Valid() && |cx.subscriptionMemList| == |subs| + 1
    requires cx.subscriptionMemList[..|subs|] == subs && cx.subscriptionMemList[|subs|] == sub
    requires sub.subsId == input.uuid && Fold(input.uuid) !in st.s.subs
    requires sub.View([]) == NewSub(input.mode, input.expires, input.seconds)
    requires cx.eventpool.maxPull == st.s.maxPull && Quiet(cx.eventpool.Contents, subs)
    requires st.order == Ids(subs) && Lists(subs, st.s) && Seen(cx, subs, st.s)
    ensures Shows(cx, Serve(st, input))
  {
    assert cx.subscriptionMemList == subs + [sub];
    NewShown(cx, st, subs, sub);
    RunOne(st.s, Subscribe(Fold(input.uuid), input.mode, input.expires, input.seconds));
    ServedNew(st, input, With(st.s, Fold(input.uuid), sub.View([])));
  }

  method ServeSubscribe<E>(cx: EventingContext<E>, now: nat, input: Input<E>, ghost st: State<E>)
    requires Shows(cx, st) && now == st.s.now && input.SubscribeRequest? && Fold(input.uuid) !in st.s.subs
    modifies cx
    ensures Shows(cx, Serve(st, input))
    ensures forall k :: 0 <= k < |cx.subscriptionMemList| ==>
      cx.subscriptionMemList[k] in old(cx.subscriptionMemList) || fresh(cx.subscriptionMemList[k])
  {
    ghost var subs := cx.subscriptionMemList;
    cx.Subscribe(input.uuid, input.mode, input.expires, input.seconds, now, input.fails);
    if input.fails || Expired(input.expires, now) {
      ServedRefused(st, input);
    } else {
      SubscribeShown(cx, st, input, subs, cx.subscriptionMemList[|subs|]);
    }
  }

  method ServeTime<E>(cx: EventingContext<E>, now: nat, input: Input<E>, ghost st: State<E>) returns (later: nat)
    requires Shows(cx, st) && now == st.s.now && input.TimePasses?
    ensures Shows(cx, Serve(st, input)) && later == now + input.elapsed
  {
    later := now + input.elapsed;
    ghost var s := st.s.(now := later);
    RunOne(st.s, Advance(input.elapsed));
    assert forall id :: Listed(s, id) <==> Listed(st.s, id);
    Served(st, input, s);
  }

  // ---------------------------------------------------------------- whole rounds

  ghost function Folds<E>(subs: seq<SubscribeInfo<E>>): (r: seq<string>)
    ensures |r| == |subs| && forall k :: 0 <= k < |r| ==> r[k] == Fold(subs[k].subsId)
  {
    seq(|subs|, k requires 0 <= k < |subs| => Fold(subs[k].subsId))
  }

  lemma FoldsDistinct<E>(subs: seq<SubscribeInfo<E>>)
    requires DistinctSubs(subs)
    ensures Distinct(Folds(subs))
  {
  }

  ghost function Views<E>(cx: EventingContext<E>, subs: seq<SubscribeInfo<E>>): (r: seq<Sub<E>>)
    reads cx.eventpool, subs
    ensures |r| == |subs| && forall k :: 0 <= k < |r| ==> r[k] == cx.ViewOf(subs[k])
  {
    seq(|subs|, k requires 0 <= k < |subs| reads cx.eventpool, subs => cx.ViewOf(subs[k]))
  }

  /** If every step makes of its subscription what the code has made of it, the code is as the
      machine after these steps. */
  lemma {:induction false} RoundSeen<E>(cx: EventingContext<E>, subs: seq<SubscribeInfo<E>>, s: System<E>,
                                        acts: seq<Action<E>>)
    requires Makes(s, Folds(subs), acts, Views(cx, subs))
    ensures Seen(cx, subs, RunAll(s, acts)) && Elsewhere(subs, s, RunAll(s, acts))
  {
    var ids, after, t := Folds(subs), Views(cx, subs), RunAll(s, acts);
    EachOnce(s, ids, acts, after, |acts|);
    assert acts[..|acts|] == acts && ids[..|acts|] == ids;
    forall k | 0 <= k < |subs|
      ensures Fold(subs[k].subsId) in t.subs && cx.ViewOf(subs[k]) == t.subs[Fold(subs[k].subsId)]
    {
      assert ids[k] in s.subs;
    }
    forall id | id in s.subs && !NamedIn(subs, id) ensures id !in ids { }
  }

  /** What is not in `subs` is the same in `s` and `t`. */
  ghost predicate Elsewhere<E>(subs: seq<SubscribeInfo<E>>, s: System<E>, t: System<E>) {
    && t.now == s.now && t.maxPull == s.maxPull && t.subs.Keys == s.subs.Keys
    && forall id :: id in s.subs && !NamedIn(subs, id) ==> t.subs[id] == s.subs[id]
  }

  /** Every one of `subs` has had its heartbeat visit. */
  ghost predicate AllBeaten<E>(cx: EventingContext<E>, subs: seq<SubscribeInfo<E>>, s: System<E>,
                               create: string -> bool)
    requires Lists(subs, s)
    reads cx.eventpool, subs
  {
    forall k :: 0 <= k < |subs| ==>
      cx.ViewOf(subs[k]) == Beaten(s.subs[Fold(subs[k].subsId)], s.now, create(subs[k].subsId))
  }

  lemma {:induction false} BeatsMake<E>(cx: EventingContext<E>, subs: seq<SubscribeInfo<E>>, s: System<E>,
                                        create: string -> bool)
    requires Lists(subs, s) && AllBeaten(cx, subs, s, create)
    ensures Makes(s, Folds(subs), Beats(Ids(subs), create), Views(cx, subs))
    ensures forall k :: 0 <= k < |subs| ==> cx.ViewOf(subs[k]).listed
  {
    FoldsDistinct(subs);
    forall k | 0 <= k < |subs|
      ensures Folds(subs)[k] in s.subs && cx.ViewOf(subs[k]).listed
      ensures Views(cx, subs)[k] == Local(s.subs[Folds(subs)[k]], s.now, s.maxPull, Beats(Ids(subs), create)[k])
    {
      var id := subs[k].subsId;
      assert Listed(s, Fold(id));
      LocalBeat(s.subs[Fold(id)], s.now, s.maxPull, Fold(id), create(id));
    }
  }

  /** A round that keeps every subscription listed. */
  lemma {:induction false} RoundLists<E>(subs: seq<SubscribeInfo<E>>, s: System<E>, t: System<E>)
    requires Lists(subs, s) && Elsewhere(subs, s, t)
    requires forall k :: 0 <= k < |subs| ==> Listed(t, Fold(subs[k].subsId))
    ensures Lists(subs, t)
  {
    forall id | Listed(t, id) ensures NamedIn(subs, id) {
      if !NamedIn(subs, id) { assert Listed(s, id); }
    }
  }

  lemma {:induction false} SeenShown<E>(cx: EventingContext<E>, order: seq<string>, t: System<E>)
    requires cx.eventpool.Valid() && cx.eventpool.maxPull == t.maxPull
    requires Quiet(cx.eventpool.Contents, cx.subscriptionMemList)
    requires order == Ids(cx.subscriptionMemList) && Lists(cx.subscriptionMemList, t)
    requires Seen(cx, cx.subscriptionMemList, t)
    ensures Shows(cx, State(order, t))
  {
  }

  lemma {:induction false} BeatsShown<E>(cx: EventingContext<E>, st: State<E>, input: Input<E>)
    requires input.HeartbeatTurn?
    requires cx.eventpool.Valid() && cx.eventpool.maxPull == st.s.maxPull
    requires Quiet(cx.eventpool.Contents, cx.subscriptionMemList)
    requires st.order == Ids(cx.subscriptionMemList) && Lists(cx.subscriptionMemList, st.s)
    requires AllBeaten(cx, cx.subscriptionMemList, st.s, input.create)
    ensures Shows(cx, Serve(st, input))
  {
    var subs, acts: seq<Action<E>> := cx.subscriptionMemList, Beats(st.order, input.create);
    var t := RunAll(st.s, acts);
    BeatsMake(cx, subs, st.s, input.create);
    RoundSeen(cx, subs, st.s, acts);
    RoundLists(subs, st.s, t);
    SeenShown(cx, st.order, t);
    Served(st, input, t);
  }

  method ServeHeartbeat<E>(cx: EventingContext<E>, now: nat, input: Input<E>, ghost st: State<E>)
    requires Shows(cx, st) && now == st.s.now && input.HeartbeatTurn?
    modifies cx.subscriptionMemList
    ensures Shows(cx, Serve(st, input))
  {
    ghost var before := cx.HeartbeatGenerator(now, input.create);
    BeatsShown(cx, st, input);
  }

  lemma {:induction false} KeptIds<E>(subs: seq<SubscribeInfo<E>>, gone: seq<bool>, s: System<E>)
    requires |gone| == |subs| && forall k :: 0 <= k < |subs| ==> (gone[k] <==> !Listed(s, Fold(subs[k].subsId)))
    ensures StillListed(Ids(subs), s) == Ids(Kept(subs, gone))
  {
    if subs != [] {
      var n := |subs| - 1;
      KeptIds(subs[..n], gone[..n], s);
      assert Ids(subs)[..n] == Ids(subs[..n]);
    }
  }

  lemma {:induction false} KeptFrom<T>(xs: seq<T>, gone: seq<bool>, k: nat) returns (j: nat)
    requires |gone| == |xs| && k < |Kept(xs, gone)|
    ensures j < |xs| && !gone[j] && Kept(xs, gone)[k] == xs[j]
  {
    j := |xs| - 1;
    if k < |Kept(xs[..j], gone[..j])| { j := KeptFrom(xs[..j], gone[..j], k); }
  }

  lemma {:induction false} KeptHas<T>(xs: seq<T>, gone: seq<bool>, j: nat)
    requires |gone| == |xs| && j < |xs| && !gone[j]
    ensures xs[j] in Kept(xs, gone)
  {
    var n := |xs| - 1;
    if j < n { KeptHas(xs[..n], gone[..n], j); }
  }

  lemma {:induction false} KeptDistinct<E>(subs: seq<SubscribeInfo<E>>, gone: seq<bool>)
    requires |gone| == |subs| && DistinctSubs(subs)
    ensures DistinctSubs(Kept(subs, gone))
  {
    if subs != [] {
      var n := |subs| - 1;
      KeptDistinct(subs[..n], gone[..n]);
      var init := Kept(subs[..n], gone[..n]);
      forall k | 0 <= k < |init| ensures Fold(init[k].subsId) != Fold(subs[n].subsId) {
        var j := KeptFrom(subs[..n], gone[..n], k);
      }
    }
  }

  /** Exactly those destroyed in the round leave the list. */
  lemma {:induction false} KeptLists<E>(subs: seq<SubscribeInfo<E>>, gone: seq<bool>, s: System<E>, t: System<E>)
    requires Lists(subs, s) && Elsewhere(subs, s, t)
    requires |gone| == |subs| && forall k :: 0 <= k < |subs| ==> (gone[k] <==> !Listed(t, Fold(subs[k].subsId)))
    ensures Lists(Kept(subs, gone), t)
  {
    var kept := Kept(subs, gone);
    KeptDistinct(subs, gone);
    forall k | 0 <= k < |kept| ensures Listed(t, Fold(kept[k].subsId)) {
      var j := KeptFrom(subs, gone, k);
    }
    forall id | Listed(t, id) ensures NamedIn(kept, id) {
      if !NamedIn(subs, id) { assert Listed(s, id); }
      var j :| 0 <= j < |subs| && Fold(subs[j].subsId) == id;
      KeptHas(subs, gone, j);
    }
  }

  /** Every one of `subs` has had its manager visit, and those `gone` were destroyed. */
  ghost predicate AllManaged<E>(cx: EventingContext<E>, subs: seq<SubscribeInfo<E>>, s: System<E>,
                                poll: string -> bool, create: string -> bool, gone: seq<bool>)
    requires Lists(subs, s)
    reads cx.eventpool, subs
  {
    && |gone| == |subs|
    && (forall k :: 0 <= k < |subs| ==>
          var id := subs[k].subsId;
          cx.ViewOf(subs[k]) == Managed(s.subs[Fold(id)], s.now, poll(id), create(id)))
    && forall k :: 0 <= k < |subs| ==>
         (gone[k] <==> Dead(s.subs[Fold(subs[k].subsId)], s.now) && !s.subs[Fold(subs[k].subsId)].pending)
  }

  lemma {:induction false} VisitsMake<E>(cx: EventingContext<E>, subs: seq<SubscribeInfo<E>>, s: System<E>,
                      poll: string -> bool, create: string -> bool, gone: seq<bool>)
    requires Lists(subs, s) && AllManaged(cx, subs, s, poll, create, gone)
    ensures Makes(s, Folds(subs), Visits(Ids(subs), poll, create), Views(cx, subs))
    ensures forall k :: 0 <= k < |subs| ==> (gone[k] <==> !cx.ViewOf(subs[k]).listed)
    ensures forall k :: 0 <= k < |subs| && gone[k] ==> cx.ViewOf(subs[k]).queue == []
  {
    FoldsDistinct(subs);
    forall k | 0 <= k < |subs|
      ensures Folds(subs)[k] in s.subs
      ensures Views(cx, subs)[k] == Local(s.subs[Folds(subs)[k]], s.now, s.maxPull, Visits(Ids(subs), poll, create)[k])
      ensures gone[k] <==> !cx.ViewOf(subs[k]).listed
      ensures gone[k] ==> cx.ViewOf(subs[k]).queue == []
    {
      var id := subs[k].subsId;
      assert Listed(s, Fold(id));
      LocalManage(s.subs[Fold(id)], s.now, s.maxPull, Fold(id), poll(id), create(id));
    }
  }

  /** What is left after the round is as the machine says. */
  lemma {:induction false} KeptShown<E>(cx: EventingContext<E>, t: System<E>, subs: seq<SubscribeInfo<E>>,
                                        gone: seq<bool>, was: Pool<E>)
    requires Quiet(was, subs) && cx.ElsewhereKept(subs, was)
    requires |gone| == |subs| && cx.subscriptionMemList == Kept(subs, gone)
    requires Seen(cx, subs, t)
    requires forall k :: 0 <= k < |subs| && gone[k] ==> t.subs[Fold(subs[k].subsId)].queue == []
    ensures Quiet(cx.eventpool.Contents, cx.subscriptionMemList) && Seen(cx, cx.subscriptionMemList, t)
  {
    var kept := cx.subscriptionMemList;
    forall k | 0 <= k < |kept|
      ensures Fold(kept[k].subsId) in t.subs && cx.ViewOf(kept[k]) == t.subs[Fold(kept[k].subsId)]
    {
      var j := KeptFrom(subs, gone, k);
    }
    forall id | !NamedIn(kept, id) ensures Queue(cx.eventpool.Contents, id) == [] {
      if NamedIn(subs, id) {
        var j :| 0 <= j < |subs| && Fold(subs[j].subsId) == id;
        if !gone[j] { KeptHas(subs, gone, j); }
        assert cx.ViewOf(subs[j]).queue == Queue(cx.eventpool.Contents, id);
      }
    }
  }

  lemma {:induction false} VisitsShown<E>(cx: EventingContext<E>, st: State<E>, input: Input<E>,
                       subs: seq<SubscribeInfo<E>>, gone: seq<bool>, was: Pool<E>)
    requires input.ManagerTurn? && cx.eventpool.Valid() && cx.eventpool.maxPull == st.s.maxPull
    requires st.order == Ids(subs) && Lists(subs, st.s) && Quiet(was, subs) && cx.ElsewhereKept(subs, was)
    requires AllManaged(cx, subs, st.s, input.poll, input.create, gone) && cx.subscriptionMemList == Kept(subs, gone)
    ensures Shows(cx, Serve(st, input))
  {
    var acts: seq<Action<E>> := Visits(st.order, input.poll, input.create);
    var t := RunAll(st.s, acts);
    VisitsMake(cx, subs, st.s, input.poll, input.create, gone);
    RoundSeen(cx, subs, st.s, acts);
    KeptLists(subs, gone, st.s, t);
    KeptIds(subs, gone, t);
    KeptShown(cx, t, subs, gone, was);
    SeenShown(cx, StillListed(st.order, t), t);
    ServedRound(st, input, t);
  }

  method ServeManager<E>(cx: EventingContext<E>, now: nat, input: Input<E>, ghost st: State<E>)
    requires Shows(cx, st) && now == st.s.now && input.ManagerTurn?
    modifies cx, cx.eventpool, cx.subscriptionMemList
    ensures Shows(cx, Serve(st, input))
    ensures forall k :: 0 <= k < |cx.subscriptionMemList| ==>
      cx.subscriptionMemList[k] in old(cx.subscriptionMemList)
  {
    ghost var subs, was := cx.subscriptionMemList, cx.eventpool.Contents;
    ghost var before, gone := cx.NotificationManager(now, input.poll, input.create);
    assert AllManaged(cx, subs, st.s, input.poll, input.create, gone) by {
      assert forall k :: 0 <= k < |subs| ==> before[k] == st.s.subs[Fold(subs[k].subsId)];
    }
    VisitsShown(cx, st, input, subs, gone, was);
    forall k | 0 <= k < |cx.subscriptionMemList| ensures cx.subscriptionMemList[k] in subs {
      var j := KeptFrom(subs, gone, k);
    }
  }

  // ---------------------------------------------------------------- the code in use

  /** A call that leaves the list as it is. */
  method ServeInPlace<E>(cx: EventingContext<E>, now: nat, input: Input<E>, ghost st: State<E>) returns (later: nat)
    requires Shows(cx, st) && now == st.s.now && !input.SubscribeRequest? && !input.ManagerTurn?
    modifies cx.eventpool, cx.subscriptionMemList
    ensures Shows(cx, Serve(st, input)) && later == Later(now, input)
  {
    later := now;
    match input
    case UnsubscribeRequest(_, _) => ServeUnsubscribe(cx, input, st);
    case RenewRequest(_, _, _) => ServeRenew(cx, input, st);
    case Indications(_, _) => ServeIndications(cx, input, st);
    case PullRequest(_, _) => var _ := ServePull(cx, input, st);
    case SenderTurn(_, _) => ServeSender(cx, now, input, st);
    case HeartbeatTurn(_) => ServeHeartbeat(cx, now, input, st);
    case TimePasses(_) => later := ServeTime(cx, now, input, st);
  }

  method ServeInput<E>(cx: EventingContext<E>, now: nat, input: Input<E>, ghost st: State<E>) returns (later: nat)
    requires Shows(cx, st) && now == st.s.now && (input.SubscribeRequest? ==> Fold(input.uuid) !in st.s.subs)
    modifies cx, cx.eventpool, cx.subscriptionMemList
    ensures Shows(cx, Serve(st, input)) && later == Later(now, input)
    ensures forall k :: 0 <= k < |cx.subscriptionMemList| ==>
      cx.subscriptionMemList[k] in old(cx.subscriptionMemList) || fresh(cx.subscriptionMemList[k])
  {
    later := now;
    if input.SubscribeRequest? {
      ServeSubscribe(cx, now, input, st);
    } else if input.ManagerTurn? {
      ServeManager(cx, now, input, st);
    } else {
      later := ServeInPlace(cx, now, input, st);
    }
  }

  method RunNext<E>(cx: EventingContext<E>, now: nat, inputs: seq<Input<E>>, i: nat, ghost maxPull: int)
    returns (later: nat)
    requires NewIds(inputs) && i < |inputs|
    requires Shows(cx, ServeAll(maxPull, inputs[..i])) && now == ServeAll(maxPull, inputs[..i]).s.now
    modifies cx, cx.eventpool, cx.subscriptionMemList
    ensures Shows(cx, ServeAll(maxPull, inputs[..i + 1])) && later == ServeAll(maxPull, inputs[..i + 1]).s.now
    ensures forall k :: 0 <= k < |cx.subscriptionMemList| ==>
      cx.subscriptionMemList[k] in old(cx.subscriptionMemList) || fresh(cx.subscriptionMemList[k])
  {
    ServeNext(maxPull, inputs, i);
    later := ServeInput(cx, now, inputs[i], ServeAll(maxPull, inputs[..i]));
  }

  lemma {:induction false} StartShown<E>(cx: EventingContext<E>, maxPull: int)
    requires cx.Valid() && cx.subscriptionMemList == [] && cx.eventpool.Contents == map[]
    requires cx.eventpool.maxPull == maxPull
    ensures Shows(cx, ServeAll(maxPull, []))
  {
  }

  lemma {:induction false} ShownInv<E>(cx: EventingContext<E>, maxPull: int, inputs: seq<Input<E>>)
    requires Shows(cx, ServeAll(maxPull, inputs))
    ensures forall k :: 0 <= k < |cx.subscriptionMemList| ==> SubInv(cx.ViewOf(cx.subscriptionMemList[k]))
  {
    ServedInv(maxPull, inputs);
  }

  /** The eventing code from its start, under any calls in any order: its state is what the machine
      makes of them, and so keeps the invariant of the machine. */
  method Run<E>(limit: Option<int>, inputs: seq<Input<E>>) returns (cx: EventingContext<E>)
    requires NewIds(inputs)
    ensures Shows(cx, ServeAll(if limit.Some? then limit.value else 16, inputs))
    ensures forall k :: 0 <= k < |cx.subscriptionMemList| ==> SubInv(cx.ViewOf(cx.subscriptionMemList[k]))
  {
    ghost var m := if limit.Some? then limit.value else 16;
    cx := new EventingContext<E>(limit);
    StartShown(cx, m);
    var now, i := 0, 0;
    assert inputs[..0] == [];
    while i < |inputs|
      invariant i <= |inputs| && fresh(cx) && fresh(cx.eventpool)
      invariant forall k :: 0 <= k < |cx.subscriptionMemList| ==> fresh(cx.subscriptionMemList[k])
      invariant Shows(cx, ServeAll(m, inputs[..i])) && now == ServeAll(m, inputs[..i]).s.now
    {
      now := RunNext(cx, now, inputs, i, m);
      i := i + 1;
    }
    assert inputs[..i] == inputs;
    ShownInv(cx, m, inputs);
  }
}
