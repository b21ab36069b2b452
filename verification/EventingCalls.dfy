/** Calls of the eventing code as steps of the subscription machine. */
module EventingCalls {
  import opened Basics
  import opened EventPool
  import opened Fates
  import opened Subscriptions
  import opened SubscriptionSafety
  import opened NotificationThreads

  // ---------------------------------------------------------------- what the machine does

  /** A call of the eventing code. */
  datatype Input<E> =
    | SubscribeRequest(uuid: string, mode: Mode, expires: nat, seconds: nat, fails: bool)
    | TimePasses(elapsed: nat)
    | UnsubscribeRequest(name: Option<string>, fails: bool)
    | RenewRequest(name: Option<string>, until: Option<nat>, fails: bool)
    | Indications(id: string, entities: seq<Option<E>>)
    | PullRequest(id: string, maxElements: int)
    | SenderTurn(id: string, acked: bool)
    | ManagerTurn(poll: string -> bool, create: string -> bool)
    | HeartbeatTurn(create: string -> bool)

  function Additions<E>(id: string, entities: seq<Option<E>>): seq<Action<E>> {
    if entities == [] then []
    else
      var n := |entities| - 1;
      Additions(id, entities[..n]) + if entities[n].None? then [] else [AddEvent(id, entities[n].value)]
  }

  /** One manager visit to each listed subscription, in order. */
  function Visits<E>(order: seq<string>, poll: string -> bool, create: string -> bool): (r: seq<Action<E>>)
    ensures |r| == |order|
    ensures forall k :: 0 <= k < |r| ==> r[k] == Manage(Fold(order[k]), poll(order[k]), create(order[k]))
  {
    seq(|order|, k requires 0 <= k < |order| => Manage(Fold(order[k]), poll(order[k]), create(order[k])))
  }

  /** One heartbeat visit to each listed subscription, in order. */
  function Beats<E>(order: seq<string>, create: string -> bool): (r: seq<Action<E>>)
    ensures |r| == |order|
    ensures forall k :: 0 <= k < |r| ==> r[k] == Beat(Fold(order[k]), create(order[k]))
  {
    seq(|order|, k requires 0 <= k < |order| => Beat(Fold(order[k]), create(order[k])))
  }

  /** The steps of the machine for one call, given the ids in `subscriptionMemList`. */
  function Acts<E>(input: Input<E>, order: seq<string>): seq<Action<E>> {
    match input
    case SubscribeRequest(uuid, mode, expires, seconds, fails) =>
      if fails then [] else [Subscribe(Fold(uuid), mode, expires, seconds)]
    case TimePasses(elapsed) => [Advance(elapsed)]
    case UnsubscribeRequest(name, fails) =>
      if name.None? || fails then [] else [Unsubscribe(Fold(name.value))]
    case RenewRequest(name, until, _) =>
      if name.None? || until.None? then [] else [Renew(Fold(name.value), until.value)]
    case Indications(id, entities) => if id in order then Additions(Fold(id), entities) else []
    case PullRequest(id, maxElements) => if id in order then [PullEvents(Fold(id), maxElements)] else []
    case SenderTurn(id, acked) => if id in order then [RunSender(Fold(id), 0, acked)] else []
    case ManagerTurn(poll, create) => Visits(order, poll, create)
    case HeartbeatTurn(create) => Beats(order, create)
  }

  /** The ids in `subscriptionMemList`, and the machine. */
  datatype State<E> = State(order: seq<string>, s: System<E>)

  /** The ids whose subscription is still listed. */
  function StillListed<E>(ids: seq<string>, s: System<E>): seq<string> {
    if ids == [] then []
    else
      var n := |ids| - 1;
      StillListed(ids[..n], s) + if Listed(s, Fold(ids[n])) then [ids[n]] else []
  }

  function Serve<E>(st: State<E>, input: Input<E>): State<E> {
    var s := RunAll(st.s, Acts(input, st.order));
    State(StillListed(st.order + if input.SubscribeRequest? then [input.uuid] else [], s), s)
  }

  function ServeAll<E>(maxPull: int, inputs: seq<Input<E>>): State<E> {
    if inputs == [] then State([], Start(maxPull))
    else Serve(ServeAll(maxPull, inputs[..|inputs| - 1]), inputs[|inputs| - 1])
  }

  /** So what is proved of all runs of the machine holds of it. */
  lemma {:induction false} ServedIsRun<E>(maxPull: int, inputs: seq<Input<E>>) returns (acts: seq<Action<E>>)
    ensures ServeAll(maxPull, inputs).s == RunAll(Start(maxPull), acts)
  {
    acts := [];
    if inputs != [] {
      var st := ServeAll(maxPull, inputs[..|inputs| - 1]);
      var before := ServedIsRun(maxPull, inputs[..|inputs| - 1]);
      var more := Acts(inputs[|inputs| - 1], st.order);
      RunAppend(Start(maxPull), before, more);
      acts := before + more;
    }
  }

  // ---------------------------------------------------------------- steps of the machine

  lemma {:induction false} RunLast<E>(s: System<E>, acts: seq<Action<E>>, n: nat)
    requires 0 < n <= |acts|
    ensures RunAll(s, acts[..n]) == Step(RunAll(s, acts[..n - 1]), acts[n - 1])
  {
    assert acts[..n][..n - 1] == acts[..n - 1];
  }

  lemma {:induction false} RunOne<E>(s: System<E>, a: Action<E>)
    ensures RunAll(s, [a]) == Step(s, a)
  {
    assert [a][..0] == [];
  }

  /** A step for a subscription that is not listed, and not of one of its senders, does nothing. */
  lemma {:induction false} StepUnlisted<E>(s: System<E>, a: Action<E>)
    requires !a.Advance? && !a.Subscribe? && !a.RunSender? && !Listed(s, a.id)
    ensures RunAll(s, [a]) == s
  {
    RunOne(s, a);
    if a.id in s.subs { assert s.subs[a.id := s.subs[a.id]] == s.subs; }
  }

  /** The machine with another `sub` under `id`. */
  function With<E>(s: System<E>, id: string, sub: Sub<E>): System<E> {
    s.(subs := s.subs[id := sub])
  }

  lemma {:induction false} StepIs<E>(s: System<E>, a: Action<E>, sub: Sub<E>)
    requires !a.Advance? && !a.Subscribe? && a.id in s.subs && sub == Local(s.subs[a.id], s.now, s.maxPull, a)
    ensures Step(s, a) == With(s, a.id, sub) && RunAll(s, [a]) == With(s, a.id, sub)
  {
    RunOne(s, a);
  }

  lemma {:induction false} AdditionsRun<E>(s: System<E>, id: string, entities: seq<Option<E>>)
    requires Listed(s, id)
    ensures var sub := AddedAll(s.subs[id], entities, s.maxPull);
            sub.listed && RunAll(s, Additions(id, entities)) == With(s, id, sub)
  {
    if entities == [] {
      assert s.subs[id := s.subs[id]] == s.subs;
    } else {
      var n := |entities| - 1;
      AdditionsRun(s, id, entities[..n]);
      if entities[n].None? {
        assert Additions(id, entities) == Additions(id, entities[..n]);
      } else {
        var sub := AddedAll(s.subs[id], entities[..n], s.maxPull);
        AddOneMore(s, Additions(id, entities[..n]), id, sub, entities[n].value);
      }
    }
  }

  lemma LocalAdd<E>(sub: Sub<E>, now: nat, maxPull: int, id: string, e: E)
    requires sub.listed
    ensures Local(sub, now, maxPull, AddEvent(id, e)) == Added(sub, e, maxPull)
  {
  }

  lemma WithTwice<E>(s: System<E>, id: string, sub: Sub<E>, sub': Sub<E>)
    ensures With(With(s, id, sub), id, sub') == With(s, id, sub')
  {
  }

  lemma {:induction false} AddOneMore<E>(s: System<E>, acts: seq<Action<E>>, id: string, sub: Sub<E>, e: E)
    requires sub.listed && RunAll(s, acts) == With(s, id, sub)
    ensures RunAll(s, acts + [AddEvent(id, e)]) == With(s, id, Added(sub, e, s.maxPull))
  {
    var t, a := With(s, id, sub), AddEvent(id, e);
    assert (acts + [a])[..|acts|] == acts;
    LocalAdd(sub, s.now, s.maxPull, id, e);
    StepIs(t, a, Added(sub, e, s.maxPull));
    WithTwice(s, id, sub, Added(sub, e, s.maxPull));
  }

  /** Each step is for a listed subscription of its own, and makes of it what `after` says. */
  ghost predicate Makes<E>(s: System<E>, ids: seq<string>, acts: seq<Action<E>>, after: seq<Sub<E>>) {
    && |acts| == |ids| == |after| && Distinct(ids)
    && forall k :: 0 <= k < |ids| ==>
         && !acts[k].Advance? && !acts[k].Subscribe? && acts[k].id == ids[k] && ids[k] in s.subs
         && after[k] == Local(s.subs[ids[k]], s.now, s.maxPull, acts[k])
  }

  /** `t` is `s` with the first `n` subscriptions as in `after`. */
  ghost predicate Changed<E>(s: System<E>, t: System<E>, ids: seq<string>, after: seq<Sub<E>>, n: nat) {
    && n <= |ids| == |after|
    && t.now == s.now && t.maxPull == s.maxPull && t.subs.Keys == s.subs.Keys
    && (forall k :: 0 <= k < n && ids[k] in s.subs ==> t.subs[ids[k]] == after[k])
    && forall id :: id in s.subs && id !in ids[..n] ==> t.subs[id] == s.subs[id]
  }

  lemma {:induction false} ChangedNext<E>(s: System<E>, t: System<E>, ids: seq<string>, after: seq<Sub<E>>, n: nat)
    requires Changed(s, t, ids, after, n) && n < |ids| && Distinct(ids) && ids[n] in s.subs
    ensures t.subs[ids[n]] == s.subs[ids[n]]
    ensures Changed(s, With(t, ids[n], after[n]), ids, after, n + 1)
  {
    assert ids[n] !in ids[..n] && ids[..n + 1] == ids[..n] + [ids[n]];
  }

  lemma {:induction false} EachNext<E>(s: System<E>, t: System<E>, ids: seq<string>, acts: seq<Action<E>>,
                                       after: seq<Sub<E>>, n: nat)
    requires Makes(s, ids, acts, after) && n < |ids| && Changed(s, t, ids, after, n)
    ensures Changed(s, Step(t, acts[n]), ids, after, n + 1)
  {
    ChangedNext(s, t, ids, after, n);
    StepIs(t, acts[n], after[n]);
  }

  lemma {:induction false} EachOnce<E>(s: System<E>, ids: seq<string>, acts: seq<Action<E>>, after: seq<Sub<E>>, n: nat)
    requires Makes(s, ids, acts, after) && n <= |ids|
    ensures Changed(s, RunAll(s, acts[..n]), ids, after, n)
  {
    if n > 0 {
      EachOnce(s, ids, acts, after, n - 1);
      RunLast(s, acts, n);
      EachNext(s, RunAll(s, acts[..n - 1]), ids, acts, after, n - 1);
    }
  }

  lemma LocalPull<E>(sub: Sub<E>, now: nat, maxPull: int, id: string, maxElements: int)
    requires sub.listed
    ensures var r := Removed(sub, Clamp(maxElements, |sub.queue|), Pulled);
            r.listed && Local(sub, now, maxPull, PullEvents(id, maxElements)) == r
  {
  }

  lemma LocalRequest<E>(sub: Sub<E>, now: nat, maxPull: int, a: Action<E>)
    requires sub.listed && (a.Unsubscribe? || a.Renew?)
    ensures Local(sub, now, maxPull, a).listed
  {
  }

  lemma LocalSender<E>(sub: Sub<E>, now: nat, maxPull: int, id: string, acked: bool)
    requires sub.listed
    ensures var r := if sub.threads == [] then sub else Ran(sub, 0, now, acked);
            r.listed && Local(sub, now, maxPull, RunSender(id, 0, acked)) == r
  {
  }

  lemma LocalBeat<E>(sub: Sub<E>, now: nat, maxPull: int, id: string, created: bool)
    requires sub.listed
    ensures Local(sub, now, maxPull, Beat(id, created)) == Beaten(sub, now, created)
    ensures Beaten(sub, now, created).listed
  {
  }

  lemma LocalManage<E>(sub: Sub<E>, now: nat, maxPull: int, id: string, pollPending: bool, created: bool)
    requires sub.listed
    ensures var r := Managed(sub, now, pollPending, created);
            && Local(sub, now, maxPull, Manage(id, pollPending, created)) == r
            && (Dead(sub, now) && !sub.pending <==> !r.listed) && (!r.listed ==> r.queue == [])
  {
  }

  // ---------------------------------------------------------------- what one call does

  lemma {:induction false} AllListed<E>(ids: seq<string>, s: System<E>)
    requires forall k :: 0 <= k < |ids| ==> Listed(s, Fold(ids[k]))
    ensures StillListed(ids, s) == ids
  {
    if ids != [] {
      AllListed(ids[..|ids| - 1], s);
      assert ids == ids[..|ids| - 1] + [ids[|ids| - 1]];
    }
  }

  /** If every listed id stays listed, only the machine moves. */
  lemma {:induction false} Served<E>(st: State<E>, input: Input<E>, s: System<E>)
    requires !input.SubscribeRequest? && RunAll(st.s, Acts(input, st.order)) == s
    requires forall k :: 0 <= k < |st.order| ==> Listed(s, Fold(st.order[k]))
    ensures Serve(st, input) == State(st.order, s)
  {
    assert st.order + [] == st.order;
    AllListed(st.order, s);
  }

  lemma {:induction false} ServedRound<E>(st: State<E>, input: Input<E>, s: System<E>)
    requires input.ManagerTurn? && RunAll(st.s, Visits(st.order, input.poll, input.create)) == s
    ensures Serve(st, input) == State(StillListed(st.order, s), s)
  {
    assert st.order + [] == st.order;
  }

  lemma {:induction false} StillListedLast<E>(ids: seq<string>, id: string, s: System<E>)
    ensures StillListed(ids + [id], s) == StillListed(ids, s) + if Listed(s, Fold(id)) then [id] else []
  {
    assert (ids + [id])[..|ids|] == ids;
  }

  /** A refused Subscribe changes nothing. */
  lemma {:induction false} ServedRefused<E>(st: State<E>, input: Input<E>)
    requires input.SubscribeRequest? && Fold(input.uuid) !in st.s.subs
    requires input.fails || Expired(input.expires, st.s.now)
    requires forall k :: 0 <= k < |st.order| ==> Listed(st.s, Fold(st.order[k]))
    ensures Serve(st, input) == st
  {
    StillListedLast(st.order, input.uuid, st.s);
    AllListed(st.order, st.s);
    if !input.fails { RunOne(st.s, Acts(input, st.order)[0]); }
  }

  lemma {:induction false} ServedNew<E>(st: State<E>, input: Input<E>, s: System<E>)
    requires input.SubscribeRequest? && RunAll(st.s, Acts(input, st.order)) == s && Listed(s, Fold(input.uuid))
    requires forall k :: 0 <= k < |st.order| ==> Listed(s, Fold(st.order[k]))
    ensures Serve(st, input) == State(st.order + [input.uuid], s)
  {
    StillListedLast(st.order, input.uuid, s);
    AllListed(st.order, s);
  }

  // ---------------------------------------------------------------- what all calls do

  lemma {:induction false} ClockKept<E>(s: System<E>, acts: seq<Action<E>>)
    requires forall k :: 0 <= k < |acts| ==> !acts[k].Advance?
    ensures RunAll(s, acts).now == s.now
  {
    if acts != [] { ClockKept(s, acts[..|acts| - 1]); }
  }

  lemma {:induction false} AdditionsOnly<E>(id: string, entities: seq<Option<E>>)
    ensures forall k :: 0 <= k < |Additions(id, entities)| ==> Additions(id, entities)[k].AddEvent?
  {
    if entities != [] { AdditionsOnly(id, entities[..|entities| - 1]); }
  }

  function Later<E>(now: nat, input: Input<E>): nat {
    if input.TimePasses? then now + input.elapsed else now
  }

  lemma {:induction false} ServedClock<E>(st: State<E>, input: Input<E>)
    ensures Serve(st, input).s.now == Later(st.s.now, input)
  {
    if input.TimePasses? {
      RunOne(st.s, Advance(input.elapsed));
    } else {
      if input.Indications? { AdditionsOnly(Fold(input.id), input.entities); }
      ClockKept(st.s, Acts(input, st.order));
    }
  }

  /** `generate_uuid` does not repeat itself. */
  ghost predicate NewIds<E>(inputs: seq<Input<E>>) {
    forall i, j :: 0 <= i < j < |inputs| && inputs[i].SubscribeRequest? && inputs[j].SubscribeRequest? ==>
      Fold(inputs[i].uuid) != Fold(inputs[j].uuid)
  }

  lemma {:induction false} KeysKept<E>(s: System<E>, acts: seq<Action<E>>)
    requires forall k :: 0 <= k < |acts| ==> !acts[k].Subscribe?
    ensures RunAll(s, acts).subs.Keys == s.subs.Keys
  {
    if acts != [] { KeysKept(s, acts[..|acts| - 1]); }
  }

  lemma {:induction false} ServedKeys<E>(st: State<E>, input: Input<E>, id: string)
    requires id in Serve(st, input).s.subs
    ensures id in st.s.subs || (input.SubscribeRequest? && Fold(input.uuid) == id)
  {
    if input.SubscribeRequest? {
      if !input.fails { RunOne(st.s, Subscribe(Fold(input.uuid), input.mode, input.expires, input.seconds)); }
    } else {
      if input.Indications? { AdditionsOnly(Fold(input.id), input.entities); }
      KeysKept(st.s, Acts(input, st.order));
    }
  }

  /** Every subscription stems from a Subscribe. */
  lemma {:induction false} KnownIds<E>(maxPull: int, inputs: seq<Input<E>>, id: string)
    requires id in ServeAll(maxPull, inputs).s.subs
    ensures exists i :: 0 <= i < |inputs| && inputs[i].SubscribeRequest? && Fold(inputs[i].uuid) == id
  {
    if inputs != [] {
      var n := |inputs| - 1;
      ServedKeys(ServeAll(maxPull, inputs[..n]), inputs[n], id);
      if id in ServeAll(maxPull, inputs[..n]).s.subs {
        KnownIds(maxPull, inputs[..n], id);
        var i :| 0 <= i < n && inputs[..n][i].SubscribeRequest? && Fold(inputs[..n][i].uuid) == id;
        assert inputs[i].SubscribeRequest?;
      }
    }
  }

  lemma {:induction false} NewToServer<E>(maxPull: int, inputs: seq<Input<E>>, i: nat)
    requires NewIds(inputs) && i < |inputs| && inputs[i].SubscribeRequest?
    ensures Fold(inputs[i].uuid) !in ServeAll(maxPull, inputs[..i]).s.subs
  {
    if Fold(inputs[i].uuid) in ServeAll(maxPull, inputs[..i]).s.subs {
      KnownIds(maxPull, inputs[..i], Fold(inputs[i].uuid));
    }
  }

  lemma {:induction false} ServeNext<E>(maxPull: int, inputs: seq<Input<E>>, i: nat)
    requires NewIds(inputs) && i < |inputs|
    ensures var st := ServeAll(maxPull, inputs[..i]);
            && ServeAll(maxPull, inputs[..i + 1]) == Serve(st, inputs[i])
            && Serve(st, inputs[i]).s.now == Later(st.s.now, inputs[i])
            && (inputs[i].SubscribeRequest? ==> Fold(inputs[i].uuid) !in st.s.subs)
  {
    assert inputs[..i + 1][..i] == inputs[..i];
    ServedClock(ServeAll(maxPull, inputs[..i]), inputs[i]);
    if inputs[i].SubscribeRequest? { NewToServer(maxPull, inputs, i); }
  }

  /** The invariant of the machine holds whatever the calls. */
  lemma {:induction false} ServedInv<E>(maxPull: int, inputs: seq<Input<E>>)
    ensures Inv(ServeAll(maxPull, inputs).s)
  {
    var acts := ServedIsRun(maxPull, inputs);
    AlwaysInv(maxPull, acts);
  }
}
