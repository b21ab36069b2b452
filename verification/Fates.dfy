/** What becomes of an event once it has left the pool, as a label per removed event, and
    the marks of the heartbeat clock.  Both are the history against which the notification
    machinery is specified. */
module Fates {
  import opened Basics

  datatype Fate =
    | InFlight      // in the document of a sender thread that has not run yet
    | Transmitted   // sent by its sender thread
    | Suppressed    // its sender thread found the subscription unsubscribed or expired
    | Dropped       // removed while another sender thread was pending
    | ThreadFailed  // pthread_create failed
    | Pulled        // returned by a Pull on the subscription

  /** The events labelled `f`, in order. */
  function Select<E>(xs: seq<E>, fs: seq<Fate>, f: Fate): seq<E>
    requires |xs| == |fs|
  {
    if xs == [] then []
    else
      var n := |xs| - 1;
      Select(xs[..n], fs[..n], f) + if fs[n] == f then [xs[n]] else []
  }

  function Labels(n: nat, f: Fate): (r: seq<Fate>)
    ensures |r| == n && forall i :: 0 <= i < n ==> r[i] == f
  {
    seq(n, _ => f)
  }

  /** The sender thread in flight is done: its events get their final label. */
  function Settle(fs: seq<Fate>, to: Fate): (r: seq<Fate>)
    ensures |r| == |fs|
    ensures forall i :: 0 <= i < |fs| ==> r[i] == if fs[i] == InFlight then to else fs[i]
  {
    seq(|fs|, i requires 0 <= i < |fs| => if fs[i] == InFlight then to else fs[i])
  }

  /** Nothing was transmitted out of turn: no later event overtook one in flight. */
  ghost predicate InOrder(fs: seq<Fate>) {
    forall i, j :: 0 <= i < j < |fs| && fs[i] == InFlight ==> fs[j] != Transmitted
  }

  lemma SelectLast<E>(xs: seq<E>, fs: seq<Fate>, x: E, g: Fate, f: Fate)
    requires |xs| == |fs|
    ensures Select(xs + [x], fs + [g], f) == Select(xs, fs, f) + if f == g then [x] else []
  {
    assert (xs + [x])[..|xs|] == xs && (fs + [g])[..|fs|] == fs;
  }

  lemma {:induction false} SelectAppend<E>(xs: seq<E>, fs: seq<Fate>, ys: seq<E>, g: Fate, f: Fate)
    requires |xs| == |fs|
    ensures Select(xs + ys, fs + Labels(|ys|, g), f) == Select(xs, fs, f) + if f == g then ys else []
  {
    if ys == [] {
      assert xs + ys == xs && fs + Labels(0, g) == fs;
    } else {
      var n := |ys| - 1;
      var init, labels := ys[..n], Labels(n, g);
      SelectAppend(xs, fs, init, g, f);
      SelectLast(xs + init, fs + labels, ys[n], g, f);
      assert xs + ys == xs + init + [ys[n]] && fs + Labels(|ys|, g) == fs + labels + [g];
      assert ys == init + [ys[n]];
    }
  }

  lemma {:induction false} SelectNone<E>(xs: seq<E>, fs: seq<Fate>, f: Fate)
    requires |xs| == |fs| && forall i :: 0 <= i < |fs| ==> fs[i] != f
    ensures Select(xs, fs, f) == []
  {
    if xs != [] {
      SelectNone(xs[..|xs| - 1], fs[..|xs| - 1], f);
    }
  }

  lemma SettleLast(fs: seq<Fate>, g: Fate, to: Fate)
    ensures Settle(fs + [g], to) == Settle(fs, to) + [if g == InFlight then to else g]
  {
  }

  /** No event labelled `to` comes behind one in flight. */
  ghost predicate FlightLast(fs: seq<Fate>, to: Fate) {
    forall i, j :: 0 <= i < j < |fs| && fs[i] == InFlight ==> fs[j] != to
  }

  lemma FlightLastInit(fs: seq<Fate>, g: Fate, to: Fate)
    requires FlightLast(fs + [g], to)
    ensures FlightLast(fs, to)
    ensures g == to ==> forall i :: 0 <= i < |fs| ==> fs[i] != InFlight
  {
    var all := fs + [g];
    assert forall i :: 0 <= i < |fs| ==> all[i] == fs[i];
    assert all[|fs|] == g;
  }

  /** Settling moves the events in flight behind those labelled `to` already. */
  lemma {:induction false} SelectSettled<E>(xs: seq<E>, fs: seq<Fate>, to: Fate)
    requires |xs| == |fs| && to != InFlight && FlightLast(fs, to)
    ensures Select(xs, Settle(fs, to), to) == Select(xs, fs, to) + Select(xs, fs, InFlight)
  {
    if xs != [] {
      var n := |xs| - 1;
      var ys, gs := xs[..n], fs[..n];
      assert xs == ys + [xs[n]] && fs == gs + [fs[n]];
      FlightLastInit(gs, fs[n], to);
      SelectSettled(ys, gs, to);
      SettledStep(ys, gs, xs[n], fs[n], to);
    }
  }

  lemma SettledStep<E>(ys: seq<E>, gs: seq<Fate>, x: E, g: Fate, to: Fate)
    requires |ys| == |gs| && to != InFlight
    requires Select(ys, Settle(gs, to), to) == Select(ys, gs, to) + Select(ys, gs, InFlight)
    requires g == to ==> forall i :: 0 <= i < |gs| ==> gs[i] != InFlight
    ensures Select(ys + [x], Settle(gs + [g], to), to)
            == Select(ys + [x], gs + [g], to) + Select(ys + [x], gs + [g], InFlight)
  {
    SettleLast(gs, g, to);
    SelectLast(ys, Settle(gs, to), x, if g == InFlight then to else g, to);
    SelectLast(ys, gs, x, g, to);
    SelectLast(ys, gs, x, g, InFlight);
    if g == to { SelectNone(ys, gs, InFlight); }
  }

  lemma {:induction false} SelectUnsettled<E>(xs: seq<E>, fs: seq<Fate>, to: Fate, f: Fate)
    requires |xs| == |fs| && f !in {InFlight, to}
    ensures Select(xs, Settle(fs, to), f) == Select(xs, fs, f)
  {
    if xs != [] {
      var n := |xs| - 1;
      SelectUnsettled(xs[..n], fs[..n], to, f);
      assert Settle(fs, to)[..n] == Settle(fs[..n], to);
    }
  }

  lemma {:induction false} SelectIsSubsequence<E>(xs: seq<E>, fs: seq<Fate>, f: Fate)
    requires |xs| == |fs|
    ensures IsSubsequence(Select(xs, fs, f), xs)
  {
    if xs != [] {
      var n := |xs| - 1;
      SelectIsSubsequence(xs[..n], fs[..n], f);
      var ys := Select(xs, fs, f);
      if fs[n] == f {
        assert ys[..|ys| - 1] == Select(xs[..n], fs[..n], f);
      } else {
        assert ys == Select(xs[..n], fs[..n], f);
      }
    }
  }

  // ---------------------------------------------------------------- heartbeat marks

  datatype Mark =
    | Tick                // a counted heartbeat tick
    | Reset(beat: bool)   // the countdown ran out; `beat`: a heartbeat sender was started
    | Run                 // a notification sender thread ran

  /** Counted ticks since the last reset. */
  function TicksSince(ms: seq<Mark>): nat {
    if ms == [] || ms[|ms| - 1].Reset? then 0
    else TicksSince(ms[..|ms| - 1]) + if ms[|ms| - 1].Tick? then 1 else 0
  }

  /** Notification sender runs since the last reset. */
  function RunsSince(ms: seq<Mark>): nat {
    if ms == [] || ms[|ms| - 1].Reset? then 0
    else RunsSince(ms[..|ms| - 1]) + if ms[|ms| - 1].Run? then 1 else 0
  }

  /** Every reset comes after exactly `t` ticks, and starts a heartbeat only when no
      notification sender ran since the reset before it. */
  ghost predicate Spaced(ms: seq<Mark>, t: nat) {
    ms == [] ||
    var before, last := ms[..|ms| - 1], ms[|ms| - 1];
    && Spaced(before, t)
    && (last.Tick? ==> TicksSince(before) < t)
    && (last.Reset? ==> TicksSince(before) == t && (last.beat ==> RunsSince(before) == 0))
  }

  function Count(ms: seq<Mark>, m: Mark): nat {
    if ms == [] then 0
    else Count(ms[..|ms| - 1], m) + if ms[|ms| - 1] == m then 1 else 0
  }

  function Resets(ms: seq<Mark>): nat {
    Count(ms, Reset(true)) + Count(ms, Reset(false))
  }

  lemma OneMoreTimes(t: nat, n: nat)
    ensures t * (n + 1) == t * n + t
  {
  }

  lemma TimesMonotone(t: nat, m: nat, n: nat)
    requires m <= n
    ensures t * m <= t * n
  {
  }

  lemma {:induction false} TicksAndResets(ms: seq<Mark>, t: nat)
    requires Spaced(ms, t)
    ensures Count(ms, Tick) == t * Resets(ms) + TicksSince(ms)
  {
    if ms != [] {
      var before, last := ms[..|ms| - 1], ms[|ms| - 1];
      TicksAndResets(before, t);
      if last.Reset? {
        OneMoreTimes(t, Resets(before));
        assert Resets(ms) == Resets(before) + 1;
      } else {
        assert Resets(ms) == Resets(before);
      }
    }
  }

  /** Resets happen every `t` ticks exactly, so at most one heartbeat is started per `t` ticks. */
  lemma {:induction false} TicksPerReset(ms: seq<Mark>, t: nat)
    requires Spaced(ms, t)
    ensures Count(ms, Tick) == t * (Count(ms, Reset(true)) + Count(ms, Reset(false))) + TicksSince(ms)
    ensures t * Count(ms, Reset(true)) <= Count(ms, Tick)
  {
    TicksAndResets(ms, t);
    TimesMonotone(t, Count(ms, Reset(true)), Resets(ms));
  }
}
