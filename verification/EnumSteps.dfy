/** What a sweep and the quota check do, in the fields of the contexts alone, in every state that a
    run reaches. */
module EnumSteps {
  import opened Basics
  import opened EnumContexts

  /** A context that nobody works on and whose idle timeout or Expires has passed at time `t`. */
  predicate Due(e: Info, idle: nat, t: nat) {
    !e.inWork && (e.timeStamp + idle <= t || 0 < e.expires <= t)
  }

  /** `order` lists exactly the contexts that are due, once each. */
  ghost predicate ListsDue(order: seq<nat>, table: Table, idle: nat, t: nat) {
    Distinct(order) && forall id :: id in order <==> id in table && Due(table[id], idle, t)
  }

  lemma DueIsStale(order: seq<nat>, table: Table, idle: nat, t: nat)
    requires ListsDue(order, table, idle, t)
    ensures ListsOnce(order, Stale(table, idle, t))
  {
    forall id ensures id in Elements(order) <==> id in Stale(table, idle, t) {
      assert id in order <==> id in Elements(order);
    }
  }

  /** The lock section of a sweep. */
  lemma SweepTakes(s: State, order: seq<nat>)
    requires s.sweeper.Timed? && ListsDue(order, s.table, s.idle, s.sweeper.t)
    ensures var s' := Step(s, SweepTake(order));
            && SweptExactly(s.table, s'.table, s.idle, s.sweeper.t)
            && s' == s.(table := s.table - Elements(order), swept := s.swept + Elements(order),
                        sweeper := if order == [] then Asleep else Disposing(order))
  {
    DueIsStale(order, s.table, s.idle, s.sweeper.t);
    StaleSplits(s.table, s.idle, s.sweeper.t);
  }

  /** Nothing else takes a context out of the table by way of the sweeper. */
  lemma SweepRefused(s: State, order: seq<nat>)
    requires s.sweeper.Timed? ==> !ListsDue(order, s.table, s.idle, s.sweeper.t)
    ensures Step(s, SweepTake(order)) == s
  {
    if s.sweeper.Timed? {
      var t := s.sweeper.t;
      if ListsOnce(order, Stale(s.table, s.idle, t)) {
        forall id ensures id in order <==> id in s.table && Due(s.table[id], s.idle, t) {
          assert id in order <==> id in Elements(order);
        }
      }
    }
  }

  function Disposes(n: nat): seq<Action> {
    seq(n, _ => SweepDestroy)
  }

  lemma {:induction false} DisposedSome(s: State, queue: seq<nat>, n: nat)
    requires s.sweeper == Disposing(queue) && n < |queue|
    ensures RunAll(s, Disposes(n)) == s.(destroyed := s.destroyed + queue[..n], sweeper := Disposing(queue[n..]))
  {
    if n > 0 {
      DisposedSome(s, queue, n - 1);
      assert Disposes(n) == Disposes(n - 1) + [SweepDestroy];
      RunOneMore(s, Disposes(n - 1), SweepDestroy);
      MoveCut(queue, n - 1);
      assert s.destroyed + queue[..n - 1] + [queue[n - 1]] == s.destroyed + queue[..n];
    } else {
      assert s.destroyed + [] == s.destroyed;
    }
  }

  lemma {:induction false} DisposedAll(s: State, queue: seq<nat>)
    requires s.sweeper == Disposing(queue) && queue != []
    ensures RunAll(s, Disposes(|queue|)) == s.(destroyed := s.destroyed + queue, sweeper := Asleep)
  {
    var n := |queue| - 1;
    DisposedSome(s, queue, n);
    assert Disposes(n + 1) == Disposes(n) + [SweepDestroy];
    RunOneMore(s, Disposes(n), SweepDestroy);
    assert s.destroyed + queue[..n] + [queue[n]] == s.destroyed + queue;
  }

  /** A whole sweep: the clock, the lock section, and the expired contexts one after the other. */
  function WholeSweep(order: seq<nat>): seq<Action> {
    [SweepTime, SweepTake(order)] + Disposes(|order|)
  }

  lemma {:induction false} RunBehind(s: State, acts: seq<Action>, more: seq<Action>)
    ensures RunAll(s, acts + more) == RunAll(RunAll(s, acts), more)
  {
    if more == [] {
      assert acts + more == acts;
    } else {
      RunBehind(s, acts, more[..|more| - 1]);
      assert (acts + more)[..|acts + more| - 1] == acts + more[..|more| - 1];
    }
  }

  lemma {:induction false} SweepStarts(s: State, order: seq<nat>)
    requires s.sweeper.Asleep? && s.idle != 0 && ListsDue(order, s.table, s.idle, s.now)
    ensures RunAll(s, [SweepTime, SweepTake(order)]) ==
            s.(table := s.table - Elements(order), swept := s.swept + Elements(order),
               sweeper := if order == [] then Asleep else Disposing(order))
  {
    var m := s.(sweeper := Timed(s.now));
    assert [SweepTime, SweepTake(order)] == [SweepTime] + [SweepTake(order)] && [SweepTime][..0] == [];
    assert RunAll(s, [SweepTime]) == Step(s, SweepTime) == m;
    RunOneMore(s, [SweepTime], SweepTake(order));
    SweepTakes(m, order);
  }

  /** A sweep that is not disturbed destroys every context that is due, each once and in scan order,
      and no other, and leaves the sweeper ready for the next. */
  lemma {:induction false} SweepDestroysDue(s: State, order: seq<nat>)
    requires s.sweeper.Asleep? && s.idle != 0 && ListsDue(order, s.table, s.idle, s.now)
    ensures var s' := RunAll(s, WholeSweep(order));
            && SweptExactly(s.table, s'.table, s.idle, s.now) && s'.destroyed == s.destroyed + order
            && s'.sweeper == Asleep && s'.phases == s.phases
  {
    SweepStarts(s, order);
    RunBehind(s, [SweepTime, SweepTake(order)], Disposes(|order|));
    DueIsStale(order, s.table, s.idle, s.now);
    StaleSplits(s.table, s.idle, s.now);
    if order == [] {
      assert s.destroyed + order == s.destroyed;
    } else {
      DisposedAll(RunAll(s, [SweepTime, SweepTake(order)]), order);
    }
  }

  /** An Enumerate is admitted exactly if there is no quota or the table is below it. */
  lemma QuotaCheck(s: State, h: nat)
    requires h in s.phases && s.phases[h] == Idle
    ensures Step(s, CheckQuota(h)) ==
            if s.quota.None? || |s.table| < s.quota.value then s.(phases := s.phases[h := Admitted]) else s
  {
  }

  // ---------------------------------------------------------------- requests that nobody disturbs

  /** The state after each of the steps. */
  lemma {:induction false} RunFour(s: State, a: Action, b: Action, c: Action, d: Action)
    ensures RunAll(s, [a, b, c]) == Step(Step(Step(s, a), b), c)
    ensures RunAll(s, [a, b, c, d]) == Step(Step(Step(Step(s, a), b), c), d)
  {
    assert [a, b, c, d] == [a, b, c] + [d] && [a, b, c] == [a, b] + [c] && [a, b] == [a] + [b] && [a] == [] + [a];
    RunOneMore(s, [], a);
    RunOneMore(s, [a], b);
    RunOneMore(s, [a, b], c);
    RunOneMore(s, [a, b, c], d);
  }

  /** An Enumerate below the quota inserts its context, stamped with the time. */
  lemma {:induction false} EnumerateRequest(s: State, h: nat, id: nat, info: Info)
    requires h in s.phases && s.phases[h] == Idle && (s.quota.None? || |s.table| < s.quota.value)
    requires id !in s.issued && !info.inWork && info.index <= info.totalItems
    ensures var s' := RunAll(s, [CheckQuota(h), Create(h, id, info), Insert(h)]);
            && s'.table == s.table[id := info.(timeStamp := s.now)] && s'.phases == s.phases
            && s'.issued == s.issued + {id} && s'.destroyed == s.destroyed && id in s'.sent
            && s'.sent == s.sent[id := s'.sent[id]]
            && s'.sent[id].total == info.totalItems && s'.sent[id].items == Positions(0, info.index)
  {
    RunFour(s, CheckQuota(h), Create(h, id, info), Insert(h), Insert(h));
  }

  /** A context that can be locked: in the table and not in work. */
  predicate Free(s: State, h: nat, id: nat) {
    h in s.phases && s.phases[h] == Idle && id in s.table && !s.table[id].inWork
  }

  /** Handler `h` holds the context, which is locked. */
  predicate Held(s: State, h: nat, id: nat) {
    h in s.phases && s.phases[h] == Holding(id) && id in s.table && s.table[id].inWork
  }

  lemma LockRefused(s: State, h: nat, id: nat, verified: bool)
    requires h in s.phases && s.phases[h] == Idle
    requires !verified || id !in s.table || s.table[id].inWork
    ensures Step(s, Lock(h, id, verified)) == s
  {
  }

  lemma {:induction false} Locks(s: State, h: nat, id: nat)
    requires Free(s, h, id)
    ensures Held(Step(s, Lock(h, id, true)), h, id)
    ensures Step(s, Lock(h, id, true)) ==
            s.(table := s.table[id := s.table[id].(inWork := true)], phases := s.phases[h := Holding(id)])
  {
  }

  lemma {:induction false} Pulls(s: State, h: nat, id: nat, k: nat)
    requires Held(s, h, id) && id in s.sent && s.table[id].index + k <= s.table[id].totalItems
    requires k == 0 <==> s.table[id].totalItems == 0
    ensures var e := s.table[id];
            Step(s, Work(h, k)) ==
            s.(table := s.table[id := e.(index := if e.totalItems == 0 then e.index + 1 else e.index + k)],
               sent := s.sent[id := Sent(s.sent[id].total, s.sent[id].items + Positions(e.index, k))])
  {
  }

  lemma {:induction false} Unlocks(s: State, h: nat, id: nat)
    requires Held(s, h, id)
    ensures Step(Step(s, ReadClock(h)), Unlock(h)) ==
            s.(table := s.table[id := s.table[id].(inWork := false, timeStamp := s.now)], phases := s.phases[h := Idle])
  {
    var t := Step(s, ReadClock(h));
    assert t == s.(phases := s.phases[h := Unlocking(id, s.now)]);
    assert t.phases[h := Idle] == s.phases[h := Idle];
  }

  lemma {:induction false} Removes(s: State, h: nat, id: nat, atEnd: bool)
    requires Held(s, h, id)
    requires atEnd ==> s.table[id].totalItems == 0 || s.table[id].index == s.table[id].totalItems
    ensures Step(Step(s, RemoveLocked(h, atEnd)), Destroy(h)) ==
            s.(table := s.table - {id}, destroyed := s.destroyed + [id], phases := s.phases[h := Idle])
  {
    var t := Step(s, RemoveLocked(h, atEnd));
    assert t == s.(table := s.table - {id}, phases := s.phases[h := Removed(id)]);
    assert t.phases[h := Idle] == s.phases[h := Idle];
  }

  /** Writing a key again, and writing what is there. */
  lemma Rewritten<V>(m: map<nat, V>, id: nat, v: V, w: V)
    ensures m[id := v][id := w] == m[id := w] && m[id := v] - {id} == m - {id} && (id in m ==> m[id := m[id]] == m)
  {
  }

  /** Locked, and the items pulled. */
  lemma {:induction false} LocksAndPulls(s: State, h: nat, id: nat, k: nat, e: Info)
    requires Free(s, h, id) && id in s.sent && s.table[id].index + k <= s.table[id].totalItems
    requires k == 0 <==> s.table[id].totalItems == 0
    requires e == s.table[id].(index := if k == 0 then s.table[id].index + 1 else s.table[id].index + k, inWork := true)
    ensures Step(Step(s, Lock(h, id, true)), Work(h, k)) ==
            s.(table := s.table[id := e], phases := s.phases[h := Holding(id)],
               sent := s.sent[id := Sent(s.sent[id].total, s.sent[id].items + Positions(s.table[id].index, k))])
  {
    Locks(s, h, id);
    Pulls(Step(s, Lock(h, id, true)), h, id, k);
    Rewritten(s.table, id, s.table[id].(inWork := true), e);
  }

  /** A Pull of `k` of the items left delivers them, moves the cursor behind them and leaves the
      context unlocked, stamped with the time. */
  lemma {:induction false} PullRequest(s: State, h: nat, id: nat, k: nat)
    requires Free(s, h, id) && id in s.sent && 1 <= k && s.table[id].index + k <= s.table[id].totalItems
    ensures var e := s.table[id];
            RunAll(s, [Lock(h, id, true), Work(h, k), ReadClock(h), Unlock(h)]) ==
            s.(table := s.table[id := e.(index := e.index + k, timeStamp := s.now)],
               sent := s.sent[id := Sent(s.sent[id].total, s.sent[id].items + Positions(e.index, k))])
  {
    RunFour(s, Lock(h, id, true), Work(h, k), ReadClock(h), Unlock(h));
    var e := s.table[id].(index := s.table[id].index + k, inWork := true);
    LocksAndPulls(s, h, id, k, e);
    Unlocks(Step(Step(s, Lock(h, id, true)), Work(h, k)), h, id);
    Rewritten(s.table, id, e, e.(inWork := false, timeStamp := s.now));
    Rewritten(s.phases, h, Holding(id), Idle);
  }

  /** A Pull of all that is left takes the context out of the table and destroys it. */
  lemma {:induction false} LastPullRequest(s: State, h: nat, id: nat, k: nat)
    requires Free(s, h, id) && id in s.sent && s.table[id].index + k == s.table[id].totalItems
    requires k == 0 <==> s.table[id].totalItems == 0
    ensures RunAll(s, [Lock(h, id, true), Work(h, k), RemoveLocked(h, true), Destroy(h)]) ==
            s.(table := s.table - {id}, destroyed := s.destroyed + [id],
               sent := s.sent[id := Sent(s.sent[id].total, s.sent[id].items + Positions(s.table[id].index, k))])
  {
    RunFour(s, Lock(h, id, true), Work(h, k), RemoveLocked(h, true), Destroy(h));
    var e := s.table[id].(index := if k == 0 then s.table[id].index + 1 else s.table[id].index + k, inWork := true);
    LocksAndPulls(s, h, id, k, e);
    Removes(Step(Step(s, Lock(h, id, true)), Work(h, k)), h, id, true);
    Rewritten(s.table, id, e, e);
    Rewritten(s.phases, h, Holding(id), Idle);
  }

  /** A Release takes the context out of the table and destroys it. */
  lemma {:induction false} ReleaseRequest(s: State, h: nat, id: nat)
    requires Free(s, h, id)
    ensures RunAll(s, [Lock(h, id, true), RemoveLocked(h, false), Destroy(h)]) ==
            s.(table := s.table - {id}, destroyed := s.destroyed + [id])
  {
    RunFour(s, Lock(h, id, true), RemoveLocked(h, false), Destroy(h), Destroy(h));
    Locks(s, h, id);
    Removes(Step(s, Lock(h, id, true)), h, id, false);
    Rewritten(s.table, id, s.table[id].(inWork := true), s.table[id]);
    Rewritten(s.phases, h, Holding(id), Idle);
  }
}
