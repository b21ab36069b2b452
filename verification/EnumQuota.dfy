/** The quota bound on enumeration contexts is reached by actual interleavings, and when the quota
    itself is kept. */
module EnumQuota {
  import opened Basics
  import opened EnumContexts
  import EnumSafety

  const Blank := Info(false, 0, 0, 0, 0)

  /** Of the handlers `hs`, those at positions `lo` up to `hi` have created contexts `base + lo` up
      to `base + hi` and not yet inserted them; the others are idle. */
  ghost predicate Waiting(phases: map<nat, Phase>, hs: seq<nat>, base: nat, lo: nat, hi: nat) {
    && lo <= hi <= |hs|
    && forall i :: 0 <= i < |hs| ==>
         hs[i] in phases && phases[hs[i]] == if lo <= i < hi then Created(base + i, Blank) else Idle
  }

  /** … and the table holds `filled` contexts. */
  ghost predicate Crowd(s: State, hs: seq<nat>, q: nat, base: nat, filled: nat, lo: nat, hi: nat) {
    && Waiting(s.phases, hs, base, lo, hi) && s.quota == Some(q) && |s.table| == filled
    && (forall id :: id in s.issued ==> id < base + hi)
    && (forall id :: id in s.table ==> id < base + lo)
  }

  // ---------------------------------------------------------------- single steps

  lemma WaitingCreated(phases: map<nat, Phase>, hs: seq<nat>, base: nat, hi: nat)
    requires Distinct(hs) && Waiting(phases, hs, base, 0, hi) && hi < |hs|
    ensures Waiting(phases[hs[hi] := Created(base + hi, Blank)], hs, base, 0, hi + 1)
  {
  }

  lemma WaitingInserted(phases: map<nat, Phase>, hs: seq<nat>, base: nat, lo: nat, hi: nat)
    requires Distinct(hs) && Waiting(phases, hs, base, lo, hi) && lo < hi
    ensures Waiting(phases[hs[lo] := Idle], hs, base, lo + 1, hi)
  {
  }

  /** An idle handler passes the quota check and creates a context. */
  lemma AdmitStep(s: State, h: nat, id: nat)
    requires h in s.phases && s.phases[h] == Idle && Admits(s.quota, |s.table|) && id !in s.issued
    ensures var s' := Step(Step(s, CheckQuota(h)), Create(h, id, Blank));
            && s'.phases == s.phases[h := Created(id, Blank)] && s'.issued == s.issued + {id}
            && s'.table == s.table && s'.quota == s.quota
  {
    var mid := Step(s, CheckQuota(h));
    assert mid == Go(s, h, Admitted);
    assert mid.phases[h := Created(id, Blank)] == s.phases[h := Created(id, Blank)];
  }

  lemma CrowdAdmit(s: State, hs: seq<nat>, q: nat, base: nat, filled: nat, hi: nat)
    requires Distinct(hs) && Crowd(s, hs, q, base, filled, 0, hi) && hi < |hs| && filled < q
    ensures Crowd(Step(Step(s, CheckQuota(hs[hi])), Create(hs[hi], base + hi, Blank)), hs, q, base, filled, 0, hi + 1)
  {
    assert base + hi !in s.issued;
    AdmitStep(s, hs[hi], base + hi);
    Grown(s, Step(Step(s, CheckQuota(hs[hi])), Create(hs[hi], base + hi, Blank)), hs, q, base, filled, hi);
  }

  lemma Grown(s: State, s': State, hs: seq<nat>, q: nat, base: nat, filled: nat, hi: nat)
    requires Distinct(hs) && Crowd(s, hs, q, base, filled, 0, hi) && hi < |hs|
    requires s'.phases == s.phases[hs[hi] := Created(base + hi, Blank)] && s'.issued == s.issued + {base + hi}
    requires s'.table == s.table && s'.quota == s.quota
    ensures Crowd(s', hs, q, base, filled, 0, hi + 1)
  {
    WaitingCreated(s.phases, hs, base, hi);
  }

  lemma InsertStep(s: State, h: nat, id: nat)
    requires h in s.phases && s.phases[h] == Created(id, Blank) && id !in s.table
    ensures var s' := Step(s, Insert(h));
            && s'.phases == s.phases[h := Idle] && s'.issued == s.issued && s'.quota == s.quota
            && s'.table.Keys == s.table.Keys + {id} && |s'.table| == |s.table| + 1
  {
    EnumSafety.MapCards(s.table, id, Blank.(timeStamp := s.now), {});
  }

  lemma CrowdInsert(s: State, hs: seq<nat>, q: nat, base: nat, filled: nat, lo: nat, hi: nat)
    requires Distinct(hs) && Crowd(s, hs, q, base, filled, lo, hi) && lo < hi
    ensures Crowd(Step(s, Insert(hs[lo])), hs, q, base, filled + 1, lo + 1, hi)
  {
    assert s.phases[hs[lo]] == Created(base + lo, Blank) && base + lo !in s.table;
    InsertStep(s, hs[lo], base + lo);
    Shrunk(s, Step(s, Insert(hs[lo])), hs, q, base, filled, lo, hi);
  }

  lemma Shrunk(s: State, s': State, hs: seq<nat>, q: nat, base: nat, filled: nat, lo: nat, hi: nat)
    requires Distinct(hs) && Crowd(s, hs, q, base, filled, lo, hi) && lo < hi
    requires s'.phases == s.phases[hs[lo] := Idle] && s'.issued == s.issued && s'.quota == s.quota
    requires s'.table.Keys == s.table.Keys + {base + lo} && |s'.table| == |s.table| + 1
    ensures Crowd(s', hs, q, base, filled + 1, lo + 1, hi)
  {
    WaitingInserted(s.phases, hs, base, lo, hi);
    assert forall id :: id in s'.table ==> id in s.table.Keys + {base + lo};
  }

  // ---------------------------------------------------------------- runs

  lemma AdmitOne(s0: State, before: seq<Action>, hs: seq<nat>, q: nat, base: nat, filled: nat, hi: nat)
    returns (acts: seq<Action>)
    requires Distinct(hs) && Crowd(RunAll(s0, before), hs, q, base, filled, 0, hi) && hi < |hs| && filled < q
    ensures Crowd(RunAll(s0, acts), hs, q, base, filled, 0, hi + 1)
  {
    CrowdAdmit(RunAll(s0, before), hs, q, base, filled, hi);
    RunOneMore(s0, before, CheckQuota(hs[hi]));
    RunOneMore(s0, before + [CheckQuota(hs[hi])], Create(hs[hi], base + hi, Blank));
    acts := before + [CheckQuota(hs[hi])] + [Create(hs[hi], base + hi, Blank)];
  }

  lemma InsertOne(s0: State, before: seq<Action>, hs: seq<nat>, q: nat, base: nat, filled: nat, lo: nat, hi: nat)
    returns (acts: seq<Action>)
    requires Distinct(hs) && Crowd(RunAll(s0, before), hs, q, base, filled, lo, hi) && lo < hi
    ensures Crowd(RunAll(s0, acts), hs, q, base, filled + 1, lo + 1, hi)
  {
    CrowdInsert(RunAll(s0, before), hs, q, base, filled, lo, hi);
    RunOneMore(s0, before, Insert(hs[lo]));
    acts := before + [Insert(hs[lo])];
  }

  lemma CrowdIdle(s: State, hs: seq<nat>, q: nat, base: nat, filled: nat, lo: nat)
    requires Crowd(s, hs, q, base, filled, lo, lo)
    ensures Crowd(s, hs, q, base + lo, filled, 0, 0)
  {
  }

  /** One handler alone fills the table up to `filled <= Q` contexts. */
  lemma {:induction false} FillAlone(s0: State, hs: seq<nat>, q: nat, filled: nat) returns (acts: seq<Action>)
    requires Distinct(hs) && Crowd(s0, hs, q, 0, 0, 0, 0) && hs != [] && filled <= q
    ensures Crowd(RunAll(s0, acts), hs, q, filled, filled, 0, 0)
  {
    acts := [];
    if filled > 0 {
      var before := FillAlone(s0, hs, q, filled - 1);
      var mid := AdmitOne(s0, before, hs, q, filled - 1, filled - 1, 0);
      acts := InsertOne(s0, mid, hs, q, filled - 1, filled - 1, 0, 1);
      CrowdIdle(RunAll(s0, acts), hs, q, filled - 1, filled, 1);
    }
  }

  /** `hi` handlers pass the quota check before any of them inserts … */
  lemma {:induction false} AdmitMany(s0: State, hs: seq<nat>, q: nat, base: nat, filled: nat, hi: nat)
    returns (acts: seq<Action>)
    requires Distinct(hs) && Crowd(s0, hs, q, base, filled, 0, 0) && filled < q && hi <= |hs|
    ensures Crowd(RunAll(s0, acts), hs, q, base, filled, 0, hi)
  {
    acts := [];
    if hi > 0 {
      var before := AdmitMany(s0, hs, q, base, filled, hi - 1);
      acts := AdmitOne(s0, before, hs, q, base, filled, hi - 1);
    }
  }

  /** … and then all insert. */
  lemma {:induction false} InsertMany(s0: State, hs: seq<nat>, q: nat, base: nat, filled: nat, lo: nat)
    returns (acts: seq<Action>)
    requires Distinct(hs) && Crowd(s0, hs, q, base, filled, 0, |hs|) && lo <= |hs|
    ensures Crowd(RunAll(s0, acts), hs, q, base, filled + lo, lo, |hs|)
  {
    acts := [];
    if lo > 0 {
      var before := InsertMany(s0, hs, q, base, filled, lo - 1);
      acts := InsertOne(s0, before, hs, q, base, filled + lo - 1, lo - 1, |hs|);
    }
  }

  lemma {:induction false} RunTogether(s: State, acts: seq<Action>, more: seq<Action>)
    ensures RunAll(s, acts + more) == RunAll(RunAll(s, acts), more)
  {
    if more == [] {
      assert acts + more == acts;
    } else {
      var n := |more| - 1;
      RunTogether(s, acts, more[..n]);
      assert acts + more == (acts + more[..n]) + [more[n]];
      RunOneMore(s, acts + more[..n], more[n]);
    }
  }

  lemma {:induction false} Listing(xs: set<nat>) returns (s: seq<nat>)
    ensures Distinct(s) && Elements(s) == xs && |s| == |xs|
  {
    s := [];
    if x :| x in xs {
      var t := Listing(xs - {x});
      assert x !in Elements(t);
      s := t + [x];
      assert Elements(s) == Elements(t) + {x};
    }
  }

  // ---------------------------------------------------------------- theorems

  /** With any handlers, at least one, and any quota `q > 0`, some run fills the table with
      `q - 1 + N` contexts: the bound of `EnumSafety.QuotaRespected` is exact. */
  lemma QuotaBoundReached(handlers: set<nat>, q: nat, idle: nat) returns (acts: seq<Action>)
    requires handlers != {} && q > 0
    ensures |RunAll(Start(handlers, Some(q), idle), acts).table| == q - 1 + |handlers|
  {
    var s0 := Start(handlers, Some(q), idle);
    var hs := Listing(handlers);
    assert forall i :: 0 <= i < |hs| ==> hs[i] in Elements(hs);
    var fill := FillAlone(s0, hs, q, q - 1);
    var s1 := RunAll(s0, fill);
    var admit := AdmitMany(s1, hs, q, q - 1, q - 1, |hs|);
    var s2 := RunAll(s1, admit);
    var insert := InsertMany(s2, hs, q, q - 1, q - 1, |hs|);
    RunTogether(s0, fill, admit);
    RunTogether(s0, fill + admit, insert);
    acts := fill + admit + insert;
  }

  /** The quota itself is kept in every run exactly when it is 0 or there is at most one handler. */
  lemma QuotaKeptExactly(handlers: set<nat>, q: nat, idle: nat)
    ensures (forall acts :: |RunAll(Start(handlers, Some(q), idle), acts).table| <= q) <==> q == 0 || |handlers| <= 1
  {
    if q == 0 || |handlers| <= 1 {
      forall acts ensures |RunAll(Start(handlers, Some(q), idle), acts).table| <= q {
        EnumSafety.QuotaRespected(handlers, q, idle, acts);
      }
    } else {
      var acts := QuotaBoundReached(handlers, q, idle);
      assert |RunAll(Start(handlers, Some(q), idle), acts).table| > q;
    }
  }
}
