/** The code behind the enumeration machine: the hash table of contexts, the stubs that work on it
    and the client's pull loop (src/lib/wsman-soap.c, src/lib/wsman-client.c), in place. */
module EnumTable {
  import opened Basics
  import opened EnumContexts

  /** struct __WsEnumerateInfo; `results` is the sequence its plugin enumerates. */
  class EnumInfo<T> {
    const enumId: nat
    const expires: nat
    const results: seq<T>
    const optimized: bool   // WSMAN_ENUMINFO_OPT
    const releaseproc: bool // there is a release procedure
    var inWork: bool        // WSMAN_ENUMINFO_INWORK_FLAG
    var timeStamp: nat
    var index: nat

    ghost function Val(): Info
      reads this
    {
      Info(inWork, timeStamp, expires, |results|, index)
    }

    constructor (id: nat, expires: nat, results: seq<T>, optimized: bool, releaseproc: bool)
      ensures enumId == id && this.results == results && this.optimized == optimized
      ensures Val() == Info(false, 0, expires, |results|, 0)
    {
      enumId, this.expires, this.results, this.optimized := id, expires, results, optimized;
      this.releaseproc := releaseproc;
      inWork, timeStamp, index := false, 0, 0;
    }
  }

  /** What the timeout manager does with an expired context. */
  datatype Disposal<T> = Release(info: EnumInfo<T>) | Dispose(info: EnumInfo<T>)

  /** Each context is released, if there is a procedure for it, and then destroyed. */
  function Disposals<T>(list: seq<EnumInfo<T>>): seq<Disposal<T>> {
    if list == [] then []
    else
      var e := list[|list| - 1];
      Disposals(list[..|list| - 1]) + (if e.releaseproc then [Release(e)] else []) + [Dispose(e)]
  }

  function Disposed<T>(log: seq<Disposal<T>>): seq<EnumInfo<T>> {
    if log == [] then []
    else
      var last := log[|log| - 1];
      Disposed(log[..|log| - 1]) + if last.Dispose? then [last.info] else []
  }

  /** Read from the end, the log is one destruction after the other, each right behind a release of
      the same context exactly if that has a release procedure. */
  ghost predicate ReleasedFirst<T>(log: seq<Disposal<T>>) {
    log == [] ||
    var n := |log| - 1;
    && log[n].Dispose?
    && if log[n].info.releaseproc then n > 0 && log[n - 1] == Release(log[n].info) && ReleasedFirst(log[..n - 1])
       else ReleasedFirst(log[..n])
  }

  lemma DisposedLast<T>(log: seq<Disposal<T>>, d: Disposal<T>)
    ensures Disposed(log + [d]) == Disposed(log) + if d.Dispose? then [d.info] else []
  {
    assert (log + [d])[..|log|] == log;
  }

  lemma {:induction false} ReleasedFirstNext<T>(log: seq<Disposal<T>>, e: EnumInfo<T>)
    requires ReleasedFirst(log)
    ensures ReleasedFirst(log + (if e.releaseproc then [Release(e)] else []) + [Dispose(e)])
  {
    var all := log + (if e.releaseproc then [Release(e)] else []) + [Dispose(e)];
    assert all[..|log|] == log;
  }

  lemma {:induction false} DisposedNext<T>(log: seq<Disposal<T>>, e: EnumInfo<T>)
    ensures Disposed(log + (if e.releaseproc then [Release(e)] else []) + [Dispose(e)]) == Disposed(log) + [e]
  {
    if e.releaseproc {
      DisposedLast(log, Release(e));
      DisposedLast(log + [Release(e)], Dispose(e));
    } else {
      assert log + [] == log;
      DisposedLast(log, Dispose(e));
    }
  }

  /** Every context is destroyed, once and in order, and released right before exactly if it has a
      procedure for that. */
  lemma {:induction false} DisposalsExactly<T>(list: seq<EnumInfo<T>>)
    ensures Disposed(Disposals(list)) == list && ReleasedFirst(Disposals(list))
  {
    if list != [] {
      var n := |list| - 1;
      DisposalsExactly(list[..n]);
      ReleasedFirstNext(Disposals(list[..n]), list[n]);
      DisposedNext(Disposals(list[..n]), list[n]);
    }
  }

  datatype Fault = Ok | InvalidContext | Concurrency | NotVerified

  class Context<T> {
    var enuminfos: map<nat, EnumInfo<T>>
    var enumIdleTimeout: nat

    ghost predicate Valid()
      reads this, enuminfos.Values
    {
      forall id :: id in enuminfos ==> enuminfos[id].enumId == id
    }

    ghost function View(): Table
      reads this, enuminfos.Values
    {
      map id | id in enuminfos :: enuminfos[id].Val()
    }

    /** The context that `enumId` names, if any. */
    ghost function Named(enumId: Option<nat>): set<EnumInfo<T>>
      reads this
    {
      if enumId.Some? && enumId.value in enuminfos then {enuminfos[enumId.value]} else {}
    }

    constructor (timeout: nat)
      ensures Valid() && View() == map[] && enumIdleTimeout == timeout
    {
      enuminfos, enumIdleTimeout := map[], timeout;
    }

    method GetTotal() returns (total: nat)
      ensures total == |View()| == |enuminfos|
    {
      total := |enuminfos|;
      assert View().Keys == enuminfos.Keys;
      assert |View()| == |View().Keys| && |enuminfos| == |enuminfos.Keys|;
    }

    method InsertEnumInfo(e: EnumInfo<T>, now: nat)
      requires Valid() && e.enumId !in enuminfos
      modifies this`enuminfos, e`timeStamp
      ensures Valid()
      ensures enuminfos == old(enuminfos)[e.enumId := e] && e.timeStamp == now
      ensures View() == Inserted(old(View()), e.enumId, old(e.Val()), now)
    {
      e.timeStamp := now;
      enuminfos := enuminfos[e.enumId := e];
    }

    /** `verified` is the answer of `wsman_verify_enum_info`. */
    method GetLockedEnumInfo(enumId: Option<nat>, verified: bool) returns (e: EnumInfo?<T>, fault: Fault)
      requires Valid()
      modifies Named(enumId)`inWork
      ensures Valid() && enuminfos == old(enuminfos)
      ensures e != null <==> enumId.Some? && Lockable(old(View()), enumId.value) && verified
      ensures e != null <==> fault == Ok
      ensures e != null ==> enumId.value in enuminfos && e == enuminfos[enumId.value] && e.inWork
      ensures e != null ==> View() == Locked(old(View()), enumId.value)
      ensures e == null ==> View() == old(View()) && unchanged(old(Named(enumId)))
      ensures enumId.Some? && enumId.value in enuminfos && verified && old(View())[enumId.value].inWork ==>
                fault == Concurrency
      ensures enumId.None? || enumId.value !in enuminfos ==> fault == InvalidContext
    {
      if enumId.None? || enumId.value !in enuminfos {
        return null, InvalidContext;
      }
      var eInfo := enuminfos[enumId.value];
      if !verified { return null, NotVerified; }
      if eInfo.inWork { return null, Concurrency; }
      eInfo.inWork := true;
      return eInfo, Ok;
    }

    /** `stamp` has been read from the clock before the lock. */
    method UnlockEnumInfo(e: EnumInfo<T>, stamp: nat)
      requires Valid() && e.enumId in enuminfos && enuminfos[e.enumId] == e
      modifies e`inWork, e`timeStamp
      ensures Valid() && View() == Unlocked(old(View()), e.enumId, stamp)
      ensures !e.inWork && (old(e.inWork) ==> e.timeStamp == stamp)
    {
      if !e.inWork { return; }
      e.inWork := false;
      e.timeStamp := stamp;
    }

    method RemoveLockedEnumInfo(e: EnumInfo<T>)
      requires Valid() && e.enumId in enuminfos && enuminfos[e.enumId] == e
      modifies this`enuminfos
      ensures Valid()
      ensures enuminfos == if e.inWork then old(enuminfos) - {e.enumId} else old(enuminfos)
      ensures View() == RemovedLocked(old(View()), e.enumId)
    {
      if !e.inWork { return; }
      enuminfos := enuminfos - {e.enumId};
    }

    /** The test a sweep makes of one context. */
    method IsExpired(enumInfo: EnumInfo<T>, mytime: nat) returns (expired: bool)
      ensures expired <==> !enumInfo.inWork && !Fresh(enumInfo.Val(), enumIdleTimeout, mytime)
      ensures expired <==>
        && !enumInfo.inWork
        && (enumInfo.timeStamp + enumIdleTimeout <= mytime || 0 < enumInfo.expires <= mytime)
    {
      if enumInfo.inWork { return false; }
      if enumInfo.timeStamp + enumIdleTimeout > mytime && (enumInfo.expires == 0 || enumInfo.expires > mytime) {
        return false;
      }
      return true;
    }

    /** The scan of the table in hash order, which moves every expired context to `list`. */
    method ScanExpired(mytime: nat, scan: seq<nat>, ghost stale: set<nat>)
      returns (list: seq<EnumInfo<T>>, ghost ids: seq<nat>)
      requires Distinct(scan) && forall id :: id in scan ==> id in enuminfos
      requires forall id :: id in scan ==> enuminfos[id].enumId == id
      requires forall id :: id in scan ==>
        (id in stale <==> !enuminfos[id].inWork && !Fresh(enuminfos[id].Val(), enumIdleTimeout, mytime))
      modifies this`enuminfos
      ensures ids == Taken(scan, stale) && enuminfos == old(enuminfos) - Elements(ids)
      ensures |list| == |ids|
      ensures forall k :: 0 <= k < |ids| ==> ids[k] in old(enuminfos) && list[k] == old(enuminfos)[ids[k]]
    {
      list, ids := [], [];
      ghost var all := enuminfos;
      var i := 0;
      while i < |scan|
        invariant i <= |scan|
        invariant ids == Taken(scan[..i], stale) && |list| == |ids|
        invariant forall k :: 0 <= k < |ids| ==> ids[k] in all && list[k] == all[ids[k]]
        invariant enuminfos == all - Elements(ids)
      {
        ScanNext(scan, i, stale);
        var enumInfo := enuminfos[scan[i]];
        var expired := IsExpired(enumInfo, mytime);
        if expired {
          RemoveOneMore(all, ids, enumInfo.enumId);
          enuminfos := enuminfos - {enumInfo.enumId};
          list, ids := list + [enumInfo], ids + [enumInfo.enumId];
        }
        i := i + 1;
      }
      assert scan[..i] == scan;
    }

    /** The lock section of a sweep. */
    method TakeStale(mytime: nat, scan: seq<nat>) returns (list: seq<EnumInfo<T>>, ghost ids: seq<nat>)
      requires Valid() && ListsOnce(scan, enuminfos.Keys)
      modifies this`enuminfos
      ensures Valid() && |list| == |ids| && ListsOnce(ids, Stale(old(View()), enumIdleTimeout, mytime))
      ensures forall k :: 0 <= k < |ids| ==> ids[k] in old(enuminfos) && list[k] == old(enuminfos)[ids[k]]
      ensures View() == old(View()) - Stale(old(View()), enumIdleTimeout, mytime)
    {
      ghost var stale := Stale(View(), enumIdleTimeout, mytime);
      forall id ensures id in scan <==> id in enuminfos { assert id in scan <==> id in Elements(scan); }
      list, ids := ScanExpired(mytime, scan, stale);
      TakenLists(scan, stale);
    }

    /** `wsman_get_expired_enuminfos`: takes out what is neither in work nor fresh; the table is
        split exactly in two. */
    method GetExpiredEnumInfos(mytime: nat, scan: seq<nat>) returns (list: seq<EnumInfo<T>>, ghost ids: seq<nat>)
      requires Valid() && ListsOnce(scan, enuminfos.Keys)
      modifies this`enuminfos
      ensures Valid()
      ensures |list| == |ids|
      ensures forall k :: 0 <= k < |ids| ==> ids[k] in old(enuminfos) && list[k] == old(enuminfos)[ids[k]]
      ensures ListsOnce(ids, if enumIdleTimeout == 0 then {} else Stale(old(View()), enumIdleTimeout, mytime))
      ensures View() == old(View()) - Elements(ids)
      ensures if enumIdleTimeout == 0 then View() == old(View())
              else SweptExactly(old(View()), View(), enumIdleTimeout, mytime)
    {
      list, ids := [], [];
      if enumIdleTimeout == 0 { return; }
      StaleSplits(View(), enumIdleTimeout, mytime);
      list, ids := TakeStale(mytime, scan);
    }

    /** `wsman_timeouts_manager`: releases and destroys every expired context, once each. */
    method TimeoutsManager(mytime: nat, scan: seq<nat>)
      returns (log: seq<Disposal<T>>, ghost list: seq<EnumInfo<T>>, ghost ids: seq<nat>)
      requires Valid() && ListsOnce(scan, enuminfos.Keys)
      modifies this`enuminfos
      ensures Valid() && log == Disposals(list)
      ensures |list| == |ids|
      ensures forall k :: 0 <= k < |ids| ==> ids[k] in old(enuminfos) && list[k] == old(enuminfos)[ids[k]]
      ensures ListsOnce(ids, if enumIdleTimeout == 0 then {} else Stale(old(View()), enumIdleTimeout, mytime))
      ensures View() == old(View()) - Elements(ids)
      ensures if enumIdleTimeout == 0 then View() == old(View())
              else SweptExactly(old(View()), View(), enumIdleTimeout, mytime)
    {
      var expired;
      expired, ids := GetExpiredEnumInfos(mytime, scan);
      list := expired;
      log := DisposeAll(expired);
    }

    static method DisposeAll(list: seq<EnumInfo<T>>) returns (log: seq<Disposal<T>>)
      ensures log == Disposals(list)
    {
      log := [];
      var rest := list;
      ghost var done := [];
      while rest != []
        invariant done + rest == list && log == Disposals(done)
        decreases |rest|
      {
        var enumInfo := rest[0];
        rest := rest[1..];
        assert (done + [enumInfo])[..|done|] == done;
        if enumInfo.releaseproc { log := log + [Release(enumInfo)]; }
        log := log + [Dispose(enumInfo)];
        done := done + [enumInfo];
      }
      assert done == list;
    }
  }

  /** The part of `scan` that is in `stale`, in order. */
  ghost function Taken(scan: seq<nat>, stale: set<nat>): seq<nat> {
    if scan == [] then []
    else
      var n := |scan| - 1;
      Taken(scan[..n], stale) + if scan[n] in stale then [scan[n]] else []
  }

  lemma TakenLast(scan: seq<nat>, x: nat, stale: set<nat>)
    ensures Taken(scan + [x], stale) == Taken(scan, stale) + if x in stale then [x] else []
  {
    assert (scan + [x])[..|scan|] == scan;
  }

  lemma {:induction false} TakenElements(scan: seq<nat>, stale: set<nat>, x: nat)
    ensures x in Taken(scan, stale) <==> x in scan && x in stale
  {
    if scan != [] {
      var n := |scan| - 1;
      TakenElements(scan[..n], stale, x);
      assert scan == scan[..n] + [scan[n]];
    }
  }

  lemma {:induction false} TakenDistinct(scan: seq<nat>, stale: set<nat>)
    requires Distinct(scan)
    ensures Distinct(Taken(scan, stale))
  {
    if scan != [] {
      var n := |scan| - 1;
      TakenDistinct(scan[..n], stale);
      TakenElements(scan[..n], stale, scan[n]);
    }
  }

  lemma TakenLists(scan: seq<nat>, stale: set<nat>)
    requires Distinct(scan) && stale <= Elements(scan)
    ensures ListsOnce(Taken(scan, stale), stale)
  {
    TakenDistinct(scan, stale);
    forall x ensures x in Elements(Taken(scan, stale)) <==> x in stale {
      TakenElements(scan, stale, x);
      assert x in scan <==> x in Elements(scan);
    }
  }

  /** The context the scan reaches next has not been taken yet. */
  lemma TakenFrom(scan: seq<nat>, i: nat, stale: set<nat>)
    requires Distinct(scan) && i < |scan|
    ensures scan[i] !in Elements(Taken(scan[..i], stale))
  {
    TakenElements(scan[..i], stale, scan[i]);
  }

  lemma RemoveOneMore<V>(m: map<nat, V>, ids: seq<nat>, id: nat)
    ensures m - Elements(ids) - {id} == m - Elements(ids + [id])
  {
    assert Elements(ids + [id]) == Elements(ids) + {id};
  }

  /** The scan goes on to context `scan[i]`. */
  lemma ScanNext(scan: seq<nat>, i: nat, stale: set<nat>)
    requires Distinct(scan) && i < |scan|
    ensures scan[i] !in Elements(Taken(scan[..i], stale))
    ensures Taken(scan[..i + 1], stale) == Taken(scan[..i], stale) + if scan[i] in stale then [scan[i]] else []
  {
    MoveCut(scan, i);
    TakenLast(scan[..i], scan[i], stale);
    TakenFrom(scan, i, stale);
  }
}
