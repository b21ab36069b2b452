/** Enumerate, Pull and Release end to end: the server stubs (src/lib/wsman-soap.c) around an
    abstract plugin, and the client's pull loop (src/lib/wsman-client.c). */
module PullLoop {
  import opened Basics
  import opened EnumContexts
  import opened EnumTable

  /** The EnumerationContext element of a response. */
  datatype Token = Absent | Empty | Id(id: nat)

  datatype Response<T> = Items(items: seq<T>, context: Token) | FaultDoc

  /** What the callback has been handed. */
  function Delivered<T>(docs: seq<Response<T>>): seq<T> {
    if docs == [] then []
    else
      var n := |docs| - 1;
      Delivered(docs[..n]) + if docs[n].Items? then docs[n].items else []
  }

  lemma DeliveredLast<T>(docs: seq<Response<T>>, doc: Response<T>)
    ensures Delivered(docs + [doc]) == Delivered(docs) + if doc.Items? then doc.items else []
  {
    assert (docs + [doc])[..|docs|] == docs;
  }

  /** A context from which a Pull can be served. */
  ghost predicate Ready<T>(e: EnumInfo<T>)
    reads e
  {
    e.results == [] || e.index < |e.results|
  }

  /** `items` is a batch of `results` from position `index` on: at least one of them, at most
      `max`; none when there are none at all. */
  ghost predicate Batch<T>(results: seq<T>, index: nat, max: nat, items: seq<T>) {
    if results == [] then items == []
    else 1 <= |items| <= max && index + |items| <= |results| && items == results[index..index + |items|]
  }

  lemma BatchExtends<T>(results: seq<T>, got: seq<T>, max: nat, items: seq<T>)
    requires got <= results && Batch(results, |got|, max, items)
    ensures got + items <= results
    ensures |got| + |items| >= |results| ==> got + items == results
  {
  }

  /** A plugin's Pull endpoint: how many items, and whether it `fails`, is up to the plugin.  It
      leaves the cursor on the last item it delivers. */
  method PullEndpoint<T>(e: EnumInfo<T>, max: nat, fails: bool) returns (items: seq<T>, failed: bool)
    requires Ready(e) && max > 0
    modifies e`index
    ensures failed == fails
    ensures !failed ==> Batch(e.results, old(e.index), max, items)
    ensures !failed ==> e.index == if e.results == [] then old(e.index) else old(e.index) + |items| - 1
    ensures failed ==> e.index == old(e.index)
  {
    items, failed := [], fails;
    if !failed && e.results != [] {
      var k: nat :| 1 <= k <= max && e.index + k <= |e.results|;
      items := e.results[e.index..e.index + k];
      e.index := e.index + k - 1;
    }
  }

  /** The endpoint part of an Enumerate: with `immediate` the plugin answers an optimized
      Enumerate with a first batch, and the stub steps over it. */
  method EnumerateEndpoint<T>(e: EnumInfo<T>, immediate: bool, max: nat, fails: bool)
    returns (items: seq<T>, failed: bool)
    requires e.index == 0 && max > 0
    modifies e`index
    ensures failed == fails
    ensures !failed ==> if immediate then Batch(e.results, 0, max, items) else items == []
    ensures !failed && e.results != [] ==> e.index == |items|
    ensures !failed && !immediate ==> e.index == 0
  {
    items, failed := [], fails;
    if immediate {
      items, failed := PullEndpoint(e, max, fails);
      if !failed { e.index := e.index + 1; }
    }
  }

  /** The end of an Enumerate: unless everything has been delivered already, the context is inserted. */
  method FinishEnumerate<T>(soapCntx: Context<T>, enumInfo: EnumInfo<T>, items: seq<T>, now: nat)
    returns (doc: Response<T>)
    requires soapCntx.Valid() && enumInfo.enumId !in soapCntx.enuminfos
    requires |items| <= |enumInfo.results| && (enumInfo.results != [] ==> enumInfo.index == |items|)
    modifies soapCntx`enuminfos, enumInfo`timeStamp
    ensures soapCntx.Valid() && doc.Items? && doc.items == items
    ensures doc.context == if enumInfo.optimized && |items| == |enumInfo.results| then Empty else Id(enumInfo.enumId)
    ensures doc.context.Id? ==> enumInfo.timeStamp == now
    ensures soapCntx.enuminfos == if doc.context.Id? then old(soapCntx.enuminfos)[enumInfo.enumId := enumInfo]
                                  else old(soapCntx.enuminfos)
  {
    if enumInfo.optimized && (|enumInfo.results| == 0 || enumInfo.index == |enumInfo.results|) {
      return Items(items, Empty);
    }
    soapCntx.InsertEnumInfo(enumInfo, now);
    doc := Items(items, Id(enumInfo.enumId));
  }

  /** `wsenum_enumerate_stub`.  `id` comes from `generate_uuid`. */
  method EnumerateStub<T>(soapCntx: Context<T>, quota: Option<nat>, id: nat, expires: nat, results: seq<T>,
                          optimized: bool, immediate: bool, max: nat, now: nat, fails: bool)
    returns (doc: Response<T>, ghost e: EnumInfo?<T>)
    requires soapCntx.Valid() && id !in soapCntx.enuminfos
    requires max > 0 && (immediate ==> optimized)
    modifies soapCntx`enuminfos
    ensures soapCntx.Valid() && (e != null ==> fresh(e))
    ensures doc.FaultDoc? <==> (quota.Some? && |old(soapCntx.enuminfos)| >= quota.value) || fails
    ensures doc.FaultDoc? || !doc.context.Id? ==> soapCntx.enuminfos == old(soapCntx.enuminfos)
    ensures doc.Items? ==> if immediate then Batch(results, 0, max, doc.items) else doc.items == []
    ensures doc.Items? ==> (doc.context.Id? <==> !(optimized && doc.items == results))
    ensures doc.Items? && !doc.context.Id? ==> doc.context == Empty
    ensures doc.Items? && doc.context.Id? ==>
      && e != null && e.results == results
      && doc.context.id == id && soapCntx.enuminfos == old(soapCntx.enuminfos)[id := e]
      && e.Val() == Info(false, now, expires, |results|, |doc.items|) && Ready(e)
  {
    var total := soapCntx.GetTotal();
    if quota.Some? && total >= quota.value { return FaultDoc, null; }
    var releaseproc: bool := *;
    var enumInfo := new EnumInfo(id, expires, results, optimized, releaseproc);
    e := enumInfo;
    var items, failed := EnumerateEndpoint(enumInfo, immediate, max, fails);
    if failed { return FaultDoc, e; }
    doc := FinishEnumerate(soapCntx, enumInfo, items, now);
  }

  /** `get_locked_enuminfo` would hand the context out. */
  ghost predicate Grants<T>(soapCntx: Context<T>, enumId: Option<nat>, verified: bool)
    reads soapCntx, soapCntx.Named(enumId)
  {
    verified && enumId.Some? && enumId.value in soapCntx.enuminfos && !soapCntx.enuminfos[enumId.value].inWork
  }

  /** `wsenum_pull_direct_stub` on an enumeration. */
  method PullDirectStub<T>(soapCntx: Context<T>, enumId: Option<nat>, verified: bool, max: nat, stamp: nat, fails: bool)
    returns (doc: Response<T>)
    requires soapCntx.Valid() && max > 0
    requires enumId.Some? && enumId.value in soapCntx.enuminfos ==> Ready(soapCntx.enuminfos[enumId.value])
    modifies soapCntx`enuminfos, soapCntx.Named(enumId)
    ensures soapCntx.Valid()
    ensures doc.FaultDoc? <==> !old(Grants(soapCntx, enumId, verified)) || fails
    ensures !old(Grants(soapCntx, enumId, verified)) ==>
      soapCntx.enuminfos == old(soapCntx.enuminfos) && unchanged(old(soapCntx.Named(enumId)))
    ensures old(Grants(soapCntx, enumId, verified)) ==>
      var e := old(soapCntx.enuminfos)[enumId.value];
      var was := old(soapCntx.enuminfos[enumId.value].Val());
      && (doc.FaultDoc? ==> soapCntx.enuminfos == old(soapCntx.enuminfos) && e.Val() == was.(timeStamp := stamp))
      && (doc.Items? ==> Batch(e.results, was.index, max, doc.items))
      && (doc.Items? && was.index + |doc.items| >= |e.results| ==>
            doc.context == Absent && soapCntx.enuminfos == old(soapCntx.enuminfos) - {enumId.value})
      && (doc.Items? && was.index + |doc.items| < |e.results| ==>
            && doc.context == Id(enumId.value) && soapCntx.enuminfos == old(soapCntx.enuminfos)
            && e.Val() == was.(timeStamp := stamp, index := was.index + |doc.items|))
  {
    var enumInfo, _ := soapCntx.GetLockedEnumInfo(enumId, verified);
    if enumInfo == null { return FaultDoc; }
    var items, failed := PullEndpoint(enumInfo, max, fails);
    if failed {
      soapCntx.UnlockEnumInfo(enumInfo, stamp);
      return FaultDoc;
    }
    enumInfo.index := enumInfo.index + 1;
    if |enumInfo.results| == 0 || enumInfo.index == |enumInfo.results| {
      soapCntx.RemoveLockedEnumInfo(enumInfo);
      return Items(items, Absent);
    }
    soapCntx.UnlockEnumInfo(enumInfo, stamp);
    doc := Items(items, Id(enumInfo.enumId));
  }

  /** `wsenum_release_stub`. */
  method ReleaseStub<T>(soapCntx: Context<T>, enumId: Option<nat>, verified: bool, stamp: nat, fails: bool)
    returns (released: bool)
    requires soapCntx.Valid()
    modifies soapCntx`enuminfos, soapCntx.Named(enumId)
    ensures soapCntx.Valid()
    ensures released <==> old(Grants(soapCntx, enumId, verified)) && !fails
    ensures released ==> soapCntx.enuminfos == old(soapCntx.enuminfos) - {enumId.value}
    ensures !released ==> soapCntx.enuminfos == old(soapCntx.enuminfos)
    ensures !released && !old(Grants(soapCntx, enumId, verified)) ==> unchanged(old(soapCntx.Named(enumId)))
    ensures !released && old(Grants(soapCntx, enumId, verified)) ==>
      soapCntx.enuminfos[enumId.value].Val() == old(soapCntx.enuminfos[enumId.value].Val()).(timeStamp := stamp)
  {
    var enumInfo, _ := soapCntx.GetLockedEnumInfo(enumId, verified);
    if enumInfo == null { return false; }
    if fails {
      soapCntx.UnlockEnumInfo(enumInfo, stamp);
      return false;
    }
    soapCntx.RemoveLockedEnumInfo(enumInfo);
    return true;
  }

  /** `wsmc_get_enum_context`: a fault has no context element. */
  function GetEnumContext<T>(doc: Response<T>): Token {
    if doc.Items? then doc.context else Absent
  }

  /** Between two requests of the loop: either the server still holds the context `e`, unlocked
      and with its cursor after what has been delivered, or it holds nothing any more. */
  ghost predicate Between<T>(table: map<nat, EnumInfo<T>>, others: map<nat, EnumInfo<T>>, id: nat, e: EnumInfo?<T>,
                             results: seq<T>, docs: seq<Response<T>>)
    requires docs != []
    reads e
  {
    var doc, got := docs[|docs| - 1], Delivered(docs);
    if doc.FaultDoc? then
      got <= results && (table == others || (e != null && table == others[id := e] && !e.inWork))
    else if doc.context.Id? then
      && doc.context.id == id && e != null && table == others[id := e] && e.results == results && Ready(e)
      && !e.inWork && e.index == |got| && got <= results
    else
      table == others && got == results
  }

  /** The request before the loop. */
  method EnumerateFirst<T>(soapCntx: Context<T>, quota: Option<nat>, id: nat, expires: nat, results: seq<T>,
                           optimized: bool, immediate: bool, max: nat, fails: bool)
    returns (doc: Response<T>, ghost e: EnumInfo?<T>)
    requires soapCntx.Valid() && id !in soapCntx.enuminfos
    requires max > 0 && (immediate ==> optimized)
    modifies soapCntx`enuminfos
    ensures soapCntx.Valid() && (e != null ==> fresh(e))
    ensures Between(soapCntx.enuminfos, old(soapCntx.enuminfos), id, e, results, [doc])
    ensures doc.FaultDoc? <==> (quota.Some? && |old(soapCntx.enuminfos)| >= quota.value) || fails
  {
    var now: nat := *;
    doc, e := EnumerateStub(soapCntx, quota, id, expires, results, optimized, immediate, max, now, fails);
    DeliveredLast([], doc);
  }

  /** One turn of the loop. */
  method PullNext<T>(soapCntx: Context<T>, ghost others: map<nat, EnumInfo<T>>, id: nat, ghost e: EnumInfo<T>,
                     ghost results: seq<T>, docs: seq<Response<T>>, max: nat, fails: bool)
    returns (doc: Response<T>)
    requires soapCntx.Valid() && max > 0 && docs != [] && GetEnumContext(docs[|docs| - 1]) == Id(id)
    requires Between(soapCntx.enuminfos, others, id, e, results, docs) && id !in others
    modifies soapCntx`enuminfos, e
    ensures soapCntx.Valid() && Between(soapCntx.enuminfos, others, id, e, results, docs + [doc])
    ensures doc.FaultDoc? <==> fails
    ensures GetEnumContext(doc).Id? ==> |Delivered(docs)| < |Delivered(docs + [doc])| <= |results|
    ensures |Delivered(docs)| <= |Delivered(docs + [doc])| <= |results|
  {
    var stamp: nat := *;
    doc := PullDirectStub(soapCntx, Some(id), true, max, stamp, fails);
    DeliveredLast(docs, doc);
    if doc.Items? { BatchExtends(results, Delivered(docs), max, doc.items); }
    assert others[id := e] - {id} == others;
  }

  /** What the documents so far say: only the last may be a fault, and is one exactly if the
      request was refused or the plugin failed; all but the first and the last brought something. */
  ghost predicate Told<T>(docs: seq<Response<T>>, admitted: bool, fails: nat -> bool) {
    && docs != []
    && (forall k :: 0 <= k < |docs| - 1 ==> docs[k].Items? && !fails(k))
    && (docs[|docs| - 1].FaultDoc? <==> fails(|docs| - 1) || !admitted)
    && |docs| <= |Delivered(docs)| + if GetEnumContext(docs[|docs| - 1]).Id? then 1 else 2
  }

  lemma ToldNext<T>(docs: seq<Response<T>>, doc: Response<T>, admitted: bool, fails: nat -> bool)
    requires Told(docs, admitted, fails) && GetEnumContext(docs[|docs| - 1]).Id?
    requires doc.FaultDoc? <==> fails(|docs|)
    requires |Delivered(docs)| + (if GetEnumContext(doc).Id? then 1 else 0) <= |Delivered(docs + [doc])|
    ensures Told(docs + [doc], admitted, fails)
  {
    assert !fails(|docs| - 1) && admitted;
  }

  /** `wsmc_action_enumerate_and_pull`, every response handed to the callback: without a fault
      the documents together hold every item of the server's sequence once and in order, and the
      server keeps nothing; a fault, over quota or because the plugin `fails` at that request,
      ends the loop with a prefix delivered. */
  method EnumerateAndPull<T>(soapCntx: Context<T>, quota: Option<nat>, id: nat, expires: nat, results: seq<T>,
                             optimized: bool, immediate: bool, max: nat, fails: nat -> bool)
    returns (docs: seq<Response<T>>)
    requires soapCntx.Valid() && id !in soapCntx.enuminfos
    requires max > 0 && (immediate ==> optimized)
    modifies soapCntx`enuminfos
    ensures soapCntx.Valid()
    ensures 0 < |docs| <= |results| + 2
    ensures forall k :: 0 <= k < |docs| - 1 ==> docs[k].Items? && !fails(k)
    ensures docs[|docs| - 1].FaultDoc? <==>
              fails(|docs| - 1) || (quota.Some? && |old(soapCntx.enuminfos)| >= quota.value)
    ensures docs[|docs| - 1].Items? ==> Delivered(docs) == results && soapCntx.enuminfos == old(soapCntx.enuminfos)
    ensures docs[|docs| - 1].FaultDoc? ==> Delivered(docs) <= results
    ensures docs[|docs| - 1].FaultDoc? ==> soapCntx.enuminfos - {id} == old(soapCntx.enuminfos)
  {
    var doc, e := EnumerateFirst(soapCntx, quota, id, expires, results, optimized, immediate, max, fails(0));
    ghost var admitted := quota.None? || |old(soapCntx.enuminfos)| < quota.value;
    docs := [doc];
    var enumContext := GetEnumContext(doc);
    while enumContext.Id?
      invariant soapCntx.Valid() && (e != null ==> fresh(e))
      invariant Told(docs, admitted, fails) && enumContext == GetEnumContext(docs[|docs| - 1])
      invariant Between(soapCntx.enuminfos, old(soapCntx.enuminfos), id, e, results, docs)
      decreases |results| + 1 - |Delivered(docs)|, enumContext.Id?
    {
      doc := PullNext(soapCntx, old(soapCntx.enuminfos), enumContext.id, e, results, docs, max, fails(|docs|));
      ToldNext(docs, doc, admitted, fails);
      docs := docs + [doc];
      enumContext := GetEnumContext(doc);
    }
  }
}
