/** Registration of interfaces and the choice of an endpoint for a request (src/lib/wsman-soap.c,
    src/lib/wsman-dispatcher.c). */
module Dispatch {
  import opened Basics

  /** WsDispatchEndPointInfo; endpoints are compared by address. */
  class EndPoint {
    const flags: nat
    const inAction: Option<string>

    constructor (flags: nat, inAction: Option<string>)
      ensures this.flags == flags && this.inAction == inAction
    {
      this.flags, this.inAction := flags, inAction;
    }
  }

  /** WsDispatchInterfaceInfo.  `endPoints` ends before the entry without a service endpoint. */
  datatype Interface = Interface(uri: Option<string>, namespaces: seq<Option<string>>, endPoints: seq<EndPoint>)

  datatype Callback =
    | IdentifyStub | EnumerateStub | ReleaseStub | PullStub | PullDirectStub
    | GetStub | PutStub | DeleteStub | SubscribeStub | UnsubscribeStub | RenewStub
    | Own   // the endpoint's own service procedure

  /** The dispatch types of include/wsman-soap.h that can be registered. */
  function CallbackOf(ep: EndPoint): Option<Callback> {
    match ep.flags % 0x1_0000
    case 17 => Some(IdentifyStub)
    case 5 => Some(EnumerateStub)
    case 7 => Some(ReleaseStub)
    case 4 => Some(DeleteStub)
    case 6 => Some(PullStub)
    case 12 => Some(PullDirectStub)
    case 1 => Some(GetStub)
    case 13 => Some(Own)
    case 19 => Some(Own)
    case 16 => Some(Own)
    case 18 => Some(Own)
    case 2 => Some(PutStub)
    case 22 => Some(SubscribeStub)
    case 23 => Some(UnsubscribeStub)
    case 24 => Some(RenewStub)
    case 0 => Some(Own)
    case 15 => Some(Own)
    case 0xfffe => Some(Own)
    case _ => None
  }

  // The dispatch types of requests that have a stub of their own.
  const GET := 1
  const PUT := 2
  const DELETE := 4
  const ENUMERATE := 5
  const PULL := 6
  const RELEASE := 7
  const DIRECT_PULL := 12
  const IDENTIFY := 17
  const SUBSCRIBE := 22
  const UNSUBSCRIBE := 23
  const RENEW := 24

  /** Each of these goes to its own stub and to no other, whatever the bits above the type. */
  lemma StubsByType(ep: EndPoint)
    ensures var c, t := CallbackOf(ep), ep.flags % 0x1_0000;
      && (c == Some(GetStub) <==> t == GET) && (c == Some(PutStub) <==> t == PUT)
      && (c == Some(DeleteStub) <==> t == DELETE) && (c == Some(EnumerateStub) <==> t == ENUMERATE)
      && (c == Some(PullStub) <==> t == PULL) && (c == Some(PullDirectStub) <==> t == DIRECT_PULL)
      && (c == Some(ReleaseStub) <==> t == RELEASE) && (c == Some(IdentifyStub) <==> t == IDENTIFY)
      && (c == Some(SubscribeStub) <==> t == SUBSCRIBE) && (c == Some(UnsubscribeStub) <==> t == UNSUBSCRIBE)
      && (c == Some(RenewStub) <==> t == RENEW)
      && (c == Some(Own) <==> t in {0, 13, 15, 16, 18, 19, 0xfffe})
  {
  }

  predicate Known(ep: EndPoint) {
    CallbackOf(ep).Some?
  }

  datatype Dispatched = Dispatched(serviceData: EndPoint, callback: Callback)

  datatype Entry = Free | Entry(ep: EndPoint, disp: Dispatched)

  function EntryOf(ep: EndPoint): Entry {
    if Known(ep) then Entry(ep, Dispatched(ep, CallbackOf(ep).value)) else Free
  }

  /** All endpoints of all interfaces, in order. */
  function AllOf(ifcs: seq<Interface>): seq<EndPoint> {
    if ifcs == [] then [] else AllOf(ifcs[..|ifcs| - 1]) + ifcs[|ifcs| - 1].endPoints
  }

  // ---------------------------------------------------------------- the block of memory

  const HEADER := 16      // interfaceCount, mapCount, interfaces
  const SLOT := 16        // one DispatchToEpMap
  const INFO := 32        // WsManDispatcherInfo, which holds one slot

  /** How many slots of the map lie in a block of `size` bytes. */
  function Slots(size: nat): nat {
    if size < HEADER then 0 else (size - HEADER) / SLOT
  }

  function BlockSize(interfaces: nat, endPoints: nat): nat {
    interfaces * INFO + endPoints * SLOT
  }

  /** The block holds the header and all endpoints exactly when there is an interface. */
  lemma BlockSuffices(interfaces: nat, endPoints: nat)
    requires interfaces == 0 ==> endPoints == 0
    ensures HEADER <= BlockSize(interfaces, endPoints) && endPoints <= Slots(BlockSize(interfaces, endPoints))
       <==> interfaces >= 1
    ensures interfaces >= 1 ==> Slots(BlockSize(interfaces, endPoints)) == endPoints + 2 * interfaces - 1
  {
    if interfaces >= 1 {
      assert BlockSize(interfaces, endPoints) - HEADER == SLOT * (endPoints + 2 * interfaces - 1);
    }
  }

  /** `calculate_map_count`. */
  method CalculateMapCount(ifcs: seq<Interface>) returns (size: nat)
    ensures size == BlockSize(|ifcs|, |AllOf(ifcs)|)
  {
    var count, i := 0, 0;
    while i < |ifcs|
      invariant i <= |ifcs| && count == |AllOf(ifcs[..i])|
    {
      assert ifcs[..i + 1][..i] == ifcs[..i];
      var j := 0;
      while j < |ifcs[i].endPoints|
        invariant j <= |ifcs[i].endPoints| && count == |AllOf(ifcs[..i])| + j
      {
        count, j := count + 1, j + 1;
      }
      i := i + 1;
    }
    assert ifcs[..i] == ifcs;
    return |ifcs| * INFO + count * SLOT;
  }

  // ---------------------------------------------------------------- registration

  lemma Extend(before: seq<EndPoint>, eps: seq<EndPoint>, i: nat)
    requires i < |eps|
    ensures before + eps[..i] + [eps[i]] == before + eps[..i + 1]
  {
    MoveCut(eps, i);
  }

  /** WsManDispatcherInfo; `map` is as long as its block of memory allows. */
  class DispInfo {
    const map_: array<Entry>
    var mapCount: nat

    constructor (size: nat)
      ensures fresh(map_) && map_.Length == Slots(size) && mapCount == 0
    {
      map_ := new Entry[Slots(size)](_ => Free);
      mapCount := 0;
    }

    /** The map holds exactly `eps`, in order. */
    ghost predicate Holds(eps: seq<EndPoint>)
      reads this, map_
    {
      mapCount == |eps| <= map_.Length && forall i :: 0 <= i < |eps| ==> map_[i] == EntryOf(eps[i])
    }

    /** `wsman_register_endpoint`. */
    method RegisterEndpoint(ep: EndPoint, ghost before: seq<EndPoint>) returns (retVal: int)
      requires Holds(before) && mapCount < map_.Length
      modifies this, map_
      ensures retVal == if Known(ep) then 0 else 1
      ensures Holds(if Known(ep) then before + [ep] else before)
    {
      var callbackProc := CallbackOf(ep);
      if callbackProc.None? { return 1; }
      map_[mapCount] := Entry(ep, Dispatched(ep, callbackProc.value));
      mapCount := mapCount + 1;
      return 0;
    }

    /** `wsman_register_interface`. */
    method RegisterInterface(ifc: Interface, ghost before: seq<EndPoint>) returns (retVal: int)
      requires Holds(before) && mapCount + |ifc.endPoints| <= map_.Length
      modifies this, map_
      ensures retVal == 0 <==> forall ep :: ep in ifc.endPoints ==> Known(ep)
      ensures retVal == 0 ==> Holds(before + ifc.endPoints)
    {
      var eps, i := ifc.endPoints, 0;
      while i < |eps|
        invariant i <= |eps| && Holds(before + eps[..i])
        invariant forall k :: 0 <= k < i ==> Known(eps[k])
      {
        retVal := RegisterEndpoint(eps[i], before + eps[..i]);
        if retVal != 0 { return; }
        Extend(before, eps, i);
        i := i + 1;
      }
      assert eps[..i] == eps;
      return 0;
    }
  }

  lemma {:induction false} AllOfPrefix(ifcs: seq<Interface>, i: nat)
    requires i < |ifcs|
    ensures AllOf(ifcs[..i + 1]) == AllOf(ifcs[..i]) + ifcs[i].endPoints
    ensures |AllOf(ifcs[..i + 1])| <= |AllOf(ifcs)|
    ensures forall ep :: ep in ifcs[i].endPoints ==> ep in AllOf(ifcs)
    decreases |ifcs| - i
  {
    assert ifcs[..i + 1][..i] == ifcs[..i];
    if i + 1 < |ifcs| {
      AllOfPrefix(ifcs[..|ifcs| - 1], i);
      assert ifcs[..|ifcs| - 1][..i + 1] == ifcs[..i + 1] && ifcs[..|ifcs| - 1][..i] == ifcs[..i];
    } else {
      assert ifcs[..i + 1] == ifcs;
    }
  }

  /** `ws_create_runtime`: the map never outgrows its block; it ends up holding every endpoint, or
      registration fails because some endpoint has an unknown type.  The header is written
      `inside` the block exactly when there is an interface. */
  method CreateRuntime(ifcs: seq<Interface>) returns (info: DispInfo?, inside: bool)
    ensures inside <==> ifcs != []
    ensures info == null <==> exists ep :: ep in AllOf(ifcs) && !Known(ep)
    ensures info != null ==> fresh(info) && info.Holds(AllOf(ifcs))
  {
    var size := CalculateMapCount(ifcs);
    BlockSuffices(|ifcs|, |AllOf(ifcs)|);
    inside := HEADER <= size;
    var dispInfo := new DispInfo(size);
    var i := 0;
    while i < |ifcs|
      invariant i <= |ifcs| && dispInfo.Holds(AllOf(ifcs[..i])) && dispInfo.map_.Length >= |AllOf(ifcs)|
      invariant forall ep :: ep in AllOf(ifcs[..i]) ==> Known(ep)
    {
      AllOfPrefix(ifcs, i);
      var retVal := dispInfo.RegisterInterface(ifcs[i], AllOf(ifcs[..i]));
      if retVal != 0 { return null, inside; }
      i := i + 1;
    }
    assert ifcs[..i] == ifcs;
    info := dispInfo;
  }

  // ---------------------------------------------------------------- choosing an endpoint

  const IDENTITY_NS := "http://schemas.dmtf.org/wbem/wsman/identity/1/wsmanidentity.xsd"

  /** What the dispatcher reads from a request document. */
  datatype Request = Request(identify: bool, uri: Option<string>, action: Option<string>)

  /** `strstr` finds `t` in `s`. */
  predicate Contains(s: string, t: string) {
    exists i :: 0 <= i <= |s| && t <= s[i..]
  }

  /** The first supported namespace that occurs in `uri`. */
  function FirstNs(namespaces: seq<Option<string>>, uri: string): Option<string> {
    if namespaces == [] then None
    else if namespaces[0].Some? && Contains(uri, namespaces[0].value) then namespaces[0]
    else FirstNs(namespaces[1..], uri)
  }

  /** An interface without a URI of its own serves every URI within its namespaces. */
  predicate Serves(ifc: Interface, req: Request) {
    if req.identify then FirstNs(ifc.namespaces, IDENTITY_NS).Some?
    else req.uri.Some? && if ifc.uri.None? then FirstNs(ifc.namespaces, req.uri.value).Some? else ifc.uri == req.uri
  }

  /** The action, relative to the namespace through which the interface serves the URI. */
  function LocalAction(ifc: Interface, uri: string, action: string): string {
    var ns := if ifc.uri.None? then FirstNs(ifc.namespaces, uri) else None;
    if ns.Some? && ns.value + "/" <= action then action[|ns.value| + 1..] else action
  }

  /** `i` is the first interface that serves the request. */
  ghost predicate FirstServing(ifcs: seq<Interface>, req: Request, i: nat) {
    i < |ifcs| && Serves(ifcs[i], req) && forall j :: 0 <= j < i ==> !Serves(ifcs[j], req)
  }

  /** `k` is the first endpoint for the action or, if there is none, the last one without an action. */
  ghost predicate Chosen(eps: seq<EndPoint>, action: string, k: nat) {
    k < |eps| &&
    if eps[k].inAction.Some? then
      eps[k].inAction.value == action && forall j :: 0 <= j < k ==> eps[j].inAction != Some(action)
    else
      && (forall j :: 0 <= j < |eps| ==> eps[j].inAction != Some(action))
      && forall j :: k < j < |eps| ==> eps[j].inAction.Some?
  }

  /** The request belongs to endpoint `k` of interface `i`. */
  ghost predicate Belongs(ifcs: seq<Interface>, req: Request, i: nat, k: nat) {
    FirstServing(ifcs, req, i) &&
    if req.identify then k == 0 < |ifcs[i].endPoints|
    else req.action.Some? && Chosen(ifcs[i].endPoints, LocalAction(ifcs[i], req.uri.value, req.action.value), k)
  }

  /** A request belongs to at most one endpoint. */
  lemma BelongsOnce(ifcs: seq<Interface>, req: Request, i: nat, k: nat, i': nat, k': nat)
    requires Belongs(ifcs, req, i, k) && Belongs(ifcs, req, i', k')
    ensures i == i' && k == k'
  {
  }

  // ---------------------------------------------------------------- what is meant

  /** `t` occurs in `s`. */
  ghost predicate Within(t: string, s: string) {
    exists p, q :: s == p + t + q
  }

  lemma ContainsWithin(s: string, t: string)
    ensures Contains(s, t) <==> Within(t, s)
  {
    if i :| 0 <= i <= |s| && t <= s[i..] {
      assert s == s[..i] + t + s[i + |t|..];
    }
    if p, q :| s == p + t + q {
      assert t <= s[|p|..];
    }
  }

  /** Entry `j` is the first namespace that occurs in `uri`. */
  ghost predicate FirstWithin(namespaces: seq<Option<string>>, uri: string, j: nat) {
    && j < |namespaces| && namespaces[j].Some? && Within(namespaces[j].value, uri)
    && forall i :: 0 <= i < j && namespaces[i].Some? ==> !Within(namespaces[i].value, uri)
  }

  ghost predicate SomeWithin(namespaces: seq<Option<string>>, uri: string) {
    exists i :: 0 <= i < |namespaces| && namespaces[i].Some? && Within(namespaces[i].value, uri)
  }

  lemma {:induction false} FirstNsIs(namespaces: seq<Option<string>>, uri: string, j: nat)
    requires FirstWithin(namespaces, uri, j)
    ensures FirstNs(namespaces, uri) == namespaces[j]
  {
    if namespaces[0].Some? { ContainsWithin(uri, namespaces[0].value); }
    if j > 0 { FirstNsIs(namespaces[1..], uri, j - 1); }
  }

  lemma {:induction false} FirstNsAt(namespaces: seq<Option<string>>, uri: string) returns (j: nat)
    ensures FirstNs(namespaces, uri).Some? ==> FirstWithin(namespaces, uri, j)
    ensures FirstNs(namespaces, uri).None? ==> !SomeWithin(namespaces, uri)
  {
    j := 0;
    if namespaces != [] {
      if namespaces[0].Some? { ContainsWithin(uri, namespaces[0].value); }
      if !(namespaces[0].Some? && Contains(uri, namespaces[0].value)) {
        j := FirstNsAt(namespaces[1..], uri);
        j := j + 1;
        assert forall i :: 1 <= i < |namespaces| ==> namespaces[i] == namespaces[1..][i - 1];
      }
    }
  }

  /** An interface answers Identify through a namespace within the identity URI, a request for its
      own URI, or, if it has none, for any URI in which one of its namespaces occurs. */
  ghost predicate Answers(ifc: Interface, req: Request) {
    if req.identify then SomeWithin(ifc.namespaces, IDENTITY_NS)
    else req.uri.Some? && if ifc.uri.Some? then ifc.uri == req.uri else SomeWithin(ifc.namespaces, req.uri.value)
  }

  lemma {:induction false} ServesAnswers(ifc: Interface, req: Request)
    ensures Serves(ifc, req) <==> Answers(ifc, req)
  {
    var j := FirstNsAt(ifc.namespaces, IDENTITY_NS);
    if req.uri.Some? { j := FirstNsAt(ifc.namespaces, req.uri.value); }
  }

  /** `ns` is the namespace through which an interface without a URI of its own answers. */
  ghost predicate Through(ifc: Interface, uri: string, ns: string) {
    ifc.uri.None? && exists j: nat :: FirstWithin(ifc.namespaces, uri, j) && ifc.namespaces[j] == Some(ns)
  }

  /** What an action is called within an interface: what is behind the namespace and a '/', if it
      begins with these, else its full name. */
  ghost predicate GoesBy(ifc: Interface, uri: string, action: string, name: string) {
    || (exists ns :: Through(ifc, uri, ns) && action == ns + "/" + name)
    || (name == action && forall ns :: Through(ifc, uri, ns) ==> !(ns + "/" <= action))
  }

  lemma {:induction false} ThroughFirst(ifc: Interface, uri: string, ns: string)
    ensures Through(ifc, uri, ns) <==> ifc.uri.None? && FirstNs(ifc.namespaces, uri) == Some(ns)
  {
    if j: nat :| FirstWithin(ifc.namespaces, uri, j) && ifc.namespaces[j] == Some(ns) {
      FirstNsIs(ifc.namespaces, uri, j);
    }
    var j := FirstNsAt(ifc.namespaces, uri);
    if FirstNs(ifc.namespaces, uri) == Some(ns) { FirstNsIs(ifc.namespaces, uri, j); }
  }

  lemma {:induction false} LocalActionGoesBy(ifc: Interface, uri: string, action: string, name: string)
    ensures GoesBy(ifc, uri, action, name) <==> name == LocalAction(ifc, uri, action)
  {
    forall ns ensures Through(ifc, uri, ns) <==> ifc.uri.None? && FirstNs(ifc.namespaces, uri) == Some(ns) {
      ThroughFirst(ifc, uri, ns);
    }
    var first := FirstNs(ifc.namespaces, uri);
    if ifc.uri.None? && first.Some? {
      assert Through(ifc, uri, first.value);
      if first.value + "/" <= action { assert action == first.value + "/" + action[|first.value| + 1..]; }
    }
  }

  /** Endpoint `k` of interface `i` is meant: the first interface that answers, and in it the one
      chosen by what the action is called there; for Identify, its first endpoint. */
  ghost predicate Meant(ifcs: seq<Interface>, req: Request, i: nat, k: nat) {
    && i < |ifcs| && Answers(ifcs[i], req) && (forall j :: 0 <= j < i ==> !Answers(ifcs[j], req))
    && if req.identify then k == 0 < |ifcs[i].endPoints|
       else
         && req.action.Some?
         && exists name :: GoesBy(ifcs[i], req.uri.value, req.action.value, name) && Chosen(ifcs[i].endPoints, name, k)
  }

  lemma {:induction false} BelongsMeant(ifcs: seq<Interface>, req: Request, i: nat, k: nat)
    ensures Belongs(ifcs, req, i, k) <==> Meant(ifcs, req, i, k)
  {
    forall j | 0 <= j < |ifcs| ensures Serves(ifcs[j], req) <==> Answers(ifcs[j], req) { ServesAnswers(ifcs[j], req); }
    if i < |ifcs| && req.uri.Some? && req.action.Some? {
      var uri, action := req.uri.value, req.action.value;
      forall name ensures GoesBy(ifcs[i], uri, action, name) <==> name == LocalAction(ifcs[i], uri, action) {
        LocalActionGoesBy(ifcs[i], uri, action, name);
      }
    }
  }

  /** The first interface that answers has no URI of its own and answers through `ns`: an action of
      that namespace is dispatched by what is behind it, any other by its full name. */
  lemma {:induction false} CustomAction(ifcs: seq<Interface>, req: Request, i: nat, ns: string, a: string, k: nat)
    requires i < |ifcs| && !req.identify && req.uri.Some? && req.action.Some? && Through(ifcs[i], req.uri.value, ns)
    requires Answers(ifcs[i], req) && forall j :: 0 <= j < i ==> !Answers(ifcs[j], req)
    ensures req.action.value == ns + "/" + a ==> (Meant(ifcs, req, i, k) <==> Chosen(ifcs[i].endPoints, a, k))
    ensures !(ns + "/" <= req.action.value) ==>
              (Meant(ifcs, req, i, k) <==> Chosen(ifcs[i].endPoints, req.action.value, k))
  {
    var ifc, uri, action := ifcs[i], req.uri.value, req.action.value;
    ThroughFirst(ifc, uri, ns);
    var name := if ns + "/" <= action then action[|ns| + 1..] else action;
    forall n ensures GoesBy(ifc, uri, action, n) <==> n == name { LocalActionGoesBy(ifc, uri, action, n); }
    if action == ns + "/" + a { assert a == name; }
  }

  /** An interface with its own URI is asked by the full name of the action. */
  lemma {:induction false} OwnUriAction(ifcs: seq<Interface>, req: Request, i: nat, k: nat)
    requires i < |ifcs| && !req.identify && req.uri.Some? && req.action.Some? && ifcs[i].uri.Some?
    requires Answers(ifcs[i], req) && forall j :: 0 <= j < i ==> !Answers(ifcs[j], req)
    ensures Meant(ifcs, req, i, k) <==> Chosen(ifcs[i].endPoints, req.action.value, k)
  {
    assert GoesBy(ifcs[i], req.uri.value, req.action.value, req.action.value);
  }

  // ---------------------------------------------------------------- the code

  /** `wsman_dispatcher_match_ns`. */
  method MatchNs(ifc: Interface, uri: Option<string>) returns (ns: Option<string>)
    ensures ns == if uri.Some? then FirstNs(ifc.namespaces, uri.value) else None
  {
    if uri.None? { return None; }
    var i := 0;
    while i < |ifc.namespaces|
      invariant i <= |ifc.namespaces| && FirstNs(ifc.namespaces, uri.value) == FirstNs(ifc.namespaces[i..], uri.value)
    {
      MoveCut(ifc.namespaces, i);
      if ifc.namespaces[i].Some? && Contains(uri.value, ifc.namespaces[i].value) { return ifc.namespaces[i]; }
      i := i + 1;
    }
    return None;
  }

  /** The search for an interface; `ns` is the namespace through which it was found. */
  method FindInterface(ifcs: seq<Interface>, req: Request) returns (i: nat, ns: Option<string>)
    requires req.identify || req.uri.Some?
    ensures i <= |ifcs| && forall j :: 0 <= j < i ==> !Serves(ifcs[j], req)
    ensures i < |ifcs| ==> Serves(ifcs[i], req)
    ensures i < |ifcs| && !req.identify ==>
              ns == if ifcs[i].uri.None? then FirstNs(ifcs[i].namespaces, req.uri.value) else None
  {
    i, ns := 0, None;
    while i < |ifcs|
      invariant i <= |ifcs| && ns == None && forall j :: 0 <= j < i ==> !Serves(ifcs[j], req)
    {
      if req.identify {
        ns := MatchNs(ifcs[i], Some(IDENTITY_NS));
        if ns.Some? { return; }
      } else {
        if ifcs[i].uri.None? {
          ns := MatchNs(ifcs[i], req.uri);
          if ns.Some? { return; }
        } else if req.uri.value == ifcs[i].uri.value { return; }
      }
      i := i + 1;
    }
  }

  /** The search for an endpoint. */
  method FindEndPoint(eps: seq<EndPoint>, action: string) returns (k: nat)
    ensures k < |eps| ==> Chosen(eps, action, k)
    ensures k >= |eps| ==> forall j: nat :: !Chosen(eps, action, j)
  {
    var i, custom := 0, None;
    while i < |eps|
      invariant i <= |eps| && forall j :: 0 <= j < i ==> eps[j].inAction != Some(action)
      invariant custom.None? ==> forall j :: 0 <= j < i ==> eps[j].inAction.Some?
      invariant custom.Some? ==> 0 <= custom.value < i && eps[custom.value].inAction.None?
                                 && forall j :: custom.value < j < i ==> eps[j].inAction.Some?
    {
      if eps[i].inAction.Some? && action == eps[i].inAction.value { return i; }
      if eps[i].inAction.None? { custom := Some(i); }
      i := i + 1;
    }
    k := if custom.Some? then custom.value else |eps|;
  }

  /** The search of the map. */
  method FindDispatch(info: DispInfo, ep: EndPoint, ghost eps: seq<EndPoint>) returns (disp: Option<Dispatched>)
    requires info.Holds(eps) && forall e :: e in eps ==> Known(e)
    ensures disp == if ep in eps then Some(EntryOf(ep).disp) else None
  {
    var i := 0;
    while i < info.mapCount
      invariant i <= info.mapCount && forall j :: 0 <= j < i ==> eps[j] != ep
    {
      assert info.map_[i] == EntryOf(eps[i]);
      if info.map_[i].ep == ep { return Some(info.map_[i].disp); }
      i := i + 1;
    }
    return None;
  }

  /** `wsman_dispatcher`, after a successful registration: a dispatch comes back exactly for the
      requests that belong to an endpoint, and its service data is that endpoint. */
  method WsmanDispatcher(info: DispInfo, ifcs: seq<Interface>, req: Request)
    returns (disp: Option<Dispatched>, ghost i: nat, ghost k: nat)
    requires info.Holds(AllOf(ifcs)) && forall e :: e in AllOf(ifcs) ==> Known(e)
    ensures disp.Some? ==> Meant(ifcs, req, i, k)
    ensures disp.Some? ==> disp.value.serviceData == ifcs[i].endPoints[k]
    ensures disp.Some? ==> Some(disp.value.callback) == CallbackOf(ifcs[i].endPoints[k])
    ensures disp.None? ==> forall i', k' :: !Meant(ifcs, req, i', k')
  {
    forall i': nat, k': nat ensures Belongs(ifcs, req, i', k') <==> Meant(ifcs, req, i', k') {
      BelongsMeant(ifcs, req, i', k');
    }
    disp, i, k := None, 0, 0;
    if (req.uri.None? || req.action.None?) && !req.identify { return; }
    var r, ns := FindInterface(ifcs, req);
    i := r;
    if r == |ifcs| { return; }
    var n := 0;
    if !req.identify {
      var ptr := req.action.value;
      if ns.Some? && ns.value + "/" <= ptr { ptr := ptr[|ns.value| + 1..]; }
      n := FindEndPoint(ifcs[r].endPoints, ptr);
    }
    k := n;
    if n < |ifcs[r].endPoints| {
      AllOfPrefix(ifcs, r);
      disp := FindDispatch(info, ifcs[r].endPoints[n], AllOf(ifcs));
    }
  }
}
