/** Endpoint references as XML (src/lib/wsman-epr.c): writing, reading and the round trip. */
module Epr {
  import opened Basics
  import opened Xml

  /** epr_t. */
  datatype Epr = Epr(address: Option<string>, uri: Option<string>, selectors: seq<KeyValue>)

  /** key_value_t. */
  datatype KeyValue = KeyValue(key: Option<string>, value: Value)

  datatype Value = Text(text: Option<string>) | Ref(epr: Option<Epr>)

  // ---------------------------------------------------------------- writing

  function NameAttr(key: Option<string>): Attrs {
    Attrs(Some(Stored(key)), None)
  }

  function SelectorNode(kv: KeyValue): (r: Node)
    ensures r.name == Selector
    decreases kv
  {
    match kv.value
    case Text(text) => Node.Node(Selector, Stored(text), NameAttr(kv.key), [])
    case Ref(None) => Node.Node(Selector, "", NameAttr(kv.key), [])
    case Ref(Some(e)) => Node.Node(Selector, "", NameAttr(kv.key), [Inner(EndpointReference, Embedded(e))])
  }

  function SelectorNodes(s: seq<KeyValue>): (r: seq<Node>)
    ensures |r| == |s| && forall i :: 0 <= i < |s| ==> r[i] == SelectorNode(s[i])
    decreases s
  {
    if s == [] then [] else SelectorNodes(s[..|s| - 1]) + [SelectorNode(s[|s| - 1])]
  }

  /** ResourceURI and SelectorSet. */
  function Params(e: Epr): seq<Node>
    decreases e, 0
  {
    [Leaf(ResourceUri, Stored(e.uri)), Inner(SelectorSet, SelectorNodes(e.selectors))]
  }

  function Embedded(e: Epr): seq<Node>
    decreases e, 1
  {
    [Leaf(Address, Stored(e.address)), Inner(ReferenceParameters, Params(e))]
  }

  /** What `epr_serialize` makes of `node`.  In the form that is not embedded the reference
      parameters go to `node` itself, even when the address goes to a child of it. */
  function Serialize(node: Node, name: Option<QName>, epr: Option<Epr>, embedded: bool): Node {
    if epr.None? then node
    else
      var e := epr.value;
      var own := if embedded then Embedded(e) else [Leaf(To, Stored(e.address))];
      var r := AddChildren(node, if name.Some? then [Inner(name.value, own)] else own);
      if embedded then r else AddChildren(r, Params(e))
  }

  // ---------------------------------------------------------------- reading

  /** What `epr_deserialize` makes of `node`. */
  function Deserialize(node: Node, name: Option<QName>, embedded: bool): Option<Epr>
    decreases node, 2
  {
    var eprnode := if name.Some? then Child(node, 0, name.value) else Some(node);
    if eprnode.None? then None
    else
      var address := Child(eprnode.value, 0, if embedded then Address else To);
      if address.None? then None
      else
        var refparams := if embedded then Child(eprnode.value, 0, ReferenceParameters) else Some(node);
        if refparams.None? then None else ReadParams(Content(address.value), refparams.value)
  }

  function ReadParams(address: string, refparams: Node): Option<Epr>
    decreases refparams, 1
  {
    var uri, selset := Child(refparams, 0, ResourceUri), Child(refparams, 0, SelectorSet);
    if uri.None? then None
    else
      var selectors := if selset.None? then [] else ReadSelectors(selset.value, |selset.value.children|);
      Some(Epr(Some(address), Some(Content(uri.value)), selectors))
  }

  /** The first `n` selectors of a selector set. */
  function ReadSelectors(selset: Node, n: nat): (r: seq<KeyValue>)
    ensures |r| == n
    decreases selset, n
  {
    if n == 0 then []
    else
      var temp := Child(selset, n - 1, Selector);
      ReadSelectors(selset, n - 1) + [if temp.None? then KeyValue(None, Text(Some(""))) else ReadSelector(temp.value)]
  }

  function ReadSelector(temp: Node): KeyValue
    decreases temp, 3
  {
    KeyValue(temp.attrs.name,
             if Child(temp, 0, EndpointReference).Some? then Ref(Deserialize(temp, Some(EndpointReference), true))
             else Text(Some(Content(temp))))
  }

  // ---------------------------------------------------------------- round trip

  /** The EPR with every NULL string read as the empty string and every NULL nested EPR read as
      an empty text. */
  function Filled(e: Epr): Epr
    decreases e
  {
    Epr(Some(Stored(e.address)), Some(Stored(e.uri)), FilledAll(e.selectors))
  }

  function FilledAll(s: seq<KeyValue>): (r: seq<KeyValue>)
    ensures |r| == |s| && forall i :: 0 <= i < |s| ==> r[i] == FilledOne(s[i])
    decreases s
  {
    if s == [] then [] else FilledAll(s[..|s| - 1]) + [FilledOne(s[|s| - 1])]
  }

  function FilledOne(kv: KeyValue): KeyValue
    decreases kv
  {
    KeyValue(Some(Stored(kv.key)),
             match kv.value
             case Text(text) => Text(Some(Stored(text)))
             case Ref(None) => Text(Some(""))
             case Ref(Some(e)) => Ref(Some(Filled(e))))
  }

  /** No NULL anywhere, at any depth. */
  predicate NoNulls(e: Epr)
    decreases e
  {
    e.address.Some? && e.uri.Some? && forall kv :: kv in e.selectors ==> NoNullIn(kv)
  }

  predicate NoNullIn(kv: KeyValue)
    decreases kv
  {
    kv.key.Some? && match kv.value
                    case Text(text) => text.Some?
                    case Ref(e) => e.Some? && NoNulls(e.value)
  }

  lemma {:induction false} FilledSame(e: Epr)
    ensures Filled(e) == e <==> NoNulls(e)
    decreases e
  {
    forall kv | kv in e.selectors ensures FilledOne(kv) == kv <==> NoNullIn(kv) {
      FilledOneSame(kv);
    }
    AllSame(e.selectors, FilledAll(e.selectors));
  }

  lemma AllSame(s: seq<KeyValue>, t: seq<KeyValue>)
    requires |t| == |s| && forall i :: 0 <= i < |s| ==> t[i] == FilledOne(s[i])
    ensures t == s <==> forall kv :: kv in s ==> FilledOne(kv) == kv
  {
    if forall kv :: kv in s ==> FilledOne(kv) == kv {
      assert forall i :: 0 <= i < |s| ==> t[i] == s[i];
    }
  }

  lemma {:induction false} FilledOneSame(kv: KeyValue)
    ensures FilledOne(kv) == kv <==> NoNullIn(kv)
    decreases kv
  {
    match kv.value
    case Text(_) =>
    case Ref(None) =>
    case Ref(Some(e)) => FilledSame(e);
  }

  lemma {:induction false} SelectorRead(kv: KeyValue)
    ensures ReadSelector(SelectorNode(kv)) == FilledOne(kv)
    decreases kv
  {
    match kv.value
    case Text(_) => LeafContent(SelectorNode(kv));
    case Ref(None) => LeafContent(SelectorNode(kv));
    case Ref(Some(e)) => NestedRead(SelectorNode(kv), e);
  }

  lemma {:induction false} NestedRead(temp: Node, e: Epr)
    requires temp.children == [Inner(EndpointReference, Embedded(e))]
    ensures Child(temp, 0, EndpointReference).Some?
    ensures Deserialize(temp, Some(EndpointReference), true) == Some(Filled(e))
    decreases e, 2
  {
    var node := Inner(EndpointReference, Embedded(e));
    CalledOne(node, EndpointReference);
    EmbeddedRead(node, [], e);
    assert Child(temp, 0, EndpointReference) == Some(node);
  }

  lemma {:induction false} NthSelector(s: seq<KeyValue>, n: nat)
    requires n < |s|
    ensures Child(Inner(SelectorSet, SelectorNodes(s)), n, Selector) == Some(SelectorNode(s[n]))
  {
    CalledAll(SelectorNodes(s), Selector);
  }

  lemma {:induction false} SelectorsRead(s: seq<KeyValue>, n: nat)
    requires n <= |s|
    ensures ReadSelectors(Inner(SelectorSet, SelectorNodes(s)), n) == FilledAll(s)[..n]
    decreases s, n
  {
    if n > 0 {
      SelectorsRead(s, n - 1);
      NthSelector(s, n - 1);
      SelectorRead(s[n - 1]);
      MoveCut(FilledAll(s), n - 1);
    }
  }

  lemma {:induction false} SelectorSetRead(s: seq<KeyValue>)
    ensures ReadSelectors(Inner(SelectorSet, SelectorNodes(s)), |SelectorNodes(s)|) == FilledAll(s)
    decreases s, |s| + 1
  {
    SelectorsRead(s, |s|);
    assert FilledAll(s)[..|s|] == FilledAll(s);
  }

  /** The elements by which a peer reads an EPR: ResourceURI and, in the SelectorSet, one Selector with
      the key as its Name for each selector, in order. */
  lemma {:induction false} ParamsOnTheWire(node: Node, before: seq<Node>, e: Epr)
    requires node.children == before + Params(e)
    requires Called(before, ResourceUri) == [] && Called(before, SelectorSet) == []
    ensures var uri, selset := Child(node, 0, ResourceUri), Child(node, 0, SelectorSet);
            && uri.Some? && Content(uri.value) == Stored(e.uri)
            && selset.Some? && |selset.value.children| == |e.selectors|
            && forall i :: 0 <= i < |e.selectors| ==>
                 var n := selset.value.children[i];
                 && n.name == Selector && n.attrs.name == Some(Stored(e.selectors[i].key))
                 && (e.selectors[i].value.Text? ==> n.text == Stored(e.selectors[i].value.text) && n.children == [])
                 && (e.selectors[i].value.Ref? && e.selectors[i].value.epr.Some? ==>
                       n.children == [Inner(EndpointReference, Embedded(e.selectors[i].value.epr.value))])
  {
    var uri, selset := Leaf(ResourceUri, Stored(e.uri)), Inner(SelectorSet, SelectorNodes(e.selectors));
    CalledBehind(before, uri, selset);
    LeafContent(uri);
  }

  /** … below ReferenceParameters, next to the Address. */
  lemma {:induction false} EmbeddedOnTheWire(node: Node, e: Epr)
    requires node.children == Embedded(e)
    ensures var address, params := Child(node, 0, Address), Child(node, 0, ReferenceParameters);
            && address.Some? && Content(address.value) == Stored(e.address)
            && params.Some? && params.value.children == Params(e)
  {
    var address, params := Leaf(Address, Stored(e.address)), Inner(ReferenceParameters, Params(e));
    CalledBehind([], address, params);
    assert [] + [address, params] == [address, params];
    LeafContent(address);
  }

  /** In the form that is not embedded the address is the To element, and the parameters follow. */
  lemma {:induction false} OpenOnTheWire(node: Node, e: Epr)
    requires Called(node.children, To) == []
    ensures var r := Serialize(node, None, Some(e), false);
            var to := Child(r, 0, To);
            && to.Some? && Content(to.value) == Stored(e.address)
            && r.children == node.children + [to.value] + Params(e)
  {
    var to := Leaf(To, Stored(e.address));
    FoundBehind(node.children, to, Params(e));
    LeafContent(to);
  }

  /** Reference parameters written behind children that hold none are read back. */
  lemma {:induction false} ParamsRead(node: Node, before: seq<Node>, e: Epr)
    requires node.children == before + Params(e)
    requires Called(before, ResourceUri) == [] && Called(before, SelectorSet) == []
    ensures ReadParams(Stored(e.address), node) == Some(Filled(e))
    decreases e, 0
  {
    var uri, selset := Leaf(ResourceUri, Stored(e.uri)), Inner(SelectorSet, SelectorNodes(e.selectors));
    CalledBehind(before, uri, selset);
    assert Child(node, 0, ResourceUri) == Some(uri) && Child(node, 0, SelectorSet) == Some(selset);
    LeafContent(uri);
    SelectorSetRead(e.selectors);
  }

  lemma {:induction false} EmbeddedRead(node: Node, before: seq<Node>, e: Epr)
    requires node.children == before + Embedded(e)
    requires Called(before, Address) == [] && Called(before, ReferenceParameters) == []
    ensures Deserialize(node, None, true) == Some(Filled(e))
    decreases e, 1
  {
    var address, params := Leaf(Address, Stored(e.address)), Inner(ReferenceParameters, Params(e));
    CalledBehind(before, address, params);
    assert Child(node, 0, Address) == Some(address) && Child(node, 0, ReferenceParameters) == Some(params);
    LeafContent(address);
    ParamsRead(params, [], e);
  }

  /** `node` holds none of the children that reading starts from. */
  ghost predicate Clear(node: Node, name: Option<QName>, embedded: bool) {
    && (name.Some? ==> Called(node.children, name.value) == [])
    && (name.None? && embedded ==>
          Called(node.children, Address) == [] && Called(node.children, ReferenceParameters) == [])
    && (name.None? && !embedded ==> Called(node.children, To) == [])
    && (!embedded ==> Called(node.children, ResourceUri) == [] && Called(node.children, SelectorSet) == []
                      && name != Some(ResourceUri) && name != Some(SelectorSet))
  }

  lemma {:induction false} WrittenRead(node: Node, name: Option<QName>, e: Epr, embedded: bool)
    requires Clear(node, name, embedded)
    ensures Deserialize(Serialize(node, name, Some(e), embedded), name, embedded) == Some(Filled(e))
  {
    if !embedded {
      OpenRead(node, name, e);
    } else if name.Some? {
      EmbeddedRead(Inner(name.value, Embedded(e)), [], e);
      ChildAdded(node, Inner(name.value, Embedded(e)));
    } else {
      EmbeddedRead(AddChildren(node, Embedded(e)), node.children, e);
    }
  }

  /** Reading undoes writing up to NULLs, in both forms and below any parent that holds no such
      children yet; hence it undoes it exactly for the EPRs without a NULL at any depth. */
  lemma {:induction false} RoundTrip(node: Node, name: Option<QName>, e: Epr, embedded: bool)
    requires Clear(node, name, embedded)
    ensures Deserialize(Serialize(node, name, Some(e), embedded), name, embedded) == Some(Filled(e))
    ensures Deserialize(Serialize(node, name, Some(e), embedded), name, embedded) == Some(e) <==> NoNulls(e)
  {
    WrittenRead(node, name, e, embedded);
    FilledSame(e);
  }

  /** A reference without an address that comes back with an empty one. */
  lemma {:induction false} NullComesBackEmpty(node: Node, name: QName)
    requires Called(node.children, name) == []
    ensures var e := Epr(None, Some("u"), []);
            Deserialize(Serialize(node, Some(name), Some(e), true), Some(name), true) == Some(e.(address := Some("")))
  {
    RoundTrip(node, Some(name), Epr(None, Some("u"), []), true);
  }

  lemma StillNone(before: seq<Node>, node: Node, name: QName)
    requires Called(before, name) == [] && node.name != name
    ensures Called(before + [node], name) == []
  {
    CalledAppend(before, [node], name);
    CalledOne(node, name);
  }

  /** The form that is not embedded. */
  lemma {:induction false} OpenRead(node: Node, name: Option<QName>, e: Epr)
    requires Clear(node, name, false)
    ensures Deserialize(Serialize(node, name, Some(e), false), name, false) == Some(Filled(e))
  {
    var to := Leaf(To, Stored(e.address));
    var first := if name.Some? then Inner(name.value, [to]) else to;
    var r, before := Serialize(node, name, Some(e), false), node.children + [first];
    assert r.children == before + Params(e);
    FoundBehind(node.children, first, Params(e));
    LeafContent(to);
    StillNone(node.children, first, ResourceUri);
    StillNone(node.children, first, SelectorSet);
    ParamsRead(r, before, e);
    OpenParts(r, name, first, to);
  }

  lemma OpenParts(r: Node, name: Option<QName>, first: Node, to: Node)
    requires Called(r.children, first.name) != [] && Called(r.children, first.name)[0] == first
    requires to.name == To && first == if name.Some? then Inner(name.value, [to]) else to
    ensures Deserialize(r, name, false) == ReadParams(Content(to), r)
  {
    CalledOne(to, To);
    if name.Some? {
      assert Child(r, 0, name.value) == Some(first) && Child(first, 0, To) == Some(to);
    } else {
      assert Child(r, 0, To) == Some(to);
    }
  }

  // ---------------------------------------------------------------- the code

  /** `epr_serialize`. */
  method EprSerialize(node: Node, name: Option<QName>, epr: Option<Epr>, embedded: bool) returns (r: Node)
    ensures r == Serialize(node, name, epr, embedded)
    decreases epr
  {
    if epr.None? { return node; }
    var e := epr.value;
    var own := [Leaf(if embedded then Address else To, Stored(e.address))];
    var selectorset := WriteSelectors(e.selectors);
    var params := [Leaf(ResourceUri, Stored(e.uri)), selectorset];
    assert params == Params(e);
    if embedded {
      own := own + [Inner(ReferenceParameters, params)];
      assert own == Embedded(e);
    }
    r := AddChildren(node, if name.Some? then [Inner(name.value, own)] else own);
    if !embedded { r := AddChildren(r, params); }
  }

  method WriteSelectors(selectors: seq<KeyValue>) returns (selectorset: Node)
    ensures selectorset == Inner(SelectorSet, SelectorNodes(selectors))
    decreases selectors
  {
    selectorset := Inner(SelectorSet, []);
    var i := 0;
    while i < |selectors|
      invariant i <= |selectors| && selectorset == Inner(SelectorSet, SelectorNodes(selectors[..i]))
    {
      assert selectors[..i + 1][..i] == selectors[..i];
      var temp := WriteSelector(selectors[i]);
      selectorset := AddChildren(selectorset, [temp]);
      i := i + 1;
    }
    assert selectors[..i] == selectors;
  }

  method WriteSelector(p: KeyValue) returns (temp: Node)
    ensures temp == SelectorNode(p)
    decreases p
  {
    if p.value.Text? {
      temp := Leaf(Selector, Stored(p.value.text));
    } else {
      temp := EprSerialize(Leaf(Selector, ""), Some(EndpointReference), p.value.epr, true);
    }
    temp := temp.(attrs := NameAttr(p.key));
  }

  /** `epr_deserialize`. */
  method EprDeserialize(node: Node, name: Option<QName>, embedded: bool) returns (epr: Option<Epr>)
    ensures epr == Deserialize(node, name, embedded)
    decreases node, 2
  {
    var eprnode := Some(node);
    if name.Some? {
      eprnode := GetChild(Some(node), 0, name.value);
      if eprnode.None? { return None; }
    }
    var temp := GetChild(eprnode, 0, if embedded then Address else To);
    if temp.None? { return None; }
    var address := Content(temp.value);
    var refparamnode := Some(node);
    if embedded { refparamnode := GetChild(eprnode, 0, ReferenceParameters); }
    if refparamnode.None? { return None; }
    epr := ReadParameters(address, refparamnode.value);
  }

  method ReadParameters(address: string, refparamnode: Node) returns (epr: Option<Epr>)
    ensures epr == ReadParams(address, refparamnode)
    decreases refparamnode, 1
  {
    var temp := GetChild(Some(refparamnode), 0, ResourceUri);
    if temp.None? { return None; }
    var uri := Content(temp.value);
    var selset := GetChild(Some(refparamnode), 0, SelectorSet);
    var selectors, i := [], 0;
    while selset.Some? && i < |selset.value.children|
      invariant selset.None? ==> selectors == []
      invariant selset.Some? ==> i <= |selset.value.children| && selectors == ReadSelectors(selset.value, i)
    {
      var kv := ReadNth(selset.value, i);
      selectors := selectors + [kv];
      i := i + 1;
    }
    return Some(Epr(Some(address), Some(uri), selectors));
  }

  method ReadNth(selset: Node, i: nat) returns (kv: KeyValue)
    ensures kv == var temp := Child(selset, i, Selector);
                  if temp.None? then KeyValue(None, Text(Some(""))) else ReadSelector(temp.value)
    decreases selset, 0
  {
    var temp := GetChild(Some(selset), i, Selector);
    if temp.None? { return KeyValue(None, Text(Some(""))); }
    var nested := GetChild(temp, 0, EndpointReference);
    if nested.None? { return KeyValue(temp.value.attrs.name, Text(Some(Content(temp.value)))); }
    var inner := EprDeserialize(temp.value, Some(EndpointReference), true);
    kv := KeyValue(temp.value.attrs.name, Ref(inner));
  }
}
