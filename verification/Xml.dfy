/** The XML tree as the library uses it (src/lib/wsman-xml.c): qualified names, a node's own
    text, attributes, element children in order. */
module Xml {
  import opened Basics

  /** A qualified name.  The names the modelled code uses are distinct constants
      (include/wsman-names.h); every other name is an `Other`. */
  datatype QName =
    | Address | To | ReferenceParameters | EndpointReference            // XML_NS_ADDRESSING
    | ResourceUri | SelectorSet | Selector                                   // XML_NS_WS_MAN
    | AssociatedInstances | AssociationInstances | CimObject            // XML_NS_CIM_BINDING
    | AssociationClassName | ResultClassName | Role | ResultRole | IncludeResultProperty
    | Other(ns: string, local: string)

  /** The value of a Dialect attribute; the named ones are distinct URIs. */
  datatype Dialect = SelectorDialect | XPathDialect | AssociationDialect | OtherDialect(uri: string)

  /** The attributes without a namespace that the modelled code looks at. */
  datatype Attrs = Attrs(name: Option<string>, dialect: Option<Dialect>)

  const NO_ATTRS := Attrs(None, None)

  datatype Node = Node(name: QName, text: string, attrs: Attrs, children: seq<Node>)

  function Leaf(name: QName, text: string): Node {
    Node(name, text, NO_ATTRS, [])
  }

  function Inner(name: QName, children: seq<Node>): Node {
    Node(name, "", NO_ATTRS, children)
  }

  function AddChildren(node: Node, more: seq<Node>): Node {
    node.(children := node.children + more)
  }

  /** The members of `nodes` called `name`, in order. */
  function Called(nodes: seq<Node>, name: QName): seq<Node> {
    if nodes == [] then []
    else
      var n := |nodes| - 1;
      Called(nodes[..n], name) + if nodes[n].name == name then [nodes[n]] else []
  }

  /** The `index`-th child of `parent` called `name`. */
  function Child(parent: Node, index: nat, name: QName): (r: Option<Node>)
    ensures r.Some? ==> r.value in parent.children && r.value.name == name
  {
    var named := Called(parent.children, name);
    if index < |named| then CalledIn(parent.children, name, index); Some(named[index]) else None
  }

  lemma {:induction false} CalledIn(nodes: seq<Node>, name: QName, i: nat)
    requires i < |Called(nodes, name)|
    ensures Called(nodes, name)[i] in nodes && Called(nodes, name)[i].name == name
  {
    var n := |nodes| - 1;
    if i < |Called(nodes[..n], name)| { CalledIn(nodes[..n], name, i); }
  }

  /** A string argument as the XML library stores it. */
  function Stored(s: Option<string>): string {
    if s.Some? then s.value else ""
  }

  /** `xmlNodeGetContent`: the node's text and that of its descendants. */
  function Content(node: Node): string {
    node.text + Contents(node.children)
  }

  function Contents(nodes: seq<Node>): string {
    if nodes == [] then "" else Content(nodes[0]) + Contents(nodes[1..])
  }

  /** `ws_xml_get_child`. */
  method GetChild(parent: Option<Node>, index: nat, name: QName) returns (node: Option<Node>)
    ensures node == if parent.Some? then Child(parent.value, index, name) else None
  {
    if parent.None? { return None; }
    var children := parent.value.children;
    var count, i := 0, 0;
    while i < |children|
      invariant i <= |children| && count == |Called(children[..i], name)| <= index
    {
      CalledAt(children, i, name);
      if children[i].name == name {
        if count == index { return Some(children[i]); }
        count := count + 1;
      }
      i := i + 1;
    }
    assert children[..i] == children;
    return None;
  }

  lemma {:induction false} CalledAppend(a: seq<Node>, b: seq<Node>, name: QName)
    ensures Called(a + b, name) == Called(a, name) + Called(b, name)
  {
    if b == [] {
      assert a + b == a;
    } else {
      var n := |b| - 1;
      assert (a + b)[..|a + b| - 1] == a + b[..n];
      CalledAppend(a, b[..n], name);
    }
  }

  lemma {:induction false} CalledAll(nodes: seq<Node>, name: QName)
    requires forall i :: 0 <= i < |nodes| ==> nodes[i].name == name
    ensures Called(nodes, name) == nodes
  {
    if nodes != [] {
      var n := |nodes| - 1;
      CalledAll(nodes[..n], name);
      assert nodes == nodes[..n] + [nodes[n]];
    }
  }

  lemma {:induction false} CalledNone(nodes: seq<Node>, name: QName)
    requires forall i :: 0 <= i < |nodes| ==> nodes[i].name != name
    ensures Called(nodes, name) == []
  {
    if nodes != [] { CalledNone(nodes[..|nodes| - 1], name); }
  }

  lemma CalledOne(node: Node, name: QName)
    ensures Called([node], name) == if node.name == name then [node] else []
  {
    assert [node][..0] == [];
  }

  lemma FoundBehind(before: seq<Node>, node: Node, after: seq<Node>)
    requires Called(before, node.name) == []
    ensures Called(before + [node], node.name) == [node]
    ensures Called(before + [node] + after, node.name) == [node] + Called(after, node.name)
  {
    CalledAppend(before + [node], after, node.name);
    CalledAppend(before, [node], node.name);
    CalledOne(node, node.name);
  }

  lemma ChildAdded(node: Node, child: Node)
    requires Called(node.children, child.name) == []
    ensures Child(AddChildren(node, [child]), 0, child.name) == Some(child)
  {
    FoundBehind(node.children, child, []);
  }

  /** Two children with different names, written behind children that hold neither. */
  lemma CalledBehind(before: seq<Node>, a: Node, b: Node)
    requires a.name != b.name && Called(before, a.name) == [] && Called(before, b.name) == []
    ensures Called(before + [a, b], a.name) == [a] && Called(before + [a, b], b.name) == [b]
  {
    assert before + [a, b] == before + [a] + [b];
    forall name ensures Called(before + [a, b], name)
        == Called(before, name) + (if a.name == name then [a] else []) + if b.name == name then [b] else []
    {
      CalledAppend(before, [a], name);
      CalledAppend(before + [a], [b], name);
      CalledOne(a, name);
      CalledOne(b, name);
    }
  }

  /** Where the scan of the children stands. */
  lemma CalledAt(nodes: seq<Node>, i: nat, name: QName)
    requires i < |nodes|
    ensures Called(nodes[..i + 1], name) == Called(nodes[..i], name) + if nodes[i].name == name then [nodes[i]] else []
    ensures Called(nodes[..i + 1], name) <= Called(nodes, name)
  {
    assert nodes[..i + 1][..i] == nodes[..i];
    assert nodes == nodes[..i + 1] + nodes[i + 1..];
    CalledAppend(nodes[..i + 1], nodes[i + 1..], name);
  }

  lemma LeafContent(node: Node)
    requires node.children == []
    ensures Content(node) == node.text
  {
  }
}
