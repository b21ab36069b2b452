/** Filters as XML (src/lib/wsman-filter.c): writing, reading and what comes back. */
module Filters {
  import opened Basics
  import opened Xml
  import opened Epr

  /** filter_t.  `unset` counts selector slots that are allocated and counted but never written. */
  datatype Filter = Filter(
    dialect: Option<Dialect>, query: Option<string>, epr: Option<Epr>, selectors: seq<KeyValue>, unset: int,
    assocType: int, assocClass: Option<string>, resultClass: Option<string>, role: Option<string>,
    resultRole: Option<string>, resultProp: seq<string>)

  /** What `filter_create_simple`, `filter_create_selector` and `filter_create_assoc` make. */
  function QueryFilter(dialect: Option<Dialect>, query: string): Filter {
    Filter(dialect, Some(query), None, [], 0, 0, None, None, None, None, [])
  }

  function SelectorFilter(selectors: seq<KeyValue>): Filter {
    Filter(Some(SelectorDialect), None, None, selectors, 0, 0, None, None, None, None, [])
  }

  function AssocFilter(e: Epr, assocType: int, assocClass: Option<string>, resultClass: Option<string>,
                       role: Option<string>, resultRole: Option<string>, props: seq<string>): Filter {
    Filter(Some(AssociationDialect), None, Some(e), [], 0, assocType, assocClass, resultClass, role, resultRole, props)
  }

  // ---------------------------------------------------------------- writing

  function Optional(name: QName, s: Option<string>): seq<Node> {
    if s.Some? then [Leaf(name, s.value)] else []
  }

  function Leaves(name: QName, texts: seq<string>): (r: seq<Node>)
    ensures |r| == |texts| && forall i :: 0 <= i < |r| ==> r[i] == Leaf(name, texts[i])
  {
    seq(|texts|, i requires 0 <= i < |texts| => Leaf(name, texts[i]))
  }

  /** The children of the instances element that belong to the group called `name`. */
  function Group(f: Filter, name: QName): seq<Node>
    requires f.epr.Some?
  {
    match name
    case CimObject => [Inner(CimObject, Embedded(f.epr.value))]
    case AssociationClassName => Optional(name, f.assocClass)
    case Role => Optional(name, f.role)
    case ResultClassName => Optional(name, f.resultClass)
    case ResultRole => Optional(name, f.resultRole)
    case IncludeResultProperty => Leaves(name, f.resultProp)
    case _ => []
  }

  /** The children of the instances element. */
  function Instance(f: Filter): seq<Node>
    requires f.epr.Some?
  {
    Group(f, CimObject) + Group(f, AssociationClassName) + Group(f, Role)
    + Group(f, ResultClassName) + Group(f, ResultRole) + Group(f, IncludeResultProperty)
  }

  /** A selector that holds an EPR gets no Selector element of its own. */
  function FilterSelectorPart(kv: KeyValue): seq<Node> {
    match kv.value
    case Text(_) => [SelectorNode(kv)]
    case Ref(e) => if e.Some? then Embedded(e.value) else []
  }

  function FilterSelectorNodes(s: seq<KeyValue>): seq<Node> {
    if s == [] then [] else FilterSelectorNodes(s[..|s| - 1]) + FilterSelectorPart(s[|s| - 1])
  }

  function WithDialect(node: Node, dialect: Option<Dialect>): Node {
    if dialect.Some? then node.(attrs := node.attrs.(dialect := dialect)) else node
  }

  function Instances(assocType: int): QName {
    if assocType == 0 then AssociatedInstances else AssociationInstances
  }

  /** The Filter element, called `name`, if there is anything to write. */
  function FilterNode(f: Filter, name: QName): (r: Option<Node>)
    ensures r.Some? ==> r.value.name == name
  {
    if f.query.Some? then Some(WithDialect(Leaf(name, f.query.value), f.dialect))
    else if f.epr.Some? then
      Some(WithDialect(Inner(name, [Inner(Instances(f.assocType), Instance(f))]), f.dialect))
    else if f.selectors != [] then
      Some(WithDialect(Inner(name, [Inner(SelectorSet, FilterSelectorNodes(f.selectors))]), f.dialect))
    else None
  }

  /** What `filter_serialize` makes of `node`. */
  function Written(node: Node, f: Filter, name: QName): Node {
    if FilterNode(f, name).None? then node else AddChildren(node, [FilterNode(f, name).value])
  }

  // ---------------------------------------------------------------- reading

  function TextOf(parent: Node, name: QName): Option<string> {
    var c := Child(parent, 0, name);
    if c.Some? then Some(Content(c.value)) else None
  }

  function Texts(nodes: seq<Node>): (r: seq<string>)
    ensures |r| == |nodes| && forall i :: 0 <= i < |r| ==> r[i] == Content(nodes[i])
  {
    seq(|nodes|, i requires 0 <= i < |nodes| => Content(nodes[i]))
  }

  /** The Dialect attribute, else whatever attribute there is, else the default. */
  function ReadDialect(node: Node): Dialect {
    if node.attrs.dialect.Some? then node.attrs.dialect.value
    else if node.attrs.name.Some? then OtherDialect(node.attrs.name.value)
    else XPathDialect
  }

  /** How many properties are looked for: the code takes every child but four for a property. */
  function ProperNum(node: Node): int {
    |node.children| - 4
  }

  function Min(a: int, b: int): int {
    if a < b then a else b
  }

  function ReadInstance(node: Node, assocType: int): Option<Filter> {
    if ProperNum(node) < 0 then None   // the size of the array to allocate wraps around
    else
      var props := Called(node.children, IncludeResultProperty);
      var n := Min(|props|, ProperNum(node));
      Some(Filter(Some(AssociationDialect), None, Deserialize(node, Some(CimObject), true), [], 0, assocType,
                  TextOf(node, AssociationClassName), TextOf(node, ResultClassName), TextOf(node, Role),
                  TextOf(node, ResultRole), Texts(props[..n])))
  }

  function ReadFilterSelector(node: Node): KeyValue {
    var nested := Child(node, 0, EndpointReference);
    KeyValue(node.attrs.name,
             if nested.Some? then Ref(Deserialize(nested.value, None, true)) else Text(Some(Content(node))))
  }

  function ReadFilterSelectors(nodes: seq<Node>): (r: seq<KeyValue>)
    ensures |r| == |nodes| && forall i :: 0 <= i < |r| ==> r[i] == ReadFilterSelector(nodes[i])
  {
    seq(|nodes|, i requires 0 <= i < |nodes| => ReadFilterSelector(nodes[i]))
  }

  /** Every child of the set is counted, but only the Selector elements are read. */
  function FromEntries(children: seq<Node>): Filter {
    var entries := Called(children, Selector);
    SelectorFilter(ReadFilterSelectors(entries)).(unset := |children| - |entries|)
  }

  /** What `filter_deserialize` makes of a Filter element. */
  function ReadFilter(node: Node): Option<Filter> {
    var dialect := ReadDialect(node);
    if dialect == AssociationDialect then
      var associated := Child(node, 0, AssociatedInstances);
      var association := Child(node, 0, AssociationInstances);
      if associated.Some? then ReadInstance(associated.value, 0)
      else if association.Some? then ReadInstance(association.value, 1)
      else None
    else if dialect == SelectorDialect then
      var selset := Child(node, 0, SelectorSet);
      if selset.None? then None else Some(FromEntries(selset.value.children))
    else Some(QueryFilter(Some(dialect), Content(node)))
  }

  /** What `filter_deserialize` makes of `node`. */
  function ReadBack(node: Node, name: QName): Option<Filter> {
    var filter := Child(node, 0, name);
    if filter.None? then None else ReadFilter(filter.value)
  }

  /** Below a parent without such an element, what is read is the element that was written. */
  lemma {:induction false} FilterFound(node: Node, f: Filter, name: QName)
    requires Called(node.children, name) == [] && FilterNode(f, name).Some?
    ensures ReadBack(Written(node, f, name), name) == ReadFilter(FilterNode(f, name).value)
  {
    ChildAdded(node, FilterNode(f, name).value);
  }

  // ---------------------------------------------------------------- what comes back: queries

  predicate Structured(dialect: Dialect) {
    dialect == AssociationDialect || dialect == SelectorDialect
  }

  /** A query filter comes back exactly when it names a dialect that is not a structured one; a
      filter without a dialect comes back with the XPath dialect, one with a structured dialect
      not at all. */
  lemma {:induction false} QueryRoundTrip(node: Node, name: QName, dialect: Option<Dialect>, query: string)
    requires Called(node.children, name) == []
    ensures var f := QueryFilter(dialect, query);
            var back := ReadBack(Written(node, f, name), name);
            && (back == Some(f) <==> dialect.Some? && !Structured(dialect.value))
            && (dialect.None? ==> back == Some(f.(dialect := Some(XPathDialect))))
            && (dialect.Some? && Structured(dialect.value) ==> back.None?)
  {
    var f := QueryFilter(dialect, query);
    FilterFound(node, f, name);
    LeafContent(FilterNode(f, name).value);
  }

  // ---------------------------------------------------------------- what comes back: selectors

  function TextIn(kv: KeyValue): seq<KeyValue> {
    if kv.value.Text? then [kv] else []
  }

  function RefIn(kv: KeyValue): nat {
    if kv.value.Ref? && kv.value.epr.Some? then 1 else 0
  }

  /** The selectors that hold a text. */
  function TextsOnly(s: seq<KeyValue>): (r: seq<KeyValue>)
    ensures |r| <= |s| && forall i :: 0 <= i < |r| ==> r[i].value.Text?
  {
    if s == [] then [] else TextsOnly(s[..|s| - 1]) + TextIn(s[|s| - 1])
  }

  /** How many selectors hold an EPR that is there. */
  function Refs(s: seq<KeyValue>): nat {
    if s == [] then 0 else Refs(s[..|s| - 1]) + RefIn(s[|s| - 1])
  }

  lemma {:induction false} PartChildren(kv: KeyValue)
    ensures Called(FilterSelectorPart(kv), Selector) == if kv.value.Text? then [SelectorNode(kv)] else []
    ensures |FilterSelectorPart(kv)| == if kv.value.Text? then 1 else if kv.value.epr.Some? then 2 else 0
  {
    if kv.value.Text? { CalledOne(SelectorNode(kv), Selector); } else { CalledNone(FilterSelectorPart(kv), Selector); }
  }

  lemma {:induction false} ChildrenStep(nodes: seq<Node>, texts: seq<KeyValue>, refs: nat, kv: KeyValue)
    requires Called(nodes, Selector) == SelectorNodes(texts) && |nodes| == |texts| + 2 * refs
    ensures Called(nodes + FilterSelectorPart(kv), Selector) == SelectorNodes(texts + TextIn(kv))
    ensures |nodes + FilterSelectorPart(kv)| == |texts + TextIn(kv)| + 2 * (refs + RefIn(kv))
  {
    var part := FilterSelectorPart(kv);
    PartChildren(kv);
    CalledAppend(nodes, part, Selector);
    if kv.value.Text? {
      SelectorNodesLast(texts, kv);
      assert Called(nodes + part, Selector) == SelectorNodes(texts) + [SelectorNode(kv)];
    } else {
      assert texts + TextIn(kv) == texts && Called(nodes + part, Selector) == SelectorNodes(texts);
    }
  }

  /** Only the selectors with a text are written as selectors; an EPR leaves two other children. */
  lemma {:induction false} SelectorChildren(s: seq<KeyValue>)
    ensures Called(FilterSelectorNodes(s), Selector) == SelectorNodes(TextsOnly(s))
    ensures |FilterSelectorNodes(s)| == |TextsOnly(s)| + 2 * Refs(s)
  {
    if s != [] {
      var init := s[..|s| - 1];
      SelectorChildren(init);
      ChildrenStep(FilterSelectorNodes(init), TextsOnly(init), Refs(init), s[|s| - 1]);
    }
  }

  lemma SelectorNodesLast(s: seq<KeyValue>, kv: KeyValue)
    ensures SelectorNodes(s + [kv]) == SelectorNodes(s) + [SelectorNode(kv)]
  {
    assert (s + [kv])[..|s|] == s;
  }

  lemma {:induction false} TextSelectorRead(kv: KeyValue)
    requires kv.value.Text?
    ensures ReadFilterSelector(SelectorNode(kv)) == FilledOne(kv)
  {
    LeafContent(SelectorNode(kv));
  }

  lemma {:induction false} SelectorsComeBack(s: seq<KeyValue>)
    requires forall i :: 0 <= i < |s| ==> s[i].value.Text?
    ensures ReadFilterSelectors(SelectorNodes(s)) == FilledAll(s)
  {
    forall i | 0 <= i < |s| ensures ReadFilterSelectors(SelectorNodes(s))[i] == FilledAll(s)[i] {
      TextSelectorRead(s[i]);
    }
  }

  lemma {:induction false} SelectorSetFound(node: Node, children: seq<Node>)
    requires node.children == [Inner(SelectorSet, children)] && ReadDialect(node) == SelectorDialect
    ensures ReadFilter(node) == Some(FromEntries(children))
  {
    CalledOne(Inner(SelectorSet, children), SelectorSet);
    assert Child(node, 0, SelectorSet) == Some(Inner(SelectorSet, children));
  }

  /** What is left of a selector filter: the texts, in order, with NULLs as empty strings; every
      EPR is lost and leaves two slots that are counted and never written. */
  function LeftOf(s: seq<KeyValue>): Filter {
    SelectorFilter(FilledAll(TextsOnly(s))).(unset := 2 * Refs(s))
  }

  lemma {:induction false} EntriesRead(s: seq<KeyValue>)
    ensures FromEntries(FilterSelectorNodes(s)) == LeftOf(s)
  {
    SelectorChildren(s);
    SelectorsComeBack(TextsOnly(s));
  }

  lemma {:induction false} SelectorElementRead(node: Node, s: seq<KeyValue>)
    requires node.children == [Inner(SelectorSet, FilterSelectorNodes(s))] && ReadDialect(node) == SelectorDialect
    ensures ReadFilter(node) == Some(LeftOf(s))
  {
    SelectorSetFound(node, FilterSelectorNodes(s));
    EntriesRead(s);
  }

  lemma {:induction false} SelectorComesBack(node: Node, name: QName, s: seq<KeyValue>)
    requires Called(node.children, name) == [] && s != []
    ensures ReadBack(Written(node, SelectorFilter(s), name), name) == Some(LeftOf(s))
  {
    FilterFound(node, SelectorFilter(s), name);
    SelectorElementRead(FilterNode(SelectorFilter(s), name).value, s);
  }

  lemma {:induction false} AllTexts(s: seq<KeyValue>)
    ensures |TextsOnly(s)| == |s| <==> forall i :: 0 <= i < |s| ==> s[i].value.Text?
    ensures |TextsOnly(s)| == |s| ==> TextsOnly(s) == s
  {
    if s != [] {
      var n := |s| - 1;
      AllTexts(s[..n]);
      if |TextsOnly(s)| == |s| { assert s == s[..n] + [s[n]]; }
    }
  }

  lemma {:induction false} AllFilled(s: seq<KeyValue>)
    ensures FilledAll(s) == s <==> forall kv :: kv in s ==> NoNullIn(kv)
  {
    forall kv | kv in s ensures FilledOne(kv) == kv <==> NoNullIn(kv) { FilledOneSame(kv); }
    AllSame(s, FilledAll(s));
  }

  lemma {:induction false} NoRefs(s: seq<KeyValue>)
    requires forall kv :: kv in s ==> kv.value.Text?
    ensures Refs(s) == 0
  {
    if s != [] {
      assert s[|s| - 1] in s;
      NoRefs(s[..|s| - 1]);
    }
  }

  lemma {:induction false} LeftOfSame(s: seq<KeyValue>)
    ensures LeftOf(s) == SelectorFilter(s) <==> FilledAll(TextsOnly(s)) == s && Refs(s) == 0
  {
  }

  lemma {:induction false} TextLost(s: seq<KeyValue>, i: nat)
    requires i < |s| && !s[i].value.Text?
    ensures FilledAll(TextsOnly(s)) != s
  {
    AllTexts(s);
    assert |FilledAll(TextsOnly(s))| == |TextsOnly(s)| != |s|;
  }

  lemma {:induction false} AllLeft(s: seq<KeyValue>)
    ensures FilledAll(TextsOnly(s)) == s && Refs(s) == 0 <==> forall kv :: kv in s ==> kv.value.Text? && NoNullIn(kv)
  {
    if i :| 0 <= i < |s| && !s[i].value.Text? {
      TextLost(s, i);
      assert s[i] in s;
    } else {
      AllTexts(s);
      TextsFilled(s);
    }
  }

  lemma {:induction false} TextsFilled(s: seq<KeyValue>)
    requires TextsOnly(s) == s && forall i :: 0 <= i < |s| ==> s[i].value.Text?
    ensures FilledAll(TextsOnly(s)) == s && Refs(s) == 0 <==> forall kv :: kv in s ==> kv.value.Text? && NoNullIn(kv)
  {
    AllFilled(s);
    NoRefs(s);
  }

  /** So a selector filter comes back unchanged exactly when all its selectors hold texts and
      nothing in it is NULL. */
  lemma {:induction false} SelectorRoundTrip(node: Node, name: QName, s: seq<KeyValue>)
    requires Called(node.children, name) == [] && s != []
    ensures ReadBack(Written(node, SelectorFilter(s), name), name) == Some(SelectorFilter(s))
       <==> forall kv :: kv in s ==> kv.value.Text? && NoNullIn(kv)
  {
    SelectorComesBack(node, name, s);
    LeftOfSame(s);
    AllLeft(s);
  }

  lemma {:induction false} OneRefLeft(kv: KeyValue)
    requires kv.value.Ref? && kv.value.epr.Some?
    ensures LeftOf([kv]) == SelectorFilter([]).(unset := 2)
  {
    assert [kv][..0] == [];
    assert TextsOnly([kv]) == [] && Refs([kv]) == 1;
  }

  /** A selector that holds an EPR does not come back, and leaves two slots unwritten. */
  lemma {:induction false} SelectorLost(node: Node, name: QName, key: Option<string>, e: Epr)
    requires Called(node.children, name) == []
    ensures ReadBack(Written(node, SelectorFilter([KeyValue(key, Ref(Some(e)))]), name), name)
         == Some(SelectorFilter([]).(unset := 2))
  {
    SelectorComesBack(node, name, [KeyValue(key, Ref(Some(e)))]);
    OneRefLeft(KeyValue(key, Ref(Some(e))));
  }

  // ---------------------------------------------------------------- what comes back: associations

  lemma {:induction false} CalledGroup(group: seq<Node>, own: QName, name: QName)
    requires forall i :: 0 <= i < |group| ==> group[i].name == own
    ensures Called(group, name) == if own == name then group else []
  {
    if own == name { CalledAll(group, name); } else { CalledNone(group, name); }
  }

  lemma CalledSix(a: seq<Node>, b: seq<Node>, c: seq<Node>, d: seq<Node>, e: seq<Node>, p: seq<Node>, name: QName)
    ensures Called(a + b + c + d + e + p, name) ==
      Called(a, name) + Called(b, name) + Called(c, name) + Called(d, name) + Called(e, name) + Called(p, name)
  {
    CalledAppend(a, b, name);
    CalledAppend(a + b, c, name);
    CalledAppend(a + b + c, d, name);
    CalledAppend(a + b + c + d, e, name);
    CalledAppend(a + b + c + d + e, p, name);
  }

  lemma {:induction false} GroupCalled(f: Filter, own: QName, name: QName)
    requires f.epr.Some?
    ensures Called(Group(f, own), name) == Pick(own == name, Group(f, name))
  {
    CalledGroup(Group(f, own), own, name);
  }

  function Pick(here: bool, group: seq<Node>): seq<Node> {
    if here then group else []
  }

  lemma PickOnce(a: bool, b: bool, c: bool, d: bool, e: bool, p: bool, g: seq<Node>)
    requires a ==> !b && !c && !d && !e && !p
    requires b ==> !c && !d && !e && !p
    requires c ==> !d && !e && !p
    requires d ==> !e && !p
    requires e ==> !p
    requires a || b || c || d || e || p
    ensures Pick(a, g) + Pick(b, g) + Pick(c, g) + Pick(d, g) + Pick(e, g) + Pick(p, g) == g
  {
  }

  predicate Grouped(name: QName) {
    name in {CimObject, AssociationClassName, Role, ResultClassName, ResultRole, IncludeResultProperty}
  }

  /** Looking a name up finds its group. */
  lemma {:induction false} InstanceCalled(f: Filter, name: QName)
    requires f.epr.Some? && Grouped(name)
    ensures Called(Instance(f), name) == Group(f, name)
  {
    CalledSix(Group(f, CimObject), Group(f, AssociationClassName), Group(f, Role), Group(f, ResultClassName),
              Group(f, ResultRole), Group(f, IncludeResultProperty), name);
    GroupCalled(f, CimObject, name);
    GroupCalled(f, AssociationClassName, name);
    GroupCalled(f, Role, name);
    GroupCalled(f, ResultClassName, name);
    GroupCalled(f, ResultRole, name);
    GroupCalled(f, IncludeResultProperty, name);
    PickOnce(CimObject == name, AssociationClassName == name, Role == name, ResultClassName == name,
             ResultRole == name, IncludeResultProperty == name, Group(f, name));
  }

  function One(s: Option<string>): nat {
    if s.Some? then 1 else 0
  }

  /** How many of the four optional names a filter has. */
  function Options(f: Filter): nat {
    One(f.assocClass) + One(f.role) + One(f.resultClass) + One(f.resultRole)
  }

  lemma {:induction false} OptionalRead(node: Node, f: Filter, name: QName, s: Option<string>)
    requires f.epr.Some? && node.children == Instance(f) && Grouped(name) && Group(f, name) == Optional(name, s)
    ensures TextOf(node, name) == s
  {
    InstanceCalled(f, name);
    TextFound(node, name, s);
  }

  lemma {:induction false} TextFound(node: Node, name: QName, s: Option<string>)
    requires Called(node.children, name) == Optional(name, s)
    ensures TextOf(node, name) == s
  {
    if s.Some? { LeafContent(Leaf(name, s.value)); }
  }

  lemma {:induction false} LeavesRead(name: QName, texts: seq<string>, n: nat)
    requires n <= |texts|
    ensures Texts(Leaves(name, texts)[..n]) == texts[..n]
  {
    forall i | 0 <= i < n ensures Texts(Leaves(name, texts)[..n])[i] == texts[i] { LeafContent(Leaf(name, texts[i])); }
  }

  lemma {:induction false} PropertiesRead(node: Node, f: Filter, n: nat)
    requires f.epr.Some? && node.children == Instance(f) && n <= |f.resultProp|
    ensures |Called(node.children, IncludeResultProperty)| == |f.resultProp|
    ensures Texts(Called(node.children, IncludeResultProperty)[..n]) == f.resultProp[..n]
  {
    InstanceCalled(f, IncludeResultProperty);
    LeavesRead(IncludeResultProperty, f.resultProp, n);
  }

  lemma InstanceCount(f: Filter)
    requires f.epr.Some?
    ensures |Instance(f)| == 1 + Options(f) + |f.resultProp|
  {
  }

  lemma {:induction false} OptionsRead(node: Node, f: Filter)
    requires f.epr.Some? && node.children == Instance(f)
    ensures TextOf(node, AssociationClassName) == f.assocClass && TextOf(node, Role) == f.role
    ensures TextOf(node, ResultClassName) == f.resultClass && TextOf(node, ResultRole) == f.resultRole
  {
    OptionalRead(node, f, AssociationClassName, f.assocClass);
    OptionalRead(node, f, Role, f.role);
    OptionalRead(node, f, ResultClassName, f.resultClass);
    OptionalRead(node, f, ResultRole, f.resultRole);
  }

  /** What is read from an instances element. */
  lemma {:induction false} InstanceRead(node: Node, f: Filter, assocType: int)
    requires f.epr.Some? && node.children == Instance(f)
    ensures Options(f) + |f.resultProp| < 3 ==> ReadInstance(node, assocType).None?
    ensures Options(f) + |f.resultProp| >= 3 ==>
      ReadInstance(node, assocType) == Some(CutBack(f, assocType, Min(|f.resultProp|, Options(f) + |f.resultProp| - 3)))
  {
    InstanceCount(f);
    var n := Min(|f.resultProp|, ProperNum(node));
    if n >= 0 {
      OptionsRead(node, f);
      ObjectRead(node, f);
      PropertiesRead(node, f, n);
    }
  }

  /** The filter with its first `n` properties, NULLs in its EPR read as empty. */
  function CutBack(f: Filter, assocType: int, n: int): Filter
    requires f.epr.Some? && 0 <= n <= |f.resultProp|
  {
    AssocFilter(Filled(f.epr.value), assocType, f.assocClass, f.resultClass, f.role, f.resultRole, f.resultProp[..n])
  }

  lemma {:induction false} ObjectRead(node: Node, f: Filter)
    requires f.epr.Some? && node.children == Instance(f)
    ensures Deserialize(node, Some(CimObject), true) == Some(Filled(f.epr.value))
  {
    var object_ := Inner(CimObject, Embedded(f.epr.value));
    InstanceCalled(f, CimObject);
    assert Child(node, 0, CimObject) == Some(object_);
    EmbeddedRead(object_, [], f.epr.value);
  }

  lemma {:induction false} InstancesFound(node: Node, f: Filter)
    requires f.epr.Some? && ReadDialect(node) == AssociationDialect
    requires node.children == [Inner(Instances(f.assocType), Instance(f))]
    ensures ReadFilter(node) == ReadInstance(node.children[0], if f.assocType == 0 then 0 else 1)
  {
    CalledOne(node.children[0], AssociatedInstances);
    CalledOne(node.children[0], AssociationInstances);
  }

  /** An association filter, as `filter_create_assoc` makes it. */
  predicate IsAssoc(f: Filter) {
    f.epr.Some? &&
    f == AssocFilter(f.epr.value, f.assocType, f.assocClass, f.resultClass, f.role, f.resultRole, f.resultProp)
  }

  /** Type 0 is written as AssociatedInstances, any other as AssociationInstances. */
  lemma InstancesByType(f: Filter, name: QName)
    requires IsAssoc(f)
    ensures var node := FilterNode(f, name);
            && node.Some? && |node.value.children| == 1 && node.value.attrs.dialect == Some(AssociationDialect)
            && (f.assocType == 0 ==> node.value.children[0].name == AssociatedInstances)
            && (f.assocType != 0 ==> node.value.children[0].name == AssociationInstances)
  {
  }

  /** AssociatedInstances are read as type 0, AssociationInstances as type 1. */
  lemma {:induction false} TypeByInstances(node: Node, child: Node)
    requires node.attrs.dialect == Some(AssociationDialect) && node.children == [child]
    ensures ReadFilter(node).Some? ==>
      && (child.name == AssociatedInstances || child.name == AssociationInstances)
      && ReadFilter(node).value.assocType == if child.name == AssociatedInstances then 0 else 1
  {
    CalledOne(child, AssociatedInstances);
    CalledOne(child, AssociationInstances);
  }

  /** With o of the four optional names and k properties, the first min(k, o + k - 3) properties
      come back, and with o + k < 3 nothing does. */
  lemma {:induction false} AssocComesBack(node: Node, name: QName, f: Filter)
    requires Called(node.children, name) == [] && IsAssoc(f)
    ensures Options(f) + |f.resultProp| < 3 ==> ReadBack(Written(node, f, name), name).None?
    ensures Options(f) + |f.resultProp| >= 3 ==>
      ReadBack(Written(node, f, name), name) ==
      Some(CutBack(f, if f.assocType == 0 then 0 else 1, Min(|f.resultProp|, Options(f) + |f.resultProp| - 3)))
  {
    FilterFound(node, f, name);
    InstancesFound(FilterNode(f, name).value, f);
    InstanceRead(Inner(Instances(f.assocType), Instance(f)), f, if f.assocType == 0 then 0 else 1);
  }

  lemma {:induction false} CutBackSame(f: Filter, assocType: int, n: int)
    requires IsAssoc(f) && 0 <= n <= |f.resultProp|
    ensures CutBack(f, assocType, n) == f <==> NoNulls(f.epr.value) && f.assocType == assocType && n == |f.resultProp|
  {
    FilledSame(f.epr.value);
    if n == |f.resultProp| { assert f.resultProp[..n] == f.resultProp; }
  }

  /** So an association filter survives exactly when it has at least three of the optional names,
      no NULL in its EPR and a proper type. */
  lemma {:induction false} AssocRoundTrip(node: Node, name: QName, f: Filter)
    requires Called(node.children, name) == [] && IsAssoc(f)
    ensures ReadBack(Written(node, f, name), name) == Some(f) <==>
      Options(f) >= 3 && NoNulls(f.epr.value) && (f.assocType == 0 || f.assocType == 1)
  {
    AssocComesBack(node, name, f);
    if Options(f) + |f.resultProp| >= 3 {
      CutBackSame(f, if f.assocType == 0 then 0 else 1, Min(|f.resultProp|, Options(f) + |f.resultProp| - 3));
    }
  }

  lemma {:induction false} CutToOne(f: Filter, p: string, q: string)
    requires IsAssoc(f) && NoNulls(f.epr.value) && f.assocType == 0 && f.resultProp == [p, q]
    ensures CutBack(f, 0, 1) == f.(resultProp := [p])
  {
    FilledSame(f.epr.value);
    assert [p, q][..1] == [p];
  }

  lemma {:induction false} OneOfTwoLost(node: Node, name: QName, f: Filter, p: string, q: string)
    requires Called(node.children, name) == [] && IsAssoc(f) && NoNulls(f.epr.value)
    requires f.assocType == 0 && Options(f) == 2 && f.resultProp == [p, q]
    ensures ReadBack(Written(node, f, name), name) == Some(f.(resultProp := [p]))
  {
    AssocComesBack(node, name, f);
    CutToOne(f, p, q);
  }

  /** A filter with two names and two properties that comes back with one property. */
  lemma {:induction false} PropertyLost(node: Node, name: QName)
    requires Called(node.children, name) == []
    ensures var f := AssocFilter(Epr(Some("a"), Some("u"), []), 0, Some("C"), Some("R"), None, None, ["p", "q"]);
            ReadBack(Written(node, f, name), name) == Some(f.(resultProp := ["p"]))
  {
    var e := Epr(Some("a"), Some("u"), []);
    OneOfTwoLost(node, name, AssocFilter(e, 0, Some("C"), Some("R"), None, None, ["p", "q"]), "p", "q");
  }

  // ---------------------------------------------------------------- the code

  method AddOptional(children: seq<Node>, name: QName, s: Option<string>) returns (r: seq<Node>)
    ensures r == children + Optional(name, s)
  {
    r := children;
    if s.Some? { r := r + [Leaf(name, s.value)]; }
  }

  method AddProperties(before: seq<Node>, props: seq<string>) returns (children: seq<Node>)
    ensures children == before + Leaves(IncludeResultProperty, props)
  {
    children := before;
    var i := 0;
    while i < |props|
      invariant i <= |props| && children == before + Leaves(IncludeResultProperty, props[..i])
    {
      children := children + [Leaf(IncludeResultProperty, props[i])];
      i := i + 1;
    }
    assert props[..i] == props;
  }

  method WriteInstance(f: Filter) returns (instance: Node)
    requires f.epr.Some?
    ensures instance == Inner(Instances(f.assocType), Instance(f))
  {
    instance := EprSerialize(Inner(Instances(f.assocType), []), Some(CimObject), f.epr, true);
    assert instance.children == Group(f, CimObject);
    var children := AddOptional(instance.children, AssociationClassName, f.assocClass);
    children := AddOptional(children, Role, f.role);
    children := AddOptional(children, ResultClassName, f.resultClass);
    children := AddOptional(children, ResultRole, f.resultRole);
    children := AddProperties(children, f.resultProp);
    instance := Inner(Instances(f.assocType), children);
  }

  method WriteSelectorSet(selectors: seq<KeyValue>) returns (node: Node)
    ensures node == Inner(SelectorSet, FilterSelectorNodes(selectors))
  {
    node := Inner(SelectorSet, []);
    var i := 0;
    while i < |selectors|
      invariant i <= |selectors| && node == Inner(SelectorSet, FilterSelectorNodes(selectors[..i]))
    {
      assert selectors[..i + 1][..i] == selectors[..i];
      if selectors[i].value.Text? {
        var instance := WriteSelector(selectors[i]);
        node := AddChildren(node, [instance]);
      } else {
        ghost var before := node.children;
        node := EprSerialize(node, None, selectors[i].value.epr, true);
        assert before + [] == before;
      }
      i := i + 1;
    }
    assert selectors[..i] == selectors;
  }

  /** `filter_serialize`. */
  method FilterSerialize(node: Node, f: Filter, name: QName) returns (r: int, written: Node)
    ensures r == if FilterNode(f, name).Some? then 0 else -1
    ensures written == Written(node, f, name)
  {
    var filter: Node;
    if f.query.Some? {
      filter := Leaf(name, f.query.value);
    } else if f.epr.Some? {
      var instance := WriteInstance(f);
      filter := Inner(name, [instance]);
    } else if |f.selectors| != 0 {
      var selset := WriteSelectorSet(f.selectors);
      filter := Inner(name, [selset]);
    } else {
      return -1, node;
    }
    if f.dialect.Some? { filter := filter.(attrs := filter.attrs.(dialect := f.dialect)); }
    return 0, AddChildren(node, [filter]);
  }

  method ReadText(parent: Node, name: QName) returns (s: Option<string>)
    ensures s == TextOf(parent, name)
  {
    var entry := GetChild(Some(parent), 0, name);
    s := if entry.Some? then Some(Content(entry.value)) else None;
  }

  method ReadProperties(instance: Node, properNum: nat) returns (props: seq<string>)
    ensures var all := Called(instance.children, IncludeResultProperty);
            props == Texts(all[..Min(|all|, properNum)])
  {
    ghost var all := Called(instance.children, IncludeResultProperty);
    props := [];
    while |props| < properNum
      invariant |props| <= Min(|all|, properNum) && props == Texts(all[..|props|])
    {
      var node := GetChild(Some(instance), |props|, IncludeResultProperty);
      if node.None? { break; }
      props := props + [Content(node.value)];
    }
  }

  method ReadAssociation(instance: Node, assocType: int) returns (f: Option<Filter>)
    ensures f == ReadInstance(instance, assocType)
  {
    var epr := EprDeserialize(instance, Some(CimObject), true);
    var assocClass := ReadText(instance, AssociationClassName);
    var role := ReadText(instance, Role);
    var resultClass := ReadText(instance, ResultClassName);
    var resultRole := ReadText(instance, ResultRole);
    var properNum := |instance.children| - 4;
    if properNum < 0 { return None; }
    var props := ReadProperties(instance, properNum);
    return Some(Filter(Some(AssociationDialect), None, epr, [], 0,
                       assocType, assocClass, resultClass, role, resultRole, props));
  }

  method ReadEntry(entry: Node) returns (kv: KeyValue)
    ensures kv == ReadFilterSelector(entry)
  {
    var nested := GetChild(Some(entry), 0, EndpointReference);
    if nested.None? { return KeyValue(entry.attrs.name, Text(Some(Content(entry)))); }
    var epr := EprDeserialize(nested.value, None, true);
    kv := KeyValue(entry.attrs.name, Ref(epr));
  }

  method ReadEntries(selset: Node) returns (selectors: seq<KeyValue>)
    ensures selectors == ReadFilterSelectors(Called(selset.children, Selector))
  {
    ghost var all := Called(selset.children, Selector);
    CalledFewer(selset.children, Selector);
    selectors := [];
    while |selectors| < |selset.children|
      invariant |selectors| <= |all| <= |selset.children| && selectors == ReadFilterSelectors(all[..|selectors|])
    {
      var entry := GetChild(Some(selset), |selectors|, Selector);
      if entry.None? { break; }
      var kv := ReadEntry(entry.value);
      selectors := selectors + [kv];
    }
    assert all[..|selectors|] == all;
  }

  lemma {:induction false} CalledFewer(nodes: seq<Node>, name: QName)
    ensures |Called(nodes, name)| <= |nodes|
  {
    if nodes != [] { CalledFewer(nodes[..|nodes| - 1], name); }
  }

  /** `filter_deserialize`. */
  method FilterDeserialize(node: Node, name: QName) returns (f: Option<Filter>)
    ensures f == ReadBack(node, name)
  {
    var filter := GetChild(Some(node), 0, name);
    if filter.None? { return None; }
    var dialect := ReadDialect(filter.value);
    if dialect == AssociationDialect {
      var instance := GetChild(filter, 0, AssociatedInstances);
      if instance.Some? {
        f := ReadAssociation(instance.value, 0);
      } else {
        instance := GetChild(filter, 0, AssociationInstances);
        if instance.None? { return None; }
        f := ReadAssociation(instance.value, 1);
      }
    } else if dialect == SelectorDialect {
      var selset := GetChild(filter, 0, SelectorSet);
      if selset.None? { return None; }
      var selectors := ReadEntries(selset.value);
      return Some(SelectorFilter(selectors).(unset := |selset.value.children| - |selectors|));
    } else {
      return Some(QueryFilter(Some(dialect), Content(filter.value)));
    }
  }
}
