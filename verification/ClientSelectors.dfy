/** Selectors of a client request, from the option list to the envelope, and the server's check
    of them (src/lib/wsman-client.c, src/lib/wsman-soap-envelope.c, src/lib/wsman-dispatcher.c). */
module ClientSelectors {
  import opened Basics
  import opened Xml
  import opened Epr
  import opened EprCompare
  import opened EprEdits

  const CIM_NAMESPACE_SELECTOR := "__cimnamespace"

  // ---------------------------------------------------------------- the option list

  /** A call that changes the selectors of the client options.  A query string arrives parsed, as
      the pairs in the order the hash is scanned, or as None if it is NULL or cannot be parsed. */
  datatype Call =
    | AddSelector(key: Option<string>, value: Option<string>)
    | AddSelectorEpr(key: Option<string>, epr: Option<Epr>)
    | AddFromStr(pairs: Option<seq<(string, string)>>)
    | SetFromUri(pairs: Option<seq<(string, string)>>)

  function Put(list: seq<KeyValue>, key: Option<string>, value: Value): seq<KeyValue> {
    if key.None? then list else Edited(list, Add(key.value, value))
  }

  /** What `key_value_create` makes of a string or else an EPR. */
  function ValueOf(text: Option<string>, epr: Option<Epr>): Value {
    if text.Some? then Text(text) else Ref(epr)
  }

  function PutPairs(pairs: seq<(string, string)>): seq<KeyValue> {
    if pairs == [] then []
    else
      var n := |pairs| - 1;
      Put(PutPairs(pairs[..n]), Some(pairs[n].0), Text(Some(pairs[n].1)))
  }

  function Apply(list: seq<KeyValue>, call: Call): seq<KeyValue> {
    match call
    case AddSelector(key, value) => Put(list, key, ValueOf(value, None))
    case AddSelectorEpr(key, epr) => Put(list, key, ValueOf(None, epr))
    case AddFromStr(pairs) => if pairs.Some? then PutPairs(pairs.value) else list
    case SetFromUri(pairs) => if pairs.Some? then PutPairs(pairs.value) else []
  }

  function ApplyAll(calls: seq<Call>): seq<KeyValue> {
    if calls == [] then [] else Apply(ApplyAll(calls[..|calls| - 1]), calls[|calls| - 1])
  }

  /** Keys are there and pairwise distinct. */
  ghost predicate Proper(list: seq<KeyValue>) {
    Named(list) && Distinct(Keys(list))
  }

  lemma PutProper(list: seq<KeyValue>, key: Option<string>, value: Value)
    requires Proper(list)
    ensures Proper(Put(list, key, value))
  {
  }

  lemma {:induction false} PairsProper(pairs: seq<(string, string)>)
    ensures Proper(PutPairs(pairs))
  {
    if pairs != [] {
      var n := |pairs| - 1;
      PairsProper(pairs[..n]);
      PutProper(PutPairs(pairs[..n]), Some(pairs[n].0), Text(Some(pairs[n].1)));
    }
  }

  /** The option list is proper after any run of calls. */
  lemma {:induction false} AlwaysProper(calls: seq<Call>)
    ensures Proper(ApplyAll(calls))
  {
    if calls != [] {
      var list, call := ApplyAll(calls[..|calls| - 1]), calls[|calls| - 1];
      AlwaysProper(calls[..|calls| - 1]);
      match call
      case AddSelector(key, value) => PutProper(list, key, ValueOf(value, None));
      case AddSelectorEpr(key, epr) => PutProper(list, key, ValueOf(None, epr));
      case AddFromStr(pairs) => if pairs.Some? { PairsProper(pairs.value); }
      case SetFromUri(pairs) => if pairs.Some? { PairsProper(pairs.value); }
    }
  }

  // ---------------------------------------------------------------- the envelope

  /** The Selector element for a name and value; `asEpr` is what reading a text that mentions an
      EndpointReference as XML gives. */
  function SelectorFor(name: string, value: Value, asEpr: string -> Option<Node>): Node {
    match value
    case Text(text) =>
      if text.Some? && asEpr(text.value).Some? then
        Node.Node(Selector, "", NameAttr(Some(name)), [asEpr(text.value).value])
      else Node.Node(Selector, Stored(text), NameAttr(Some(name)), [])
    case Ref(e) => SelectorNode(KeyValue(Some(name), Ref(e)))
  }

  function SelectorsFor(list: seq<KeyValue>, asEpr: string -> Option<Node>): (r: seq<Node>)
    ensures |r| == |list| && forall i :: 0 <= i < |r| ==> r[i] == SelectorFor(Stored(list[i].key), list[i].value, asEpr)
  {
    seq(|list|, i requires 0 <= i < |list| => SelectorFor(Stored(list[i].key), list[i].value, asEpr))
  }

  /** The selectors `wsmc_build_envelope` writes. */
  function Written(list: seq<KeyValue>, cimNs: Option<string>, references: bool, asEpr: string -> Option<Node>)
    : seq<Node>
  {
    if references then []
    else SelectorsFor(list, asEpr)
         + if cimNs.Some? && !Has(list, CIM_NAMESPACE_SELECTOR)
           then [SelectorFor(CIM_NAMESPACE_SELECTOR, Text(cimNs), asEpr)] else []
  }

  /** A header with `selectors` in a SelectorSet of its own. */
  function WithSelectors(header: Node, selectors: seq<Node>): Node {
    if selectors == [] then header else AddChildren(header, [Inner(SelectorSet, selectors)])
  }

  /** The position of the first node called `name`, or the count. */
  function FirstCalled(nodes: seq<Node>, name: QName): (i: nat)
    ensures i <= |nodes| && (i < |nodes| ==> nodes[i].name == name)
    ensures forall k :: 0 <= k < i ==> nodes[k].name != name
  {
    if nodes == [] then 0
    else
      var i := FirstCalled(nodes[..|nodes| - 1], name);
      if i < |nodes| - 1 then i else if nodes[|nodes| - 1].name == name then |nodes| - 1 else |nodes|
  }

  /** Any header with one more selector: in its first SelectorSet, or in a new one. */
  function PutSelector(header: Node, selector: Node): Node {
    var i := FirstCalled(header.children, SelectorSet);
    if i == |header.children| then AddChildren(header, [Inner(SelectorSet, [selector])])
    else header.(children := header.children[i := AddChildren(header.children[i], [selector])])
  }

  /** Selectors put one after the other into a header without any end up together, in order. */
  lemma PutBehind(base: Node, before: seq<Node>, selector: Node)
    requires Called(base.children, SelectorSet) == []
    ensures PutSelector(WithSelectors(base, before), selector) == WithSelectors(base, before + [selector])
  {
    var header := WithSelectors(base, before);
    var i := FirstCalled(header.children, SelectorSet);
    if i < |base.children| { NoneCalled(base.children, SelectorSet, i); }
    if before == [] {
      assert before + [selector] == [selector];
    } else {
      assert header.children[|base.children|] == Inner(SelectorSet, before);
      assert PutSelector(header, selector).children == base.children + [Inner(SelectorSet, before + [selector])];
    }
  }

  lemma {:induction false} NoneCalled(nodes: seq<Node>, name: QName, i: nat)
    requires Called(nodes, name) == [] && i < |nodes|
    ensures nodes[i].name != name
  {
    var n := |nodes| - 1;
    if i < n { NoneCalled(nodes[..n], name, i); }
  }

  // ---------------------------------------------------------------- the server's check

  /** Two selectors that have a name have the same. */
  ghost predicate Repeats(selectors: seq<Node>) {
    exists i, j :: 0 <= i < j < |selectors|
      && selectors[i].attrs.name.Some? && selectors[i].attrs.name == selectors[j].attrs.name
  }

  ghost predicate Rejected(header: Node) {
    var selset := Child(header, 0, SelectorSet);
    selset.Some? && Repeats(Called(selset.value.children, Selector))
  }

  lemma {:induction false} WrittenFound(header: Node, selectors: seq<Node>)
    requires Called(header.children, SelectorSet) == [] && selectors != []
    requires forall i :: 0 <= i < |selectors| ==> selectors[i].name == Selector
    ensures Rejected(WithSelectors(header, selectors)) <==> Repeats(selectors)
  {
    var selset := Inner(SelectorSet, selectors);
    FoundBehind(header.children, selset, []);
    assert Child(WithSelectors(header, selectors), 0, SelectorSet) == Some(selset);
    CalledAll(selectors, Selector);
  }

  lemma KeysWritten(list: seq<KeyValue>, asEpr: string -> Option<Node>, i: nat)
    requires Proper(list) && i < |list|
    ensures var w := SelectorsFor(list, asEpr)[i]; w.attrs.name == list[i].key && w.name == Selector
  {
    assert list[i] in list;
  }

  lemma NamesWritten(list: seq<KeyValue>, cimNs: Option<string>, references: bool, asEpr: string -> Option<Node>)
    requires Proper(list)
    ensures !Repeats(Written(list, cimNs, references, asEpr))
    ensures forall i :: 0 <= i < |Written(list, cimNs, references, asEpr)| ==>
              Written(list, cimNs, references, asEpr)[i].name == Selector
  {
    var w := Written(list, cimNs, references, asEpr);
    forall i | 0 <= i < |list| ensures !references ==> w[i].attrs.name == list[i].key && w[i].name == Selector {
      KeysWritten(list, asEpr, i);
    }
    forall i, j | 0 <= i < j < |w| ensures w[i].attrs.name != w[j].attrs.name {
      if j < |list| { assert Keys(list)[i] != Keys(list)[j]; }
    }
  }

  /** The server never rejects the selectors of an envelope that was built from any run of client
      calls, with or without a CIM namespace. */
  lemma {:induction false} BuiltNeverRejected(header: Node, calls: seq<Call>, cimNs: Option<string>, references: bool,
                                              asEpr: string -> Option<Node>)
    requires Called(header.children, SelectorSet) == []
    ensures !Rejected(WithSelectors(header, Written(ApplyAll(calls), cimNs, references, asEpr)))
  {
    AlwaysProper(calls);
    var w := Written(ApplyAll(calls), cimNs, references, asEpr);
    NamesWritten(ApplyAll(calls), cimNs, references, asEpr);
    if w != [] { WrittenFound(header, w); }
  }

  // ---------------------------------------------------------------- what the server reads

  /** No text is taken for an EPR. */
  ghost predicate PlainTexts(list: seq<KeyValue>, asEpr: string -> Option<Node>) {
    forall kv :: kv in list && kv.value.Text? && kv.value.text.Some? ==> asEpr(kv.value.text.value).None?
  }

  /** The selectors a request is meant to have: the options, and the CIM namespace unless they name it. */
  ghost function Wanted(list: seq<KeyValue>, cimNs: Option<string>): seq<KeyValue> {
    if cimNs.None? || exists kv :: kv in list && kv.key == Some("__cimnamespace") then list
    else list + [KeyValue(Some("__cimnamespace"), Text(cimNs))]
  }

  lemma SelectorForNode(kv: KeyValue, asEpr: string -> Option<Node>)
    requires kv.key.Some? && PlainTexts([kv], asEpr)
    ensures SelectorFor(Stored(kv.key), kv.value, asEpr) == SelectorNode(kv)
  {
    assert kv in [kv];
  }

  lemma {:induction false} WrittenWanted(list: seq<KeyValue>, cimNs: Option<string>, asEpr: string -> Option<Node>)
    requires Proper(list) && PlainTexts(Wanted(list, cimNs), asEpr)
    ensures Written(list, cimNs, false, asEpr) == SelectorNodes(Wanted(list, cimNs))
  {
    var w, full := Written(list, cimNs, false, asEpr), Wanted(list, cimNs);
    HasMember(list, CIM_NAMESPACE_SELECTOR);
    forall i | 0 <= i < |full| ensures w[i] == SelectorNode(full[i]) {
      assert full[i] in full && (i < |list| ==> full[i] == list[i] && list[i] in list);
      SelectorForNode(full[i], asEpr);
    }
  }

  /** The header has a selector set exactly if `full` is not empty, and what is read from it is `full`,
      NULLs as empty strings. */
  ghost predicate ReadAs(header: Node, full: seq<KeyValue>) {
    var selset := Child(header, 0, SelectorSet);
    if full == [] then selset.None?
    else selset.Some? && ReadSelectors(selset.value, |selset.value.children|) == FilledAll(full)
  }

  lemma {:induction false} NodesReadAs(header: Node, full: seq<KeyValue>)
    requires Called(header.children, SelectorSet) == []
    ensures ReadAs(WithSelectors(header, SelectorNodes(full)), full)
  {
    if full != [] {
      FoundBehind(header.children, Inner(SelectorSet, SelectorNodes(full)), []);
      SelectorSetRead(full);
    }
  }

  /** What the server reads from an envelope is what the client was asked for, in order: after any
      run of calls, with or without a CIM namespace. */
  lemma {:induction false} SelectorsArrive(header: Node, calls: seq<Call>, cimNs: Option<string>,
                                           asEpr: string -> Option<Node>)
    requires Called(header.children, SelectorSet) == [] && PlainTexts(Wanted(ApplyAll(calls), cimNs), asEpr)
    ensures ReadAs(WithSelectors(header, Written(ApplyAll(calls), cimNs, false, asEpr)), Wanted(ApplyAll(calls), cimNs))
  {
    AlwaysProper(calls);
    WrittenWanted(ApplyAll(calls), cimNs, asEpr);
    NodesReadAs(header, Wanted(ApplyAll(calls), cimNs));
  }

  /** Some pair has key `k`. */
  ghost predicate HasKey(pairs: seq<(string, string)>, k: string) {
    exists i :: 0 <= i < |pairs| && pairs[i].0 == k
  }

  function FromPair(pair: (string, string)): KeyValue {
    KeyValue(Some(pair.0), Text(Some(pair.1)))
  }

  /** `kv` is made of a pair before which no pair has its key. */
  ghost predicate FromFirst(pairs: seq<(string, string)>, kv: KeyValue) {
    exists i :: 0 <= i < |pairs| && kv == FromPair(pairs[i]) && !HasKey(pairs[..i], pairs[i].0)
  }

  lemma KeyNext(pairs: seq<(string, string)>, n: nat, k: string)
    requires |pairs| == n + 1
    ensures HasKey(pairs, k) <==> HasKey(pairs[..n], k) || pairs[n].0 == k
  {
    assert forall i :: 0 <= i < n ==> pairs[..n][i] == pairs[i];
  }

  lemma {:induction false} KeyPut(pairs: seq<(string, string)>, k: string)
    ensures Has(PutPairs(pairs), k) <==> HasKey(pairs, k)
  {
    if pairs != [] {
      var n := |pairs| - 1;
      KeyPut(pairs[..n], k);
      PairsProper(pairs[..n]);
      HasAfter(PutPairs(pairs[..n]), Add(pairs[n].0, Text(Some(pairs[n].1))), k);
      KeyNext(pairs, n, k);
    }
  }

  lemma {:induction false} FromFirstNext(pairs: seq<(string, string)>, n: nat, kv: KeyValue)
    requires |pairs| == n + 1
    ensures FromFirst(pairs, kv) <==>
            FromFirst(pairs[..n], kv) || (kv == FromPair(pairs[n]) && !HasKey(pairs[..n], pairs[n].0))
  {
    var init := pairs[..n];
    forall i | 0 <= i < n ensures init[i] == pairs[i] && init[..i] == pairs[..i] { }
    if i :| 0 <= i < n && kv == FromPair(pairs[i]) && !HasKey(pairs[..i], pairs[i].0) {
      assert kv == FromPair(init[i]) && !HasKey(init[..i], init[i].0);
    }
    if i :| 0 <= i < n && kv == FromPair(init[i]) && !HasKey(init[..i], init[i].0) {
      assert kv == FromPair(pairs[i]) && !HasKey(pairs[..i], pairs[i].0);
    }
  }

  /** Of the pairs of a query string, the first with each key becomes a selector, with its value. */
  lemma {:induction false} PairsPut(pairs: seq<(string, string)>, kv: KeyValue)
    ensures kv in PutPairs(pairs) <==> FromFirst(pairs, kv)
  {
    if pairs != [] {
      var n := |pairs| - 1;
      PairsPut(pairs[..n], kv);
      KeyPut(pairs[..n], pairs[n].0);
      FromFirstNext(pairs, n, kv);
    }
  }

  /** A selector is appended unless the key is NULL or there already. */
  ghost predicate AppendedOnce(before: seq<KeyValue>, after: seq<KeyValue>, key: Option<string>, value: Value) {
    if key.None? || exists kv :: kv in before && kv.key == key then after == before
    else after == before + [KeyValue(key, value)]
  }

  lemma {:induction false} ApplyLast(calls: seq<Call>, call: Call)
    ensures ApplyAll(calls + [call]) == Apply(ApplyAll(calls), call)
  {
    assert (calls + [call])[..|calls|] == calls;
  }

  /** Adding a selector, with a text or a reference. */
  lemma {:induction false} AddCallActs(calls: seq<Call>, key: Option<string>, value: Option<string>, epr: Option<Epr>)
    ensures AppendedOnce(ApplyAll(calls), ApplyAll(calls + [AddSelector(key, value)]), key,
                         if value.Some? then Text(value) else Ref(None))
    ensures AppendedOnce(ApplyAll(calls), ApplyAll(calls + [AddSelectorEpr(key, epr)]), key, Ref(epr))
  {
    ApplyLast(calls, AddSelector(key, value));
    ApplyLast(calls, AddSelectorEpr(key, epr));
    if key.Some? { HasMember(ApplyAll(calls), key.value); }
  }

  /** A query string that can be parsed replaces the list; one that cannot leaves it or, from a URI,
      empties it. */
  lemma {:induction false} QueryCallActs(calls: seq<Call>, pairs: seq<(string, string)>, kv: KeyValue)
    ensures kv in ApplyAll(calls + [AddFromStr(Some(pairs))]) <==> FromFirst(pairs, kv)
    ensures kv in ApplyAll(calls + [SetFromUri(Some(pairs))]) <==> FromFirst(pairs, kv)
    ensures ApplyAll(calls + [AddFromStr(None)]) == ApplyAll(calls) && ApplyAll(calls + [SetFromUri(None)]) == []
  {
    ApplyLast(calls, AddFromStr(Some(pairs)));
    ApplyLast(calls, SetFromUri(Some(pairs)));
    ApplyLast(calls, AddFromStr(None));
    ApplyLast(calls, SetFromUri(None));
    PairsPut(pairs, kv);
  }

  // ---------------------------------------------------------------- the code

  /** `list_find` by key. */
  method ListFind(list: seq<KeyValue>, key: string) returns (found: bool)
    ensures found == Has(list, key)
  {
    var i := 0;
    while i < |list|
      invariant i <= |list| && forall k :: 0 <= k < i ==> list[k].key != Some(key)
    {
      if list[i].key == Some(key) { return true; }
      i := i + 1;
    }
    return false;
  }

  /** client_opt_t, as far as selectors go. */
  class ClientOptions {
    var selectors: Option<seq<KeyValue>>   // NULL until the first selector is added
    var cimNs: Option<string>
    var references: bool                   // FLAG_CIM_REFERENCES

    function List(): seq<KeyValue>
      reads this
    {
      if selectors.Some? then selectors.value else []
    }

    constructor ()
      ensures List() == ApplyAll([]) && cimNs == None && !references
    {
      selectors, cimNs, references := None, None, false;
    }

    /** `_wsmc_add_key_value` with the check for duplicates. */
    method AddKeyValue(key: Option<string>, text: Option<string>, epr: Option<Epr>)
      modifies this`selectors
      ensures List() == if text.Some? && epr.Some? then old(List()) else Put(old(List()), key, ValueOf(text, epr))
    {
      if text.Some? && epr.Some? { return; }
      if key.None? { return; }
      if selectors.None? { selectors := Some([]); }
      var found := ListFind(selectors.value, key.value);
      if found { return; }
      selectors := Some(selectors.value + [KeyValue(key, ValueOf(text, epr))]);
    }

    /** `_wsmc_add_uri_to_list`. */
    method AddUriToList(pairs: Option<seq<(string, string)>>)
      modifies this`selectors
      ensures List() == Apply(old(List()), AddFromStr(pairs))
    {
      if pairs.None? { return; }
      selectors := None;
      var i := 0;
      while i < |pairs.value|
        invariant i <= |pairs.value| && List() == PutPairs(pairs.value[..i])
      {
        assert pairs.value[..i + 1][..i] == pairs.value[..i];
        AddKeyValue(Some(pairs.value[i].0), Some(pairs.value[i].1), None);
        i := i + 1;
      }
      assert pairs.value[..i] == pairs.value;
    }

    /** One of the four public calls. */
    method Perform(call: Call)
      modifies this`selectors
      ensures List() == Apply(old(List()), call)
    {
      match call
      case AddSelector(key, value) => AddKeyValue(key, value, None);
      case AddSelectorEpr(key, epr) => AddKeyValue(key, None, epr);
      case AddFromStr(pairs) => AddUriToList(pairs);
      case SetFromUri(pairs) =>
        selectors := None;
        AddUriToList(pairs);
    }
  }

  /** `_wsman_add_selector`: into the header's SelectorSet, which is made if there is none. */
  method AddToSet(header: Node, name: string, value: Value, asEpr: string -> Option<Node>) returns (r: Node)
    ensures r == PutSelector(header, SelectorFor(name, value, asEpr))
  {
    var selector := SelectorFor(name, value, asEpr);
    var i := 0;
    while i < |header.children| && header.children[i].name != SelectorSet
      invariant i <= |header.children| && forall k :: 0 <= k < i ==> header.children[k].name != SelectorSet
    {
      i := i + 1;
    }
    if i == |header.children| {
      r := AddChildren(header, [Inner(SelectorSet, [selector])]);
    } else {
      r := header.(children := header.children[i := AddChildren(header.children[i], [selector])]);
    }
  }

  /** The selector part of `wsmc_build_envelope`. */
  method BuildSelectors(header: Node, options: ClientOptions, asEpr: string -> Option<Node>) returns (r: Node)
    requires Called(header.children, SelectorSet) == []
    ensures r == WithSelectors(header, Written(options.List(), options.cimNs, options.references, asEpr))
  {
    r := header;
    if options.references { return; }
    var list := options.List();
    var i := 0;
    while i < |list|
      invariant i <= |list| && r == WithSelectors(header, SelectorsFor(list, asEpr)[..i])
    {
      MoveCut(SelectorsFor(list, asEpr), i);
      PutBehind(header, SelectorsFor(list, asEpr)[..i], SelectorsFor(list, asEpr)[i]);
      r := AddToSet(r, Stored(list[i].key), list[i].value, asEpr);
      i := i + 1;
    }
    assert SelectorsFor(list, asEpr)[..i] == SelectorsFor(list, asEpr);
    assert SelectorsFor(list, asEpr) + [] == SelectorsFor(list, asEpr);
    if options.cimNs.Some? {
      var found := ListFind(list, CIM_NAMESPACE_SELECTOR);
      if !found {
        PutBehind(header, SelectorsFor(list, asEpr), SelectorFor(CIM_NAMESPACE_SELECTOR, Text(options.cimNs), asEpr));
        r := AddToSet(r, CIM_NAMESPACE_SELECTOR, Text(options.cimNs), asEpr);
      }
    }
  }

  lemma RepeatsNext(all: seq<Node>, n: nat)
    requires n < |all| && !Repeats(all[..n])
    ensures Repeats(all[..n + 1]) <==>
            all[n].attrs.name.Some? && exists i :: 0 <= i < n && all[i].attrs.name == all[n].attrs.name
  {
    var some := all[..n + 1];
    assert forall i :: 0 <= i < n ==> some[i] == all[..n][i] == all[i];
    assert some[n] == all[n];
  }

  /** `check_for_duplicate_selectors`. */
  method CheckForDuplicateSelectors(header: Node) returns (retval: bool)
    ensures retval == Rejected(header)
  {
    var node := GetChild(Some(header), 0, SelectorSet);
    if node.None? { return false; }
    ghost var all := Called(node.value.children, Selector);
    var index, h := 0, {};
    while true
      invariant index <= |all| && !Repeats(all[..index])
      invariant forall name :: name in h <==> exists i :: 0 <= i < index && all[i].attrs.name == Some(name)
      decreases |all| - index
    {
      var selector := GetChild(node, index, Selector);
      if selector.None? { break; }
      var attrVal := selector.value.attrs.name;
      RepeatsNext(all, index);
      index := index + 1;
      if attrVal.None? { continue; }
      if attrVal.value in h { return true; }
      h := h + {attrVal.value};
    }
    assert all[..index] == all;
    return false;
  }
}
