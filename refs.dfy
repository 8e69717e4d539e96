/**
 * The reference helpers of src/refs.js. The DOM query is abstracted: the
 * nodes `querySelectorAll('[id]')` returns are given as a list, and
 * `querySelector` as a function from a selector to the value it returns.
 * The copy of `kebabToCamelCase` in this file is textually the one of
 * src/case.js, so the model uses `Case.KebabToCamelCase` for both.
 */
module Refs {
  import opened Js
  import opened Case

  /** A node carrying an `id` attribute (possibly ''), known by its identity. */
  datatype Node = Node(ref: nat, id: string, nodeName: string)

  /** `kebabToCamelCase(node.getAttribute('id') || node.nodeName.toLowerCase())` */
  function RefKey(n: Node): string {
    KebabToCamelCase(if n.id != "" then n.id else LowerCase(n.nodeName))
  }

  /** `container.querySelectorAll?.('[id]') || []`: `None` when the container has no such method. */
  function NodesOf(container: Option<seq<Node>>): seq<Node> {
    if container.Some? then container.value else []
  }

  /** The `found` record after visiting `ns` in order: each node is stored under its key. */
  function RefsOf(ns: seq<Node>): map<string, Node>
    decreases |ns|
  {
    if ns == [] then map[]
    else RefsOf(ns[..|ns| - 1])[RefKey(ns[|ns| - 1]) := ns[|ns| - 1]]
  }

  /** `refsById(container)` */
  method RefsById(container: Option<seq<Node>>) returns (found: map<string, Node>)
    ensures found == RefsOf(NodesOf(container))
  {
    var nodes := NodesOf(container);
    found := map[];
    for i := 0 to |nodes|
      invariant found == RefsOf(nodes[..i])
    {
      assert nodes[..i + 1][..i] == nodes[..i];
      var name := KebabToCamelCase(if nodes[i].id != "" then nodes[i].id else LowerCase(nodes[i].nodeName));
      found := found[name := nodes[i]];
    }
    assert nodes[..|nodes|] == nodes;
  }

  /** The keys of the result are exactly the keys of the visited nodes. */
  lemma {:induction false} RefsKeys(ns: seq<Node>)
    ensures RefsOf(ns).Keys == set n | n in ns :: RefKey(n)
    decreases |ns|
  {
    if ns != [] {
      var init := ns[..|ns| - 1];
      RefsKeys(init);
      assert ns == init + [ns[|ns| - 1]];
    }
  }

  /** `ns[j]` has key `k` and no later node has it. */
  predicate LastWithKey(ns: seq<Node>, j: int, k: string) {
    0 <= j < |ns| && RefKey(ns[j]) == k && forall j' :: j < j' < |ns| ==> RefKey(ns[j']) != k
  }

  lemma LastWithKeyStep(ns: seq<Node>, j: int, k: string)
    requires ns != [] && LastWithKey(ns[..|ns| - 1], j, k) && RefKey(ns[|ns| - 1]) != k
    ensures LastWithKey(ns, j, k)
  {
    var init := ns[..|ns| - 1];
    forall j' | j < j' < |ns| ensures RefKey(ns[j']) != k {
      if j' < |init| {
        assert ns[j'] == init[j'];
      }
    }
  }

  /**
   * A later node with the same key overwrites an earlier one: the node
   * stored under a key is the last node of the list with that key.
   */
  lemma {:induction false} RefsLastWins(ns: seq<Node>, k: string)
    requires k in RefsOf(ns)
    ensures exists j :: LastWithKey(ns, j, k) && ns[j] == RefsOf(ns)[k]
    decreases |ns|
  {
    var init, last := ns[..|ns| - 1], ns[|ns| - 1];
    if RefKey(last) == k {
      assert LastWithKey(ns, |ns| - 1, k);
    } else {
      assert k in RefsOf(init);
      RefsLastWins(init, k);
      var j :| LastWithKey(init, j, k) && init[j] == RefsOf(init)[k];
      LastWithKeyStep(ns, j, k);
      assert ns[j] == init[j];
    }
  }

  /** An empty id falls back to the lower-cased node name, as `<button id>` becomes `button`. */
  lemma UnnamedKey(r: nat, nodeName: string)
    requires NoSeparators(nodeName)
    ensures RefKey(Node(r, "", nodeName)) == LowerCase(nodeName)
  {
    var l := LowerCase(nodeName);
    assert NoSeparators(l) by {
      forall i | 0 <= i < |l| ensures l[i] != '-' && l[i] != '_' {
        assert l[i] == ToLower(nodeName[i]);
      }
    }
    KebabToCamelWithoutSeparators(l);
    LowerCaseWithoutUpper(l);
  }

  lemma ContainerChunk(b: string, w: string, t: string)
    requires b == "-" + w && w == "c" + t && t == "ontainer"
    ensures KebabToCamelCase(b) == "Container"
  {
    assert b[0] == '-' && b[1..] == w && w[0] == 'c' && w[1..] == t;
    assert NoUpper(t) && NoSeparators(t);
    LowerCaseWithoutUpper(t);
    LowerCaseConcat("c", t);
    SeparatedChunk(b, w);
    assert ToUpper(ToLower('c')) == 'C';
    assert "C" + t == "Container";
  }

  lemma ListContainer(a: string, b: string)
    requires a == "list" && b == "-container"
    ensures KebabToCamelCase(a + b) == "listContainer"
  {
    KebabToCamelCaseConcat(a, b);
    KebabToCamelWithoutSeparators(a);
    LowerCaseWithoutUpper(a);
    ContainerChunk(b, "container", "ontainer");
  }

  /** An id is camel-cased: 'list-container' becomes 'listContainer'. */
  lemma NamedKeyExample(r: nat, nodeName: string)
    ensures RefKey(Node(r, "list-container", nodeName)) == "listContainer"
  {
    ListContainer("list", "-container");
    assert "list" + "-container" == "list-container";
  }

  lemma RefsOfTwo(a: Node, b: Node)
    ensures RefsOf([a, b]) == map[RefKey(a) := a][RefKey(b) := b]
  {
    assert [a, b][..1] == [a] && [a][..0] == [];
    assert RefsOf([a]) == RefsOf([])[RefKey(a) := a];
    assert RefsOf([a, b]) == RefsOf([a])[RefKey(b) := b];
  }

  lemma LowerButton(name: string)
    requires name == "BUTTON"
    ensures LowerCase(name) == "button"
  {
    var l := LowerCase(name);
    forall i | 0 <= i < 6 ensures l[i] == "button"[i] {
      assert l[i] == ToLower(name[i]);
    }
  }

  lemma ButtonKey(n: Node, r: nat, name: string)
    requires n == Node(r, "", name) && name == "BUTTON"
    ensures RefKey(n) == "button"
  {
    assert NoSeparators(name) by {
      assert '-' !in name && '_' !in name;
    }
    UnnamedKey(r, name);
    LowerButton(name);
  }

  lemma CountKey(n: Node, r: nat, id: string)
    requires n == Node(r, id, "SPAN") && id == "count"
    ensures RefKey(n) == "count"
  {
    KebabToCamelWithoutSeparators(id);
    LowerCaseWithoutUpper(id);
  }

  /**
   * `<button id>` and `<span id="count">` give the record
   * `{ button: <button>, count: <span> }`.
   */
  lemma RefsByIdExample(button: nat, span: nat)
    ensures RefsOf([Node(button, "", "BUTTON"), Node(span, "count", "SPAN")])
            == map["button" := Node(button, "", "BUTTON"), "count" := Node(span, "count", "SPAN")]
  {
    var b, s := Node(button, "", "BUTTON"), Node(span, "count", "SPAN");
    RefsOfTwo(b, s);
    ButtonKey(b, button, "BUTTON");
    CountKey(s, span, "count");
  }

  /** A container without `querySelectorAll` yields `{}`. */
  lemma RefsOfNoContainer()
    ensures RefsOf(NodesOf(None)) == map[]
  {
  }

  // ---------------------------------------------------------------------
  // refsBySelector

  datatype Selection = Selection(name: string, selector: string)

  /**
   * `container.querySelector?.(selector)`: `None` when the container has no
   * such method, which yields `undefined` for every name.
   */
  function Query(query: Option<string -> Value>, selector: string): Value {
    if query.Some? then query.value(selector) else Undefined
  }

  /** The record after visiting the entries of `selectors` in order. */
  function SelectionsOf(sels: seq<Selection>, query: Option<string -> Value>): map<string, Value>
    decreases |sels|
  {
    if sels == [] then map[]
    else
      var last := sels[|sels| - 1];
      SelectionsOf(sels[..|sels| - 1], query)[last.name := Query(query, last.selector)]
  }

  /** `refsBySelector(container, selectors)`, with `selectors` as its `Object.entries`. */
  method RefsBySelector(query: Option<string -> Value>, selectors: seq<Selection>) returns (found: map<string, Value>)
    ensures found == SelectionsOf(selectors, query)
  {
    found := map[];
    for i := 0 to |selectors|
      invariant found == SelectionsOf(selectors[..i], query)
    {
      assert selectors[..i + 1][..i] == selectors[..i];
      found := found[selectors[i].name := Query(query, selectors[i].selector)];
    }
    assert selectors[..|selectors|] == selectors;
  }

  predicate DistinctNames(sels: seq<Selection>) {
    forall i, j :: 0 <= i < j < |sels| ==> sels[i].name != sels[j].name
  }

  /** The result has exactly the names of the selector map as keys. */
  lemma {:induction false} SelectionsKeys(sels: seq<Selection>, query: Option<string -> Value>)
    ensures SelectionsOf(sels, query).Keys == set s | s in sels :: s.name
    decreases |sels|
  {
    if sels != [] {
      var init, last := sels[..|sels| - 1], sels[|sels| - 1];
      SelectionsKeys(init, query);
      assert sels == init + [last];
    }
  }

  /** With distinct names, each name is a key and holds what its own selector yields. */
  lemma {:induction false} SelectionsByName(sels: seq<Selection>, query: Option<string -> Value>)
    requires DistinctNames(sels)
    ensures forall i :: 0 <= i < |sels| ==>
      sels[i].name in SelectionsOf(sels, query) && SelectionsOf(sels, query)[sels[i].name] == Query(query, sels[i].selector)
    decreases |sels|
  {
    if sels != [] {
      var init, last := sels[..|sels| - 1], sels[|sels| - 1];
      assert DistinctNames(init);
      SelectionsByName(init, query);
      forall i | 0 <= i < |sels|
        ensures sels[i].name in SelectionsOf(sels, query) && SelectionsOf(sels, query)[sels[i].name] == Query(query, sels[i].selector)
      {
        if i < |init| {
          assert sels[i] == init[i] && sels[i].name != last.name;
        }
      }
    }
  }
}
