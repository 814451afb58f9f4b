// The resource graph built from a stored plan: nodes from the planned changes and the prior
// state, edges from the references of the configuration's root module.

module PlanGraph {
  import opened Options
  import opened Texts
  import opened Addresses
  import opened PlanSummary

  datatype Change = Change(
    address: string, actions: seq<string>, kind: string, name: string, provider: string, moduleAddress: string,
    mode: string)

  datatype StateResource = StateResource(kind: string, name: string, index: Index, provider: string, mode: string)
  datatype StateModule = StateModule(address: string, resources: seq<StateResource>, children: seq<StateModule>)

  /** An expression's references: none when it is neither an object nor a list. */
  datatype Expression = Object(references: seq<string>) | Items(items: seq<Option<seq<string>>>) | Other
  datatype ConfigResource = ConfigResource(
    kind: string, name: string, mode: string, dependsOn: seq<string>, expressions: seq<Expression>)
  datatype ModuleCall = ModuleCall(address: string, name: Option<string>, expressions: seq<Expression>)
  datatype ConfigModule = ConfigModule(resources: seq<ConfigResource>, calls: seq<ModuleCall>)

  datatype Plan = Plan(changes: seq<Change>, prior: StateModule, config: ConfigModule)

  datatype Node = Node(
    address: string, kind: string, name: string, provider: string, moduleAddress: string, change: Kind, mode: string)

  /** A dictionary of nodes that remembers the order of first insertion. */
  datatype NodeTable = NodeTable(order: seq<string>, at: map<string, Node>) {
    function Put(node: Node): NodeTable {
      NodeTable(if node.address in at then order else order + [node.address], at[node.address := node])
    }

    ghost predicate Valid() {
      && (forall a :: a in order <==> a in at)
      && (forall i, j | 0 <= i < j < |order| :: order[i] != order[j])
      && (forall a | a in at :: at[a].address == a)
    }
  }

  const EMPTY := NodeTable([], map[])

  function ShortProvider(provider: string): string {
    Without(provider, "registry.terraform.io/hashicorp/")
  }

  /** The registry's prefix goes; a name has no dot. */
  lemma ProviderIsShortened(name: string)
    requires forall i | 0 <= i < |name| :: name[i] != '.'
    ensures ShortProvider("registry.terraform.io/hashicorp/" + name) == name
    ensures ShortProvider(name) == name
  {
    var mark := "registry.terraform.io/hashicorp/";
    assert mark[8] == '.';
    StaysWhole(name, mark, 8);
    PrefixGoes(mark, name);
  }

  lemma PrefixGoes(mark: string, name: string)
    requires mark != ""
    ensures Without(mark + name, mark) == Without(name, mark)
  {
    WithoutDropsOne("", mark, name);
    assert "" + (mark + name) == mark + name && "" + Without(name, mark) == Without(name, mark);
  }

  lemma {:induction false} StaysWhole(s: string, pattern: string, k: nat)
    requires k < |pattern| && pattern[k] !in s
    ensures Without(s, pattern) == s
  {
    if s != "" {
      assert |pattern| <= |s| ==> s[k] in s;
      StaysWhole(s[1..], pattern, k);
      assert s == [s[0]] + s[1..];
    }
  }

  // ---------- Pass 1: planned changes ----------

  function ChangeNode(c: Change): Node {
    Node(c.address, c.kind, c.name, ShortProvider(c.provider), c.moduleAddress, Classify(c.actions), c.mode)
  }

  function Addressed(changes: seq<Change>): seq<Change> {
    if changes == [] then []
    else
      var before := Addressed(changes[..|changes| - 1]);
      if changes[|changes| - 1].address == "" then before else before + [changes[|changes| - 1]]
  }

  function ActionsOf(changes: seq<Change>): seq<seq<string>> {
    seq(|changes|, i requires 0 <= i < |changes| => changes[i].actions)
  }

  function WithChanges(changes: seq<Change>): NodeTable {
    if changes == [] then EMPTY
    else
      var c := changes[|changes| - 1];
      var t := WithChanges(changes[..|changes| - 1]);
      if c.address == "" then t else t.Put(ChangeNode(c))
  }

  lemma PutKeepsValid(t: NodeTable, node: Node)
    requires t.Valid()
    ensures t.Put(node).Valid() && t.order <= t.Put(node).order
    ensures t.Put(node).at.Keys == t.at.Keys + {node.address}
  {
  }

  /** The planned addresses are the nodes, each shown as its last change. */
  lemma {:induction false} ChangesAreNodes(changes: seq<Change>)
    ensures WithChanges(changes).Valid()
    ensures forall a :: a in WithChanges(changes).at <==> a != "" && LastChange(changes, a).Some?
    ensures forall a | a in WithChanges(changes).at ::
              WithChanges(changes).at[a] == ChangeNode(LastChange(changes, a).value)
  {
    if changes != [] {
      var n := |changes| - 1;
      var t, c := WithChanges(changes[..n]), changes[n];
      ChangesAreNodes(changes[..n]);
      PutKeepsValid(t, ChangeNode(c));
      assert WithChanges(changes) == if c.address == "" then t else t.Put(ChangeNode(c));
    }
  }

  function LastChange(changes: seq<Change>, address: string): Option<Change> {
    if changes == [] then None
    else if changes[|changes| - 1].address == address then Some(changes[|changes| - 1])
    else LastChange(changes[..|changes| - 1], address)
  }

  // ---------- Pass 2: prior state ----------

  function AddressOf(r: StateResource): string {
    LocalAddress(r.kind, r.name, r.index)
  }

  function StateNode(r: StateResource, prefix: string): Node {
    Node(Prefixed(prefix, AddressOf(r)), r.kind, r.name, ShortProvider(r.provider), prefix, NoOp, r.mode)
  }

  function WithResource(t: NodeTable, r: StateResource, prefix: string): NodeTable {
    if r.mode == "data" || Prefixed(prefix, AddressOf(r)) in t.at then t else t.Put(StateNode(r, prefix))
  }

  function WithResources(t: NodeTable, rs: seq<StateResource>, prefix: string): NodeTable {
    if rs == [] then t else WithResource(WithResources(t, rs[..|rs| - 1], prefix), rs[|rs| - 1], prefix)
  }

  function WithState(t: NodeTable, mod: StateModule, prefix: string): NodeTable
    decreases mod, |mod.children| + 1
  {
    WithChildren(WithResources(t, mod.resources, prefix), mod, |mod.children|)
  }

  /** After the first `n` child modules. */
  function WithChildren(t: NodeTable, mod: StateModule, n: nat): NodeTable
    requires n <= |mod.children|
    decreases mod, n
  {
    if n == 0 then t
    else WithState(WithChildren(t, mod, n - 1), mod.children[n - 1], mod.children[n - 1].address)
  }

  /** The no-op nodes of a module's own resources that are no data sources. */
  function OwnNodes(rs: seq<StateResource>, prefix: string): set<Node> {
    set r | r in rs && r.mode != "data" ::
      Node(Prefixed(prefix, LocalAddress(r.kind, r.name, r.index)), r.kind, r.name, ShortProvider(r.provider), prefix,
           NoOp, r.mode)
  }

  /** Those of a module and of all modules below it. */
  function StateNodes(mod: StateModule, prefix: string): set<Node>
    decreases mod, |mod.children| + 1
  {
    OwnNodes(mod.resources, prefix) + NodesBelow(mod, |mod.children|)
  }

  function NodesBelow(mod: StateModule, n: nat): set<Node>
    requires n <= |mod.children|
    decreases mod, n
  {
    if n == 0 then {} else NodesBelow(mod, n - 1) + StateNodes(mod.children[n - 1], mod.children[n - 1].address)
  }

  function AddressesOf(nodes: set<Node>): set<string> {
    set n | n in nodes :: n.address
  }

  /** `u` has every node of `t` unchanged, and otherwise, at exactly the addresses of `more`, nodes out of it. */
  ghost predicate Adds(t: NodeTable, u: NodeTable, more: set<Node>) {
    && u.Valid() && t.order <= u.order && u.at.Keys == t.at.Keys + AddressesOf(more)
    && (forall a | a in t.at :: u.at[a] == t.at[a])
    && (forall a | a in u.at && a !in t.at :: u.at[a] in more)
  }

  lemma AddsTwice(t: NodeTable, u: NodeTable, v: NodeTable, a: set<Node>, b: set<Node>)
    requires Adds(t, u, a) && Adds(u, v, b)
    ensures Adds(t, v, a + b)
  {
    assert forall x | x in t.at :: x in u.at && v.at[x] == u.at[x];
    assert forall i | 0 <= i < |t.order| :: t.order[i] == u.order[i] == v.order[i];
    assert AddressesOf(a + b) == AddressesOf(a) + AddressesOf(b);
  }

  lemma ResourceAdds(t: NodeTable, r: StateResource, prefix: string)
    requires t.Valid()
    ensures Adds(t, WithResource(t, r, prefix), OwnNodes([r], prefix))
  {
    var node := StateNode(r, prefix);
    PutKeepsValid(t, node);
    assert r in [r];
    assert OwnNodes([r], prefix) == if r.mode == "data" then {} else {node};
    assert AddressesOf({node}) == {node.address};
  }

  lemma {:induction false} ResourcesAdd(t: NodeTable, rs: seq<StateResource>, prefix: string)
    requires t.Valid()
    ensures Adds(t, WithResources(t, rs, prefix), OwnNodes(rs, prefix))
  {
    if rs != [] {
      var n := |rs| - 1;
      ResourcesAdd(t, rs[..n], prefix);
      var u := WithResources(t, rs[..n], prefix);
      ResourceAdds(u, rs[n], prefix);
      AddsTwice(t, u, WithResources(t, rs, prefix), OwnNodes(rs[..n], prefix), OwnNodes([rs[n]], prefix));
      OwnNodesSnoc(rs, prefix);
    }
  }

  lemma OwnNodesSnoc(rs: seq<StateResource>, prefix: string)
    requires rs != []
    ensures OwnNodes(rs, prefix) == OwnNodes(rs[..|rs| - 1], prefix) + OwnNodes([rs[|rs| - 1]], prefix)
  {
    assert rs == rs[..|rs| - 1] + [rs[|rs| - 1]];
  }

  lemma {:induction false} StateAdds(t: NodeTable, mod: StateModule, prefix: string)
    requires t.Valid()
    ensures Adds(t, WithState(t, mod, prefix), StateNodes(mod, prefix))
    decreases mod, |mod.children| + 1
  {
    var u := WithResources(t, mod.resources, prefix);
    ResourcesAdd(t, mod.resources, prefix);
    ChildrenAdd(u, mod, |mod.children|);
    AddsTwice(t, u, WithState(t, mod, prefix), OwnNodes(mod.resources, prefix), NodesBelow(mod, |mod.children|));
  }

  lemma {:induction false} ChildrenAdd(t: NodeTable, mod: StateModule, n: nat)
    requires t.Valid() && n <= |mod.children|
    ensures Adds(t, WithChildren(t, mod, n), NodesBelow(mod, n))
    decreases mod, n
  {
    if n > 0 {
      var c := mod.children[n - 1];
      ChildrenAdd(t, mod, n - 1);
      var u := WithChildren(t, mod, n - 1);
      StateAdds(u, c, c.address);
      AddsTwice(t, u, WithChildren(t, mod, n), NodesBelow(mod, n - 1), StateNodes(c, c.address));
    } else {
      assert AddressesOf({}) == {};
    }
  }

  function NodesOf(plan: Plan): NodeTable {
    WithState(WithChanges(plan.changes), plan.prior, "")
  }

  ghost predicate Planned(changes: seq<Change>, a: string) {
    a != "" && exists c :: c in changes && c.address == a
  }

  lemma {:induction false} LastChangeFinds(changes: seq<Change>, a: string)
    ensures LastChange(changes, a).Some? <==> exists c :: c in changes && c.address == a
  {
    if changes != [] {
      LastChangeFinds(changes[..|changes| - 1], a);
      assert changes == changes[..|changes| - 1] + [changes[|changes| - 1]];
    }
  }

  /** No later change of the plan has the address of this one. */
  predicate IsLastChange(changes: seq<Change>, i: nat) {
    && i < |changes| && changes[i].address != ""
    && forall j | i < j < |changes| :: changes[j].address != changes[i].address
  }

  lemma {:induction false} LastChangeAt(changes: seq<Change>, i: nat)
    requires IsLastChange(changes, i)
    ensures LastChange(changes, changes[i].address) == Some(changes[i])
  {
    if i < |changes| - 1 {
      LastChangeAt(changes[..|changes| - 1], i);
    }
  }

  /**
   * For every plan: the nodes are exactly the planned addresses and the non-data resources of the
   * prior state at any depth. A planned address shows its last change, whatever the state has there;
   * every other node is a no-op that shows a resource of the state, under its module.
   */
  lemma NodesExactly(plan: Plan)
    ensures var t := NodesOf(plan);
            && t.Valid()
            && (forall a :: a in t.at <==>
                  Planned(plan.changes, a) || exists n :: n in StateNodes(plan.prior, "") && n.address == a)
            && (forall i: nat | IsLastChange(plan.changes, i) ::
                  var c := plan.changes[i];
                  && c.address in t.at
                  && t.at[c.address] == Node(c.address, c.kind, c.name, ShortProvider(c.provider), c.moduleAddress,
                                             Classify(c.actions), c.mode))
            && (forall a | a in t.at && !Planned(plan.changes, a) :: t.at[a] in StateNodes(plan.prior, ""))
  {
    ChangesAreNodes(plan.changes);
    var t := WithChanges(plan.changes);
    forall a ensures a in t.at <==> Planned(plan.changes, a) {
      LastChangeFinds(plan.changes, a);
    }
    StateAdds(t, plan.prior, "");
    forall i: nat | IsLastChange(plan.changes, i) ensures t.at.Keys >= {plan.changes[i].address} &&
                                                     t.at[plan.changes[i].address] == ChangeNode(plan.changes[i])
    {
      LastChangeAt(plan.changes, i);
    }
    hide WithChanges, WithState, StateNodes, LastChange, ShortProvider, Classify;
  }

  // ---------- Pass 3: edges ----------

  datatype Origin = DependsOn | Reference | ModuleInput
  datatype Edge = Edge(source: string, target: string, origin: Origin)

  predicate IsReserved(ref: string) {
    "var." <= ref || "local." <= ref || "each." <= ref || "count." <= ref || "path." <= ref
  }

  /** Without the attribute at its end. */
  function Shortened(ref: string): string {
    var parts := Split(ref, '.');
    if |parts| >= 3 && parts[0] != "module" then Join(parts[..2], '.') else ref
  }

  function RefToAddr(ref: string, prefix: string): string {
    if ref == "" || IsReserved(ref) then ""
    else
      var short := Shortened(ref);
      if prefix != "" && !("module." <= short) then prefix + "." + short else short
  }

  /** The edges of the first `n` parts, one behind the other. */
  function Upto(parts: seq<seq<Edge>>, n: nat): seq<Edge>
    requires n <= |parts|
  {
    if n == 0 then [] else Upto(parts, n - 1) + parts[n - 1]
  }

  function Joined(parts: seq<seq<Edge>>): seq<Edge> {
    Upto(parts, |parts|)
  }

  lemma {:induction false} InUpto(parts: seq<seq<Edge>>, n: nat, e: Edge)
    requires n <= |parts|
    ensures e in Upto(parts, n) <==> exists i :: 0 <= i < n && e in parts[i]
  {
    if n > 0 {
      InUpto(parts, n - 1, e);
    }
  }

  function RefEdge(ref: string, prefix: string, target: string, origin: Origin): seq<Edge> {
    var source := RefToAddr(ref, prefix);
    if source == "" then [] else [Edge(source, target, origin)]
  }

  function RefParts(refs: seq<string>, prefix: string, target: string, origin: Origin): seq<seq<Edge>> {
    seq(|refs|, i requires 0 <= i < |refs| => RefEdge(refs[i], prefix, target, origin))
  }

  function RefEdges(refs: seq<string>, prefix: string, target: string, origin: Origin): seq<Edge> {
    Joined(RefParts(refs, prefix, target, origin))
  }

  function ItemEdge(item: Option<seq<string>>, prefix: string, target: string): seq<Edge> {
    if item.None? then [] else RefEdges(item.value, prefix, target, Reference)
  }

  function ItemParts(items: seq<Option<seq<string>>>, prefix: string, target: string): seq<seq<Edge>> {
    seq(|items|, i requires 0 <= i < |items| => ItemEdge(items[i], prefix, target))
  }

  function EdgesOf(e: Expression, prefix: string, target: string): seq<Edge> {
    match e
    case Object(refs) => RefEdges(refs, prefix, target, Reference)
    case Items(items) => Joined(ItemParts(items, prefix, target))
    case Other => []
  }

  function ExpressionParts(xs: seq<Expression>, prefix: string, target: string): seq<seq<Edge>> {
    seq(|xs|, i requires 0 <= i < |xs| => EdgesOf(xs[i], prefix, target))
  }

  function ExpressionEdges(xs: seq<Expression>, prefix: string, target: string): seq<Edge> {
    Joined(ExpressionParts(xs, prefix, target))
  }

  function DependencyEdges(deps: seq<string>, prefix: string, target: string): seq<Edge> {
    seq(|deps|, i requires 0 <= i < |deps| => Edge(Prefixed(prefix, deps[i]), target, DependsOn))
  }

  function OwnEdges(r: ConfigResource, prefix: string): seq<Edge> {
    var target := Prefixed(prefix, r.kind + "." + r.name);
    DependencyEdges(r.dependsOn, prefix, target) + ExpressionEdges(r.expressions, prefix, target)
  }

  function ManagedEdges(r: ConfigResource, prefix: string): seq<Edge> {
    if r.mode == "data" then [] else OwnEdges(r, prefix)
  }

  function ResourceParts(rs: seq<ConfigResource>, prefix: string): seq<seq<Edge>> {
    seq(|rs|, i requires 0 <= i < |rs| => ManagedEdges(rs[i], prefix))
  }

  function ResourceEdges(rs: seq<ConfigResource>, prefix: string): seq<Edge> {
    Joined(ResourceParts(rs, prefix))
  }

  function CallPrefix(call: ModuleCall, prefix: string): string {
    var name := if call.name.Some? then call.name.value else "?";
    if call.address != "" then call.address else Prefixed(prefix, "module." + name)
  }

  /** The first node, in insertion order, of a module. */
  function FirstIn(t: NodeTable, addresses: seq<string>, moduleAddress: string): Option<string> {
    if addresses == [] then None
    else if addresses[0] in t.at && t.at[addresses[0]].moduleAddress == moduleAddress then Some(addresses[0])
    else FirstIn(t, addresses[1..], moduleAddress)
  }

  function InputEdges(x: Expression, prefix: string, target: string): seq<Edge> {
    if x.Object? then RefEdges(x.references, prefix, target, ModuleInput) else []
  }

  function InputParts(xs: seq<Expression>, prefix: string, target: string): seq<seq<Edge>> {
    seq(|xs|, i requires 0 <= i < |xs| => InputEdges(xs[i], prefix, target))
  }

  /** The inputs of a module call, all drawn to the first node of the module. */
  function CallInputs(t: NodeTable, call: ModuleCall, prefix: string): seq<Edge> {
    var target := FirstIn(t, t.order, CallPrefix(call, prefix));
    if target.None? then [] else Joined(InputParts(call.expressions, prefix, target.value))
  }

  function CallParts(t: NodeTable, calls: seq<ModuleCall>, prefix: string): seq<seq<Edge>> {
    seq(|calls|, i requires 0 <= i < |calls| => CallInputs(t, calls[i], prefix))
  }

  function CallEdges(t: NodeTable, calls: seq<ModuleCall>, prefix: string): seq<Edge> {
    Joined(CallParts(t, calls, prefix))
  }

  /** Every edge the configuration asks for, in the order it is asked for. */
  function Requested(t: NodeTable, config: ConfigModule, prefix: string): seq<Edge> {
    ResourceEdges(config.resources, prefix) + CallEdges(t, config.calls, prefix)
  }

  predicate Joins(t: NodeTable, e: Edge) {
    e.source in t.at && e.target in t.at && e.source != e.target
  }

  predicate Linked(edges: seq<Edge>, source: string, target: string) {
    exists i :: 0 <= i < |edges| && edges[i].source == source && edges[i].target == target
  }

  function PairsOf(edges: seq<Edge>): set<(string, string)> {
    set e | e in edges :: (e.source, e.target)
  }

  lemma PairsAreLinks(edges: seq<Edge>, s: string, d: string)
    ensures (s, d) in PairsOf(edges) <==> Linked(edges, s, d)
  {
    if Linked(edges, s, d) {
      var i :| 0 <= i < |edges| && edges[i].source == s && edges[i].target == d;
      assert edges[i] in edges;
    }
  }

  lemma PairsSnoc(edges: seq<Edge>, e: Edge)
    ensures PairsOf(edges + [e]) == PairsOf(edges) + {(e.source, e.target)}
  {
  }

  function WithEdge(t: NodeTable, edges: seq<Edge>, e: Edge): seq<Edge> {
    if Joins(t, e) && !Linked(edges, e.source, e.target) then edges + [e] else edges
  }

  function WithFirst(t: NodeTable, edges: seq<Edge>, more: seq<Edge>, n: nat): seq<Edge>
    requires n <= |more|
  {
    if n == 0 then edges else WithEdge(t, WithFirst(t, edges, more, n - 1), more[n - 1])
  }

  function WithEdges(t: NodeTable, edges: seq<Edge>, more: seq<Edge>): seq<Edge> {
    WithFirst(t, edges, more, |more|)
  }

  lemma {:induction false} WithPrefix(t: NodeTable, edges: seq<Edge>, more: seq<Edge>, n: nat, k: nat)
    requires k <= n <= |more|
    ensures WithFirst(t, edges, more[..n], k) == WithFirst(t, edges, more, k)
  {
    if k > 0 {
      WithPrefix(t, edges, more, n, k - 1);
    }
  }

  lemma WithLast(t: NodeTable, edges: seq<Edge>, more: seq<Edge>)
    requires more != []
    ensures WithEdges(t, edges, more) == WithEdge(t, WithEdges(t, edges, more[..|more| - 1]), more[|more| - 1])
  {
    WithPrefix(t, edges, more, |more| - 1, |more| - 1);
  }

  /** The edges after the first `n` parts were drawn in turn. */
  function Drawn(t: NodeTable, edges: seq<Edge>, parts: seq<seq<Edge>>, n: nat): seq<Edge>
    requires n <= |parts|
  {
    if n == 0 then edges else WithEdges(t, Drawn(t, edges, parts, n - 1), parts[n - 1])
  }

  lemma {:induction false} WithEdgesConcat(t: NodeTable, edges: seq<Edge>, a: seq<Edge>, b: seq<Edge>)
    ensures WithEdges(t, edges, a + b) == WithEdges(t, WithEdges(t, edges, a), b)
  {
    if b == [] {
      assert a + b == a;
    } else {
      var n := |b| - 1;
      assert (a + b)[..|a + b| - 1] == a + b[..n];
      WithEdgesConcat(t, edges, a, b[..n]);
      WithLast(t, edges, a + b);
      WithLast(t, WithEdges(t, edges, a), b);
    }
  }

  function GraphEdges(plan: Plan): seq<Edge> {
    WithEdges(NodesOf(plan), [], Requested(NodesOf(plan), plan.config, ""))
  }

  /**
   * Every edge joins two different nodes, no ordered pair repeats, and an edge is there exactly
   * when some request names the pair; its origin is that of the first such request.
   */
  lemma {:induction false} EdgesExactly(t: NodeTable, more: seq<Edge>)
    ensures var edges := WithEdges(t, [], more);
            && (forall i | 0 <= i < |edges| :: Joins(t, edges[i]))
            && (forall i, j | 0 <= i < j < |edges| ::
                  edges[i].source != edges[j].source || edges[i].target != edges[j].target)
            && (forall s, d :: Linked(edges, s, d) <==> s in t.at && d in t.at && s != d && Linked(more, s, d))
            && (forall i | 0 <= i < |more| && Joins(t, more[i]) && !Linked(more[..i], more[i].source, more[i].target) ::
                  more[i] in edges)
  {
    if more != [] {
      var n := |more| - 1;
      EdgesExactly(t, more[..n]);
      WithLast(t, [], more);
      var before, edges := WithEdges(t, [], more[..n]), WithEdges(t, [], more);
      forall s, d ensures Linked(edges, s, d) <==> s in t.at && d in t.at && s != d && Linked(more, s, d) {
        LinkedSnoc(more[..n], more[n], s, d);
        assert more == more[..n] + [more[n]];
        LinkedSnoc(before, more[n], s, d);
      }
      forall i | 0 <= i < |more| && Joins(t, more[i]) && !Linked(more[..i], more[i].source, more[i].target)
        ensures more[i] in edges
      {
        if i < n {
          assert more[..n][..i] == more[..i] && more[..n][i] == more[i];
          assert more[i] in before;
        }
      }
    }
  }

  lemma LinkedSnoc(edges: seq<Edge>, e: Edge, s: string, d: string)
    ensures Linked(edges + [e], s, d) <==> Linked(edges, s, d) || (e.source == s && e.target == d)
  {
    var all := edges + [e];
    assert all[|edges|] == e && forall i | 0 <= i < |edges| :: all[i] == edges[i];
    if Linked(edges, s, d) {
      var i :| 0 <= i < |edges| && edges[i].source == s && edges[i].target == d;
      assert all[i] == edges[i];
    }
  }

  // ---------- What the configuration asks for ----------

  predicate Cites(refs: seq<string>, prefix: string, source: string) {
    source != "" && exists ref :: ref in refs && RefToAddr(ref, prefix) == source
  }

  predicate CitesIn(x: Expression, prefix: string, source: string) {
    match x
    case Object(refs) => Cites(refs, prefix, source)
    case Items(items) => exists item :: item in items && item.Some? && Cites(item.value, prefix, source)
    case Other => false
  }

  predicate CitedBy(xs: seq<Expression>, prefix: string, source: string) {
    exists x :: x in xs && CitesIn(x, prefix, source)
  }

  predicate IsTarget(r: ConfigResource, prefix: string, target: string) {
    r.mode != "data" && target == Prefixed(prefix, r.kind + "." + r.name)
  }

  /** A resource at the target's address names the source in its `depends_on`. */
  predicate Depends(config: ConfigModule, prefix: string, source: string, target: string) {
    exists r, dep :: r in config.resources && IsTarget(r, prefix, target) && dep in r.dependsOn &&
        Prefixed(prefix, dep) == source
  }

  /** A resource at the target's address refers to the source in some expression. */
  predicate Refers(config: ConfigModule, prefix: string, source: string, target: string) {
    exists r :: r in config.resources && IsTarget(r, prefix, target) && CitedBy(r.expressions, prefix, source)
  }

  /** The first node of the module, in the order of the table. */
  predicate IsFirstNode(t: NodeTable, moduleAddress: string, a: string) {
    exists i :: 0 <= i < |t.order| && t.order[i] == a && InModule(t, a, moduleAddress) &&
                forall j | 0 <= j < i :: !InModule(t, t.order[j], moduleAddress)
  }

  predicate InModule(t: NodeTable, a: string, moduleAddress: string) {
    a in t.at && t.at[a].moduleAddress == moduleAddress
  }

  /** A module call refers to the source, and the target is the first node of the called module. */
  predicate Feeds(t: NodeTable, config: ConfigModule, prefix: string, source: string, target: string) {
    exists call, x :: call in config.calls && x in call.expressions &&
        IsFirstNode(t, CallPrefix(call, prefix), target) &&
                      x.Object? && Cites(x.references, prefix, source)
  }

  lemma RefEdgesExactly(refs: seq<string>, prefix: string, target: string, origin: Origin, e: Edge)
    ensures e in RefEdges(refs, prefix, target, origin) <==>
            e.target == target && e.origin == origin && Cites(refs, prefix, e.source)
  {
    var parts := RefParts(refs, prefix, target, origin);
    InUpto(parts, |parts|, e);
    if e.target == target && e.origin == origin && Cites(refs, prefix, e.source) {
      var i :| 0 <= i < |refs| && RefToAddr(refs[i], prefix) == e.source;
      assert e in parts[i];
    }
  }

  lemma ItemsExactly(items: seq<Option<seq<string>>>, prefix: string, target: string, e: Edge)
    ensures e in Joined(ItemParts(items, prefix, target)) <==>
            e.target == target && e.origin == Reference && CitesIn(Items(items), prefix, e.source)
  {
    var parts := ItemParts(items, prefix, target);
    InUpto(parts, |parts|, e);
    forall i | 0 <= i < |items| && items[i].Some? ensures e in parts[i] <==>
      e.target == target && e.origin == Reference && Cites(items[i].value, prefix, e.source)
    {
      RefEdgesExactly(items[i].value, prefix, target, Reference, e);
    }
    if e.target == target && e.origin == Reference && CitesIn(Items(items), prefix, e.source) {
      var i :| 0 <= i < |items| && items[i].Some? && Cites(items[i].value, prefix, e.source);
      assert e in parts[i];
    }
  }

  lemma EdgesOfExactly(x: Expression, prefix: string, target: string, e: Edge)
    ensures e in EdgesOf(x, prefix, target) <==>
            e.target == target && e.origin == Reference && CitesIn(x, prefix, e.source)
  {
    match x {
      case Object(refs) => RefEdgesExactly(refs, prefix, target, Reference, e);
      case Items(items) => ItemsExactly(items, prefix, target, e);
      case Other =>
    }
  }

  lemma ExpressionEdgesExactly(xs: seq<Expression>, prefix: string, target: string, e: Edge)
    ensures e in ExpressionEdges(xs, prefix, target) <==>
            e.target == target && e.origin == Reference && CitedBy(xs, prefix, e.source)
  {
    var parts := ExpressionParts(xs, prefix, target);
    InUpto(parts, |parts|, e);
    forall i | 0 <= i < |xs| ensures e in parts[i] <==>
      e.target == target && e.origin == Reference && CitesIn(xs[i], prefix, e.source)
    {
      EdgesOfExactly(xs[i], prefix, target, e);
    }
    if e.target == target && e.origin == Reference && CitedBy(xs, prefix, e.source) {
      var i :| 0 <= i < |xs| && CitesIn(xs[i], prefix, e.source);
      assert e in parts[i];
    }
  }

  predicate OwnAsks(r: ConfigResource, prefix: string, e: Edge) {
    && IsTarget(r, prefix, e.target)
    && match e.origin
       case DependsOn => exists dep :: dep in r.dependsOn && Prefixed(prefix, dep) == e.source
       case Reference => CitedBy(r.expressions, prefix, e.source)
       case ModuleInput => false
  }

  lemma OwnEdgesExactly(r: ConfigResource, prefix: string, e: Edge)
    requires r.mode != "data"
    ensures e in OwnEdges(r, prefix) <==> OwnAsks(r, prefix, e)
  {
    var target := Prefixed(prefix, r.kind + "." + r.name);
    var deps := DependencyEdges(r.dependsOn, prefix, target);
    ExpressionEdgesExactly(r.expressions, prefix, target, e);
    if dep :| dep in r.dependsOn && Prefixed(prefix, dep) == e.source {
      var i :| 0 <= i < |r.dependsOn| && r.dependsOn[i] == dep;
      assert deps[i] == Edge(e.source, target, DependsOn);
    }
  }

  /** An edge that the configuration's resources ask for, by its origin. */
  predicate AskedByResources(rs: seq<ConfigResource>, prefix: string, e: Edge) {
    exists r :: r in rs && r.mode != "data" && e in OwnEdges(r, prefix)
  }

  lemma ResourceEdgesExactly(rs: seq<ConfigResource>, prefix: string, e: Edge)
    ensures e in ResourceEdges(rs, prefix) <==> AskedByResources(rs, prefix, e)
  {
    var parts := ResourceParts(rs, prefix);
    InUpto(parts, |parts|, e);
    if AskedByResources(rs, prefix, e) {
      var i :| 0 <= i < |rs| && rs[i].mode != "data" && e in OwnEdges(rs[i], prefix);
      assert e in parts[i];
    }
  }

  lemma {:induction false} FirstInExactly(t: NodeTable, addresses: seq<string>, moduleAddress: string, a: string)
    ensures FirstIn(t, addresses, moduleAddress) == Some(a) <==>
            exists i :: 0 <= i < |addresses| && addresses[i] == a && InModule(t, a, moduleAddress) &&
                        forall j | 0 <= j < i :: !InModule(t, addresses[j], moduleAddress)
  {
    if addresses != [] {
      var rest := addresses[1..];
      FirstInExactly(t, rest, moduleAddress, a);
      if i :| 0 <= i < |rest| && rest[i] == a && InModule(t, a, moduleAddress) &&
              forall j | 0 <= j < i :: !InModule(t, rest[j], moduleAddress) {
        if !InModule(t, addresses[0], moduleAddress) {
          assert addresses[i + 1] == a && forall j | 0 < j < i + 1 :: addresses[j] == rest[j - 1];
        }
      }
      if i :| 0 < i < |addresses| && addresses[i] == a && InModule(t, a, moduleAddress) &&
              forall j | 0 <= j < i :: !InModule(t, addresses[j], moduleAddress) {
        assert rest[i - 1] == a && forall j | 0 <= j < i - 1 :: rest[j] == addresses[j + 1];
      }
    }
  }

  lemma InputsExactly(xs: seq<Expression>, prefix: string, target: string, e: Edge)
    ensures e in Joined(InputParts(xs, prefix, target)) <==>
            && e.target == target && e.origin == ModuleInput
            && exists x :: x in xs && x.Object? && Cites(x.references, prefix, e.source)
  {
    var parts := InputParts(xs, prefix, target);
    InUpto(parts, |parts|, e);
    forall i | 0 <= i < |xs| && xs[i].Object? ensures e in parts[i] <==>
      e.target == target && e.origin == ModuleInput && Cites(xs[i].references, prefix, e.source)
    {
      RefEdgesExactly(xs[i].references, prefix, target, ModuleInput, e);
    }
    if && e.target == target && e.origin == ModuleInput
       && exists x :: x in xs && x.Object? && Cites(x.references, prefix, e.source)
    {
      var i :| 0 <= i < |xs| && xs[i].Object? && Cites(xs[i].references, prefix, e.source);
      assert e in parts[i];
    }
  }

  predicate FeedsBy(t: NodeTable, call: ModuleCall, prefix: string, e: Edge) {
    && e.origin == ModuleInput && IsFirstNode(t, CallPrefix(call, prefix), e.target)
    && exists x :: x in call.expressions && x.Object? && Cites(x.references, prefix, e.source)
  }

  lemma CallInputsExactly(t: NodeTable, call: ModuleCall, prefix: string, e: Edge)
    ensures e in CallInputs(t, call, prefix) <==> FeedsBy(t, call, prefix, e)
  {
    var first := FirstIn(t, t.order, CallPrefix(call, prefix));
    FirstInExactly(t, t.order, CallPrefix(call, prefix), e.target);
    if first.Some? {
      InputsExactly(call.expressions, prefix, first.value, e);
    }
  }

  lemma CallEdgesExactly(t: NodeTable, calls: seq<ModuleCall>, prefix: string, e: Edge)
    ensures e in CallEdges(t, calls, prefix) <==> exists call :: call in calls && FeedsBy(t, call, prefix, e)
  {
    var parts := CallParts(t, calls, prefix);
    InUpto(parts, |parts|, e);
    forall i | 0 <= i < |calls| ensures e in parts[i] <==> FeedsBy(t, calls[i], prefix, e) {
      CallInputsExactly(t, calls[i], prefix, e);
    }
    if call :| call in calls && FeedsBy(t, call, prefix, e) {
      var i :| 0 <= i < |calls| && calls[i] == call;
      assert e in parts[i];
    }
  }

  predicate Asks(t: NodeTable, config: ConfigModule, prefix: string, e: Edge) {
    match e.origin
    case DependsOn => Depends(config, prefix, e.source, e.target)
    case Reference => Refers(config, prefix, e.source, e.target)
    case ModuleInput => Feeds(t, config, prefix, e.source, e.target)
  }

  lemma AskedByResourcesExactly(t: NodeTable, config: ConfigModule, prefix: string, e: Edge)
    ensures AskedByResources(config.resources, prefix, e) <==> e.origin != ModuleInput && Asks(t, config, prefix, e)
  {
    forall r | r in config.resources && r.mode != "data" ensures e in OwnEdges(r, prefix) <==> OwnAsks(r, prefix, e)
    {
      OwnEdgesExactly(r, prefix, e);
    }
  }

  lemma RequestedExactly(t: NodeTable, config: ConfigModule, prefix: string, e: Edge)
    ensures e in Requested(t, config, prefix) <==> Asks(t, config, prefix, e)
  {
    ResourceEdgesExactly(config.resources, prefix, e);
    AskedByResourcesExactly(t, config, prefix, e);
    CallEdgesExactly(t, config.calls, prefix, e);
    assert (exists call :: call in config.calls && FeedsBy(t, call, prefix, e)) <==>
           e.origin == ModuleInput && Feeds(t, config, prefix, e.source, e.target);
  }

  lemma MemberLinks(edges: seq<Edge>, e: Edge)
    requires e in edges
    ensures Linked(edges, e.source, e.target)
  {
    var i :| 0 <= i < |edges| && edges[i] == e;
  }

  lemma {:induction false} EdgesStay(t: NodeTable, edges: seq<Edge>, more: seq<Edge>, s: string, d: string)
    requires Linked(edges, s, d)
    ensures Linked(WithEdges(t, edges, more), s, d)
  {
    if more != [] {
      EdgesStay(t, edges, more[..|more| - 1], s, d);
      WithLast(t, edges, more);
      LinkedSnoc(WithEdges(t, edges, more[..|more| - 1]), more[|more| - 1], s, d);
    }
  }

  lemma {:induction false} AddedWhenUnlinked(t: NodeTable, edges: seq<Edge>, more: seq<Edge>, e: Edge)
    ensures e in WithEdges(t, edges, more) ==> e in edges || (e in more && !Linked(edges, e.source, e.target))
  {
    if more != [] {
      var n := |more| - 1;
      AddedWhenUnlinked(t, edges, more[..n], e);
      WithLast(t, edges, more);
      assert more == more[..n] + [more[n]];
      if Linked(edges, e.source, e.target) {
        EdgesStay(t, edges, more[..n], e.source, e.target);
      }
    }
  }

  lemma LinkedByOrigin(edges: seq<Edge>, s: string, d: string)
    ensures Linked(edges, s, d) <==>
            Edge(s, d, DependsOn) in edges || Edge(s, d, Reference) in edges || Edge(s, d, ModuleInput) in edges
  {
    if Linked(edges, s, d) {
      var i :| 0 <= i < |edges| && edges[i].source == s && edges[i].target == d;
      var o := edges[i].origin;
      assert edges[i] == Edge(s, d, o) && (o == DependsOn || o == Reference || o == ModuleInput);
    }
    forall o | Edge(s, d, o) in edges ensures Linked(edges, s, d) {
      MemberLinks(edges, Edge(s, d, o));
    }
  }

  lemma AskedByOrigin(t: NodeTable, config: ConfigModule, prefix: string, s: string, d: string)
    ensures Linked(Requested(t, config, prefix), s, d) <==>
            Depends(config, prefix, s, d) || Refers(config, prefix, s, d) || Feeds(t, config, prefix, s, d)
  {
    LinkedByOrigin(Requested(t, config, prefix), s, d);
    RequestedExactly(t, config, prefix, Edge(s, d, DependsOn));
    RequestedExactly(t, config, prefix, Edge(s, d, Reference));
    RequestedExactly(t, config, prefix, Edge(s, d, ModuleInput));
  }

  /**
   * For every plan: two different nodes are joined exactly when a resource at the target depends on
   * or refers to the source, or a module call refers to it and has the target for its first node.
   */
  lemma PlanEdgesExactly(plan: Plan, s: string, d: string)
    ensures var t := NodesOf(plan);
            Linked(GraphEdges(plan), s, d) <==>
            && s in t.at && d in t.at && s != d
            && (Depends(plan.config, "", s, d) || Refers(plan.config, "", s, d) || Feeds(t, plan.config, "", s, d))
  {
    EdgesExactly(NodesOf(plan), Requested(NodesOf(plan), plan.config, ""));
    AskedByOrigin(NodesOf(plan), plan.config, "", s, d);
  }

  /** The reference stands in the expression, alone or in a list. */
  predicate Mentions(x: Expression, ref: string) {
    || (x.Object? && ref in x.references)
    || (x.Items? && exists item :: item in x.items && item.Some? && ref in item.value)
  }

  /** For one: a resource of the root that mentions another's attribute is joined to it, if both are nodes. */
  lemma CitationIsDrawn(plan: Plan, r: ConfigResource, x: Expression, kind: string, name: string, attribute: string)
    requires r in plan.config.resources && r.mode != "data" && x in r.expressions
    requires '.' !in kind && '.' !in name && kind !in {"", "data", "module", "var", "local", "each", "count", "path"}
    requires Mentions(x, kind + "." + (name + "." + attribute)) || Mentions(x, kind + "." + name)
    ensures var s, d, t := kind + "." + name, r.kind + "." + r.name, NodesOf(plan);
            s in t.at && d in t.at && s != d ==> Linked(GraphEdges(plan), s, d)
  {
    var s, d := kind + "." + name, r.kind + "." + r.name;
    PlanEdgesExactly(plan, s, d);
    RefKeepsTwoParts(kind, name, attribute);
    TwoPartsStay(kind, name);
    var ref := if Mentions(x, s) then s else kind + "." + (name + "." + attribute);
    MentionCites(x, ref, s);
    assert Refers(plan.config, "", s, d);
  }

  lemma MentionCites(x: Expression, ref: string, s: string)
    requires Mentions(x, ref) && RefToAddr(ref, "") == s != ""
    ensures CitesIn(x, "", s)
  {
    hide RefToAddr;
    if x.Items? {
      var item :| item in x.items && item.Some? && ref in item.value;
      assert Cites(item.value, "", s);
    }
  }

  /** And what a call of a module mentions is joined to the first node of that module. */
  lemma InputIsDrawn(plan: Plan, call: ModuleCall, refs: seq<string>, ref: string, s: string, first: nat)
    requires call in plan.config.calls && Object(refs) in call.expressions && ref in refs
    requires RefToAddr(ref, "") == s != ""
    requires var t := NodesOf(plan);
             var path := if call.address != "" then call.address
                         else "module." + if call.name.Some? then call.name.value else "?";
             && first < |t.order| && t.order[first] in t.at && t.at[t.order[first]].moduleAddress == path
             && forall j | 0 <= j < first :: t.order[j] in t.at ==> t.at[t.order[j]].moduleAddress != path
    ensures var d := NodesOf(plan).order[first];
            s in NodesOf(plan).at && s != d ==> Linked(GraphEdges(plan), s, d)
  {
    var t := NodesOf(plan);
    var d := t.order[first];
    PlanEdgesExactly(plan, s, d);
    hide NodesOf, GraphEdges, RefToAddr;
    assert IsFirstNode(t, CallPrefix(call, ""), d);
    assert Cites(refs, "", s);
    assert Feeds(t, plan.config, "", s, d);
  }

  /** An edge's kind says why it is there; it is a module input only when no resource asks for it. */
  lemma PlanEdgeKinds(plan: Plan, e: Edge)
    requires e in GraphEdges(plan)
    ensures Asks(NodesOf(plan), plan.config, "", e)
    ensures e.origin == ModuleInput ==>
              !Depends(plan.config, "", e.source, e.target) && !Refers(plan.config, "", e.source, e.target)
  {
    var t := NodesOf(plan);
    AddedWhenUnlinked(t, [], Requested(t, plan.config, ""), e);
    RequestedExactly(t, plan.config, "", e);
    if e.origin == ModuleInput {
      ResourcesComeFirst(t, plan.config, "", e);
    }
  }

  lemma ResourcesComeFirst(t: NodeTable, config: ConfigModule, prefix: string, e: Edge)
    requires e in WithEdges(t, [], Requested(t, config, prefix)) && e.origin == ModuleInput
    ensures !Depends(config, prefix, e.source, e.target) && !Refers(config, prefix, e.source, e.target)
  {
    var own, calls := ResourceEdges(config.resources, prefix), CallEdges(t, config.calls, prefix);
    WithEdgesConcat(t, [], own, calls);
    AddedWhenUnlinked(t, WithEdges(t, [], own), calls, e);
    AddedWhenUnlinked(t, [], own, e);
    ResourceEdgesExactly(config.resources, prefix, e);
    AskedByResourcesExactly(t, config, prefix, e);
    JoinedWhenAsked(t, own, calls, e);
    ResourcesLink(t, config, prefix, e.source, e.target);
  }

  lemma JoinedWhenAsked(t: NodeTable, own: seq<Edge>, calls: seq<Edge>, e: Edge)
    requires e in WithEdges(t, [], own + calls)
    ensures Linked(own, e.source, e.target) ==> Linked(WithEdges(t, [], own), e.source, e.target)
  {
    EdgesExactly(t, own + calls);
    EdgesExactly(t, own);
    MemberLinks(WithEdges(t, [], own + calls), e);
  }

  lemma ResourcesLink(t: NodeTable, config: ConfigModule, prefix: string, s: string, d: string)
    ensures Depends(config, prefix, s, d) || Refers(config, prefix, s, d) ==>
              Linked(ResourceEdges(config.resources, prefix), s, d)
  {
    LinkedByOrigin(ResourceEdges(config.resources, prefix), s, d);
    ResourceEdgesExactly(config.resources, prefix, Edge(s, d, DependsOn));
    ResourceEdgesExactly(config.resources, prefix, Edge(s, d, Reference));
    AskedByResourcesExactly(t, config, prefix, Edge(s, d, DependsOn));
    AskedByResourcesExactly(t, config, prefix, Edge(s, d, Reference));
  }

  /** What a reference with these parts names, every reference being such. */
  lemma RefExactly(parts: seq<string>, prefix: string)
    requires parts != [] && forall i | 0 <= i < |parts| :: '.' !in parts[i]
    ensures var ref := Join(parts, '.');
            var named := if parts[0] == "module" || |parts| <= 2 then ref else parts[0] + "." + parts[1];
            RefToAddr(ref, prefix) ==
            if ref == "" || (parts[0] in {"var", "local", "each", "count", "path"} && |parts| > 1) then ""
            else if prefix == "" || (parts[0] == "module" && |parts| > 1) then named
            else prefix + "." + named
  {
    ReservedExactly(parts);
    ShortenedExactly(parts);
    hide Join, IsReserved, Shortened;
  }

  lemma ShortenedExactly(parts: seq<string>)
    requires parts != [] && forall i | 0 <= i < |parts| :: '.' !in parts[i]
    ensures var ref := Join(parts, '.');
            var named := if parts[0] == "module" || |parts| <= 2 then ref else parts[0] + "." + parts[1];
            Shortened(ref) == named && ("module." <= named <==> parts[0] == "module" && |parts| > 1)
  {
    SplitJoin(parts, '.');
    ModuleStarts(parts);
    if |parts| >= 3 && parts[0] != "module" {
      TwoParts(parts);
      hide Join, Split;
    }
  }

  lemma TwoParts(parts: seq<string>)
    requires |parts| >= 2 && '.' !in parts[0] && parts[0] != "module"
    ensures Join(parts[..2], '.') == parts[0] + "." + parts[1] && !("module." <= parts[0] + "." + parts[1])
  {
    var two := [parts[0], parts[1]];
    assert parts[..2] == two && two[1..] == [parts[1]];
    ModuleStarts(two);
  }

  lemma ReservedExactly(parts: seq<string>)
    requires parts != [] && '.' !in parts[0]
    ensures IsReserved(Join(parts, '.')) <==>
            parts[0] in {"var", "local", "each", "count", "path"} && |parts| > 1
  {
    VarStarts(parts);
    LocalStarts(parts);
    EachStarts(parts);
    CountStarts(parts);
    PathStarts(parts);
    hide Join;
  }

  lemma VarStarts(parts: seq<string>)
    requires parts != [] && '.' !in parts[0]
    ensures "var." <= Join(parts, '.') <==> parts[0] == "var" && |parts| > 1
  {
    assert "var" + "." == "var.";
    StartsWithPart("var", parts);
  }

  lemma LocalStarts(parts: seq<string>)
    requires parts != [] && '.' !in parts[0]
    ensures "local." <= Join(parts, '.') <==> parts[0] == "local" && |parts| > 1
  {
    assert "local" + "." == "local.";
    StartsWithPart("local", parts);
  }

  lemma EachStarts(parts: seq<string>)
    requires parts != [] && '.' !in parts[0]
    ensures "each." <= Join(parts, '.') <==> parts[0] == "each" && |parts| > 1
  {
    assert "each" + "." == "each.";
    StartsWithPart("each", parts);
  }

  lemma CountStarts(parts: seq<string>)
    requires parts != [] && '.' !in parts[0]
    ensures "count." <= Join(parts, '.') <==> parts[0] == "count" && |parts| > 1
  {
    assert "count" + "." == "count.";
    StartsWithPart("count", parts);
  }

  lemma PathStarts(parts: seq<string>)
    requires parts != [] && '.' !in parts[0]
    ensures "path." <= Join(parts, '.') <==> parts[0] == "path" && |parts| > 1
  {
    assert "path" + "." == "path.";
    StartsWithPart("path", parts);
  }

  lemma ModuleStarts(parts: seq<string>)
    requires parts != [] && '.' !in parts[0]
    ensures "module." <= Join(parts, '.') <==> parts[0] == "module" && |parts| > 1
  {
    assert "module" + "." == "module.";
    StartsWithPart("module", parts);
  }

  lemma StartsWithPart(word: string, parts: seq<string>)
    requires '.' !in word && parts != [] && '.' !in parts[0]
    ensures word + "." <= Join(parts, '.') <==> parts[0] == word && |parts| > 1
  {
    if |parts| == 1 {
      assert |word| < |parts[0]| ==> parts[0][|word|] in parts[0];
    } else {
      StartsWithFirst(word, parts[0], Join(parts[1..], '.'));
    }
  }

  lemma StartsWithFirst(word: string, first: string, rest: string)
    requires '.' !in word && '.' !in first
    ensures word + "." <= first + "." + rest <==> first == word
  {
    var s := first + "." + rest;
    if word + "." <= s {
      assert s[..|word| + 1] == word + ".";
      assert s == word + ['.'] + s[|word| + 1..];
      SameHeads(word, s[|word| + 1..], first, rest, '.');
    }
  }

  /** Of a reference's parts the first two are kept, whatever follows them. */
  lemma RefKeepsTwoParts(first: string, second: string, rest: string)
    requires '.' !in first && '.' !in second && first != "module"
    requires first !in {"", "var", "local", "each", "count", "path"}
    ensures RefToAddr(first + "." + (second + "." + rest), "") == first + "." + second
  {
    var tail := Split(rest, '.');
    var parts := [first, second] + tail;
    JoinSplit(rest, '.');
    assert parts[1..] == [second] + tail && parts[1..][1..] == tail;
    RefExactly(parts, "");
  }

  lemma TwoPartsStay(first: string, second: string)
    requires '.' !in first && '.' !in second && first !in {"", "var", "local", "each", "count", "path"}
    ensures RefToAddr(first + "." + second, "") == first + "." + second
  {
    assert [first, second][1..] == [second];
    RefExactly([first, second], "");
  }

  /** So a reference to an attribute of a managed resource names the resource. */
  lemma RefDropsAttribute(kind: string, name: string, attribute: string)
    requires '.' !in kind && '.' !in name && kind !in {"data", "module"}
    requires kind !in {"", "var", "local", "each", "count", "path"}
    ensures RefToAddr(kind + "." + (name + "." + attribute), "") == kind + "." + name
  {
    RefKeepsTwoParts(kind, name, attribute);
  }

  /** But a reference to a data source loses the source's own name, with or without an attribute. */
  lemma DataRefLosesName(kind: string, name: string)
    requires '.' !in kind
    ensures RefToAddr("data." + (kind + "." + name), "") == "data." + kind
  {
    assert "data." == "data" + ".";
    RefKeepsTwoParts("data", kind, name);
  }

  // ---------- The counts ----------

  /** What is counted are the entries that have an address, each as often as it occurs. */
  lemma {:induction false} CountsOfAddressed(changes: seq<Change>, c: Change)
    ensures multiset(Addressed(changes))[c] == if c.address == "" then 0 else multiset(changes)[c]
  {
    if changes != [] {
      var n := |changes| - 1;
      CountsOfAddressed(changes[..n], c);
      assert changes == changes[..n] + [changes[n]];
    }
  }

  lemma {:induction false} AllAddressed(changes: seq<Change>)
    requires forall i | 0 <= i < |changes| :: changes[i].address != ""
    ensures Addressed(changes) == changes
  {
    if changes != [] {
      AllAddressed(changes[..|changes| - 1]);
    }
  }

  /** When every entry has an address, the graph counts what the auto-approval counts. */
  lemma CountsOfAutoApproval(plan: Plan)
    requires forall i | 0 <= i < |plan.changes| :: plan.changes[i].address != ""
    ensures SummaryOf(ActionsOf(Addressed(plan.changes))) == SummaryOf(ActionsOf(plan.changes))
  {
    AllAddressed(plan.changes);
  }

  /** For every plan: the five counts add up to the known-kind entries plus the replacements. */
  lemma SummaryAddsUp(plan: Plan)
    ensures var entries := ActionsOf(Addressed(plan.changes));
            var s := SummaryOf(entries);
            s.add + s.change + s.destroy + s.noOp + s.read ==
                |entries| - CountKind(entries, Unknown) + CountKind(entries, Replace)
  {
    CountsAddUp(ActionsOf(Addressed(plan.changes)));
  }

  // ---------- The builder ----------

  class GraphBuilder {
    var nodes: NodeTable
    var edges: seq<Edge>
    var seenEdges: set<(string, string)>
    var summary: Summary

    ghost predicate Valid()
      reads this
    {
      nodes.Valid() && Remembers()
    }

    /** `seen_edges` holds the pairs that are joined. */
    ghost predicate Remembers()
      reads this`edges, this`seenEdges
    {
      seenEdges == PairsOf(edges)
    }

    constructor ()
      ensures Valid() && nodes == EMPTY && edges == [] && summary == SummaryOf([])
    {
      nodes, edges, seenEdges, summary := EMPTY, [], {}, Summary(0, 0, 0, 0, 0);
    }

    method Build(plan: Plan)
      requires Valid() && nodes == EMPTY && edges == [] && summary == SummaryOf([])
      modifies this
      ensures Valid() && nodes == NodesOf(plan) && edges == GraphEdges(plan)
      ensures summary == SummaryOf(ActionsOf(Addressed(plan.changes)))
    {
      hide WithEdges, Requested;
      AddChanges(plan.changes);
      ChangesAreNodes(plan.changes);
      WalkState(plan.prior, "");
      StateAdds(WithChanges(plan.changes), plan.prior, "");
      WalkConfig(plan.config, "");
    }

    method AddChanges(changes: seq<Change>)
      requires nodes == EMPTY && summary == SummaryOf([])
      modifies this`nodes, this`summary
      ensures nodes == WithChanges(changes) && summary == SummaryOf(ActionsOf(Addressed(changes)))
    {
      assert ActionsOf(Addressed(changes[..0])) == [];
      for n := 0 to |changes|
        invariant nodes == WithChanges(changes[..n])
        invariant summary == SummaryOf(ActionsOf(Addressed(changes[..n])))
      {
        var c := changes[n];
        assert changes[..n + 1][..n] == changes[..n];
        if c.address != "" {
          CountChange(changes[..n], c);
          nodes := nodes.Put(Node(c.address, c.kind, c.name, ShortProvider(c.provider), c.moduleAddress,
                                  Classify(c.actions), c.mode));
        }
      }
      assert changes[..|changes|] == changes;
    }

    /** The counters after one more entry that has an address. */
    method CountChange(ghost before: seq<Change>, c: Change)
      requires summary == SummaryOf(ActionsOf(Addressed(before))) && c.address != ""
      modifies this`summary
      ensures summary == SummaryOf(ActionsOf(Addressed(before) + [c]))
    {
      ghost var entries := ActionsOf(Addressed(before));
      assert ActionsOf(Addressed(before) + [c]) == entries + [c.actions];
      OneMore(entries, c.actions);
      var kind := Classify(c.actions);
      match kind {
        case Create => summary := summary.(add := summary.add + 1);
        case Update => summary := summary.(change := summary.change + 1);
        case Delete => summary := summary.(destroy := summary.destroy + 1);
        case Replace => summary := summary.(destroy := summary.destroy + 1, add := summary.add + 1);
        case NoOp => summary := summary.(noOp := summary.noOp + 1);
        case Read => summary := summary.(read := summary.read + 1);
        case Unknown =>
      }
      assert summary == Bumped(old(summary), kind);
    }

    method WalkState(mod: StateModule, prefix: string)
      modifies this`nodes
      ensures nodes == WithState(old(nodes), mod, prefix)
      decreases mod
    {
      for n := 0 to |mod.resources|
        invariant nodes == WithResources(old(nodes), mod.resources[..n], prefix)
      {
        var r := mod.resources[n];
        assert mod.resources[..n + 1][..n] == mod.resources[..n];
        if r.mode == "data" {
          continue;
        }
        var address := Prefixed(prefix, AddressOf(r));
        if address !in nodes.at {
          nodes := nodes.Put(Node(address, r.kind, r.name, ShortProvider(r.provider), prefix, NoOp, r.mode));
        }
      }
      assert mod.resources[..|mod.resources|] == mod.resources;
      ghost var own := nodes;
      for n := 0 to |mod.children|
        invariant nodes == WithChildren(own, mod, n)
      {
        WalkState(mod.children[n], mod.children[n].address);
      }
    }

    method AddEdge(source: string, target: string, origin: Origin)
      requires Remembers()
      modifies this`edges, this`seenEdges
      ensures Remembers() && edges == WithEdge(nodes, old(edges), Edge(source, target, origin))
    {
      PairsAreLinks(edges, source, target);
      if source !in nodes.at || target !in nodes.at {
        return;
      }
      if source == target {
        return;
      }
      if (source, target) in seenEdges {
        return;
      }
      seenEdges := seenEdges + {(source, target)};
      edges := edges + [Edge(source, target, origin)];
      PairsSnoc(old(edges), Edge(source, target, origin));
    }

    method AddRef(ref: string, prefix: string, target: string, origin: Origin)
      requires Remembers()
      modifies this`edges, this`seenEdges
      ensures Remembers() && edges == WithEdges(nodes, old(edges), RefEdge(ref, prefix, target, origin))
    {
      var source := RefToAddr(ref, prefix);
      if source != "" {
        WithOneEdge(nodes, edges, Edge(source, target, origin));
        AddEdge(source, target, origin);
      }
    }

    method AddRefs(refs: seq<string>, prefix: string, target: string, origin: Origin)
      requires Remembers()
      modifies this`edges, this`seenEdges
      ensures Remembers() && edges == WithEdges(nodes, old(edges), RefEdges(refs, prefix, target, origin))
    {
      hide WithEdges, RefEdge;
      ghost var parts := RefParts(refs, prefix, target, origin);
      for n := 0 to |refs|
        invariant Remembers() && edges == Drawn(nodes, old(edges), parts, n)
      {
        AddRef(refs[n], prefix, target, origin);
      }
      DrawnInTurn(nodes, old(edges), parts, |parts|);
    }

    method AddItem(item: Option<seq<string>>, prefix: string, target: string)
      requires Remembers()
      modifies this`edges, this`seenEdges
      ensures Remembers() && edges == WithEdges(nodes, old(edges), ItemEdge(item, prefix, target))
    {
      if item.Some? {
        AddRefs(item.value, prefix, target, Reference);
      }
    }

    method AddItems(items: seq<Option<seq<string>>>, prefix: string, target: string)
      requires Remembers()
      modifies this`edges, this`seenEdges
      ensures Remembers() && edges == WithEdges(nodes, old(edges), Joined(ItemParts(items, prefix, target)))
    {
      hide WithEdges, ItemEdge;
      ghost var parts := ItemParts(items, prefix, target);
      for n := 0 to |items|
        invariant Remembers() && edges == Drawn(nodes, old(edges), parts, n)
      {
        AddItem(items[n], prefix, target);
      }
      DrawnInTurn(nodes, old(edges), parts, |parts|);
    }

    method AddExpression(x: Expression, prefix: string, target: string)
      requires Remembers()
      modifies this`edges, this`seenEdges
      ensures Remembers() && edges == WithEdges(nodes, old(edges), EdgesOf(x, prefix, target))
    {
      match x {
        case Object(refs) => AddRefs(refs, prefix, target, Reference);
        case Items(items) => AddItems(items, prefix, target);
        case Other =>
      }
    }

    method AddExpressions(xs: seq<Expression>, prefix: string, target: string)
      requires Remembers()
      modifies this`edges, this`seenEdges
      ensures Remembers() && edges == WithEdges(nodes, old(edges), ExpressionEdges(xs, prefix, target))
    {
      hide WithEdges, EdgesOf;
      ghost var parts := ExpressionParts(xs, prefix, target);
      for n := 0 to |xs|
        invariant Remembers() && edges == Drawn(nodes, old(edges), parts, n)
      {
        AddExpression(xs[n], prefix, target);
      }
      DrawnInTurn(nodes, old(edges), parts, |parts|);
    }

    method AddDependencies(deps: seq<string>, prefix: string, target: string)
      requires Remembers()
      modifies this`edges, this`seenEdges
      ensures Remembers() && edges == WithEdges(nodes, old(edges), DependencyEdges(deps, prefix, target))
    {
      ghost var all := DependencyEdges(deps, prefix, target);
      for n := 0 to |deps|
        invariant Remembers() && edges == WithEdges(nodes, old(edges), all[..n])
      {
        AddEdge(Prefixed(prefix, deps[n]), target, DependsOn);
        WithEdgesSnoc(nodes, old(edges), all[..n], all[n]);
        assert all[..n + 1] == all[..n] + [all[n]];
      }
      assert all[..|deps|] == all;
    }

    method AddInput(x: Expression, prefix: string, target: string)
      requires Remembers()
      modifies this`edges, this`seenEdges
      ensures Remembers() && edges == WithEdges(nodes, old(edges), InputEdges(x, prefix, target))
    {
      if x.Object? {
        AddRefs(x.references, prefix, target, ModuleInput);
      }
    }

    method AddModuleInputs(call: ModuleCall, prefix: string)
      requires Remembers()
      modifies this`edges, this`seenEdges
      ensures Remembers() && edges == WithEdges(nodes, old(edges), CallInputs(nodes, call, prefix))
    {
      var target := FirstIn(nodes, nodes.order, CallPrefix(call, prefix));
      if target.None? {
        return;
      }
      hide WithEdges, InputEdges;
      ghost var parts := InputParts(call.expressions, prefix, target.value);
      for n := 0 to |call.expressions|
        invariant Remembers() && edges == Drawn(nodes, old(edges), parts, n)
      {
        AddInput(call.expressions[n], prefix, target.value);
      }
      DrawnInTurn(nodes, old(edges), parts, |parts|);
    }

    /** Only the root module's own resources and calls are walked. */
    method WalkConfig(config: ConfigModule, prefix: string)
      requires Remembers()
      modifies this`edges, this`seenEdges
      ensures Remembers() && edges == WithEdges(nodes, old(edges), Requested(nodes, config, prefix))
    {
      WalkResources(config.resources, prefix);
      WalkCalls(config.calls, prefix);
      WithEdgesConcat(nodes, old(edges), ResourceEdges(config.resources, prefix),
          CallEdges(nodes, config.calls, prefix));
    }

    method WalkResources(rs: seq<ConfigResource>, prefix: string)
      requires Remembers()
      modifies this`edges, this`seenEdges
      ensures Remembers() && edges == WithEdges(nodes, old(edges), ResourceEdges(rs, prefix))
    {
      hide WithEdges, ManagedEdges;
      ghost var parts := ResourceParts(rs, prefix);
      for n := 0 to |rs|
        invariant Remembers() && edges == Drawn(nodes, old(edges), parts, n)
      {
        WalkResource(rs[n], prefix);
      }
      DrawnInTurn(nodes, old(edges), parts, |parts|);
    }

    method WalkResource(r: ConfigResource, prefix: string)
      requires Remembers()
      modifies this`edges, this`seenEdges
      ensures Remembers() && edges == WithEdges(nodes, old(edges), ManagedEdges(r, prefix))
    {
      if r.mode == "data" {
        return;
      }
      var target := Prefixed(prefix, r.kind + "." + r.name);
      AddDependencies(r.dependsOn, prefix, target);
      AddExpressions(r.expressions, prefix, target);
      WithEdgesConcat(nodes, old(edges), DependencyEdges(r.dependsOn, prefix, target),
                      ExpressionEdges(r.expressions, prefix, target));
    }

    method WalkCalls(calls: seq<ModuleCall>, prefix: string)
      requires Remembers()
      modifies this`edges, this`seenEdges
      ensures Remembers() && edges == WithEdges(nodes, old(edges), CallEdges(nodes, calls, prefix))
    {
      hide WithEdges, CallInputs;
      ghost var parts := CallParts(nodes, calls, prefix);
      for n := 0 to |calls|
        invariant Remembers() && edges == Drawn(nodes, old(edges), parts, n)
      {
        AddModuleInputs(calls[n], prefix);
      }
      DrawnInTurn(nodes, old(edges), parts, |parts|);
    }
  }

  lemma {:induction false} DrawnInTurn(t: NodeTable, edges: seq<Edge>, parts: seq<seq<Edge>>, n: nat)
    requires n <= |parts|
    ensures Drawn(t, edges, parts, n) == WithEdges(t, edges, Upto(parts, n))
  {
    if n > 0 {
      DrawnInTurn(t, edges, parts, n - 1);
      WithEdgesConcat(t, edges, Upto(parts, n - 1), parts[n - 1]);
    }
  }

  lemma WithOneEdge(t: NodeTable, edges: seq<Edge>, e: Edge)
    ensures WithEdges(t, edges, [e]) == WithEdge(t, edges, e)
  {
    WithEdgesSnoc(t, edges, [], e);
    assert [] + [e] == [e];
  }

  lemma WithEdgesSnoc(t: NodeTable, edges: seq<Edge>, more: seq<Edge>, e: Edge)
    ensures WithEdges(t, edges, more + [e]) == WithEdge(t, WithEdges(t, edges, more), e)
  {
    assert (more + [e])[..|more|] == more;
    WithLast(t, edges, more + [e]);
  }
}
