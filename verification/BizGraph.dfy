/** Building a flow graph node by node (common/bizflow/graph.go). Names are assumed distinct and deps free of duplicates. */
module BizGraph {

  datatype Node = Node(name: string, deps: seq<string>, retryNum: int)

  /** The nodes in the order they were added, and the graph's two name fields; the empty name stands for none. */
  datatype Dag = Dag(nodes: seq<Node>, first: string, last: string)

  datatype Built = Built(dag: Dag) | Panic

  function Names(ns: seq<Node>): set<string> {
    set n <- ns :: n.name
  }

  /** `AddNode`. */
  function AddNode(d: Dag, n: Node): Built {
    if n.deps == [] && d.first != "" then Panic
    else if exists p <- n.deps :: p == n.name || p !in Names(d.nodes) then Panic
    else Built(Dag(d.nodes + [n], if n.deps == [] then n.name else d.first, n.name))
  }

  function Build(ns: seq<Node>): Built
    decreases |ns|
  {
    if ns == [] then Built(Dag([], "", ""))
    else
      match Build(ns[..|ns| - 1])
      case Built(d) => AddNode(d, ns[|ns| - 1])
      case Panic => Panic
  }

  predicate NoDuplicates<T(==)>(s: seq<T>) {
    forall i, j | 0 <= i < j < |s| :: s[i] != s[j]
  }

  predicate Distinct(ns: seq<Node>) {
    && (forall i, j | 0 <= i < j < |ns| :: ns[i].name != ns[j].name)
    && (forall n <- ns :: NoDuplicates(n.deps))
  }

  predicate DepsEarlier(ns: seq<Node>, i: nat)
    requires i < |ns|
  {
    forall p <- ns[i].deps :: p in Names(ns[..i])
  }

  /** Every node depends on earlier nodes only. */
  predicate Ordered(ns: seq<Node>) {
    forall i | 0 <= i < |ns| :: DepsEarlier(ns, i)
  }

  /** Of two independent nodes the earlier one has the empty name, which the graph takes for none. */
  predicate OneSource(ns: seq<Node>) {
    forall i, j | 0 <= i < j < |ns| && ns[i].deps == [] && ns[j].deps == [] :: ns[i].name == ""
  }

  /** The name of the last independent node. */
  function FirstName(ns: seq<Node>): string
    decreases |ns|
  {
    if ns == [] then ""
    else if ns[|ns| - 1].deps == [] then ns[|ns| - 1].name
    else FirstName(ns[..|ns| - 1])
  }

  function Shape(ns: seq<Node>): Dag {
    Dag(ns, FirstName(ns), if ns == [] then "" else ns[|ns| - 1].name)
  }

  /** Exactly which lists of nodes build a graph, and what it then is. */
  lemma {:induction false} BuildExact(ns: seq<Node>)
    requires Distinct(ns)
    ensures Build(ns) == if Ordered(ns) && OneSource(ns) then Built(Shape(ns)) else Panic
    decreases |ns|
  {
    if ns != [] {
      hide Ordered, OneSource, DepsEarlier, AddNode, Shape;
      BuildExact(ns[..|ns| - 1]);
      OrderedMore(ns);
      if OneSource(ns[..|ns| - 1]) { AddsExactly(ns); }
    }
  }

  /** The last node has no dependencies, and neither has an earlier one with a name. */
  predicate SecondSource(ns: seq<Node>)
    requires ns != []
  {
    ns[|ns| - 1].deps == [] && exists i | 0 <= i < |ns| - 1 :: ns[i].deps == [] && ns[i].name != ""
  }

  lemma AddsExactly(ns: seq<Node>)
    requires ns != [] && Distinct(ns) && OneSource(ns[..|ns| - 1])
    ensures var k := |ns| - 1;
            AddNode(Shape(ns[..k]), ns[k]) == if DepsEarlier(ns, k) && !SecondSource(ns) then Built(Shape(ns)) else Panic
  {
    var k := |ns| - 1;
    NewName(ns);
    assert ns[..k] + [ns[k]] == ns;
    FirstNameEmpty(ns[..k]);
    assert ns[k].deps != [] ==> ns[k].deps[0] in ns[k].deps;
    assert forall i | 0 <= i < k :: ns[..k][i] == ns[i];
  }

  /** No first node is remembered exactly when all independent ones have the empty name. */
  lemma {:induction false} FirstNameEmpty(ns: seq<Node>)
    requires OneSource(ns)
    ensures FirstName(ns) == "" <==> forall i | 0 <= i < |ns| && ns[i].deps == [] :: ns[i].name == ""
    decreases |ns|
  {
    if ns != [] && ns[|ns| - 1].deps != [] {
      var init := ns[..|ns| - 1];
      assert forall i | 0 <= i < |init| :: init[i] == ns[i];
      FirstNameEmpty(init);
    }
  }

  /** The remembered first node, when there is one, is an independent one. */
  lemma {:induction false} FirstNameOf(ns: seq<Node>) returns (i: nat)
    requires FirstName(ns) != ""
    ensures i < |ns| && ns[i].name == FirstName(ns) && ns[i].deps == []
    decreases |ns|
  {
    i := |ns| - 1;
    if ns[i].deps != [] { i := FirstNameOf(ns[..i]); }
  }

  lemma OrderedMore(ns: seq<Node>)
    requires ns != []
    ensures Ordered(ns) <==> Ordered(ns[..|ns| - 1]) && DepsEarlier(ns, |ns| - 1)
    ensures OneSource(ns) <==> OneSource(ns[..|ns| - 1]) && !SecondSource(ns)
  {
    var init := ns[..|ns| - 1];
    forall i | 0 <= i < |init| ensures DepsEarlier(init, i) <==> DepsEarlier(ns, i) {
      assert init[i] == ns[i] && init[..i] == ns[..i];
    }
  }

  /** Node `i` depends on earlier nodes only, and on some unless it is the first. */
  predicate Fits(ns: seq<Node>, i: nat)
    requires i < |ns|
  {
    (ns[i].deps == [] <==> i == 0) && DepsEarlier(ns, i)
  }

  /** Every node depends on earlier ones only, and the first alone on none. */
  predicate Topological(ns: seq<Node>) {
    Ordered(ns) && forall i | 0 <= i < |ns| :: ns[i].deps == [] <==> i == 0
  }

  lemma TopologicalBuilds(ns: seq<Node>)
    requires Distinct(ns) && Topological(ns)
    ensures Build(ns) == Built(Dag(ns, if ns == [] then "" else ns[0].name, if ns == [] then "" else ns[|ns| - 1].name))
  {
    BuildExact(ns);
    FirstIs(ns);
  }

  lemma {:induction false} FirstIs(ns: seq<Node>)
    requires Topological(ns)
    ensures FirstName(ns) == if ns == [] then "" else ns[0].name
    decreases |ns|
  {
    if |ns| > 1 {
      var init := ns[..|ns| - 1];
      OrderedMore(ns);
      assert forall i | 0 <= i < |init| :: init[i] == ns[i];
      FirstIs(init);
    }
  }

  /** The first node of a graph that was built is independent; with a name it is the only one. */
  lemma NamedIsTopological(ns: seq<Node>)
    requires Distinct(ns) && Build(ns).Built? && ns != []
    ensures ns[0].deps == [] && (ns[0].name != "" ==> Topological(ns))
  {
    BuildExact(ns);
    assert DepsEarlier(ns, 0) && Names(ns[..0]) == {};
    NoElements(ns[0].deps);
  }

  lemma NoElements(s: seq<string>)
    ensures s == [] || exists p :: p in s
  {
    if s != [] { assert s[0] in s; }
  }

  lemma NewName(ns: seq<Node>)
    requires ns != [] && Distinct(ns)
    ensures ns[|ns| - 1].name !in Names(ns[..|ns| - 1])
  {}

  lemma EmptyNameHidesSource(x: Node, b: string)
    requires x.name == "" && x.deps == [] && b != ""
    ensures Distinct([x, Node(b, [], 0)]) && Build([x, Node(b, [], 0)]).Built? && !Topological([x, Node(b, [], 0)])
  {
    var ns := [x, Node(b, [], 0)];
    BuildExact(ns);
    assert ns[1].deps == [];
  }

  /** Exactly when the check for a second independent node cannot be defeated: the first node must have a name. */
  lemma SecondSourceRefused(x: Node)
    requires x.deps == []
    ensures (forall ns | ns != [] && ns[0] == x && Distinct(ns) && Build(ns).Built? :: Topological(ns)) <==> x.name != ""
  {
    if x.name == "" {
      EmptyNameHidesSource(x, "b");
      assert [x, Node("b", [], 0)][0] == x;
    } else {
      forall ns | ns != [] && ns[0] == x && Distinct(ns) && Build(ns).Built? ensures Topological(ns) { NamedIsTopological(ns); }
    }
  }

  // ---------- paths ----------

  ghost function Position(ns: seq<Node>, name: string): nat
    requires name in Names(ns)
  {
    var i :| 0 <= i < |ns| && ns[i].name == name;
    i
  }

  ghost function DepsOf(ns: seq<Node>, name: string): set<string>
    requires name in Names(ns)
  {
    set d <- ns[Position(ns, name)].deps
  }

  /** The nodes that depend on `n`. */
  ghost function NextsOf(ns: seq<Node>, n: string): set<string> {
    set m <- Names(ns) | n in DepsOf(ns, m)
  }

  lemma PositionOf(ns: seq<Node>, i: nat)
    requires Distinct(ns) && i < |ns|
    ensures ns[i].name in Names(ns) && Position(ns, ns[i].name) == i
  {}

  /** Dependencies come earlier. */
  lemma DepEarlier(ns: seq<Node>, d: string, name: string)
    requires Distinct(ns) && Ordered(ns) && name in Names(ns) && d in DepsOf(ns, name)
    ensures d in Names(ns) && Position(ns, d) < Position(ns, name)
  {
    var i := Position(ns, name);
    assert DepsEarlier(ns, i);
    var j :| 0 <= j < i && ns[..i][j].name == d;
    PositionOf(ns, j);
  }

  /** A chain of nodes, each a dependency of the next. */
  ghost predicate Path(ns: seq<Node>, p: seq<string>) {
    && p != [] && (forall k | 0 <= k < |p| :: p[k] in Names(ns))
    && (forall k | 0 <= k < |p| - 1 :: p[k] in DepsOf(ns, p[k + 1]))
  }

  ghost predicate Ancestor(ns: seq<Node>, a: string, b: string) {
    exists p :: |p| >= 2 && Path(ns, p) && p[0] == a && p[|p| - 1] == b
  }

  lemma {:induction false} PathClimbs(ns: seq<Node>, p: seq<string>)
    requires Distinct(ns) && Ordered(ns) && Path(ns, p)
    ensures Position(ns, p[0]) + |p| - 1 <= Position(ns, p[|p| - 1])
    decreases |p|
  {
    if |p| > 1 {
      assert p[1..][0] == p[1];
      PathClimbs(ns, p[1..]);
      DepEarlier(ns, p[0], p[1]);
    }
  }

  /** Insertion order is a topological order: an ancestor was added strictly earlier, so there is no cycle. */
  lemma AncestorEarlier(ns: seq<Node>, a: string, b: string)
    requires Distinct(ns) && Build(ns).Built? && Ancestor(ns, a, b)
    ensures a in Names(ns) && b in Names(ns) && Position(ns, a) < Position(ns, b) && a != b
  {
    BuildExact(ns);
    var p :| |p| >= 2 && Path(ns, p) && p[0] == a && p[|p| - 1] == b;
    PathClimbs(ns, p);
  }

  /** Exactly when the node remembered as the first is the only source. */
  lemma SingleSource(ns: seq<Node>)
    requires Distinct(ns) && Build(ns).Built? && ns != []
    ensures (forall name <- Names(ns) :: DepsOf(ns, name) == {} <==> name == Build(ns).dag.first) <==> Topological(ns)
  {
    BuildExact(ns);
    NamedIsTopological(ns);
    forall i | 0 <= i < |ns| ensures ns[i].name in Names(ns) && (DepsOf(ns, ns[i].name) == {} <==> ns[i].deps == []) { NoDeps(ns, i); }
    if Topological(ns) {
      FirstIs(ns);
      forall name <- Names(ns) ensures DepsOf(ns, name) == {} <==> name == Build(ns).dag.first {
        var i :| 0 <= i < |ns| && ns[i].name == name;
      }
    }
  }

  lemma NoDeps(ns: seq<Node>, i: nat)
    requires Distinct(ns) && i < |ns|
    ensures ns[i].name in Names(ns) && (DepsOf(ns, ns[i].name) == {} <==> ns[i].deps == [])
  {
    PositionOf(ns, i);
    assert ns[i].deps != [] ==> ns[i].deps[0] in DepsOf(ns, ns[i].name);
  }

  ghost predicate Reached(ns: seq<Node>, a: string, b: string) {
    exists p :: Path(ns, p) && p[0] == a && p[|p| - 1] == b
  }

  /** Exactly when every node is reached from the one remembered as the first. */
  lemma ReachedFromFirst(ns: seq<Node>)
    requires Distinct(ns) && Build(ns).Built? && ns != []
    ensures (forall i | 0 <= i < |ns| :: Reached(ns, Build(ns).dag.first, ns[i].name)) <==> Topological(ns)
  {
    BuildExact(ns);
    if Topological(ns) {
      FirstIs(ns);
      forall i | 0 <= i < |ns| ensures Reached(ns, Build(ns).dag.first, ns[i].name) { var p := PathFromFirst(ns, i); }
    } else {
      forall i | 0 <= i < |ns| && ns[i].deps == [] ensures Reached(ns, Build(ns).dag.first, ns[i].name) ==> Build(ns).dag.first == ns[i].name {
        ReachedSource(ns, Build(ns).dag.first, i);
      }
      NamedIsTopological(ns);
    }
  }

  /** A node without dependencies is reached from itself alone. */
  lemma ReachedSource(ns: seq<Node>, a: string, i: nat)
    requires Distinct(ns) && i < |ns| && ns[i].deps == []
    ensures Reached(ns, a, ns[i].name) ==> a == ns[i].name
  {
    PositionOf(ns, i);
    forall p | Path(ns, p) && p[|p| - 1] == ns[i].name ensures |p| == 1 {
      assert |p| >= 2 ==> p[|p| - 2] in DepsOf(ns, p[|p| - 1]);
    }
  }

  lemma {:induction false} PathFromFirst(ns: seq<Node>, i: nat) returns (p: seq<string>)
    requires Distinct(ns) && Topological(ns) && i < |ns|
    ensures Path(ns, p) && p[0] == ns[0].name && p[|p| - 1] == ns[i].name
    decreases i
  {
    hide Topological, Distinct, Position;
    PositionOf(ns, i);
    if i == 0 { return [ns[0].name]; }
    var d := SomeDep(ns, i);
    var j := Position(ns, d);
    var q := PathFromFirst(ns, j);
    p := q + [ns[i].name];
  }

  lemma SomeDep(ns: seq<Node>, i: nat) returns (d: string)
    requires Distinct(ns) && Topological(ns) && 0 < i < |ns|
    ensures d in Names(ns) && ns[i].name in Names(ns) && d in DepsOf(ns, ns[i].name) && Position(ns, d) < i
    ensures ns[Position(ns, d)].name == d
  {
    PositionOf(ns, i);
    d := ns[i].deps[0];
    DepEarlier(ns, d, ns[i].name);
  }

  /** A set that contains the dependencies of its members contains their ancestors. */
  lemma {:induction false} ClosedUnderAncestors(ns: seq<Node>, s: set<string>, p: seq<string>)
    requires Path(ns, p) && p[|p| - 1] in s
    requires forall n <- s :: n in Names(ns) && DepsOf(ns, n) <= s
    ensures p[0] in s
    decreases |p|
  {
    if |p| > 1 {
      var q := p[..|p| - 1];
      assert p[|p| - 2] in DepsOf(ns, p[|p| - 1]);
      ClosedUnderAncestors(ns, s, q);
    }
  }
}
