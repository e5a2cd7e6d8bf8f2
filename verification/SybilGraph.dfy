/**
 Graph-based Sybil detection (gptl-routing, sybil_defense.rs): the similarity graph, its connected components by
 an explicit-stack search with a shared visited set, and the dense components that are reported.
 */
module SybilGraph {

  /** A relay identity; only equality matters. */
  datatype Id = Id(name: string)

  /** A relay as the detector sees it; `profile` stands for the address, bandwidth and nickname it compares. */
  datatype RelayInfo = RelayInfo(identity: Id, profile: nat)

  /** Whether two relays, the earlier one first, score above 0.8. */
  type Similarity = (RelayInfo, RelayInfo) -> bool

  type Graph = map<Id, set<Id>>

  function Neighbours(g: Graph, a: Id): set<Id> {
    if a in g then g[a] else {}
  }

  predicate Linked(g: Graph, a: Id, b: Id) {
    b in Neighbours(g, a)
  }

  function AddLink(g: Graph, a: Id, b: Id): (r: Graph)
    ensures forall x, y :: Linked(r, x, y) <==> Linked(g, x, y) || (x == a && y == b)
  {
    g[a := Neighbours(g, a) + {b}]
  }

  ghost predicate Symmetric(g: Graph) {
    forall a, b :: Linked(g, a, b) <==> Linked(g, b, a)
  }

  /** Some pair of relays before position (`i`, `j`) of the double loop is similar and has these identities. */
  ghost predicate Similar(relays: seq<RelayInfo>, similar: Similarity, i: nat, j: nat, a: Id, b: Id) {
    exists m, n :: 0 <= m < n < |relays| && (m < i || (m == i && n < j)) && SimilarPair(relays, similar, m, n, a, b)
  }

  ghost predicate SimilarPair(relays: seq<RelayInfo>, similar: Similarity, m: int, n: int, a: Id, b: Id)
    requires 0 <= m < n < |relays|
  {
    && similar(relays[m], relays[n])
    && ((a == relays[m].identity && b == relays[n].identity) || (a == relays[n].identity && b == relays[m].identity))
  }

  ghost predicate IsSimilarityGraph(g: Graph, relays: seq<RelayInfo>, similar: Similarity) {
    forall a, b :: Linked(g, a, b) <==> Similar(relays, similar, |relays|, 0, a, b)
  }

  method BuildAdjacency(relays: seq<RelayInfo>, similar: Similarity) returns (g: Graph)
    ensures IsSimilarityGraph(g, relays, similar)
  {
    g := map[];
    for i := 0 to |relays|
      invariant forall a, b :: Linked(g, a, b) <==> Similar(relays, similar, i, 0, a, b)
    {
      for j := i + 1 to |relays|
        invariant forall a, b :: Linked(g, a, b) <==> Similar(relays, similar, i, j, a, b)
      {
        var a, b := relays[i].identity, relays[j].identity;
        ghost var before := g;
        if similar(relays[i], relays[j]) {
          g := AddLink(AddLink(g, a, b), b, a);
        }
        forall x, y ensures Linked(g, x, y) <==> Similar(relays, similar, i, j + 1, x, y) {
          SimilarStep(relays, similar, i, j, x, y);
        }
      }
      forall x, y
        ensures Similar(relays, similar, i, |relays|, x, y) <==> Similar(relays, similar, i + 1, 0, x, y)
      {
        SimilarRow(relays, similar, i, x, y);
      }
    }
  }

  lemma SimilarityIsSymmetric(g: Graph, relays: seq<RelayInfo>, similar: Similarity)
    requires IsSimilarityGraph(g, relays, similar)
    ensures Symmetric(g)
  {
    forall a, b | Similar(relays, similar, |relays|, 0, a, b) ensures Similar(relays, similar, |relays|, 0, b, a) {
      var m, n :| 0 <= m < n < |relays| && (m < |relays| || (m == |relays| && n < 0))
                  && SimilarPair(relays, similar, m, n, a, b);
      assert SimilarPair(relays, similar, m, n, b, a);
    }
  }

  lemma SimilarStep(relays: seq<RelayInfo>, similar: Similarity, i: nat, j: nat, a: Id, b: Id)
    requires i < j < |relays|
    ensures Similar(relays, similar, i, j + 1, a, b)
       <==> Similar(relays, similar, i, j, a, b) || SimilarPair(relays, similar, i, j, a, b)
  {
    if Similar(relays, similar, i, j, a, b) {
      var m, n :| 0 <= m < n < |relays| && (m < i || (m == i && n < j)) && SimilarPair(relays, similar, m, n, a, b);
    }
    if Similar(relays, similar, i, j + 1, a, b) {
      var m, n :| 0 <= m < n < |relays| && (m < i || (m == i && n < j + 1)) && SimilarPair(relays, similar, m, n, a, b);
    }
  }

  lemma SimilarRow(relays: seq<RelayInfo>, similar: Similarity, i: nat, a: Id, b: Id)
    requires i < |relays|
    ensures Similar(relays, similar, i, |relays|, a, b) <==> Similar(relays, similar, i + 1, 0, a, b)
  {
    if Similar(relays, similar, i, |relays|, a, b) {
      var m, n :| 0 <= m < n < |relays| && (m < i || (m == i && n < |relays|)) && SimilarPair(relays, similar, m, n, a, b);
    }
    if Similar(relays, similar, i + 1, 0, a, b) {
      var m, n :| 0 <= m < n < |relays| && (m < i + 1 || (m == i + 1 && n < 0)) && SimilarPair(relays, similar, m, n, a, b);
    }
  }

  // ---------------------------------------------------------------- reachability

  /** A walk along links that stays outside `avoid`. */
  ghost predicate Walk(g: Graph, avoid: set<Id>, p: seq<Id>) {
    && p != []
    && (forall v :: v in p ==> v !in avoid)
    && (forall i :: 0 < i < |p| ==> Linked(g, p[i - 1], p[i]))
  }

  ghost predicate Reach(g: Graph, avoid: set<Id>, a: Id, b: Id) {
    exists p :: Walk(g, avoid, p) && p[0] == a && p[|p| - 1] == b
  }

  lemma ReachSelf(g: Graph, avoid: set<Id>, a: Id)
    requires a !in avoid
    ensures Reach(g, avoid, a, a)
  {
    assert Walk(g, avoid, [a]);
  }

  lemma ReachStep(g: Graph, avoid: set<Id>, a: Id, b: Id, c: Id)
    requires Reach(g, avoid, a, b) && Linked(g, b, c) && c !in avoid
    ensures Reach(g, avoid, a, c)
  {
    var p :| Walk(g, avoid, p) && p[0] == a && p[|p| - 1] == b;
    var q := p + [c];
    assert forall i :: 0 < i < |q| ==> Linked(g, q[i - 1], q[i]);
    assert Walk(g, avoid, q);
  }

  /** A set closed under links outside `avoid` contains whatever can be reached from its members. */
  lemma ClosedContainsReach(g: Graph, avoid: set<Id>, closed: set<Id>, a: Id, b: Id)
    requires a in closed && Reach(g, avoid, a, b)
    requires forall u, v :: u in closed && Linked(g, u, v) && v !in avoid ==> v in closed
    ensures b in closed
  {
    var p :| Walk(g, avoid, p) && p[0] == a && p[|p| - 1] == b;
    var i := 0;
    while i < |p| - 1
      invariant 0 <= i < |p| && p[i] in closed
    {
      assert p[i + 1] in p;
      i := i + 1;
    }
  }

  lemma ReachTransitive(g: Graph, a: Id, b: Id, c: Id)
    requires Reach(g, {}, a, b) && Reach(g, {}, b, c)
    ensures Reach(g, {}, a, c)
  {
    var p :| Walk(g, {}, p) && p[0] == a && p[|p| - 1] == b;
    var q :| Walk(g, {}, q) && q[0] == b && q[|q| - 1] == c;
    var r := p + q[1..];
    assert forall i :: 0 < i < |r| ==> Linked(g, r[i - 1], r[i]);
    assert Walk(g, {}, r);
  }

  lemma ReachSymmetric(g: Graph, a: Id, b: Id)
    requires Symmetric(g) && Reach(g, {}, a, b)
    ensures Reach(g, {}, b, a)
  {
    var p :| Walk(g, {}, p) && p[0] == a && p[|p| - 1] == b;
    var r := seq(|p|, i requires 0 <= i < |p| => p[|p| - 1 - i]);
    assert forall i :: 0 < i < |r| ==> Linked(g, r[i - 1], r[i]);
    assert Walk(g, {}, r);
  }

  // ---------------------------------------------------------------- the search

  ghost predicate NoDuplicates<T>(s: seq<T>) {
    forall i, j :: 0 <= i < j < |s| ==> s[i] != s[j]
  }

  function Elements<T>(s: seq<T>): set<T> {
    set x | x in s
  }

  /** Every node the search can ever put on its stack. */
  ghost function Universe(g: Graph, start: Id): set<Id> {
    {start} + set a, b | a in g && b in g[a] :: b
  }

  /** Every node the search can meet. */
  ghost predicate Encloses(universe: set<Id>, g: Graph, start: Id) {
    start in universe && forall a, b :: Linked(g, a, b) ==> b in universe
  }

  ghost predicate Tracks(nowVisited: set<Id>, visited: set<Id>, component: seq<Id>) {
    forall v :: v in nowVisited <==> v in visited || v in component
  }

  /** What the search keeps: `component` is new, reachable, and closed up to what is visited or still stacked. */
  ghost predicate Searching(g: Graph, start: Id, visited: set<Id>, component: seq<Id>, stack: seq<Id>) {
    && NoDuplicates(component)
    && (forall v :: v in component ==> v !in visited && Reach(g, visited, start, v))
    && (forall v :: v in stack ==> v == start || Reach(g, visited, start, v))
    && (forall u, v :: u in component && Linked(g, u, v) ==> v in visited || v in component || v in stack)
    && (start in visited || start in component || start in stack)
    && (component == [] ==> forall v :: v in stack ==> v == start)
    && (component != [] ==> component[0] == start)
  }

  lemma VisitKeepsSearching(g: Graph, start: Id, visited: set<Id>, component: seq<Id>, nowVisited: set<Id>,
                            stack: seq<Id>, node: Id, next: seq<Id>)
    requires Searching(g, start, visited, component, stack + [node])
    requires Tracks(nowVisited, visited, component) && node !in nowVisited
    requires forall v :: v in next <==> (v in stack || (v in Neighbours(g, node) && v !in nowVisited + {node}))
    ensures Searching(g, start, visited, component + [node], next)
  {
    assert node in stack + [node];
    if node == start { ReachSelf(g, visited, start); }
    forall v | v in next ensures v == start || Reach(g, visited, start, v) {
      if v in stack {
        assert v in stack + [node];
      } else {
        ReachStep(g, visited, start, node, v);
      }
    }
  }

  lemma SkipKeepsSearching(g: Graph, start: Id, visited: set<Id>, component: seq<Id>, stack: seq<Id>)
    requires stack != [] && Searching(g, start, visited, component, stack)
    requires stack[|stack| - 1] in visited || stack[|stack| - 1] in component
    ensures Searching(g, start, visited, component, stack[..|stack| - 1])
  {
    var rest, node := stack[..|stack| - 1], stack[|stack| - 1];
    assert stack == rest + [node];
    assert forall v :: v in stack <==> v in rest || v == node;
  }

  /** A stacked node lies in the universe, so visiting it leaves fewer to visit. */
  lemma FewerLeft(g: Graph, start: Id, visited: set<Id>, universe: set<Id>, node: Id, nowVisited: set<Id>)
    requires Encloses(universe, g, start) && (node == start || Reach(g, visited, start, node)) && node !in nowVisited
    ensures |universe - (nowVisited + {node})| < |universe - nowVisited|
  {
    if node != start {
      ClosedContainsReach(g, visited, universe, start, node);
    }
    assert universe - nowVisited == (universe - (nowVisited + {node})) + {node};
  }

  lemma SearchFindsAll(g: Graph, start: Id, visited: set<Id>, component: seq<Id>, v: Id)
    requires Searching(g, start, visited, component, [])
    ensures v in component <==> start !in visited && Reach(g, visited, start, v)
  {
    if start !in visited && Reach(g, visited, start, v) {
      ClosedContainsReach(g, visited, Elements(component), start, v);
    }
    if v in component {
      var p :| Walk(g, visited, p) && p[0] == start && p[|p| - 1] == v;
      assert p[0] in p;
    }
  }

  /**
   The nodes that can be reached from `start` without entering `visited`, each once, for any graph and any visited
   set; the visited set grows by exactly these.
   */
  method FindConnectedComponent(start: Id, g: Graph, visited: set<Id>) returns (component: seq<Id>, nowVisited: set<Id>)
    ensures NoDuplicates(component)
    ensures forall v :: v in component <==> start !in visited && Reach(g, visited, start, v)
    ensures start !in visited ==> component != [] && component[0] == start
    ensures Tracks(nowVisited, visited, component)
  {
    component, nowVisited := [], visited;
    var stack := [start];
    ghost var universe := Universe(g, start);
    while stack != []
      invariant Tracks(nowVisited, visited, component)
      invariant Searching(g, start, visited, component, stack)
      decreases |universe - nowVisited|, |stack|
    {
      component, nowVisited, stack := SearchStep(start, g, visited, universe, component, nowVisited, stack);
    }
    forall v ensures v in component <==> start !in visited && Reach(g, visited, start, v) {
      SearchFindsAll(g, start, visited, component, v);
    }
  }

  /** One turn of the loop: pop a node, and unless it has been visited, visit it and push its unvisited neighbours. */
  method SearchStep(start: Id, g: Graph, ghost visited: set<Id>, ghost universe: set<Id>,
                    component: seq<Id>, nowVisited: set<Id>, stack: seq<Id>)
    returns (component': seq<Id>, nowVisited': set<Id>, stack': seq<Id>)
    requires stack != [] && Tracks(nowVisited, visited, component) && Encloses(universe, g, start)
    requires Searching(g, start, visited, component, stack)
    ensures Tracks(nowVisited', visited, component')
    ensures Searching(g, start, visited, component', stack')
    ensures (nowVisited' == nowVisited && |stack'| < |stack|) || |universe - nowVisited'| < |universe - nowVisited|
  {
    var rest, node := stack[..|stack| - 1], stack[|stack| - 1];
    if node in nowVisited {
      SkipKeepsSearching(g, start, visited, component, stack);
      return component, nowVisited, rest;
    }
    assert node in stack;
    FewerLeft(g, start, visited, universe, node, nowVisited);
    assert stack == rest + [node];
    stack' := PushUnvisited(rest, Neighbours(g, node), nowVisited + {node});
    VisitKeepsSearching(g, start, visited, component, nowVisited, rest, node, stack');
    component', nowVisited' := component + [node], nowVisited + {node};
  }

  /** Push the neighbours not yet visited, in whatever order the hash set yields them. */
  method PushUnvisited(stack: seq<Id>, neighbours: set<Id>, visited: set<Id>) returns (r: seq<Id>)
    ensures stack <= r
    ensures forall v :: v in r <==> v in stack || (v in neighbours && v !in visited)
  {
    r := stack;
    var rest := neighbours;
    while rest != {}
      invariant rest <= neighbours && stack <= r
      invariant forall v :: v in r <==> v in stack || (v in neighbours - rest && v !in visited)
      decreases rest
    {
      var n :| n in rest;
      if n !in visited { r := r + [n]; }
      rest := rest - {n};
    }
  }

  // ---------------------------------------------------------------- density

  /** Ordered pairs of linked nodes from `part` into `nodes`. */
  ghost function EdgesFrom(g: Graph, part: set<Id>, nodes: set<Id>): set<(Id, Id)> {
    set u, v | u in part && v in Neighbours(g, u) && v in nodes :: (u, v)
  }

  /** Ordered pairs of linked nodes within a set. */
  ghost function EdgePairs(g: Graph, nodes: set<Id>): set<(Id, Id)> {
    EdgesFrom(g, nodes, nodes)
  }

  lemma EdgesFromOneMore(g: Graph, part: set<Id>, nodes: set<Id>, x: Id)
    requires x !in part
    ensures |EdgesFrom(g, part + {x}, nodes)| == |EdgesFrom(g, part, nodes)| + |Neighbours(g, x) * nodes|
  {
    var hits := Neighbours(g, x) * nodes;
    var row := set v | v in hits :: (x, v);
    RowSize(x, hits);
    var wider, edges := EdgesFrom(g, part + {x}, nodes), EdgesFrom(g, part, nodes);
    forall u, v ensures (u, v) in wider <==> (u, v) in edges || (u, v) in row {
    }
    assert wider == edges + row;
    assert edges !! row;
  }

  /** The density as an exact fraction of linked ordered pairs. */
  datatype Density = Density(edges: nat, maxEdges: nat)
  {
    predicate Above70() {
      10 * edges > 7 * maxEdges
    }

    predicate AtMostOne() {
      edges <= maxEdges
    }
  }

  ghost function DensityOf(g: Graph, nodes: set<Id>): Density {
    if |nodes| < 2 then Density(0, 1) else Density(|EdgePairs(g, nodes)|, |nodes| * (|nodes| - 1))
  }

  /** The neighbours of the first `i` nodes that are listed, a node as often as it is listed. */
  ghost function RowSum(g: Graph, nodes: seq<Id>, i: nat): nat
    requires i <= |nodes|
  {
    if i == 0 then 0 else RowSum(g, nodes, i - 1) + |Neighbours(g, nodes[i - 1]) * Elements(nodes)|
  }

  lemma ElementsNext(nodes: seq<Id>, i: nat)
    requires NoDuplicates(nodes) && i < |nodes|
    ensures nodes[i] !in Elements(nodes[..i]) && Elements(nodes[..i + 1]) == Elements(nodes[..i]) + {nodes[i]}
  {
  }

  lemma NoEdges(g: Graph, nodes: set<Id>)
    ensures EdgesFrom(g, {}, nodes) == {}
  {
  }

  lemma OneRowMore(g: Graph, nodes: seq<Id>, i: nat)
    requires NoDuplicates(nodes) && i < |nodes|
    ensures |EdgesFrom(g, Elements(nodes[..i + 1]), Elements(nodes))|
         == |EdgesFrom(g, Elements(nodes[..i]), Elements(nodes))| + |Neighbours(g, nodes[i]) * Elements(nodes)|
  {
    ElementsNext(nodes, i);
    EdgesFromOneMore(g, Elements(nodes[..i]), Elements(nodes), nodes[i]);
  }

  lemma NoRows(g: Graph, nodes: seq<Id>)
    ensures RowSum(g, nodes, 0) == |EdgesFrom(g, Elements(nodes[..0]), Elements(nodes))|
  {
    assert Elements(nodes[..0]) == {};
    NoEdges(g, Elements(nodes));
  }

  lemma RowSumStep(g: Graph, nodes: seq<Id>, i: nat)
    requires i < |nodes|
    ensures RowSum(g, nodes, i + 1) == RowSum(g, nodes, i) + |Neighbours(g, nodes[i]) * Elements(nodes)|
  {
  }

  /** Without repetitions the rows add up to the linked ordered pairs. */
  lemma {:induction false} RowSumIsEdges(g: Graph, nodes: seq<Id>, i: nat)
    requires NoDuplicates(nodes) && i <= |nodes|
    ensures RowSum(g, nodes, i) == |EdgesFrom(g, Elements(nodes[..i]), Elements(nodes))|
  {
    if i == 0 {
      NoRows(g, nodes);
    } else {
      RowSumIsEdges(g, nodes, i - 1);
      OneRowMore(g, nodes, i - 1);
      RowSumStep(g, nodes, i - 1);
    }
  }

  ghost function ListDensity(g: Graph, nodes: seq<Id>): Density {
    if |nodes| < 2 then Density(0, 1) else Density(RowSum(g, nodes, |nodes|), |nodes| * (|nodes| - 1))
  }

  lemma ListDensityIsDensity(g: Graph, nodes: seq<Id>)
    requires NoDuplicates(nodes)
    ensures ListDensity(g, nodes) == DensityOf(g, Elements(nodes))
  {
    SizeOfElements(nodes);
    RowSumIsEdges(g, nodes, |nodes|);
    assert nodes[..|nodes|] == nodes;
  }

  method CalculateDensity(nodes: seq<Id>, g: Graph) returns (d: Density)
    ensures d == ListDensity(g, nodes)
    ensures NoDuplicates(nodes) ==> d == DensityOf(g, Elements(nodes))
  {
    if NoDuplicates(nodes) { ListDensityIsDensity(g, nodes); }
    if |nodes| < 2 { return Density(0, 1); }
    var edges := CountEdges(nodes, g);
    return Density(edges, |nodes| * (|nodes| - 1));
  }

  method CountEdges(nodes: seq<Id>, g: Graph) returns (edges: nat)
    ensures edges == RowSum(g, nodes, |nodes|)
  {
    edges := 0;
    for i := 0 to |nodes|
      invariant edges == RowSum(g, nodes, i)
    {
      edges := edges + |Neighbours(g, nodes[i]) * Elements(nodes)|;
    }
  }

  lemma {:induction false} RowSize(u: Id, hits: set<Id>)
    ensures |set v | v in hits :: (u, v)| == |hits|
  {
    if hits != {} {
      var x :| x in hits;
      RowSize(u, hits - {x});
      assert (set v | v in hits :: (u, v)) == (set v | v in hits - {x} :: (u, v)) + {(u, x)};
    }
  }

  lemma {:induction false} SizeOfElements<T>(s: seq<T>)
    requires NoDuplicates(s)
    ensures |Elements(s)| == |s|
  {
    if s != [] {
      var n := |s| - 1;
      SizeOfElements(s[..n]);
      assert Elements(s) == Elements(s[..n]) + {s[n]};
    }
  }

  ghost predicate Loopless(g: Graph) {
    forall a :: !Linked(g, a, a)
  }

  lemma AddNode(g: Graph, nodes: set<Id>, rest: set<Id>, x: Id)
    requires Loopless(g) && x in nodes && x !in rest
    requires |EdgesFrom(g, rest, nodes)| <= |rest| * (|nodes| - 1)
    ensures |EdgesFrom(g, rest + {x}, nodes)| <= (|rest| + 1) * (|nodes| - 1)
  {
    EdgesFromOneMore(g, rest, nodes, x);
    RowWithin(g, nodes, x);
    RowAdded(|EdgesFrom(g, rest, nodes)|, |Neighbours(g, x) * nodes|, |rest| + 1, |nodes| - 1);
  }

  /** Without self-links no set is denser than a complete graph. */
  lemma {:induction false} AtMostComplete(g: Graph, nodes: set<Id>, part: set<Id>)
    requires part <= nodes && Loopless(g)
    ensures |EdgesFrom(g, part, nodes)| <= |part| * (|nodes| - 1)
  {
    if part == {} {
      assert EdgesFrom(g, part, nodes) == {};
    } else {
      var x :| x in part;
      var rest := part - {x};
      AtMostComplete(g, nodes, rest);
      AddNode(g, nodes, rest, x);
      assert part == rest + {x};
    }
  }

  lemma RowWithin(g: Graph, nodes: set<Id>, x: Id)
    requires x in nodes && Loopless(g)
    ensures |Neighbours(g, x) * nodes| <= |nodes| - 1
  {
    assert !Linked(g, x, x);
    SubsetSize(Neighbours(g, x) * nodes, nodes - {x});
  }

  lemma RowAdded(rest: nat, row: nat, n: nat, k: int)
    requires n > 0 && rest <= (n - 1) * k && row <= k
    ensures rest + row <= n * k
  {
    assert n * k == (n - 1) * k + k;
  }

  lemma {:induction false} SubsetSize<T>(a: set<T>, b: set<T>)
    requires a <= b
    ensures |a| <= |b|
  {
    if a != {} {
      var x :| x in a;
      SubsetSize(a - {x}, b - {x});
    }
  }

  ghost predicate DistinctIdentities(relays: seq<RelayInfo>) {
    forall i, j :: 0 <= i < j < |relays| ==> relays[i].identity != relays[j].identity
  }

  /** With distinct identities the density of every set of relays lies between 0 and 1. */
  lemma DensityAtMostOne(g: Graph, relays: seq<RelayInfo>, similar: Similarity, nodes: set<Id>)
    requires IsSimilarityGraph(g, relays, similar) && DistinctIdentities(relays)
    ensures 0 <= DensityOf(g, nodes).edges <= DensityOf(g, nodes).maxEdges
    ensures DensityOf(g, nodes).maxEdges > 0
  {
    assert forall a :: !Similar(relays, similar, |relays|, 0, a, a);
    AtMostComplete(g, nodes, nodes);
    if |nodes| >= 2 { assert |nodes| * (|nodes| - 1) > 0; }
  }

  // ---------------------------------------------------------------- detection

  datatype SybilGroup = SybilGroup(members: seq<Id>, confidence: Density)

  ghost predicate IsIdentity(relays: seq<RelayInfo>, a: Id) {
    exists i :: 0 <= i < |relays| && relays[i].identity == a
  }

  /** The identities that can be reached from `a`: its connected component. */
  ghost function Class(g: Graph, relays: seq<RelayInfo>, a: Id): (c: set<Id>)
    ensures forall v :: v in c <==> IsIdentity(relays, v) && Reach(g, {}, a, v)
  {
    var ids := set r | r in relays :: r.identity;
    assert forall v :: IsIdentity(relays, v) ==> v in ids;
    set v | v in ids && Reach(g, {}, a, v)
  }

  /** A duplicate-free list of everything that can be reached from its first node. */
  ghost predicate IsComponent(g: Graph, relays: seq<RelayInfo>, c: seq<Id>) {
    && c != [] && NoDuplicates(c) && IsIdentity(relays, c[0])
    && forall v :: v in c <==> Reach(g, {}, c[0], v)
  }

  ghost predicate Closed(g: Graph, visited: set<Id>) {
    forall u, v :: u in visited && Linked(g, u, v) ==> v in visited
  }

  ghost predicate Apart(c: seq<Id>, d: seq<Id>) {
    forall v :: !(v in c && v in d)
  }

  /** The components found so far: disjoint, complete, and making up exactly the visited set. */
  ghost predicate Found(g: Graph, relays: seq<RelayInfo>, visited: set<Id>, components: seq<seq<Id>>) {
    && Closed(g, visited)
    && (forall c :: c in components ==> IsComponent(g, relays, c))
    && (forall i, j :: 0 <= i < j < |components| ==> Apart(components[i], components[j]))
    && (forall v :: v in visited <==> exists c :: c in components && v in c)
  }

  ghost predicate Suspicious(g: Graph, nodes: set<Id>) {
    |nodes| >= 4 && DensityOf(g, nodes).Above70()
  }

  /** The groups reported for a list of components: the large, dense ones, in order. */
  ghost function Reported(g: Graph, components: seq<seq<Id>>): seq<SybilGroup> {
    if components == [] then []
    else
      var c := components[|components| - 1];
      Reported(g, components[..|components| - 1])
      + if Suspicious(g, Elements(c)) then [SybilGroup(c, DensityOf(g, Elements(c)))] else []
  }

  lemma VisitedIsNoDetour(g: Graph, visited: set<Id>, a: Id, b: Id)
    requires Symmetric(g) && Closed(g, visited) && a !in visited
    ensures Reach(g, visited, a, b) <==> Reach(g, {}, a, b)
  {
    if Reach(g, visited, a, b) {
      var p :| Walk(g, visited, p) && p[0] == a && p[|p| - 1] == b;
      assert Walk(g, {}, p);
    }
    if Reach(g, {}, a, b) {
      var p :| Walk(g, {}, p) && p[0] == a && p[|p| - 1] == b;
      StaysOutside(g, visited, p);
    }
  }

  lemma {:induction false} StaysOutside(g: Graph, visited: set<Id>, p: seq<Id>)
    requires Symmetric(g) && Closed(g, visited) && Walk(g, {}, p) && p[0] !in visited
    ensures Walk(g, visited, p)
  {
    var n := |p| - 1;
    if n > 0 {
      var q := p[..n];
      assert forall v :: v in q ==> v in p;
      StaysOutside(g, visited, q);
      assert q[n - 1] in q && Linked(g, p[n - 1], p[n]);
      assert forall v :: v in p <==> v in q || v == p[n];
    }
  }

  /** The next component, found while avoiding earlier ones, is a whole component and touches none of them. */
  lemma ComponentFound(g: Graph, relays: seq<RelayInfo>, visited: set<Id>, components: seq<seq<Id>>,
                       c: seq<Id>, nowVisited: set<Id>)
    requires Symmetric(g) && Found(g, relays, visited, components)
    requires c != [] && c[0] !in visited && IsIdentity(relays, c[0]) && NoDuplicates(c)
    requires Tracks(nowVisited, visited, c)
    requires forall v :: v in c <==> Reach(g, visited, c[0], v)
    ensures Found(g, relays, nowVisited, components + [c])
  {
    var all := components + [c];
    forall v ensures v in c <==> Reach(g, {}, c[0], v) { VisitedIsNoDetour(g, visited, c[0], v); }
    forall u, v | u in nowVisited && Linked(g, u, v) ensures v in nowVisited {
      if u in c { ReachStep(g, {}, c[0], u, v); }
    }
    forall v | v in c ensures v !in visited {
      var p :| Walk(g, visited, p) && p[0] == c[0] && p[|p| - 1] == v;
      assert p[|p| - 1] in p;
    }
    forall i | 0 <= i < |components| ensures Apart(components[i], c) {
      assert components[i] in components;
    }
    forall v ensures v in nowVisited <==> exists d :: d in all && v in d {
      if v in visited {
        var d :| d in components && v in d;
        assert d in all;
      }
      if v in c { assert all[|components|] in all; }
      if d :| d in all && v in d {
        assert d in components || d == c;
      }
    }
    assert forall d :: d in all ==> d in components || d == c;
  }

  ghost predicate SeenFirst(relays: seq<RelayInfo>, n: nat, seen: set<Id>)
    requires n <= |relays|
  {
    forall k :: 0 <= k < n ==> relays[k].identity in seen
  }

  lemma SeenNext(relays: seq<RelayInfo>, i: nat, seen: set<Id>, nowSeen: set<Id>)
    requires i < |relays| && SeenFirst(relays, i, seen)
    requires seen <= nowSeen && relays[i].identity in nowSeen
    ensures SeenFirst(relays, i + 1, nowSeen)
  {
  }

  /**
   The detector's two loops: a list of components that partitions the identities into the reachability classes of the
   similarity graph, and the large, dense ones among them in order.
   */
  method ExamineAll(relays: seq<RelayInfo>, similar: Similarity)
    returns (groups: seq<SybilGroup>, ghost g: Graph, ghost components: seq<seq<Id>>, ghost visited: set<Id>)
    ensures IsSimilarityGraph(g, relays, similar)
    ensures Found(g, relays, visited, components)
    ensures forall i :: 0 <= i < |relays| ==> relays[i].identity in visited
    ensures groups == Reported(g, components)
  {
    var adjacency := BuildAdjacency(relays, similar);
    SimilarityIsSymmetric(adjacency, relays, similar);
    var seen: set<Id> := {};
    groups, g, components := [], adjacency, [];
    for i := 0 to |relays|
      invariant Found(g, relays, seen, components)
      invariant SeenFirst(relays, i, seen)
      invariant groups == Reported(g, components)
    {
      if relays[i].identity !in seen {
        var component, nowSeen, group := ExamineFrom(relays, relays[i].identity, adjacency, seen, components);
        components := components + [component];
        SeenNext(relays, i, seen, nowSeen);
        groups, seen := groups + group, nowSeen;
      } else {
        SeenNext(relays, i, seen, seen);
      }
    }
    visited := seen;
  }

  /** The component of an unvisited identity, and the group it makes if it is large and dense. */
  method ExamineFrom(ghost relays: seq<RelayInfo>, start: Id, g: Graph, seen: set<Id>, ghost components: seq<seq<Id>>)
    returns (component: seq<Id>, nowSeen: set<Id>, group: seq<SybilGroup>)
    requires Symmetric(g) && Found(g, relays, seen, components) && IsIdentity(relays, start) && start !in seen
    ensures seen <= nowSeen && start in nowSeen && Found(g, relays, nowSeen, components + [component])
    ensures Reported(g, components + [component]) == Reported(g, components) + group
  {
    group := [];
    component, nowSeen := FindConnectedComponent(start, g, seen);
    ComponentFound(g, relays, seen, components, component, nowSeen);
    assert (components + [component])[..|components|] == components;
    SizeOfElements(component);
    if |component| >= 4 {
      var density := CalculateDensity(component, g);
      if density.Above70() {
        group := [SybilGroup(component, density)];
      }
    }
  }

  // ---------------------------------------------------------------- what a report means

  lemma {:induction false} ReportedMembers(g: Graph, components: seq<seq<Id>>, group: SybilGroup)
    ensures group in Reported(g, components) <==>
              && group.members in components && Suspicious(g, Elements(group.members))
              && group.confidence == DensityOf(g, Elements(group.members))
  {
    if components != [] {
      var n := |components| - 1;
      ReportedMembers(g, components[..n], group);
      assert forall c :: c in components <==> c in components[..n] || c == components[n];
    }
  }

  /** The component that holds an identity is, as a set, that identity's reachability class. */
  lemma ComponentIsClass(g: Graph, relays: seq<RelayInfo>, similar: Similarity, c: seq<Id>, a: Id)
    requires IsSimilarityGraph(g, relays, similar) && IsComponent(g, relays, c) && a in c
    ensures Elements(c) == Class(g, relays, a)
  {
    SimilarityIsSymmetric(g, relays, similar);
    ReachSymmetric(g, c[0], a);
    forall v ensures v in c <==> IsIdentity(relays, v) && Reach(g, {}, a, v) {
      if v in c {
        ReachTransitive(g, a, c[0], v);
        ReachesIdentities(g, relays, similar, c[0], v);
      }
      if Reach(g, {}, a, v) { ReachTransitive(g, c[0], a, v); }
    }
  }

  lemma ReachesIdentities(g: Graph, relays: seq<RelayInfo>, similar: Similarity, a: Id, b: Id)
    requires IsSimilarityGraph(g, relays, similar) && IsIdentity(relays, a) && Reach(g, {}, a, b)
    ensures IsIdentity(relays, b)
  {
    var ids := Elements(seq(|relays|, i requires 0 <= i < |relays| => relays[i].identity));
    forall u, v | Linked(g, u, v) ensures IsIdentity(relays, v) {
      var m, n :| 0 <= m < n < |relays| && (m < |relays| || (m == |relays| && n < 0))
                  && SimilarPair(relays, similar, m, n, u, v);
    }
    var p :| Walk(g, {}, p) && p[0] == a && p[|p| - 1] == b;
    if |p| > 1 {
      assert Linked(g, p[|p| - 2], p[|p| - 1]);
    }
  }

  lemma OnlyComponent(g: Graph, relays: seq<RelayInfo>, visited: set<Id>, components: seq<seq<Id>>, a: Id,
                      c: seq<Id>, d: seq<Id>)
    requires Found(g, relays, visited, components)
    requires c in components && d in components && a in c && a in d
    ensures c == d
  {
  }

  /**
   An identity is in a reported group if and only if its reachability class has at least four members and density
   above 0.7; the group then is that class, listed without duplicates, and it is in no other group.
   */
  lemma ReportedIffSuspicious(g: Graph, relays: seq<RelayInfo>, similar: Similarity, visited: set<Id>,
                              components: seq<seq<Id>>, a: Id)
    requires IsSimilarityGraph(g, relays, similar) && Found(g, relays, visited, components) && a in visited
    ensures (exists group :: group in Reported(g, components) && a in group.members)
       <==> Suspicious(g, Class(g, relays, a))
    ensures forall group :: group in Reported(g, components) && a in group.members ==>
              && Elements(group.members) == Class(g, relays, a) && NoDuplicates(group.members)
              && group.confidence == DensityOf(g, Class(g, relays, a))
    ensures forall x, y :: x in Reported(g, components) && y in Reported(g, components) ==>
              a in x.members && a in y.members ==> x == y
  {
    forall group | group in Reported(g, components) && a in group.members
      ensures && Elements(group.members) == Class(g, relays, a) && NoDuplicates(group.members)
              && group.confidence == DensityOf(g, Class(g, relays, a)) && Suspicious(g, Class(g, relays, a))
              && group.members in components
    {
      ReportedMembers(g, components, group);
      ComponentIsClass(g, relays, similar, group.members, a);
    }
    var c :| c in components && a in c;
    ComponentIsClass(g, relays, similar, c, a);
    ReportedMembers(g, components, SybilGroup(c, DensityOf(g, Elements(c))));
    forall d | d in components && a in d ensures d == c {
      OnlyComponent(g, relays, visited, components, a, c, d);
    }
  }

  // ---------------------------------------------------------------- when density stays within one

  ghost predicate OneIdentity(relays: seq<RelayInfo>) {
    forall i, j :: 0 <= i < |relays| && 0 <= j < |relays| ==> relays[i].identity == relays[j].identity
  }

  /** Whatever relays are taken for similar, no class is denser than one. */
  ghost predicate AlwaysAtMostOne(relays: seq<RelayInfo>) {
    forall similar: Similarity, g: Graph, a :: IsSimilarityGraph(g, relays, similar) && IsIdentity(relays, a) ==>
      DensityOf(g, Class(g, relays, a)).AtMostOne()
  }

  function Everyone(): Similarity {
    (x, y) => true
  }

  ghost function Identities(relays: seq<RelayInfo>): (ids: set<Id>)
    ensures forall v :: v in ids <==> IsIdentity(relays, v)
  {
    var ids := set i | 0 <= i < |relays| :: relays[i].identity;
    assert forall v :: IsIdentity(relays, v) ==> v in ids;
    ids
  }

  /** The graph that takes all relays for similar. */
  ghost function FullGraph(relays: seq<RelayInfo>): Graph {
    map u | u in Identities(relays) ::
      set v | v in Identities(relays) && Similar(relays, Everyone(), |relays|, 0, u, v)
  }

  lemma FullGraphIsSimilarity(relays: seq<RelayInfo>)
    ensures IsSimilarityGraph(FullGraph(relays), relays, Everyone())
  {
    forall a, b | Similar(relays, Everyone(), |relays|, 0, a, b) ensures IsIdentity(relays, a) && IsIdentity(relays, b) {
      var m, n :| 0 <= m < n < |relays| && (m < |relays| || (m == |relays| && n < 0))
                  && SimilarPair(relays, Everyone(), m, n, a, b);
    }
  }

  /** There relays at different positions are linked. */
  lemma LinkedInFull(relays: seq<RelayInfo>, i: nat, j: nat)
    requires i < |relays| && j < |relays| && i != j
    ensures Linked(FullGraph(relays), relays[i].identity, relays[j].identity)
  {
    FullGraphIsSimilarity(relays);
    var a, b := relays[i].identity, relays[j].identity;
    if i < j {
      assert SimilarPair(relays, Everyone(), i, j, a, b);
    } else {
      assert SimilarPair(relays, Everyone(), j, i, a, b);
    }
  }

  lemma FullClass(relays: seq<RelayInfo>, a: Id)
    requires IsIdentity(relays, a)
    ensures Class(FullGraph(relays), relays, a) == Identities(relays)
  {
    var g := FullGraph(relays);
    var i :| 0 <= i < |relays| && relays[i].identity == a;
    forall v | IsIdentity(relays, v) ensures Reach(g, {}, a, v) {
      ReachSelf(g, {}, a);
      var j :| 0 <= j < |relays| && relays[j].identity == v;
      if j != i {
        LinkedInFull(relays, i, j);
        ReachStep(g, {}, a, a, v);
      }
    }
  }

  /** All of `part` linked to all of `nodes`, and one of them to itself, is more than a complete graph has. */
  lemma {:induction false} MoreThanComplete(g: Graph, nodes: set<Id>, part: set<Id>, a: Id)
    requires part <= nodes && Linked(g, a, a)
    requires forall u, v :: u in nodes && v in nodes && u != v ==> Linked(g, u, v)
    ensures |EdgesFrom(g, part, nodes)| >= |part| * (|nodes| - 1) + (if a in part then 1 else 0)
  {
    if part != {} {
      var x :| x in part;
      var rest := part - {x};
      MoreThanComplete(g, nodes, rest, a);
      EdgesFromOneMore(g, rest, nodes, x);
      assert part == rest + {x};
      FullRow(g, nodes, x, a);
      RowCounted(|EdgesFrom(g, rest, nodes)|, |Neighbours(g, x) * nodes|, |part|, |nodes| - 1,
                 if a in rest then 1 else 0, if x == a then 1 else 0);
    }
  }

  lemma FullRow(g: Graph, nodes: set<Id>, x: Id, a: Id)
    requires x in nodes && (x == a ==> Linked(g, a, a))
    requires forall v :: v in nodes && x != v ==> Linked(g, x, v)
    ensures |Neighbours(g, x) * nodes| >= |nodes| - 1 + (if x == a then 1 else 0)
  {
    if x == a {
      SubsetSize(nodes, Neighbours(g, x) * nodes);
    } else {
      SubsetSize(nodes - {x}, Neighbours(g, x) * nodes);
    }
  }

  lemma RowCounted(rest: nat, row: nat, n: nat, k: int, extraRest: nat, extraRow: nat)
    requires n > 0 && rest >= (n - 1) * k + extraRest && row >= k + extraRow
    ensures rest + row >= n * k + extraRest + extraRow
  {
    assert n * k == (n - 1) * k + k;
  }

  /** One identity listed twice beside another one exceeds one when all relays are similar. */
  lemma RepeatedIdentityExceedsOne(relays: seq<RelayInfo>, i: nat, j: nat, k: nat)
    requires i < |relays| && j < |relays| && k < |relays| && i != j
    requires relays[i].identity == relays[j].identity != relays[k].identity
    ensures var g := FullGraph(relays);
            && IsSimilarityGraph(g, relays, Everyone()) && IsIdentity(relays, relays[i].identity)
            && !DensityOf(g, Class(g, relays, relays[i].identity)).AtMostOne()
  {
    var g, a, ids := FullGraph(relays), relays[i].identity, Identities(relays);
    FullGraphIsSimilarity(relays);
    FullClass(relays, a);
    LinkedInFull(relays, i, j);
    forall u, v | u in ids && v in ids && u != v ensures Linked(g, u, v) {
      var m :| 0 <= m < |relays| && relays[m].identity == u;
      var n :| 0 <= n < |relays| && relays[n].identity == v;
      LinkedInFull(relays, m, n);
    }
    MoreThanComplete(g, ids, ids, a);
    SubsetSize({a, relays[k].identity}, ids);
  }

  lemma SmallClass(relays: seq<RelayInfo>, g: Graph, a: Id)
    requires OneIdentity(relays) && IsIdentity(relays, a)
    ensures |Class(g, relays, a)| < 2
  {
    assert forall v :: v in Class(g, relays, a) ==> v == a;
    SubsetSize(Class(g, relays, a), {a});
  }

  /**
   Density stays within one for every similarity exactly when no identity is repeated, or there is only one identity
   and so no class of two: elsewhere a self-link is counted beyond the complete graph.
   */
  lemma DensityAtMostOneIff(relays: seq<RelayInfo>)
    ensures AlwaysAtMostOne(relays) <==> DistinctIdentities(relays) || OneIdentity(relays)
  {
    if DistinctIdentities(relays) || OneIdentity(relays) {
      forall similar: Similarity, g: Graph, a | IsSimilarityGraph(g, relays, similar) && IsIdentity(relays, a)
        ensures DensityOf(g, Class(g, relays, a)).AtMostOne()
      {
        if DistinctIdentities(relays) {
          DensityAtMostOne(g, relays, similar, Class(g, relays, a));
        } else {
          SmallClass(relays, g, a);
        }
      }
    } else {
      var i, j :| 0 <= i < j < |relays| && relays[i].identity == relays[j].identity;
      var m, n :| 0 <= m < |relays| && 0 <= n < |relays| && relays[m].identity != relays[n].identity;
      var k := if relays[m].identity != relays[i].identity then m else n;
      RepeatedIdentityExceedsOne(relays, i, j, k);
    }
  }

  // ---------------------------------------------------------------- the detector against its meaning

  ghost predicate InSomeGroup(groups: seq<SybilGroup>, a: Id) {
    exists i :: 0 <= i < |groups| && a in groups[i].members
  }

  /** At least four nodes, and more than seven tenths of their ordered pairs linked. */
  ghost predicate LargeAndDense(nodes: set<Id>, links: set<(Id, Id)>) {
    |nodes| >= 4 && 10 * |links| > 7 * (|nodes| * (|nodes| - 1))
  }

  ghost predicate AreLinksOf(g: Graph, nodes: set<Id>, links: set<(Id, Id)>) {
    forall u, v :: (u, v) in links <==> u in nodes && v in nodes && Linked(g, u, v)
  }

  lemma SuspiciousInNumbers(g: Graph, nodes: set<Id>)
    ensures AreLinksOf(g, nodes, EdgePairs(g, nodes))
    ensures Suspicious(g, nodes) <==> LargeAndDense(nodes, EdgePairs(g, nodes))
    ensures |nodes| >= 4 ==> DensityOf(g, nodes) == Density(|EdgePairs(g, nodes)|, |nodes| * (|nodes| - 1))
  {
  }

  /** An identity is reported exactly when its class is large and dense, in a group that is its class with its density. */
  ghost predicate RightlyReported(g: Graph, relays: seq<RelayInfo>, groups: seq<SybilGroup>, a: Id) {
    var peers := Class(g, relays, a);
    exists links ::
      && AreLinksOf(g, peers, links)
      && (InSomeGroup(groups, a) <==> LargeAndDense(peers, links))
      && forall i :: 0 <= i < |groups| && a in groups[i].members ==>
           && Elements(groups[i].members) == peers && NoDuplicates(groups[i].members)
           && groups[i].confidence == Density(|links|, |peers| * (|peers| - 1))
  }

  ghost predicate GroupsApart(groups: seq<SybilGroup>) {
    forall i, j :: 0 <= i < j < |groups| ==> Apart(groups[i].members, groups[j].members)
  }

  ghost predicate ComponentsApart(components: seq<seq<Id>>) {
    forall i, j :: 0 <= i < j < |components| ==> Apart(components[i], components[j])
  }

  /** No two reported groups share a member. */
  lemma {:induction false} ReportedApart(g: Graph, components: seq<seq<Id>>)
    requires ComponentsApart(components)
    ensures GroupsApart(Reported(g, components))
  {
    if components != [] {
      var n := |components| - 1;
      var before, all := Reported(g, components[..n]), Reported(g, components);
      ReportedApart(g, components[..n]);
      forall i, j | 0 <= i < j < |all| ensures Apart(all[i].members, all[j].members) {
        if j == |before| {
          ReportedMembers(g, components[..n], before[i]);
          assert before[i] in before;
          var k :| 0 <= k < n && components[..n][k] == before[i].members;
          assert Apart(components[k], components[n]);
        }
      }
    }
  }

  lemma IdentityRightlyReported(g: Graph, relays: seq<RelayInfo>, similar: Similarity, visited: set<Id>,
                                components: seq<seq<Id>>, a: Id)
    requires IsSimilarityGraph(g, relays, similar) && Found(g, relays, visited, components) && a in visited
    ensures RightlyReported(g, relays, Reported(g, components), a)
  {
    ReportedIffSuspicious(g, relays, similar, visited, components, a);
    SuspiciousInNumbers(g, Class(g, relays, a));
    var groups := Reported(g, components);
    assert forall i :: 0 <= i < |groups| ==> groups[i] in groups;
  }

  /** A group lists at least one relay's identity, and nothing else. */
  ghost predicate Inhabited(relays: seq<RelayInfo>, group: SybilGroup) {
    group.members != [] && forall v :: v in group.members ==> IsIdentity(relays, v)
  }

  lemma ReportedInhabited(g: Graph, relays: seq<RelayInfo>, similar: Similarity, visited: set<Id>,
                          components: seq<seq<Id>>, group: SybilGroup)
    requires IsSimilarityGraph(g, relays, similar) && Found(g, relays, visited, components)
    requires group in Reported(g, components)
    ensures Inhabited(relays, group)
  {
    ReportedMembers(g, components, group);
    var c := group.members;
    assert IsComponent(g, relays, c);
    forall v | v in c ensures IsIdentity(relays, v) { ReachesIdentities(g, relays, similar, c[0], v); }
  }

  /**
   The detector, for any relays and any similarity: in the graph that links similar relays an identity is reported if
   and only if its reachability class has at least four members and density above 0.7, in a group that is this class;
   no two groups share a member, and every group has one.
   */
  method DetectGraphBased(relays: seq<RelayInfo>, similar: Similarity) returns (groups: seq<SybilGroup>)
    ensures GroupsApart(groups) && forall i :: 0 <= i < |groups| ==> Inhabited(relays, groups[i])
    ensures exists g :: IsSimilarityGraph(g, relays, similar)
              && forall i :: 0 <= i < |relays| ==> RightlyReported(g, relays, groups, relays[i].identity)
  {
    ghost var g, components, visited;
    groups, g, components, visited := ExamineAll(relays, similar);
    assert ComponentsApart(components);
    ReportedApart(g, components);
    forall i | 0 <= i < |groups| ensures Inhabited(relays, groups[i]) {
      assert groups[i] in groups;
      ReportedInhabited(g, relays, similar, visited, components, groups[i]);
    }
    forall i | 0 <= i < |relays| ensures RightlyReported(g, relays, groups, relays[i].identity) {
      IdentityRightlyReported(g, relays, similar, visited, components, relays[i].identity);
    }
  }
}
