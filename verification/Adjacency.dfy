/** The adjacency graph over statements and its bounded breadth-first search. */
module Adjacency {
  import opened Orders

  datatype Arc = Arc(node: string, relation: string, statement: string)

  datatype Direction = Out | In | Both

  datatype Filter = AllowAll | Allow(listed: seq<string>) | Deny(listed: seq<string>)
  {
    predicate Allows(relation: string) {
      match this
      case AllowAll => true
      case Allow(list) => relation in list
      case Deny(list) => relation !in list
    }
  }

  datatype Graph = Graph(nodes: set<string>, outgoing: map<string, seq<Arc>>, incoming: map<string, seq<Arc>>)

  datatype Spec = Spec(start: set<string>, direction: Direction, filter: Filter, maxDepth: nat, maxNodes: nat)

  datatype Edge = Edge(from: string, to: string, relation: string, statement: string, depth: nat)

  function ListAt(m: map<string, seq<Arc>>, e: string): seq<Arc> { if e in m then m[e] else [] }

  function Arcs(g: Graph, d: Direction, e: string): seq<Arc> {
    match d
    case Out => ListAt(g.outgoing, e)
    case In => ListAt(g.incoming, e)
    case Both => ListAt(g.outgoing, e) + ListAt(g.incoming, e)
  }

  // ---- Distance ----

  /** Some allowed arc leads from `a` to `b`. */
  ghost predicate Joins(g: Graph, s: Spec, a: string, b: string) {
    exists i :: 0 <= i < |Arcs(g, s.direction, a)| && Leads(Arcs(g, s.direction, a)[i], s.filter, b)
  }

  predicate Leads(arc: Arc, f: Filter, b: string) { arc.node == b && f.Allows(arc.relation) }

  ghost function Successors(g: Graph, s: Spec, a: string): set<string> {
    set i | 0 <= i < |Arcs(g, s.direction, a)| && s.filter.Allows(Arcs(g, s.direction, a)[i].relation) ::
      Arcs(g, s.direction, a)[i].node
  }

  ghost function Image(g: Graph, s: Spec, from: set<string>): set<string> {
    set a, b {:trigger Through(g, s, from, a, b)} | a in from && b in Successors(g, s, a) && Through(g, s, from, a, b) :: b
  }

  /** `a` takes the search from `from` to `b`. */
  ghost predicate Through(g: Graph, s: Spec, from: set<string>, a: string, b: string) {
    a in from && b in Successors(g, s, a)
  }

  /** The nodes at most `k` allowed arcs away from a start node. */
  ghost function Within(g: Graph, s: Spec, k: nat): set<string> {
    if k == 0 then s.start else Within(g, s, k - 1) + Image(g, s, Within(g, s, k - 1))
  }

  /** `d` is the filtered distance of `n` from the start set. */
  ghost predicate Distance(g: Graph, s: Spec, n: string, d: nat) {
    n in Within(g, s, d) && forall k: nat :: k < d ==> n !in Within(g, s, k)
  }

  lemma {:induction false} WithinGrows(g: Graph, s: Spec, i: nat, j: nat)
    requires i <= j
    ensures Within(g, s, i) <= Within(g, s, j)
    decreases j
  {
    if i < j { WithinGrows(g, s, i, j - 1); }
  }

  /** The nodes at distance exactly `k`. */
  ghost function Layer(g: Graph, s: Spec, k: nat): set<string> {
    if k == 0 then s.start else Within(g, s, k) - Within(g, s, k - 1)
  }

  lemma LayerDistance(g: Graph, s: Spec, n: string, k: nat)
    ensures n in Layer(g, s, k) <==> Distance(g, s, n, k)
  {
    if n in Layer(g, s, k) {
      forall i: nat | i < k ensures n !in Within(g, s, i) { WithinGrows(g, s, i, k - 1); }
    }
  }

  lemma ImageGrows(g: Graph, s: Spec, from: set<string>, to: set<string>)
    requires from <= to
    ensures Image(g, s, from) <= Image(g, s, to)
  {
    forall b | b in Image(g, s, from) ensures b in Image(g, s, to) {
      var a :| a in from && b in Successors(g, s, a) && Through(g, s, from, a, b);
      assert Through(g, s, to, a, b);
    }
  }

  /** New nodes come only from the last layer. */
  lemma NewFromLayer(g: Graph, s: Spec, k: nat)
    ensures Within(g, s, k + 1) == Within(g, s, k) + Image(g, s, Layer(g, s, k))
  {
    var w := Within(g, s, k);
    ImageGrows(g, s, Layer(g, s, k), w);
    forall b | b in Image(g, s, w) ensures b in w + Image(g, s, Layer(g, s, k)) {
      var a :| a in w && b in Successors(g, s, a) && Through(g, s, w, a, b);
      if k > 0 && a in Within(g, s, k - 1) {
        assert Through(g, s, Within(g, s, k - 1), a, b);
      } else {
        assert Through(g, s, Layer(g, s, k), a, b);
      }
    }
  }

  lemma LayerAfter(g: Graph, s: Spec, k: nat)
    requires Layer(g, s, k) == {}
    ensures Layer(g, s, k + 1) == {} && Within(g, s, k + 1) == Within(g, s, k)
  {
    NewFromLayer(g, s, k);
    NoImage(g, s, Layer(g, s, k));
  }

  lemma NoImage(g: Graph, s: Spec, from: set<string>)
    requires from == {}
    ensures Image(g, s, from) == {}
  {
  }

  /** An empty layer ends the search: nothing is further away. */
  lemma {:induction false} EmptyLayerStays(g: Graph, s: Spec, i: nat, j: nat)
    requires i <= j && Layer(g, s, i) == {}
    ensures Layer(g, s, j) == {} && Within(g, s, j) == Within(g, s, i)
    decreases j
  {
    if i < j {
      EmptyLayerStays(g, s, i, j - 1);
      LayerStays(g, s, i, j - 1);
    }
  }

  lemma LayerStays(g: Graph, s: Spec, i: nat, k: nat)
    requires Layer(g, s, k) == {} && Within(g, s, k) == Within(g, s, i)
    ensures Layer(g, s, k + 1) == {} && Within(g, s, k + 1) == Within(g, s, i)
  {
    LayerAfter(g, s, k);
  }

  // ---- Paths: what distance means ----

  /** Consecutive nodes are joined by allowed arcs. */
  ghost predicate Path(g: Graph, s: Spec, p: seq<string>) {
    |p| > 0 && p[0] in s.start && forall i :: 0 <= i < |p| - 1 ==> Joins(g, s, p[i], p[i + 1])
  }

  lemma SuccessorsJoin(g: Graph, s: Spec, a: string, b: string)
    ensures b in Successors(g, s, a) <==> Joins(g, s, a, b)
  {
    if b in Successors(g, s, a) {
      var i :| 0 <= i < |Arcs(g, s.direction, a)| && s.filter.Allows(Arcs(g, s.direction, a)[i].relation) &&
        Arcs(g, s.direction, a)[i].node == b;
      assert Leads(Arcs(g, s.direction, a)[i], s.filter, b);
    }
  }

  lemma {:induction false} PathWithin(g: Graph, s: Spec, p: seq<string>)
    requires Path(g, s, p)
    ensures p[|p| - 1] in Within(g, s, |p| - 1)
    decreases |p|
  {
    if |p| > 1 {
      var front := p[..|p| - 1];
      assert forall i :: 0 <= i < |front| ==> front[i] == p[i];
      PathWithin(g, s, front);
      assert Joins(g, s, p[|p| - 2], p[|p| - 1]);
      SuccessorsJoin(g, s, p[|p| - 2], p[|p| - 1]);
      assert Through(g, s, Within(g, s, |p| - 2), p[|p| - 2], p[|p| - 1]);
    }
  }

  lemma {:induction false} WithinPath(g: Graph, s: Spec, n: string, k: nat) returns (p: seq<string>)
    requires n in Within(g, s, k)
    ensures Path(g, s, p) && p[|p| - 1] == n && |p| <= k + 1
    decreases k
  {
    if k == 0 {
      p := [n];
    } else if n in Within(g, s, k - 1) {
      p := WithinPath(g, s, n, k - 1);
    } else {
      var a :| a in Within(g, s, k - 1) && n in Successors(g, s, a);
      SuccessorsJoin(g, s, a, n);
      var q := WithinPath(g, s, a, k - 1);
      p := q + [n];
      PathExtends(g, s, q, n);
    }
  }

  lemma PathExtends(g: Graph, s: Spec, q: seq<string>, n: string)
    requires Path(g, s, q) && Joins(g, s, q[|q| - 1], n)
    ensures Path(g, s, q + [n])
  {
    var p := q + [n];
    forall i | 0 <= i < |p| - 1 ensures Joins(g, s, p[i], p[i + 1]) {
      assert i < |q| - 1 ==> Joins(g, s, q[i], q[i + 1]);
    }
  }

  /** `n` has distance at most `k` exactly when a path of at most `k` allowed arcs leads to it. */
  lemma WithinIsPaths(g: Graph, s: Spec, n: string, k: nat)
    ensures n in Within(g, s, k) <==> exists p :: Path(g, s, p) && p[|p| - 1] == n && |p| <= k + 1
  {
    if n in Within(g, s, k) { var p := WithinPath(g, s, n, k); }
    forall p | Path(g, s, p) && p[|p| - 1] == n && |p| <= k + 1 ensures n in Within(g, s, k) {
      PathWithin(g, s, p);
      WithinGrows(g, s, |p| - 1, k);
    }
  }

  // ---- Reported edges ----

  /** How a set is iterated. The search uses `Ascending`, as a BTreeSet is. */
  type Order = set<string> -> seq<string>

  ghost predicate Enumerates(order: Order) {
    forall x, n {:trigger n in order(x)} :: n in order(x) <==> n in x
  }

  lemma AscendingEnumerates()
    ensures Enumerates(Ascending)
  {
  }

  /** The edges reported for one node: its allowed arcs in stored order. */
  function NodeEdges(f: Filter, e: string, arcs: seq<Arc>, depth: nat): seq<Edge> {
    if arcs == [] then [] else
      var a := arcs[|arcs| - 1];
      NodeEdges(f, e, arcs[..|arcs| - 1], depth) +
      (if f.Allows(a.relation) then [Edge(e, a.node, a.relation, a.statement, depth)] else [])
  }

  function NodesEdges(g: Graph, s: Spec, nodes: seq<string>, depth: nat): seq<Edge> {
    if nodes == [] then [] else
      NodesEdges(g, s, nodes[..|nodes| - 1], depth) +
      NodeEdges(s.filter, nodes[|nodes| - 1], Arcs(g, s.direction, nodes[|nodes| - 1]), depth)
  }

  /** The edges level `k + 1` reports, its layer taken in ascending order. */
  ghost function Row(g: Graph, s: Spec, order: Order, k: nat): seq<Edge> {
    NodesEdges(g, s, order(Layer(g, s, k)), k + 1)
  }

  ghost function RowsOf(g: Graph, s: Spec, order: Order): nat -> seq<Edge> { (k: nat) => Row(g, s, order, k) }

  ghost function Rows(row: nat -> seq<Edge>, k: nat): seq<Edge> {
    if k == 0 then [] else Rows(row, k - 1) + row(k - 1)
  }

  /** Every edge of the first `k` levels: layers in order of distance, nodes ascending. */
  ghost function LevelEdges(g: Graph, s: Spec, order: Order, k: nat): seq<Edge> {
    Rows(RowsOf(g, s, order), k)
  }

  lemma {:induction false} NodeEdgesMeaning(f: Filter, e: string, arcs: seq<Arc>, depth: nat, x: Edge)
    ensures x in NodeEdges(f, e, arcs, depth) <==>
      x.from == e && x.depth == depth && f.Allows(x.relation) && Arc(x.to, x.relation, x.statement) in arcs
  {
    if arcs != [] {
      var front, a := arcs[..|arcs| - 1], arcs[|arcs| - 1];
      assert arcs == front + [a];
      NodeEdgesMeaning(f, e, front, depth, x);
    }
  }

  lemma {:induction false} NodesEdgesMeaning(g: Graph, s: Spec, nodes: seq<string>, depth: nat, x: Edge)
    ensures x in NodesEdges(g, s, nodes, depth) <==>
      x.from in nodes && x.depth == depth && s.filter.Allows(x.relation)
      && Arc(x.to, x.relation, x.statement) in Arcs(g, s.direction, x.from)
  {
    if nodes != [] {
      var front, e := nodes[..|nodes| - 1], nodes[|nodes| - 1];
      assert nodes == front + [e];
      NodesEdgesMeaning(g, s, front, depth, x);
      NodeEdgesMeaning(s.filter, e, Arcs(g, s.direction, e), depth, x);
    }
  }

  /** An allowed arc leaving a node whose distance is one less than the edge's depth. */
  ghost predicate Crosses(g: Graph, s: Spec, x: Edge) {
    && 1 <= x.depth && Distance(g, s, x.from, x.depth - 1) && s.filter.Allows(x.relation)
    && Arc(x.to, x.relation, x.statement) in Arcs(g, s.direction, x.from)
  }

  lemma NodesCross(g: Graph, s: Spec, nodes: seq<string>, k: nat, x: Edge)
    requires x.from in nodes <==> Distance(g, s, x.from, k)
    ensures x in NodesEdges(g, s, nodes, k + 1) <==> x.depth == k + 1 && Crosses(g, s, x)
  {
    NodesEdgesMeaning(g, s, nodes, k + 1, x);
  }

  lemma RowMeaning(g: Graph, s: Spec, order: Order, k: nat, x: Edge)
    requires Enumerates(order)
    ensures x in Row(g, s, order, k) <==> x.depth == k + 1 && Crosses(g, s, x)
  {
    LayerDistance(g, s, x.from, k);
    NodesCross(g, s, order(Layer(g, s, k)), k, x);
  }

  lemma {:induction false} RowsMeaning(row: nat -> seq<Edge>, k: nat, x: Edge)
    ensures x in Rows(row, k) <==> exists i: nat :: i < k && x in row(i)
  {
    if k > 0 { RowsMeaning(row, k - 1, x); }
  }

  lemma {:induction false} RowsPrefix(row: nat -> seq<Edge>, i: nat, j: nat)
    requires i <= j
    ensures Rows(row, i) <= Rows(row, j)
    decreases j
  {
    if i < j { RowsPrefix(row, i, j - 1); }
  }

  lemma {:induction false} RowsEmpty(row: nat -> seq<Edge>, i: nat, j: nat)
    requires i <= j && forall k: nat :: i <= k < j ==> row(k) == []
    ensures Rows(row, j) == Rows(row, i)
    decreases j
  {
    if i < j { RowsEmpty(row, i, j - 1); }
  }

  /** An edge belongs to the first `k` levels exactly when it is an allowed arc leaving a node
      whose distance is one less than the edge's depth, and that depth is at most `k`. */
  lemma EdgesMeaning(g: Graph, s: Spec, order: Order, k: nat, x: Edge)
    requires Enumerates(order)
    ensures x in LevelEdges(g, s, order, k) <==> x.depth <= k && Crosses(g, s, x)
  {
    var row := RowsOf(g, s, order);
    RowsMeaning(row, k, x);
    forall i: nat ensures x in row(i) <==> x.depth == i + 1 && Crosses(g, s, x) { RowMeaning(g, s, order, i, x); }
    if x.depth >= 1 {
      var i: nat := x.depth - 1;
      assert x in row(i) <==> Crosses(g, s, x);
    }
  }

  lemma NoNodesNoEdges(g: Graph, s: Spec, order: Order, k: nat)
    requires Layer(g, s, k) == {}
    requires Enumerates(order)
    ensures Row(g, s, order, k) == []
  {
    EmptyOrInhabited(order(Layer(g, s, k)));
  }

  lemma EmptyLevels(g: Graph, s: Spec, order: Order, i: nat, j: nat)
    requires i <= j && Layer(g, s, i) == {}
    requires Enumerates(order)
    ensures LevelEdges(g, s, order, j) == LevelEdges(g, s, order, i)
  {
    var row := RowsOf(g, s, order);
    forall k: nat | i <= k < j ensures row(k) == [] {
      EmptyLayerStays(g, s, i, k);
      NoNodesNoEdges(g, s, order, k);
    }
    RowsEmpty(row, i, j);
  }

  lemma LevelsPrefix(g: Graph, s: Spec, order: Order, i: nat, j: nat)
    requires i <= j
    ensures LevelEdges(g, s, order, i) <= LevelEdges(g, s, order, j)
  {
    RowsPrefix(RowsOf(g, s, order), i, j);
  }

  lemma PrefixTrans<T>(a: seq<T>, b: seq<T>, c: seq<T>)
    requires a <= b && b <= c
    ensures a <= c
  {
  }

  lemma LevelEdgesNext(g: Graph, s: Spec, order: Order, k: nat)
    ensures LevelEdges(g, s, order, k + 1) == LevelEdges(g, s, order, k) + Row(g, s, order, k)
  {
  }

  // ---- The search ----

  /** Every visited node is recorded with its distance. */
  ghost predicate Exact(g: Graph, s: Spec, visited: map<string, nat>) {
    forall n {:trigger Recorded(g, s, visited, n)} :: n in visited ==> Recorded(g, s, visited, n)
  }

  ghost predicate Recorded(g: Graph, s: Spec, visited: map<string, nat>, n: string)
    requires n in visited
  {
    Distance(g, s, n, visited[n])
  }

  /** A level under construction: the nodes visited before it, unchanged, and the new nodes
      `next`, all reachable (in `far`) and recorded with the level's depth. */
  ghost predicate Growing(before: map<string, nat>, far: set<string>, visited: map<string, nat>, next: set<string>, depth: nat) {
    forall n {:trigger GrownAt(before, far, visited, next, depth, n)} :: GrownAt(before, far, visited, next, depth, n)
  }

  ghost predicate GrownAt(before: map<string, nat>, far: set<string>, visited: map<string, nat>, next: set<string>,
                          depth: nat, n: string)
  {
    && (n in visited <==> n in before || n in next)
    && (n in before ==> visited[n] == before[n])
    && (n in next ==> n in far && n !in before && visited[n] == depth)
  }

  lemma VisitNode(before: map<string, nat>, far: set<string>, visited: map<string, nat>, next: set<string>, depth: nat, n: string)
    requires Growing(before, far, visited, next, depth) && n in far && n !in visited
    ensures Growing(before, far, visited[n := depth], next + {n}, depth)
  {
    var more, level := visited[n := depth], next + {n};
    forall m ensures GrownAt(before, far, more, level, depth, m) {
      assert GrownAt(before, far, visited, next, depth, m);
    }
  }

  lemma NodeEdgesNext(f: Filter, e: string, arcs: seq<Arc>, i: nat, depth: nat)
    requires i < |arcs|
    ensures NodeEdges(f, e, arcs[..i + 1], depth) == NodeEdges(f, e, arcs[..i], depth) +
      (if f.Allows(arcs[i].relation) then [Edge(e, arcs[i].node, arcs[i].relation, arcs[i].statement, depth)] else [])
  {
    assert arcs[..i + 1][..i] == arcs[..i];
  }

  lemma {:induction false} NodeEdgesPrefix(f: Filter, e: string, arcs: seq<Arc>, i: nat, depth: nat)
    requires i <= |arcs|
    ensures NodeEdges(f, e, arcs[..i], depth) <= NodeEdges(f, e, arcs, depth)
    decreases |arcs| - i
  {
    if i == |arcs| {
      assert arcs[..i] == arcs;
    } else {
      NodeEdgesPrefix(f, e, arcs, i + 1, depth);
      NodeEdgesNext(f, e, arcs, i, depth);
    }
  }

  ghost predicate Kept(arcs: seq<Arc>, f: Filter, i: nat, visited: map<string, nat>)
    requires i <= |arcs|
  {
    forall j {:trigger KeptAt(arcs, f, j, visited)} :: 0 <= j < i ==> KeptAt(arcs, f, j, visited)
  }

  predicate KeptAt(arcs: seq<Arc>, f: Filter, j: nat, visited: map<string, nat>)
    requires j < |arcs|
  {
    f.Allows(arcs[j].relation) ==> arcs[j].node in visited
  }

  lemma KeptNext(arcs: seq<Arc>, f: Filter, i: nat, visited: map<string, nat>, more: map<string, nat>)
    requires i < |arcs| && Kept(arcs, f, i, visited) && visited.Keys <= more.Keys && KeptAt(arcs, f, i, more)
    ensures Kept(arcs, f, i + 1, more)
  {
    forall j | 0 <= j < i + 1 ensures KeptAt(arcs, f, j, more) {
      assert j < i ==> KeptAt(arcs, f, j, visited);
    }
  }

  /** The edges of the first arcs of a node, of all of them unless the search was cut. */
  ghost predicate PartlyReported(f: Filter, e: string, arcs: seq<Arc>, depth: nat, before: seq<Edge>, after: seq<Edge>, cut: bool) {
    exists n :: 0 <= n <= |arcs| && (!cut ==> n == |arcs|) && after == before + NodeEdges(f, e, arcs[..n], depth)
  }

  /** One frontier node: its allowed arcs are reported, unseen targets join the next level. */
  method ExpandNode(g: Graph, s: Spec, e: string, depth: nat, ghost before: map<string, nat>, ghost far: set<string>,
                    seen: map<string, nat>, reported: seq<Edge>, level: set<string>)
    returns (visited: map<string, nat>, edges: seq<Edge>, next: set<string>, truncated: bool)
    requires Growing(before, far, seen, level, depth) && Successors(g, s, e) <= far && Traced(seen, reported)
    ensures Growing(before, far, visited, next, depth) && seen.Keys <= visited.Keys
    ensures Traced(visited, edges) && reported <= edges
    ensures |visited| <= Max(|seen|, s.maxNodes) && (truncated ==> |visited| >= s.maxNodes)
    ensures PartlyReported(s.filter, e, Arcs(g, s.direction, e), depth, reported, edges, truncated)
    ensures !truncated ==> Kept(Arcs(g, s.direction, e), s.filter, |Arcs(g, s.direction, e)|, visited)
  {
    visited, edges, next, truncated := seen, reported, level, false;
    var arcs := Arcs(g, s.direction, e);
    for i := 0 to |arcs|
      invariant Growing(before, far, visited, next, depth) && seen.Keys <= visited.Keys
      invariant |visited| <= Max(|seen|, s.maxNodes)
      invariant edges == reported + NodeEdges(s.filter, e, arcs[..i], depth)
      invariant Kept(arcs, s.filter, i, visited) && !truncated && Traced(visited, edges)
    {
      var arc := arcs[i];
      NodeEdgesNext(s.filter, e, arcs, i, depth);
      if !s.filter.Allows(arc.relation) {
        KeptNext(arcs, s.filter, i, visited, visited);
        continue;
      }
      TracedEdge(visited, edges, Edge(e, arc.node, arc.relation, arc.statement, depth));
      edges := edges + [Edge(e, arc.node, arc.relation, arc.statement, depth)];
      if arc.node !in visited {
        if |visited| >= s.maxNodes {
          truncated := true;
          return;
        }
        assert arc.node in Successors(g, s, e);
        VisitNode(before, far, visited, next, depth, arc.node);
        InsertSize(visited, arc.node, depth);
        KeptNext(arcs, s.filter, i, visited, visited[arc.node := depth]);
        visited := visited[arc.node := depth];
        next := next + {arc.node};
      } else {
        KeptNext(arcs, s.filter, i, visited, visited);
      }
    }
  }

  lemma NodesEdgesNext(g: Graph, s: Spec, nodes: seq<string>, i: nat, depth: nat)
    requires i < |nodes|
    ensures NodesEdges(g, s, nodes[..i + 1], depth) ==
      NodesEdges(g, s, nodes[..i], depth) + NodeEdges(s.filter, nodes[i], Arcs(g, s.direction, nodes[i]), depth)
  {
    assert nodes[..i + 1][..i] == nodes[..i];
  }

  lemma {:induction false} NodesEdgesPrefix(g: Graph, s: Spec, nodes: seq<string>, i: nat, depth: nat)
    requires i <= |nodes|
    ensures NodesEdges(g, s, nodes[..i], depth) <= NodesEdges(g, s, nodes, depth)
    decreases |nodes| - i
  {
    if i == |nodes| {
      assert nodes[..i] == nodes;
    } else {
      NodesEdgesPrefix(g, s, nodes, i + 1, depth);
      NodesEdgesNext(g, s, nodes, i, depth);
    }
  }

  ghost predicate Expanded(g: Graph, s: Spec, nodes: seq<string>, i: nat, visited: map<string, nat>)
    requires i <= |nodes|
  {
    forall j :: 0 <= j < i ==> Kept(Arcs(g, s.direction, nodes[j]), s.filter, |Arcs(g, s.direction, nodes[j])|, visited)
  }

  lemma KeptGrows(arcs: seq<Arc>, f: Filter, i: nat, visited: map<string, nat>, more: map<string, nat>)
    requires i <= |arcs| && Kept(arcs, f, i, visited) && visited.Keys <= more.Keys
    ensures Kept(arcs, f, i, more)
  {
    forall j | 0 <= j < i ensures KeptAt(arcs, f, j, more) { assert KeptAt(arcs, f, j, visited); }
  }

  lemma ExpandedNext(g: Graph, s: Spec, nodes: seq<string>, i: nat, visited: map<string, nat>, more: map<string, nat>)
    requires i < |nodes| && Expanded(g, s, nodes, i, visited) && visited.Keys <= more.Keys
    requires Kept(Arcs(g, s.direction, nodes[i]), s.filter, |Arcs(g, s.direction, nodes[i])|, more)
    ensures Expanded(g, s, nodes, i + 1, more)
  {
    forall j | 0 <= j < i + 1 ensures Kept(Arcs(g, s.direction, nodes[j]), s.filter, |Arcs(g, s.direction, nodes[j])|, more) {
      if j < i { KeptGrows(Arcs(g, s.direction, nodes[j]), s.filter, |Arcs(g, s.direction, nodes[j])|, visited, more); }
    }
  }

  lemma NodePrefix(g: Graph, s: Spec, nodes: seq<string>, i: nat, depth: nat, n: nat, reported: seq<Edge>)
    requires i < |nodes| && n <= |Arcs(g, s.direction, nodes[i])|
    ensures var edges := reported + NodesEdges(g, s, nodes[..i], depth)
              + NodeEdges(s.filter, nodes[i], Arcs(g, s.direction, nodes[i])[..n], depth);
      && edges <= reported + NodesEdges(g, s, nodes, depth)
      && (n == |Arcs(g, s.direction, nodes[i])| ==> edges == reported + NodesEdges(g, s, nodes[..i + 1], depth))
  {
    var arcs := Arcs(g, s.direction, nodes[i]);
    NodeEdgesPrefix(s.filter, nodes[i], arcs, n, depth);
    NodesEdgesNext(g, s, nodes, i, depth);
    NodesEdgesPrefix(g, s, nodes, i + 1, depth);
    if n == |arcs| { assert arcs[..n] == arcs; }
    SplitPrefix(reported, NodesEdges(g, s, nodes[..i], depth), NodeEdges(s.filter, nodes[i], arcs[..n], depth),
                NodeEdges(s.filter, nodes[i], arcs, depth), NodesEdges(g, s, nodes, depth));
  }

  lemma NodeReported(g: Graph, s: Spec, nodes: seq<string>, i: nat, depth: nat, reported: seq<Edge>, edges: seq<Edge>, cut: bool)
    requires i < |nodes|
    requires PartlyReported(s.filter, nodes[i], Arcs(g, s.direction, nodes[i]), depth,
                            reported + NodesEdges(g, s, nodes[..i], depth), edges, cut)
    ensures edges <= reported + NodesEdges(g, s, nodes, depth)
    ensures !cut ==> edges == reported + NodesEdges(g, s, nodes[..i + 1], depth)
  {
    var arcs := Arcs(g, s.direction, nodes[i]);
    var n :| 0 <= n <= |arcs| && (!cut ==> n == |arcs|)
      && edges == reported + NodesEdges(g, s, nodes[..i], depth) + NodeEdges(s.filter, nodes[i], arcs[..n], depth);
    NodePrefix(g, s, nodes, i, depth, n, reported);
  }

  lemma SplitPrefix(r: seq<Edge>, a: seq<Edge>, part: seq<Edge>, b: seq<Edge>, whole: seq<Edge>)
    requires part <= b && a + b <= whole
    ensures r + a + part <= r + whole
    ensures r + a + b == r + (a + b)
  {
    assert r + whole == r + a + part + whole[|a| + |part|..];
  }

  /** One level: the frontier in order, until the node limit is reached. */
  method ExpandLevel(g: Graph, s: Spec, order: Order, frontier: set<string>, depth: nat, before: map<string, nat>,
                     reported: seq<Edge>)
    returns (visited: map<string, nat>, edges: seq<Edge>, next: set<string>, truncated: bool)
    requires Enumerates(order) && Traced(before, reported)
    ensures Growing(before, Image(g, s, frontier), visited, next, depth) && Traced(visited, edges) && reported <= edges
    ensures |visited| <= Max(|before|, s.maxNodes) && (truncated ==> |visited| >= s.maxNodes)
    ensures edges <= reported + NodesEdges(g, s, order(frontier), depth)
    ensures !truncated ==> edges == reported + NodesEdges(g, s, order(frontier), depth)
    ensures !truncated ==> Image(g, s, frontier) <= visited.Keys
  {
    LeadsInside(g, s, order, frontier);
    visited, edges, next, truncated := ExpandNodes(g, s, order(frontier), depth, before, Image(g, s, frontier), reported);
    if !truncated { AllReached(g, s, order(frontier), frontier, visited); }
  }

  lemma LeadsInside(g: Graph, s: Spec, order: Order, frontier: set<string>)
    requires Enumerates(order)
    ensures forall n :: n in order(frontier) ==> Successors(g, s, n) <= Image(g, s, frontier)
  {
    forall n, b | n in order(frontier) && b in Successors(g, s, n) ensures b in Image(g, s, frontier) {
      assert Through(g, s, frontier, n, b);
    }
  }

  method ExpandNodes(g: Graph, s: Spec, nodes: seq<string>, depth: nat, before: map<string, nat>, ghost far: set<string>,
                     reported: seq<Edge>)
    returns (visited: map<string, nat>, edges: seq<Edge>, next: set<string>, truncated: bool)
    requires Traced(before, reported) && forall n :: n in nodes ==> Successors(g, s, n) <= far
    ensures Growing(before, far, visited, next, depth) && Traced(visited, edges) && reported <= edges
    ensures |visited| <= Max(|before|, s.maxNodes) && (truncated ==> |visited| >= s.maxNodes)
    ensures edges <= reported + NodesEdges(g, s, nodes, depth)
    ensures !truncated ==> edges == reported + NodesEdges(g, s, nodes, depth)
    ensures !truncated ==> Expanded(g, s, nodes, |nodes|, visited)
  {
    visited, edges, next, truncated := before, reported, {}, false;
    for i := 0 to |nodes|
      invariant Growing(before, far, visited, next, depth)
      invariant |visited| <= Max(|before|, s.maxNodes)
      invariant edges == reported + NodesEdges(g, s, nodes[..i], depth)
      invariant Expanded(g, s, nodes, i, visited) && !truncated && Traced(visited, edges)
    {
      if |visited| >= s.maxNodes {
        truncated := true;
        NodesEdgesPrefix(g, s, nodes, i, depth);
        return;
      }
      ghost var seen := visited;
      visited, edges, next, truncated := ExpandNode(g, s, nodes[i], depth, before, far, visited, edges, next);
      NodeReported(g, s, nodes, i, depth, reported, edges, truncated);
      if truncated {
        return;
      }
      ExpandedNext(g, s, nodes, i, seen, visited);
    }
    assert nodes[..|nodes|] == nodes;
  }

  datatype SearchResult = SearchResult(nodes: map<string, nat>, edges: seq<Edge>, truncated: bool)

  class AdjacencyGraph {
    var nodes: set<string>
    var outgoing: map<string, seq<Arc>>
    var incoming: map<string, seq<Arc>>

    function View(): Graph reads this { Graph(nodes, outgoing, incoming) }

    constructor ()
      ensures View() == Graph({}, map[], map[])
    {
      nodes, outgoing, incoming := {}, map[], map[];
    }

    method AddEdge(from: string, to: string, relation: string, statement: string)
      modifies this
      ensures View() == WithEdge(old(View()), from, to, relation, statement)
    {
      nodes := nodes + {from};
      nodes := nodes + {to};
      outgoing := outgoing[from := ListAt(outgoing, from) + [Arc(to, relation, statement)]];
      incoming := incoming[to := ListAt(incoming, to) + [Arc(from, relation, statement)]];
    }

    /** Every visited node carries its exact filtered distance, truncated or not; an
        untruncated search visits exactly the nodes within the depth and reports exactly the
        edges of its levels, a truncated one a prefix of them; the node limit is exceeded only
        by the start nodes themselves. */
    method Bfs(s: Spec) returns (r: SearchResult)
      ensures Found(View(), s, Ascending, r)
    {
      var g := View();
      AscendingEnumerates();
      r := Search(g, s, Ascending);
    }
  }

  function WithEdge(g: Graph, from: string, to: string, relation: string, statement: string): Graph {
    Graph(g.nodes + {from, to},
          g.outgoing[from := ListAt(g.outgoing, from) + [Arc(to, relation, statement)]],
          g.incoming[to := ListAt(g.incoming, to) + [Arc(from, relation, statement)]])
  }

  predicate Level(k: nat) { true }

  /** Level `k` finished: its nodes, the frontier, and the edges so far. (The definition is
      looked up only where `Level(k)` is mentioned.) */
  ghost predicate Searched(g: Graph, s: Spec, order: Order, visited: map<string, nat>, frontier: set<string>, edges: seq<Edge>, k: nat) {
    forall i: nat {:trigger Level(i)} :: i == k && Level(i) ==> FinishedLevel(g, s, order, visited, frontier, edges, i)
  }

  ghost predicate FinishedLevel(g: Graph, s: Spec, order: Order, visited: map<string, nat>, frontier: set<string>, edges: seq<Edge>, k: nat) {
    && visited.Keys == Within(g, s, k) && frontier == Layer(g, s, k) && Exact(g, s, visited)
    && edges == LevelEdges(g, s, order, k) && |visited| <= Max(s.maxNodes, |s.start|) && Traced(visited, edges)
  }

  ghost predicate DistancesWithin(g: Graph, s: Spec, visited: map<string, nat>, k: nat) {
    forall n :: n in visited ==> visited[n] <= k && Distance(g, s, n, visited[n])
  }

  lemma ExactWithin(g: Graph, s: Spec, visited: map<string, nat>, k: nat)
    requires Exact(g, s, visited) && visited.Keys <= Within(g, s, k)
    ensures DistancesWithin(g, s, visited, k)
  {
    forall n | n in visited ensures visited[n] <= k && Distance(g, s, n, visited[n]) {
      assert Recorded(g, s, visited, n);
    }
  }

  lemma DistancesWiden(g: Graph, s: Spec, visited: map<string, nat>, i: nat, j: nat)
    requires i <= j && DistancesWithin(g, s, visited, i)
    ensures DistancesWithin(g, s, visited, j)
  {
  }

  method Search(g: Graph, s: Spec, order: Order) returns (r: SearchResult)
    requires Enumerates(order)
    ensures Found(g, s, order, r)
  {
    var visited := map n | n in s.start :: 0;
    StartSearched(g, s, order, visited);
    r := SearchFrom(g, s, order, visited, s.start, 0);
  }

  /** The levels after `start`, one by one. */
  method SearchFrom(g: Graph, s: Spec, order: Order, start: map<string, nat>, first: set<string>, from: nat)
    returns (r: SearchResult)
    requires Enumerates(order) && from <= s.maxDepth && Searched(g, s, order, start, first, [], from)
    ensures Found(g, s, order, r)
  {
    var visited, frontier, edges, truncated, depth := start, first, [], false, from;
    while depth < s.maxDepth && frontier != {}
      invariant depth <= s.maxDepth
      invariant Searched(g, s, order, visited, frontier, edges, depth)
    {
      visited, edges, frontier, truncated := NextLevel(g, s, order, visited, frontier, edges, depth);
      if truncated {
        return SearchResult(visited, edges, true);
      }
      depth := depth + 1;
    }
    SearchEnds(g, s, order, visited, frontier, edges, depth);
    return SearchResult(visited, edges, false);
  }

  method NextLevel(g: Graph, s: Spec, order: Order, before: map<string, nat>, frontier: set<string>, reported: seq<Edge>, k: nat)
    returns (visited: map<string, nat>, edges: seq<Edge>, next: set<string>, truncated: bool)
    requires Enumerates(order) && k < s.maxDepth && Searched(g, s, order, before, frontier, reported, k)
    ensures truncated ==> Found(g, s, order, SearchResult(visited, edges, true))
    ensures !truncated ==> Searched(g, s, order, visited, next, edges, k + 1)
  {
    assert FinishedLevel(g, s, order, before, frontier, reported, k) by { assert Level(k); }
    visited, edges, next, truncated := ExpandLevel(g, s, order, frontier, k + 1, before, reported);
    if truncated {
      LevelCut(g, s, order, before, frontier, reported, visited, next, edges, k);
    } else {
      LevelDone(g, s, order, before, frontier, reported, visited, next, edges, k);
    }
  }

  /** What a search promises. */
  ghost predicate Found(g: Graph, s: Spec, order: Order, r: SearchResult) {
    && DistancesWithin(g, s, r.nodes, s.maxDepth)
    && (!r.truncated ==> r.nodes.Keys == Within(g, s, s.maxDepth) && r.edges == LevelEdges(g, s, order, s.maxDepth))
    && r.edges <= LevelEdges(g, s, order, s.maxDepth)
    && |r.nodes| <= Max(s.maxNodes, |s.start|) && (r.truncated ==> |r.nodes| >= s.maxNodes)
    && (r.truncated ==> exists k: nat :: CutAfter(g, s, order, r, k)) && Traced(r.nodes, r.edges)
  }

  /** The search stopped inside level `k + 1`: it has everything up to level `k`, and nothing
      beyond level `k + 1`. */
  ghost predicate CutAfter(g: Graph, s: Spec, order: Order, r: SearchResult, k: nat) {
    && k < s.maxDepth && Within(g, s, k) <= r.nodes.Keys && DistancesWithin(g, s, r.nodes, k + 1)
    && LevelEdges(g, s, order, k) <= r.edges
  }

  /** Every node found is a start node or the end of a reported edge of its own depth. */
  ghost predicate Traced(visited: map<string, nat>, edges: seq<Edge>) {
    forall n {:trigger TracedAt(visited, edges, n)} :: n in visited ==> TracedAt(visited, edges, n)
  }

  ghost predicate TracedAt(visited: map<string, nat>, edges: seq<Edge>, n: string)
    requires n in visited
  {
    visited[n] == 0 || exists i :: 0 <= i < |edges| && edges[i].to == n && edges[i].depth == visited[n]
  }

  lemma TracedEdge(visited: map<string, nat>, edges: seq<Edge>, x: Edge)
    requires Traced(visited, edges)
    ensures Traced(visited, edges + [x]) && Traced(visited[x.to := x.depth], edges + [x])
  {
    var more, grown := edges + [x], visited[x.to := x.depth];
    assert more[|edges|] == x;
    forall n | n in visited ensures TracedAt(visited, more, n) {
      assert TracedAt(visited, edges, n);
      if i :| 0 <= i < |edges| && edges[i].to == n && edges[i].depth == visited[n] { assert more[i] == edges[i]; }
    }
    forall n | n in grown ensures TracedAt(grown, more, n) {
      assert n != x.to ==> TracedAt(visited, more, n);
    }
  }

  lemma GrownExact(g: Graph, s: Spec, was: map<string, nat>, visited: map<string, nat>, next: set<string>, k: nat)
    requires was.Keys == Within(g, s, k) && Exact(g, s, was)
    requires Growing(was, Image(g, s, Layer(g, s, k)), visited, next, k + 1)
    ensures Exact(g, s, visited) && visited.Keys <= Within(g, s, k + 1)
  {
    NewFromLayer(g, s, k);
    forall n | n in visited ensures n in Within(g, s, k + 1) && Recorded(g, s, visited, n) {
      assert GrownAt(was, Image(g, s, Layer(g, s, k)), visited, next, k + 1, n);
      LayerDistance(g, s, n, k + 1);
      assert n in was ==> Recorded(g, s, was, n);
    }
  }

  lemma {:induction false} LevelCut(g: Graph, s: Spec, order: Order, was: map<string, nat>, frontier: set<string>, wasEdges: seq<Edge>,
                                    visited: map<string, nat>, next: set<string>, edges: seq<Edge>, k: nat)
    requires Searched(g, s, order, was, frontier, wasEdges, k) && k + 1 <= s.maxDepth
    requires Growing(was, Image(g, s, frontier), visited, next, k + 1)
    requires edges <= wasEdges + NodesEdges(g, s, order(frontier), k + 1)
    requires s.maxNodes <= |visited| <= Max(|was|, s.maxNodes) && Traced(visited, edges) && wasEdges <= edges
    ensures Found(g, s, order, SearchResult(visited, edges, true))
  {
    assert FinishedLevel(g, s, order, was, frontier, wasEdges, k) by { assert Level(k); }
    CutDistances(g, s, was, visited, next, k);
    CutEdges(g, s, order, edges, k);
    assert CutAfter(g, s, order, SearchResult(visited, edges, true), k);
  }

  lemma {:induction false} CutDistances(g: Graph, s: Spec, was: map<string, nat>, visited: map<string, nat>, next: set<string>, k: nat)
    requires was.Keys == Within(g, s, k) && Exact(g, s, was) && k + 1 <= s.maxDepth
    requires Growing(was, Image(g, s, Layer(g, s, k)), visited, next, k + 1)
    ensures DistancesWithin(g, s, visited, s.maxDepth) && DistancesWithin(g, s, visited, k + 1) && was.Keys <= visited.Keys
  {
    GrownExact(g, s, was, visited, next, k);
    ExactWithin(g, s, visited, k + 1);
    forall n | n in was ensures n in visited { assert GrownAt(was, Image(g, s, Layer(g, s, k)), visited, next, k + 1, n); }
    DistancesWiden(g, s, visited, k + 1, s.maxDepth);
  }

  lemma {:induction false} CutEdges(g: Graph, s: Spec, order: Order, edges: seq<Edge>, k: nat)
    requires k + 1 <= s.maxDepth
    requires edges <= LevelEdges(g, s, order, k) + NodesEdges(g, s, order(Layer(g, s, k)), k + 1)
    ensures edges <= LevelEdges(g, s, order, s.maxDepth)
  {
    LevelEdgesNext(g, s, order, k);
    LevelsPrefix(g, s, order, k + 1, s.maxDepth);
    PrefixTrans(edges, LevelEdges(g, s, order, k + 1), LevelEdges(g, s, order, s.maxDepth));
  }

  lemma {:induction false} LevelDone(g: Graph, s: Spec, order: Order, was: map<string, nat>, frontier: set<string>, wasEdges: seq<Edge>,
                                     visited: map<string, nat>, next: set<string>, edges: seq<Edge>, k: nat)
    requires Searched(g, s, order, was, frontier, wasEdges, k) && |visited| <= Max(|was|, s.maxNodes) && Traced(visited, edges)
    requires Growing(was, Image(g, s, frontier), visited, next, k + 1) && Image(g, s, frontier) <= visited.Keys
    requires edges == wasEdges + NodesEdges(g, s, order(frontier), k + 1)
    ensures Searched(g, s, order, visited, next, edges, k + 1)
  {
    assert FinishedLevel(g, s, order, was, frontier, wasEdges, k) by { assert Level(k); }
    FinishedNext(g, s, order, was, frontier, wasEdges, visited, next, edges, k);
  }

  lemma {:induction false} FinishedNext(g: Graph, s: Spec, order: Order, was: map<string, nat>, frontier: set<string>, wasEdges: seq<Edge>,
                                        visited: map<string, nat>, next: set<string>, edges: seq<Edge>, k: nat)
    requires FinishedLevel(g, s, order, was, frontier, wasEdges, k) && |visited| <= Max(|was|, s.maxNodes) && Traced(visited, edges)
    requires Growing(was, Image(g, s, frontier), visited, next, k + 1) && Image(g, s, frontier) <= visited.Keys
    requires edges == wasEdges + NodesEdges(g, s, order(frontier), k + 1)
    ensures FinishedLevel(g, s, order, visited, next, edges, k + 1)
  {
    DoneSteps(g, s, order, was, frontier, wasEdges, visited, next, edges, k);
  }

  lemma DoneSteps(g: Graph, s: Spec, order: Order, was: map<string, nat>, frontier: set<string>, wasEdges: seq<Edge>,
                  visited: map<string, nat>, next: set<string>, edges: seq<Edge>, k: nat)
    requires was.Keys == Within(g, s, k) && frontier == Layer(g, s, k) && Exact(g, s, was)
    requires wasEdges == LevelEdges(g, s, order, k) && edges == wasEdges + NodesEdges(g, s, order(frontier), k + 1)
    requires Growing(was, Image(g, s, frontier), visited, next, k + 1) && Image(g, s, frontier) <= visited.Keys
    ensures visited.Keys == Within(g, s, k + 1) && next == Layer(g, s, k + 1) && Exact(g, s, visited)
    ensures edges == LevelEdges(g, s, order, k + 1)
  {
    GrownExact(g, s, was, visited, next, k);
    LevelEdgesNext(g, s, order, k);
    LevelKeys(g, s, was, visited, next, k);
  }

  lemma LevelKeys(g: Graph, s: Spec, was: map<string, nat>, visited: map<string, nat>, next: set<string>, k: nat)
    requires was.Keys == Within(g, s, k) && Image(g, s, Layer(g, s, k)) <= visited.Keys
    requires Growing(was, Image(g, s, Layer(g, s, k)), visited, next, k + 1)
    ensures visited.Keys == Within(g, s, k + 1) && next == Layer(g, s, k + 1)
  {
    NewFromLayer(g, s, k);
    ReachDone(Within(g, s, k), Image(g, s, Layer(g, s, k)), was, visited, next, k + 1);
  }

  lemma ReachDone(near: set<string>, image: set<string>, was: map<string, nat>, visited: map<string, nat>,
                  next: set<string>, depth: nat)
    requires was.Keys == near && Growing(was, image, visited, next, depth) && image <= visited.Keys
    ensures visited.Keys == near + image && next == near + image - near
  {
    forall n ensures (n in visited <==> n in near + image) && (n in next <==> n in near + image - near) {
      assert GrownAt(was, image, visited, next, depth, n);
    }
  }

  lemma AllReached(g: Graph, s: Spec, nodes: seq<string>, layer: set<string>, visited: map<string, nat>)
    requires Expanded(g, s, nodes, |nodes|, visited) && forall n :: n in layer ==> n in nodes
    ensures Image(g, s, layer) <= visited.Keys
  {
    forall a, b | a in layer && b in Successors(g, s, a) ensures b in visited {
      var j :| 0 <= j < |nodes| && nodes[j] == a;
      var arcs := Arcs(g, s.direction, a);
      assert Kept(arcs, s.filter, |arcs|, visited);
      var i :| 0 <= i < |arcs| && s.filter.Allows(arcs[i].relation) && arcs[i].node == b;
      assert KeptAt(arcs, s.filter, i, visited);
    }
  }

  lemma StartSearched(g: Graph, s: Spec, order: Order, visited: map<string, nat>)
    requires visited == map n | n in s.start :: 0
    ensures Searched(g, s, order, visited, s.start, [], 0)
  {
    assert visited.Keys == s.start && |visited| == |visited.Keys|;
    forall n | n in visited ensures TracedAt(visited, [], n) {}
  }

  lemma SearchEnds(g: Graph, s: Spec, order: Order, visited: map<string, nat>, frontier: set<string>, edges: seq<Edge>, depth: nat)
    requires Enumerates(order)
    requires Searched(g, s, order, visited, frontier, edges, depth) && depth <= s.maxDepth
    requires depth == s.maxDepth || frontier == {}
    ensures Found(g, s, order, SearchResult(visited, edges, false))
  {
    assert Level(depth);
    if frontier == {} {
      EmptyLayerStays(g, s, depth, s.maxDepth);
      EmptyLevels(g, s, order, depth, s.maxDepth);
    }
    ExactWithin(g, s, visited, s.maxDepth);
  }

  // ---- Both directions describe the same edges ----

  /** The two edge lists hold the same edges, seen from either end, between known nodes. */
  ghost predicate Mirrored(g: Graph) {
    forall a, b, r, t {:trigger MirroredAt(g, a, b, r, t)} :: MirroredAt(g, a, b, r, t)
  }

  ghost predicate MirroredAt(g: Graph, a: string, b: string, r: string, t: string) {
    && (Arc(b, r, t) in ListAt(g.outgoing, a) <==> Arc(a, r, t) in ListAt(g.incoming, b))
    && (Arc(b, r, t) in ListAt(g.outgoing, a) ==> a in g.nodes && b in g.nodes)
  }

  /** Every graph built by adding edges is mirrored. */
  lemma BuiltMirrored(g: Graph, from: string, to: string, relation: string, statement: string)
    ensures Mirrored(Graph({}, map[], map[]))
    ensures Mirrored(g) ==> Mirrored(WithEdge(g, from, to, relation, statement))
  {
    var empty := Graph({}, map[], map[]);
    forall a, b, r, t ensures MirroredAt(empty, a, b, r, t) {}
    if Mirrored(g) {
      var more := WithEdge(g, from, to, relation, statement);
      forall a, b, r, t ensures MirroredAt(more, a, b, r, t) {
        assert MirroredAt(g, a, b, r, t);
      }
    }
  }

  function Flip(d: Direction): Direction {
    match d
    case Out => In
    case In => Out
    case Both => Both
  }

  lemma ArcsFlip(g: Graph, d: Direction, a: string, b: string, r: string, t: string)
    requires Mirrored(g)
    ensures Arc(b, r, t) in Arcs(g, d, a) <==> Arc(a, r, t) in Arcs(g, Flip(d), b)
  {
    assert MirroredAt(g, a, b, r, t) && MirroredAt(g, b, a, r, t);
  }

  lemma JoinsArc(g: Graph, s: Spec, a: string, b: string)
    ensures Joins(g, s, a, b) <==> exists r, t :: s.filter.Allows(r) && Arc(b, r, t) in Arcs(g, s.direction, a)
  {
    var arcs := Arcs(g, s.direction, a);
    if Joins(g, s, a, b) {
      var i :| 0 <= i < |arcs| && Leads(arcs[i], s.filter, b);
      assert arcs[i] == Arc(b, arcs[i].relation, arcs[i].statement);
    }
    forall r, t | s.filter.Allows(r) && Arc(b, r, t) in arcs ensures Joins(g, s, a, b) {
      var i :| 0 <= i < |arcs| && arcs[i] == Arc(b, r, t);
      assert Leads(arcs[i], s.filter, b);
    }
  }

  function Against(s: Spec, from: string): Spec { s.(start := {from}, direction := Flip(s.direction)) }

  lemma JoinsFlip(g: Graph, s: Spec, s': Spec, a: string, b: string)
    requires Mirrored(g) && s'.direction == Flip(s.direction) && s'.filter == s.filter
    ensures Joins(g, s, a, b) ==> Joins(g, s', b, a)
  {
    JoinsArc(g, s, a, b);
    JoinsArc(g, s', b, a);
    if Joins(g, s, a, b) {
      var r, t :| s.filter.Allows(r) && Arc(b, r, t) in Arcs(g, s.direction, a);
      ArcsFlip(g, s.direction, a, b, r, t);
    }
  }

  lemma PathFlip(g: Graph, s: Spec, p: seq<string>)
    requires Mirrored(g) && Path(g, s, p)
    ensures Path(g, Against(s, p[|p| - 1]), seq(|p|, i requires 0 <= i < |p| => p[|p| - 1 - i]))
  {
    var s' := Against(s, p[|p| - 1]);
    var q := seq(|p|, i requires 0 <= i < |p| => p[|p| - 1 - i]);
    forall i | 0 <= i < |q| - 1 ensures Joins(g, s', q[i], q[i + 1]) {
      var j := |p| - 2 - i;
      assert Joins(g, s, p[j], p[j + 1]);
      JoinsFlip(g, s, s', p[j], p[j + 1]);
    }
  }

  /** Whatever a search reaches, the opposite search from there leads back as quickly. */
  lemma SearchesBack(g: Graph, s: Spec, n: string, k: nat)
    requires Mirrored(g) && n in Within(g, s, k)
    ensures exists a :: a in s.start && a in Within(g, Against(s, n), k)
  {
    var p := WithinPath(g, s, n, k);
    PathFlip(g, s, p);
    var q := seq(|p|, i requires 0 <= i < |p| => p[|p| - 1 - i]);
    WithinIsPaths(g, Against(s, n), p[0], k);
    assert q[|q| - 1] == p[0];
  }
}
