/** What a graph built from a list of edges joins, and what a search of it reports, in terms of
    that list. */
module GraphEdges {
  import opened Orders
  import opened Adjacency

  datatype Link = Link(from: string, to: string, relation: string, statement: string)

  /** The graph after these edges have been added one by one. */
  function Built(links: seq<Link>): Graph {
    if links == [] then Graph({}, map[], map[]) else
      var l := links[|links| - 1];
      WithEdge(Built(links[..|links| - 1]), l.from, l.to, l.relation, l.statement)
  }

  // ---- Arcs ----

  function Leaving(a: string): Link -> bool { (l: Link) => l.from == a }

  function Entering(a: string): Link -> bool { (l: Link) => l.to == a }

  function Outward(l: Link): Arc { Arc(l.to, l.relation, l.statement) }

  function Inward(l: Link): Arc { Arc(l.from, l.relation, l.statement) }

  /** The arcs of `a` along a direction: its outgoing edges, then its incoming ones, as they were
      added. */
  function ArcsAlong(links: seq<Link>, d: Direction, a: string): seq<Arc> {
    (if d != In then Map(Keep(links, Leaving(a)), Outward) else [])
    + (if d != Out then Map(Keep(links, Entering(a)), Inward) else [])
  }

  lemma {:induction false} BuiltLists(links: seq<Link>, a: string)
    ensures ListAt(Built(links).outgoing, a) == Map(Keep(links, Leaving(a)), Outward)
    ensures ListAt(Built(links).incoming, a) == Map(Keep(links, Entering(a)), Inward)
  {
    if links != [] {
      var front, l := links[..|links| - 1], links[|links| - 1];
      BuiltLists(front, a);
      MapConcat(Keep(front, Leaving(a)), [l], Outward);
      MapConcat(Keep(front, Entering(a)), [l], Inward);
      assert Keep(front, Leaving(a)) + [] == Keep(front, Leaving(a));
      assert Keep(front, Entering(a)) + [] == Keep(front, Entering(a));
      ListsWithEdge(Built(front), l, a);
    }
  }

  lemma ListsWithEdge(g: Graph, l: Link, a: string)
    ensures var more := WithEdge(g, l.from, l.to, l.relation, l.statement);
      && ListAt(more.outgoing, a) == ListAt(g.outgoing, a) + (if l.from == a then [Outward(l)] else [])
      && ListAt(more.incoming, a) == ListAt(g.incoming, a) + (if l.to == a then [Inward(l)] else [])
  {
  }

  lemma {:induction false} BuiltNodes(links: seq<Link>, n: string)
    ensures n in Built(links).nodes <==> exists i :: 0 <= i < |links| && Touches(links[i], n)
  {
    if links != [] {
      var front, l := links[..|links| - 1], links[|links| - 1];
      BuiltNodes(front, n);
      assert forall i :: 0 <= i < |front| ==> front[i] == links[i];
      assert Touches(l, n) ==> Touches(links[|links| - 1], n);
    }
  }

  predicate Touches(l: Link, n: string) { l.from == n || l.to == n }

  predicate Permitted(f: Filter, relation: string) {
    f == AllowAll || (f.Allow? && relation in f.listed) || (f.Deny? && relation !in f.listed)
  }

  /** The edge may be followed from `a` to `b`. */
  predicate Follows(s: Spec, l: Link, a: string, b: string) {
    && Permitted(s.filter, l.relation)
    && ((s.direction != In && l.from == a && l.to == b) || (s.direction != Out && l.to == a && l.from == b))
  }

  lemma ArcsBuilt(links: seq<Link>, d: Direction, a: string)
    ensures Arcs(Built(links), d, a) == ArcsAlong(links, d, a)
  {
    BuiltLists(links, a);
  }

  lemma {:induction false} KeepElements<T>(s: seq<T>, p: T -> bool)
    ensures forall x :: x in Keep(s, p) <==> x in s && p(x)
  {
    if s != [] {
      KeepElements(s[..|s| - 1], p);
      assert s == s[..|s| - 1] + [s[|s| - 1]];
    }
  }

  lemma MapElements<T, U>(s: seq<T>, f: T -> U, y: U)
    ensures y in Map(s, f) <==> exists x :: x in s && f(x) == y
  {
    if y in Map(s, f) {
      var i :| 0 <= i < |s| && Map(s, f)[i] == y;
      assert s[i] in s;
    }
    if x :| x in s && f(x) == y {
      var i :| 0 <= i < |s| && s[i] == x;
      assert Map(s, f)[i] == y;
    }
  }

  /** Seen from `a` along the direction, the edge is this arc. */
  predicate SeenAs(l: Link, d: Direction, a: string, x: Arc) {
    (d != In && l.from == a && Outward(l) == x) || (d != Out && l.to == a && Inward(l) == x)
  }

  lemma AlongElements(links: seq<Link>, d: Direction, a: string, x: Arc)
    ensures x in ArcsAlong(links, d, a) <==> exists l :: l in links && SeenAs(l, d, a, x)
  {
    KeepElements(links, Leaving(a));
    KeepElements(links, Entering(a));
    MapElements(Keep(links, Leaving(a)), Outward, x);
    MapElements(Keep(links, Entering(a)), Inward, x);
  }

  /** One node leads to another exactly when some edge of the list may be followed between them. */
  lemma JoinsExactly(links: seq<Link>, s: Spec, a: string, b: string)
    ensures Joins(Built(links), s, a, b) <==> exists l :: l in links && Follows(s, l, a, b)
  {
    var arcs := ArcsAlong(links, s.direction, a);
    ArcsBuilt(links, s.direction, a);
    if Joins(Built(links), s, a, b) {
      var i :| 0 <= i < |arcs| && Leads(arcs[i], s.filter, b);
      AlongElements(links, s.direction, a, arcs[i]);
      var l :| l in links && SeenAs(l, s.direction, a, arcs[i]);
      assert Follows(s, l, a, b);
    }
    if l :| l in links && Follows(s, l, a, b) {
      var x := if s.direction != In && l.from == a && l.to == b then Outward(l) else Inward(l);
      AlongElements(links, s.direction, a, x);
      var i :| 0 <= i < |arcs| && arcs[i] == x;
      assert Leads(arcs[i], s.filter, b);
    }
  }

  // ---- Reported edges, node by node ----

  function PassedBy(f: Filter): Arc -> bool { (a: Arc) => Permitted(f, a.relation) }

  function AsEdge(from: string, depth: nat): Arc -> Edge { (a: Arc) => Edge(from, a.node, a.relation, a.statement, depth) }

  function From(e: string): Edge -> bool { (x: Edge) => x.from == e }

  lemma {:induction false} NodeEdgesMapped(f: Filter, e: string, arcs: seq<Arc>, depth: nat)
    ensures NodeEdges(f, e, arcs, depth) == Map(Keep(arcs, PassedBy(f)), AsEdge(e, depth))
  {
    if arcs != [] {
      var front, a := arcs[..|arcs| - 1], arcs[|arcs| - 1];
      NodeEdgesMapped(f, e, front, depth);
      MapConcat(Keep(front, PassedBy(f)), [a], AsEdge(e, depth));
      assert Keep(front, PassedBy(f)) + [] == Keep(front, PassedBy(f));
    }
  }

  lemma {:induction false} KeepConcat<T>(a: seq<T>, b: seq<T>, p: T -> bool)
    ensures Keep(a + b, p) == Keep(a, p) + Keep(b, p)
    decreases |b|
  {
    if b == [] {
      assert a + b == a;
    } else {
      assert (a + b)[..|a + b| - 1] == a + b[..|b| - 1];
      KeepConcat(a, b[..|b| - 1], p);
    }
  }

  lemma {:induction false} KeepWhole<T>(s: seq<T>, p: T -> bool)
    requires forall i :: 0 <= i < |s| ==> p(s[i])
    ensures Keep(s, p) == s
  {
    if s != [] {
      KeepWhole(s[..|s| - 1], p);
      assert s == s[..|s| - 1] + [s[|s| - 1]];
    }
  }

  lemma {:induction false} KeepNone<T>(s: seq<T>, p: T -> bool)
    requires forall i :: 0 <= i < |s| ==> !p(s[i])
    ensures Keep(s, p) == []
  {
    if s != [] { KeepNone(s[..|s| - 1], p); }
  }

  lemma NodeEdgesFrom(f: Filter, n: string, arcs: seq<Arc>, depth: nat, e: string)
    ensures Keep(NodeEdges(f, n, arcs, depth), From(e)) == if n == e then NodeEdges(f, n, arcs, depth) else []
  {
    var edges := NodeEdges(f, n, arcs, depth);
    NodeEdgesMapped(f, n, arcs, depth);
    forall x | x in edges ensures x.from == n { MapElements(Keep(arcs, PassedBy(f)), AsEdge(n, depth), x); }
    if n == e { KeepWhole(edges, From(e)); } else { KeepNone(edges, From(e)); }
  }

  lemma NodesEdgesLast(g: Graph, s: Spec, nodes: seq<string>, depth: nat) returns (before: seq<Edge>, own: seq<Edge>)
    requires nodes != []
    ensures before == NodesEdges(g, s, nodes[..|nodes| - 1], depth)
    ensures own == NodeEdges(s.filter, nodes[|nodes| - 1], Arcs(g, s.direction, nodes[|nodes| - 1]), depth)
    ensures NodesEdges(g, s, nodes, depth) == before + own
  {
    before := NodesEdges(g, s, nodes[..|nodes| - 1], depth);
    own := NodeEdges(s.filter, nodes[|nodes| - 1], Arcs(g, s.direction, nodes[|nodes| - 1]), depth);
  }

  lemma {:induction false} NodesEdgesFrom(g: Graph, s: Spec, nodes: seq<string>, depth: nat, e: string)
    requires Distinct(nodes)
    ensures Keep(NodesEdges(g, s, nodes, depth), From(e))
      == if e in nodes then NodeEdges(s.filter, e, Arcs(g, s.direction, e), depth) else []
  {
    if nodes != [] {
      var front, n := nodes[..|nodes| - 1], nodes[|nodes| - 1];
      assert nodes == front + [n] && n !in front;
      var before, own := NodesEdgesLast(g, s, nodes, depth);
      NodesEdgesFrom(g, s, front, depth, e);
      NodeEdgesFrom(s.filter, n, Arcs(g, s.direction, n), depth, e);
      KeepConcat(before, own, From(e));
    }
  }

  lemma {:induction false} RowsFrom(row: nat -> seq<Edge>, k: nat, d: nat, p: Edge -> bool)
    requires d < k && forall i: nat :: i < k && i != d ==> Keep(row(i), p) == []
    ensures Keep(Rows(row, k), p) == Keep(row(d), p)
    decreases k
  {
    KeepConcat(Rows(row, k - 1), row(k - 1), p);
    if d < k - 1 {
      RowsFrom(row, k - 1, d, p);
    } else {
      RowsWithout(row, k - 1, p);
    }
  }

  lemma {:induction false} RowsWithout(row: nat -> seq<Edge>, k: nat, p: Edge -> bool)
    requires forall i: nat :: i < k ==> Keep(row(i), p) == []
    ensures Keep(Rows(row, k), p) == []
    decreases k
  {
    if k > 0 {
      RowsWithout(row, k - 1, p);
      KeepConcat(Rows(row, k - 1), row(k - 1), p);
    }
  }

  /** Each node's list of visits mentions it once. */
  ghost predicate VisitsOnce(order: Order) {
    forall x {:trigger order(x)} :: Distinct(order(x))
  }

  lemma RowFrom(g: Graph, s: Spec, order: Order, i: nat, e: string)
    requires Enumerates(order) && VisitsOnce(order)
    ensures Keep(Row(g, s, order, i), From(e))
      == if Distance(g, s, e, i) then NodeEdges(s.filter, e, Arcs(g, s.direction, e), i + 1) else []
  {
    LayerDistance(g, s, e, i);
    assert Distinct(order(Layer(g, s, i)));
    NodesEdgesFrom(g, s, order(Layer(g, s, i)), i + 1, e);
  }

  lemma OtherRows(g: Graph, s: Spec, order: Order, row: nat -> seq<Edge>, e: string, d: nat)
    requires Enumerates(order) && VisitsOnce(order) && row == RowsOf(g, s, order) && Distance(g, s, e, d)
    ensures forall i: nat :: i != d ==> Keep(row(i), From(e)) == []
  {
    forall i: nat | i != d ensures Keep(row(i), From(e)) == [] {
      RowFrom(g, s, order, i, e);
      assert !Distance(g, s, e, i);
    }
  }

  /** The edges reported from one node are its permitted arcs, each once and as stored, at the depth
      after the node's own distance. */
  lemma EdgesFromNode(g: Graph, s: Spec, order: Order, k: nat, e: string, d: nat)
    requires Enumerates(order) && VisitsOnce(order) && d < k && Distance(g, s, e, d)
    ensures Keep(LevelEdges(g, s, order, k), From(e)) == Map(Keep(Arcs(g, s.direction, e), PassedBy(s.filter)), AsEdge(e, d + 1))
  {
    var row := RowsOf(g, s, order);
    OtherRows(g, s, order, row, e, d);
    RowFrom(g, s, order, d, e);
    RowsFrom(row, k, d, From(e));
    NodeEdgesMapped(s.filter, e, Arcs(g, s.direction, e), d + 1);
  }

  // ---- The order of reported edges ----

  /** By depth, and within a depth by the name of the node they leave. */
  predicate ReportOrder(a: Edge, b: Edge) { a.depth < b.depth || (a.depth == b.depth && AtMost(a.from, b.from)) }

  lemma SortedJoin<T>(a: seq<T>, b: seq<T>, le: (T, T) -> bool)
    requires SortedBy(a, le) && SortedBy(b, le) && forall x, y :: x in a && y in b ==> le(x, y)
    ensures SortedBy(a + b, le)
  {
    forall i, j | 0 <= i < j < |a + b| ensures le((a + b)[i], (a + b)[j]) {
      if i < |a| <= j { assert a[i] in a && b[j - |a|] in b; }
    }
  }

  lemma NodeEdgesOrdered(f: Filter, n: string, arcs: seq<Arc>, depth: nat)
    ensures SortedBy(NodeEdges(f, n, arcs, depth), ReportOrder)
    ensures forall x :: x in NodeEdges(f, n, arcs, depth) ==> x.from == n && x.depth == depth
  {
    NodeEdgesMapped(f, n, arcs, depth);
    forall x | x in NodeEdges(f, n, arcs, depth) ensures x.from == n && x.depth == depth {
      MapElements(Keep(arcs, PassedBy(f)), AsEdge(n, depth), x);
    }
  }

  lemma {:induction false} NodesEdgesOrdered(g: Graph, s: Spec, nodes: seq<string>, depth: nat)
    requires StrictlySorted(nodes, Below)
    ensures SortedBy(NodesEdges(g, s, nodes, depth), ReportOrder)
    ensures forall x :: x in NodesEdges(g, s, nodes, depth) ==> x.from in nodes && x.depth == depth
  {
    if nodes != [] {
      var front, n := nodes[..|nodes| - 1], nodes[|nodes| - 1];
      assert nodes == front + [n];
      NodesEdgesOrdered(g, s, front, depth);
      NodeEdgesOrdered(s.filter, n, Arcs(g, s.direction, n), depth);
      forall m | m in front ensures Below(m, n) { var i :| 0 <= i < |front| && front[i] == m; assert Below(nodes[i], nodes[|front|]); }
      SortedJoin(NodesEdges(g, s, front, depth), NodeEdges(s.filter, n, Arcs(g, s.direction, n), depth), ReportOrder);
    }
  }

  /** Row `i` is in order and at its depth. */
  ghost predicate RowAt(row: nat -> seq<Edge>, i: nat, le: (Edge, Edge) -> bool) {
    SortedBy(row(i), le) && forall x :: x in row(i) ==> x.depth == i + 1
  }

  lemma {:induction false} RowsOrdered(row: nat -> seq<Edge>, k: nat, le: (Edge, Edge) -> bool)
    requires forall i: nat {:trigger RowAt(row, i, le)} :: RowAt(row, i, le)
    requires forall x: Edge, y: Edge :: x.depth < y.depth ==> le(x, y)
    ensures SortedBy(Rows(row, k), le) && forall x :: x in Rows(row, k) ==> x.depth <= k
    decreases k
  {
    if k > 0 {
      RowsOrdered(row, k - 1, le);
      assert RowAt(row, k - 1, le);
      SortedJoin(Rows(row, k - 1), row(k - 1), le);
    }
  }

  lemma SetOrdered(g: Graph, s: Spec, nodes: set<string>, depth: nat) returns (own: seq<Edge>)
    ensures own == NodesEdges(g, s, Ascending(nodes), depth)
    ensures SortedBy(own, ReportOrder) && forall x :: x in own ==> x.depth == depth
  {
    AscendingStrict(nodes);
    NodesEdgesOrdered(g, s, Ascending(nodes), depth);
    own := NodesEdges(g, s, Ascending(nodes), depth);
  }

  lemma RowOfLayer(g: Graph, s: Spec, i: nat) returns (layer: set<string>, depth: nat)
    ensures depth == i + 1 && RowsOf(g, s, Ascending)(i) == NodesEdges(g, s, Ascending(layer), depth)
  {
    layer, depth := Layer(g, s, i), i + 1;
  }

  lemma RowOrdered(g: Graph, s: Spec, i: nat)
    ensures RowAt(RowsOf(g, s, Ascending), i, ReportOrder)
  {
    var layer, depth := RowOfLayer(g, s, i);
    var own := SetOrdered(g, s, layer, depth);
  }

  lemma LevelsOrdered(g: Graph, s: Spec, k: nat)
    ensures SortedBy(LevelEdges(g, s, Ascending, k), ReportOrder)
  {
    var row := RowsOf(g, s, Ascending);
    forall i: nat ensures RowAt(row, i, ReportOrder) { RowOrdered(g, s, i); }
    RowsOrdered(row, k, ReportOrder);
  }

  /** Whatever a search reports comes level by level, and within a level node by node in the order
      of their names. */
  lemma ReportedInOrder(g: Graph, s: Spec, r: SearchResult)
    requires Found(g, s, Ascending, r)
    ensures SortedBy(r.edges, ReportOrder)
  {
    LevelsOrdered(g, s, s.maxDepth);
    var all := LevelEdges(g, s, Ascending, s.maxDepth);
    forall i, j | 0 <= i < j < |r.edges| ensures ReportOrder(r.edges[i], r.edges[j]) {
      assert r.edges[i] == all[i] && r.edges[j] == all[j];
    }
  }

  /** A search is cut short only when as many nodes lie within its depth as the limit allows, and
      always when there are more than that. */
  lemma TruncatedWhen(g: Graph, s: Spec, r: SearchResult)
    requires Found(g, s, Ascending, r)
    ensures r.truncated ==> |Within(g, s, s.maxDepth)| >= s.maxNodes
    ensures |Within(g, s, s.maxDepth)| > Max(s.maxNodes, |s.start|) ==> r.truncated
  {
    forall n | n in r.nodes ensures n in Within(g, s, s.maxDepth) { WithinGrows(g, s, r.nodes[n], s.maxDepth); }
    SizeGrows(r.nodes.Keys, Within(g, s, s.maxDepth));
  }
}
