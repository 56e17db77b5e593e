/** Label propagation over the adjacency graph. */
module Community {
  import opened Orders
  import opened Adjacency

  // ---- The favourite of a list of labels ----

  /** The most frequent label, the smallest of them on a tie. */
  ghost predicate IsFavourite(m: multiset<nat>, r: nat) {
    r in m && forall x :: x in m ==> m[x] < m[r] || (m[x] == m[r] && r <= x)
  }

  lemma FavouriteUnique(m: multiset<nat>, a: nat, b: nat)
    requires IsFavourite(m, a) && IsFavourite(m, b)
    ensures a == b
  {
  }

  ghost predicate Prefers(m: multiset<nat>, x: nat, y: nat) {
    m[x] > m[y] || (m[x] == m[y] && x <= y)
  }

  lemma FavouriteExists(m: multiset<nat>)
    requires |m| > 0
    ensures exists r :: IsFavourite(m, r)
  {
    var le := (x: nat, y: nat) => Prefers(m, x, y);
    var some :| some in m;
    var candidates := set x | x in m;
    assert some in candidates;
    assert TotalPreorder(le) by {
      forall x, y ensures le(x, y) || le(y, x) {}
      forall x, y, z ensures le(x, y) && le(y, z) ==> le(x, z) {}
    }
    var r := LeastExists(candidates, le);
    forall x | x in m ensures m[x] < m[r] || (m[x] == m[r] && r <= x) {
      assert x in candidates && le(r, x);
    }
    assert IsFavourite(m, r);
  }

  ghost function Favourite(m: multiset<nat>): (r: nat)
    requires |m| > 0
    ensures IsFavourite(m, r)
  {
    FavouriteExists(m);
    var r :| IsFavourite(m, r);
    r
  }

  /** Runs counted so far: every label before the current one is settled against `best`. */
  ghost predicate Counted(m: multiset<nat>, best: nat, bestCount: nat, current: nat, count: nat) {
    && m[current] == count >= 1 && bestCount >= 1
    && (forall x :: x in m ==> x <= current)
    && (forall x :: x in m && x < current ==> m[x] < bestCount || (m[x] == bestCount && best <= x))
    && ((best < current && m[best] == bestCount) || (best == current && bestCount == 1))
  }

  lemma CountedNext(m: multiset<nat>, best: nat, bestCount: nat, current: nat, count: nat, l: nat)
    requires Counted(m, best, bestCount, current, count) && current <= l
    ensures l == current ==> Counted(m + multiset{l}, best, bestCount, current, count + 1)
    ensures l > current && count > bestCount ==> Counted(m + multiset{l}, current, count, l, 1)
    ensures l > current && count <= bestCount ==> Counted(m + multiset{l}, best, bestCount, l, 1)
  {
    if l > current { assert l !in m; }
  }

  /** The same after one more label of a sorted list. */
  lemma CountedPush(sorted: seq<nat>, i: nat, best: nat, bestCount: nat, current: nat, count: nat)
    requires 0 < i < |sorted| && current == sorted[i - 1] <= sorted[i]
    requires Counted(multiset(sorted[..i]), best, bestCount, current, count)
    ensures var m, l := multiset(sorted[..i + 1]), sorted[i];
      && (l == current ==> Counted(m, best, bestCount, current, count + 1))
      && (l > current && count > bestCount ==> Counted(m, current, count, l, 1))
      && (l > current && count <= bestCount ==> Counted(m, best, bestCount, l, 1))
  {
    assert sorted[..i + 1] == sorted[..i] + [sorted[i]];
    CountedNext(multiset(sorted[..i]), best, bestCount, current, count, sorted[i]);
  }

  lemma CountedEnds(m: multiset<nat>, best: nat, bestCount: nat, current: nat, count: nat)
    requires Counted(m, best, bestCount, current, count)
    ensures IsFavourite(m, if count > bestCount then current else best)
  {
  }

  method MostFrequent(sorted: seq<nat>) returns (best: nat)
    requires sorted != [] && forall i, j :: 0 <= i < j < |sorted| ==> sorted[i] <= sorted[j]
    ensures IsFavourite(multiset(sorted), best)
  {
    best := sorted[0];
    var bestCount: nat := 1;
    var current, count := sorted[0], 1;
    assert sorted[..1] == [sorted[0]];
    for i := 1 to |sorted|
      invariant Counted(multiset(sorted[..i]), best, bestCount, current, count)
      invariant current == sorted[i - 1]
    {
      var l := sorted[i];
      CountedPush(sorted, i, best, bestCount, current, count);
      if l == current {
        count := count + 1;
      } else {
        if count > bestCount {
          bestCount := count;
          best := current;
        }
        current := l;
        count := 1;
      }
    }
    assert sorted[..|sorted|] == sorted;
    CountedEnds(multiset(sorted), best, bestCount, current, count);
    if count > bestCount {
      best := current;
    }
  }

  // ---- Sweeps ----

  /** The labels of the nodes the arcs lead to, where known. */
  function LabelsOf(arcs: seq<Arc>, labels: map<string, nat>): seq<nat> {
    if arcs == [] then [] else
      LabelsOf(arcs[..|arcs| - 1], labels) +
      (if arcs[|arcs| - 1].node in labels then [labels[arcs[|arcs| - 1].node]] else [])
  }

  function NeighbourLabels(g: Graph, labels: map<string, nat>, node: string): seq<nat> {
    LabelsOf(ListAt(g.outgoing, node), labels) + LabelsOf(ListAt(g.incoming, node), labels)
  }

  /** A node takes its neighbours' favourite label; an isolated node keeps its own. */
  ghost function Adopt(g: Graph, labels: map<string, nat>, node: string): map<string, nat> {
    var nl := NeighbourLabels(g, labels, node);
    if nl == [] then labels else labels[node := Favourite(multiset(nl))]
  }

  /** One sweep: the nodes in order, each seeing the labels already rewritten. */
  ghost function Sweep(g: Graph, nodes: seq<string>, labels: map<string, nat>): map<string, nat> {
    if nodes == [] then labels else Adopt(g, Sweep(g, nodes[..|nodes| - 1], labels), nodes[|nodes| - 1])
  }

  /** The first position of each node. */
  function Numbered(nodes: seq<string>): map<string, nat> {
    map n | n in nodes :: IndexOf(nodes, n)
  }

  function IndexOf(nodes: seq<string>, n: string): (i: nat)
    requires n in nodes
    ensures i < |nodes| && nodes[i] == n
  {
    if nodes[0] == n then 0 else 1 + IndexOf(nodes[1..], n)
  }

  /** Labels after `k` sweeps of the initial numbering. */
  ghost function Swept(g: Graph, nodes: seq<string>, k: nat): map<string, nat> {
    if k == 0 then Numbered(nodes) else Sweep(g, nodes, Swept(g, nodes, k - 1))
  }

  method CollectLabels(arcs: seq<Arc>, labels: map<string, nat>) returns (nl: seq<nat>)
    ensures nl == LabelsOf(arcs, labels)
  {
    nl := [];
    for i := 0 to |arcs|
      invariant nl == LabelsOf(arcs[..i], labels)
    {
      assert arcs[..i + 1][..i] == arcs[..i];
      if arcs[i].node in labels {
        nl := nl + [labels[arcs[i].node]];
      }
    }
    assert arcs[..|arcs|] == arcs;
  }

  predicate NatOrder(a: nat, b: nat) { a <= b }

  method SortAndCount(nl: seq<nat>) returns (favourite: nat)
    requires nl != []
    ensures favourite == Favourite(multiset(nl))
  {
    var sorted := Sort(nl, NatOrder);
    SortSorts(nl, NatOrder);
    favourite := MostFrequent(sorted);
    FavouriteUnique(multiset(nl), favourite, Favourite(multiset(nl)));
  }

  method AdoptLabel(g: Graph, before: map<string, nat>, node: string) returns (labels: map<string, nat>, changed: bool)
    requires node in before
    ensures labels == Adopt(g, before, node) && (!changed ==> labels == before)
  {
    labels, changed := before, false;
    var fromOut := CollectLabels(ListAt(g.outgoing, node), labels);
    var fromIn := CollectLabels(ListAt(g.incoming, node), labels);
    var nl := fromOut + fromIn;
    if nl == [] {
      return;
    }
    var favourite := SortAndCount(nl);
    if labels[node] != favourite {
      labels := labels[node := favourite];
      changed := true;
    }
  }

  lemma {:induction false} SweepKeys(g: Graph, nodes: seq<string>, labels: map<string, nat>)
    requires forall n :: n in nodes ==> n in labels
    ensures Sweep(g, nodes, labels).Keys == labels.Keys
  {
    if nodes != [] {
      SweepKeys(g, nodes[..|nodes| - 1], labels);
      assert nodes[|nodes| - 1] in nodes;
    }
  }

  lemma SweepNext(g: Graph, nodes: seq<string>, i: nat, labels: map<string, nat>)
    requires i < |nodes|
    ensures Sweep(g, nodes[..i + 1], labels) == Adopt(g, Sweep(g, nodes[..i], labels), nodes[i])
  {
    assert nodes[..i + 1][..i] == nodes[..i];
  }

  method SweepOnce(g: Graph, nodes: seq<string>, before: map<string, nat>) returns (labels: map<string, nat>, changed: bool)
    requires forall n :: n in nodes ==> n in before
    ensures labels == Sweep(g, nodes, before) && (!changed ==> labels == before)
  {
    labels, changed := before, false;
    for i := 0 to |nodes|
      invariant labels == Sweep(g, nodes[..i], before) && labels.Keys == before.Keys
      invariant !changed ==> labels == before
    {
      assert nodes[i] in nodes;
      SweepNext(g, nodes, i, before);
      var moved: bool;
      labels, moved := AdoptLabel(g, labels, nodes[i]);
      changed := changed || moved;
    }
    assert nodes[..|nodes|] == nodes;
  }

  /** Stopping at the first sweep that changes nothing gives what all the sweeps would. */
  method LabelPropagation(g: Graph, maxIterations: nat) returns (labels: map<string, nat>)
    ensures labels == Swept(g, Ascending(g.nodes), maxIterations)
  {
    var nodes := Ascending(g.nodes);
    labels := Propagate(g, nodes, maxIterations);
  }

  method Propagate(g: Graph, nodes: seq<string>, maxIterations: nat) returns (labels: map<string, nat>)
    ensures labels == Swept(g, nodes, maxIterations)
  {
    labels := Numbered(nodes);
    for k := 0 to maxIterations
      invariant labels == Swept(g, nodes, k)
    {
      SweptKeys(g, nodes, k);
      var changed: bool;
      labels, changed := SweepOnce(g, nodes, labels);
      if !changed {
        SweptStays(g, nodes, k, maxIterations);
        break;
      }
    }
  }

  lemma {:induction false} SweptKeys(g: Graph, nodes: seq<string>, k: nat)
    ensures forall n :: n in Swept(g, nodes, k) <==> n in nodes
    decreases k
  {
    if k > 0 {
      SweptKeys(g, nodes, k - 1);
      SweepKeys(g, nodes, Swept(g, nodes, k - 1));
    }
  }

  /** A labelling one sweep leaves alone is left alone by every later sweep. */
  lemma {:induction false} SweptStays(g: Graph, nodes: seq<string>, k: nat, later: nat)
    requires Swept(g, nodes, k + 1) == Swept(g, nodes, k) && k <= later
    ensures Swept(g, nodes, later) == Swept(g, nodes, k)
    decreases later
  {
    if later > k { SweptStays(g, nodes, k, later - 1); }
  }

  // ---- A settled labelling ----

  ghost predicate Settled(g: Graph, labels: map<string, nat>, n: string)
    requires n in labels
  {
    var nl := NeighbourLabels(g, labels, n);
    nl == [] || IsFavourite(multiset(nl), labels[n])
  }

  lemma {:induction false} SweepUntouched(g: Graph, nodes: seq<string>, labels: map<string, nat>, n: string)
    requires n !in nodes
    ensures n in Sweep(g, nodes, labels) <==> n in labels
    ensures n in labels ==> Sweep(g, nodes, labels)[n] == labels[n]
  {
    if nodes != [] {
      var front := nodes[..|nodes| - 1];
      assert nodes == front + [nodes[|nodes| - 1]];
      SweepUntouched(g, front, labels, n);
    }
  }

  /** A sweep that ends where it began changed nothing on the way. */
  lemma {:induction false} SweepFixed(g: Graph, nodes: seq<string>, labels: map<string, nat>)
    requires Distinct(nodes) && forall n :: n in nodes ==> n in labels
    requires Sweep(g, nodes, labels) == labels
    ensures forall n :: n in nodes ==> n in labels && Settled(g, labels, n)
  {
    if nodes != [] {
      var front, last := nodes[..|nodes| - 1], nodes[|nodes| - 1];
      assert nodes == front + [last];
      var before := Sweep(g, front, labels);
      assert last !in front;
      SweepUntouched(g, front, labels, last);
      SweepKeys(g, front, labels);
      FixedFront(g, labels, before, last);
      SweepFixed(g, front, labels);
    }
  }

  lemma FixedFront(g: Graph, labels: map<string, nat>, before: map<string, nat>, last: string)
    requires Adopt(g, before, last) == labels && last in labels && last in before && before[last] == labels[last]
    ensures before == labels && Settled(g, labels, last)
  {
  }

  /** When two consecutive rounds agree, every non-isolated node carries the smallest of its
      neighbours' most frequent labels, and no later round changes anything. */
  lemma RoundsSettle(g: Graph, nodes: seq<string>, k: nat, later: nat)
    requires Distinct(nodes) && Swept(g, nodes, k + 1) == Swept(g, nodes, k) && k <= later
    ensures Swept(g, nodes, later) == Swept(g, nodes, k)
    ensures forall n :: n in nodes ==> n in Swept(g, nodes, later) && Settled(g, Swept(g, nodes, later), n)
  {
    SweptStays(g, nodes, k, later);
    SweptKeys(g, nodes, k);
    SweepFixed(g, nodes, Swept(g, nodes, k));
  }

  // ---- Labels stay inside components ----

  function Around(a: string): Spec { Spec({a}, Both, AllowAll, 0, 0) }

  /** Some undirected path joins the two nodes. */
  ghost predicate Connected(g: Graph, a: string, b: string) {
    exists k: nat :: b in Within(g, Around(a), k)
  }

  lemma ConnectedSelf(g: Graph, a: string)
    ensures Connected(g, a, a)
  {
    assert a in Within(g, Around(a), 0);
  }

  lemma ConnectedBack(g: Graph, a: string, b: string)
    requires Mirrored(g) && Connected(g, a, b)
    ensures Connected(g, b, a)
  {
    var k: nat :| b in Within(g, Around(a), k);
    SearchesBack(g, Around(a), b, k);
    assert Against(Around(a), b) == Around(b);
  }

  lemma {:induction false} WithinTrans(g: Graph, a: string, b: string, i: nat, j: nat)
    requires b in Within(g, Around(a), i)
    ensures Within(g, Around(b), j) <= Within(g, Around(a), i + j)
    decreases j
  {
    if j > 0 {
      WithinTrans(g, a, b, i, j - 1);
      ImageAround(g, a, b, Within(g, Around(b), j - 1), Within(g, Around(a), i + (j - 1)));
    }
  }

  lemma ImageAround(g: Graph, a: string, b: string, x: set<string>, y: set<string>)
    requires x <= y
    ensures Image(g, Around(b), x) <= Image(g, Around(a), y)
  {
    forall n | n in Image(g, Around(b), x) ensures n in Image(g, Around(a), y) {
      var m :| m in x && n in Successors(g, Around(b), m) && Through(g, Around(b), x, m, n);
      assert Successors(g, Around(a), m) == Successors(g, Around(b), m);
      assert Through(g, Around(a), y, m, n);
    }
  }

  lemma ConnectedTrans(g: Graph, a: string, b: string, c: string)
    requires Connected(g, a, b) && Connected(g, b, c)
    ensures Connected(g, a, c)
  {
    var i: nat :| b in Within(g, Around(a), i);
    var j: nat :| c in Within(g, Around(b), j);
    WithinTrans(g, a, b, i, j);
    assert c in Within(g, Around(a), i + j);
  }

  lemma NeighbourConnected(g: Graph, n: string, i: nat)
    requires i < |Arcs(g, Both, n)|
    ensures Connected(g, n, Arcs(g, Both, n)[i].node)
  {
    var m := Arcs(g, Both, n)[i].node;
    assert m in Successors(g, Around(n), n);
    assert Through(g, Around(n), Within(g, Around(n), 0), n, m);
    assert m in Within(g, Around(n), 1);
  }

  lemma {:induction false} LabelsOfMeaning(arcs: seq<Arc>, labels: map<string, nat>, l: nat)
    ensures l in LabelsOf(arcs, labels) <==> exists i :: 0 <= i < |arcs| && arcs[i].node in labels && labels[arcs[i].node] == l
  {
    if arcs != [] {
      var front := arcs[..|arcs| - 1];
      LabelsOfMeaning(front, labels, l);
      assert forall i :: 0 <= i < |front| ==> front[i] == arcs[i];
    }
  }

  /** A neighbour's label is the label of some node joined to `n`. */
  lemma NeighbourOf(g: Graph, labels: map<string, nat>, n: string, l: nat) returns (m: string)
    requires l in NeighbourLabels(g, labels, n)
    ensures m in labels && labels[m] == l && Connected(g, n, m)
  {
    var arcs := Arcs(g, Both, n);
    LabelsOfMeaning(ListAt(g.outgoing, n), labels, l);
    LabelsOfMeaning(ListAt(g.incoming, n), labels, l);
    var far, near := ListAt(g.outgoing, n), ListAt(g.incoming, n);
    var i: nat;
    if l in LabelsOf(far, labels) {
      i :| 0 <= i < |far| && far[i].node in labels && labels[far[i].node] == l;
      assert arcs[i] == far[i];
    } else {
      var j :| 0 <= j < |near| && near[j].node in labels && labels[near[j].node] == l;
      i := |far| + j;
      assert arcs[i] == near[j];
    }
    m := arcs[i].node;
    NeighbourConnected(g, n, i);
  }

  /** The label of a node is the initial number of a node connected to it. */
  ghost predicate Rooted(g: Graph, nodes: seq<string>, labels: map<string, nat>) {
    forall n {:trigger RootedAt(g, nodes, labels, n)} :: n in labels ==> RootedAt(g, nodes, labels, n)
  }

  ghost predicate RootedAt(g: Graph, nodes: seq<string>, labels: map<string, nat>, n: string)
    requires n in labels
  {
    labels[n] < |nodes| && Connected(g, nodes[labels[n]], n)
  }

  lemma AdoptRooted(g: Graph, nodes: seq<string>, labels: map<string, nat>, n: string)
    requires Mirrored(g) && Rooted(g, nodes, labels)
    ensures Rooted(g, nodes, Adopt(g, labels, n))
  {
    var nl, after := NeighbourLabels(g, labels, n), Adopt(g, labels, n);
    if nl != [] {
      var l := Favourite(multiset(nl));
      var m := NeighbourOf(g, labels, n, l);
      assert RootedAt(g, nodes, labels, m);
      ConnectedBack(g, n, m);
      ConnectedTrans(g, nodes[l], m, n);
      forall x | x in after ensures RootedAt(g, nodes, after, x) {
        assert x != n ==> RootedAt(g, nodes, labels, x);
      }
    }
  }

  lemma {:induction false} SweepRooted(g: Graph, nodes: seq<string>, todo: seq<string>, labels: map<string, nat>)
    requires Mirrored(g) && Rooted(g, nodes, labels)
    ensures Rooted(g, nodes, Sweep(g, todo, labels))
  {
    if todo != [] {
      var front, last := todo[..|todo| - 1], todo[|todo| - 1];
      SweepRooted(g, nodes, front, labels);
      AdoptRooted(g, nodes, Sweep(g, front, labels), last);
    }
  }

  lemma NumberedRooted(g: Graph, nodes: seq<string>)
    ensures Rooted(g, nodes, Numbered(nodes))
  {
    var labels := Numbered(nodes);
    forall n | n in labels ensures RootedAt(g, nodes, labels, n) { ConnectedSelf(g, n); }
  }

  /** After any number of sweeps a node's label is the initial number of a node in its own
      component. */
  lemma {:induction false} SweptRooted(g: Graph, nodes: seq<string>, k: nat)
    requires Mirrored(g)
    ensures Rooted(g, nodes, Swept(g, nodes, k))
    decreases k
  {
    if k > 0 {
      SweptRooted(g, nodes, k - 1);
      SweepRooted(g, nodes, nodes, Swept(g, nodes, k - 1));
    } else {
      NumberedRooted(g, nodes);
    }
  }

  /** Hence nodes that share a label are connected. */
  lemma SharedLabelConnected(g: Graph, k: nat, a: string, b: string)
    requires Mirrored(g) && a in g.nodes && b in g.nodes
    ensures var labels := Swept(g, Ascending(g.nodes), k);
      a in labels && b in labels && (labels[a] == labels[b] ==> Connected(g, a, b))
  {
    var nodes := Ascending(g.nodes);
    var labels := Swept(g, nodes, k);
    assert a in nodes && b in nodes;
    SweptKeys(g, nodes, k);
    SweptRooted(g, nodes, k);
    if labels[a] == labels[b] { RootsJoin(g, nodes, labels, a, b); }
  }

  lemma RootsJoin(g: Graph, nodes: seq<string>, labels: map<string, nat>, a: string, b: string)
    requires Mirrored(g) && Rooted(g, nodes, labels) && a in labels && b in labels && labels[a] == labels[b]
    ensures Connected(g, a, b)
  {
    assert RootedAt(g, nodes, labels, a) && RootedAt(g, nodes, labels, b);
    ConnectedBack(g, nodes[labels[a]], a);
    ConnectedTrans(g, a, nodes[labels[a]], b);
  }
}
