/** Label propagation as voting: who votes for what at each visit of a sweep, in terms of the
    edges of the graph. */
module CommunityVotes {
  import opened Orders
  import opened Adjacency
  import opened GraphEdges
  import opened Community

  // ---- Votes ----

  function VotesOut(labels: map<string, nat>, node: string, x: nat): Link -> bool {
    (l: Link) => l.from == node && l.to in labels && labels[l.to] == x
  }

  function VotesIn(labels: map<string, nat>, node: string, x: nat): Link -> bool {
    (l: Link) => l.to == node && l.from in labels && labels[l.from] == x
  }

  /** The votes label `x` has at `node`: one for every edge, in either direction, whose other end
      carries it. */
  function Votes(links: seq<Link>, labels: map<string, nat>, node: string, x: nat): nat {
    |Keep(links, VotesOut(labels, node, x))| + |Keep(links, VotesIn(labels, node, x))|
  }

  /** The label with the most votes, the smallest of several. */
  ghost predicate Wins(links: seq<Link>, labels: map<string, nat>, node: string, x: nat) {
    && Votes(links, labels, node, x) > 0
    && forall y :: Votes(links, labels, node, y) < Votes(links, labels, node, x)
                   || (Votes(links, labels, node, y) == Votes(links, labels, node, x) && x <= y)
  }

  lemma {:induction false} LabelsPush(arcs: seq<Arc>, a: Arc, labels: map<string, nat>)
    ensures LabelsOf(arcs + [a], labels) == LabelsOf(arcs, labels) + (if a.node in labels then [labels[a.node]] else [])
  {
    assert (arcs + [a])[..|arcs|] == arcs;
  }

  /** Counting the label `x` along some of the edges of a list. */
  lemma {:induction false} CountVotes(links: seq<Link>, labels: map<string, nat>, here: Link -> bool, see: Link -> Arc, vote: Link -> bool, x: nat)
    requires forall l :: vote(l) <==> here(l) && see(l).node in labels && labels[see(l).node] == x
    ensures multiset(LabelsOf(Map(Keep(links, here), see), labels))[x] == |Keep(links, vote)|
  {
    if links != [] {
      var front, l := links[..|links| - 1], links[|links| - 1];
      CountVotes(front, labels, here, see, vote, x);
      var before, kept := Map(Keep(front, here), see), Keep(front, here);
      if here(l) {
        MapConcat(kept, [l], see);
        assert Map([l], see) == [see(l)];
        LabelsPush(before, see(l), labels);
      } else {
        assert kept + [] == kept;
      }
    }
  }

  /** The labels collected around a node are its votes. */
  lemma VotesCounted(links: seq<Link>, labels: map<string, nat>, node: string, x: nat)
    ensures multiset(NeighbourLabels(Built(links), labels, node))[x] == Votes(links, labels, node, x)
  {
    BuiltLists(links, node);
    CountVotes(links, labels, Leaving(node), Outward, VotesOut(labels, node, x), x);
    CountVotes(links, labels, Entering(node), Inward, VotesIn(labels, node, x), x);
  }

  lemma FavouriteWins(links: seq<Link>, labels: map<string, nat>, node: string)
    ensures var nl := NeighbourLabels(Built(links), labels, node);
      if nl == [] then forall x :: Votes(links, labels, node, x) == 0 else Wins(links, labels, node, Favourite(multiset(nl)))
  {
    var nl := NeighbourLabels(Built(links), labels, node);
    forall x ensures Votes(links, labels, node, x) == multiset(nl)[x] { VotesCounted(links, labels, node, x); }
    if nl != [] { assert IsFavourite(multiset(nl), Favourite(multiset(nl))); }
  }

  // ---- One sweep ----

  /** What a visit to the `i`-th node sees: new labels on the nodes before it, old ones elsewhere. */
  function Seen(before: map<string, nat>, after: map<string, nat>, nodes: seq<string>, i: nat): map<string, nat>
    requires i <= |nodes| && forall n :: n in before ==> n in after
  {
    map n | n in before :: if n in nodes[..i] then after[n] else before[n]
  }

  lemma {:induction false} SweepFrom(g: Graph, nodes: seq<string>, labels: map<string, nat>, i: nat, n: string)
    requires i <= |nodes| && Distinct(nodes) && n in labels && (n in nodes ==> n in nodes[..i])
    ensures n in Sweep(g, nodes, labels) && n in Sweep(g, nodes[..i], labels)
    ensures Sweep(g, nodes, labels)[n] == Sweep(g, nodes[..i], labels)[n]
    decreases |nodes|
  {
    if i < |nodes| {
      var front, last := nodes[..|nodes| - 1], nodes[|nodes| - 1];
      assert nodes == front + [last] && front[..i] == nodes[..i];
      SweepFrom(g, front, labels, i, n);
      LastElsewhere(nodes, i, n);
    } else {
      assert nodes[..i] == nodes;
      StillLabelled(g, nodes, labels, n);
    }
  }

  lemma LastElsewhere(nodes: seq<string>, i: nat, n: string)
    requires i < |nodes| && Distinct(nodes) && (n in nodes ==> n in nodes[..i])
    ensures n != nodes[|nodes| - 1]
  {
    assert nodes[|nodes| - 1] in nodes;
    if n in nodes[..i] { var j :| 0 <= j < i && nodes[..i][j] == n; }
  }

  lemma {:induction false} StillLabelled(g: Graph, nodes: seq<string>, labels: map<string, nat>, n: string)
    requires n in labels
    ensures n in Sweep(g, nodes, labels)
  {
    if nodes != [] { StillLabelled(g, nodes[..|nodes| - 1], labels, n); }
  }

  lemma SeenIsPrefix(g: Graph, nodes: seq<string>, labels: map<string, nat>, i: nat)
    requires i <= |nodes| && Distinct(nodes) && forall n :: n in nodes ==> n in labels
    ensures Sweep(g, nodes, labels).Keys == labels.Keys
    ensures Seen(labels, Sweep(g, nodes, labels), nodes, i) == Sweep(g, nodes[..i], labels)
  {
    var after, prefix := Sweep(g, nodes, labels), nodes[..i];
    SweepKeys(g, nodes, labels);
    assert forall n :: n in prefix ==> n in nodes;
    SweepKeys(g, prefix, labels);
    forall n | n in labels ensures Seen(labels, after, nodes, i)[n] == Sweep(g, prefix, labels)[n] {
      if n in prefix {
        SweepFrom(g, nodes, labels, i, n);
      } else {
        SweepUntouched(g, prefix, labels, n);
      }
    }
  }

  /** After a sweep each node carries the winner of the vote held at its visit, in which the nodes
      visited before it already voted with their new labels; without a vote it keeps its label. */
  lemma SweepVotes(links: seq<Link>, nodes: seq<string>, labels: map<string, nat>, i: nat)
    requires i < |nodes| && Distinct(nodes) && forall n :: n in nodes ==> n in labels
    ensures var after := Sweep(Built(links), nodes, labels);
      && after.Keys == labels.Keys && nodes[i] in nodes
      && var seen := Seen(labels, after, nodes, i);
         if forall x :: Votes(links, seen, nodes[i], x) == 0 then after[nodes[i]] == labels[nodes[i]]
         else Wins(links, seen, nodes[i], after[nodes[i]])
  {
    var g, n := Built(links), nodes[i];
    assert n in nodes;
    SeenIsPrefix(g, nodes, labels, i);
    SeenIsPrefix(g, nodes, labels, i + 1);
    SweepNext(g, nodes, i, labels);
    var seen, next := Sweep(g, nodes[..i], labels), Sweep(g, nodes[..i + 1], labels);
    FavouriteWins(links, seen, n);
    assert nodes[..i + 1][i] == n && n in nodes[..i + 1];
    assert next[n] == Sweep(g, nodes, labels)[n];
    NotYetVisited(nodes, i);
    assert seen[n] == labels[n];
    VisitVotes(links, seen, n, next);
  }

  lemma NotYetVisited(nodes: seq<string>, i: nat)
    requires i < |nodes| && Distinct(nodes)
    ensures nodes[i] !in nodes[..i]
  {
    assert forall j :: 0 <= j < i ==> nodes[..i][j] == nodes[j] && nodes[j] != nodes[i];
  }

  lemma VisitVotes(links: seq<Link>, seen: map<string, nat>, n: string, next: map<string, nat>)
    requires n in seen && next == Adopt(Built(links), seen, n)
    ensures if forall x :: Votes(links, seen, n, x) == 0 then next[n] == seen[n] else Wins(links, seen, n, next[n])
  {
    FavouriteWins(links, seen, n);
  }

  // ---- All sweeps ----

  lemma {:induction false} FirstNumbers(nodes: seq<string>, i: nat)
    requires i < |nodes| && Distinct(nodes)
    ensures nodes[i] in nodes && IndexOf(nodes, nodes[i]) == i
  {
    var k := IndexOf(nodes, nodes[i]);
    assert nodes[k] == nodes[i];
  }

  /** Propagation starts with every node's own position in name order and then sweeps the nodes in
      name order, so many times. */
  lemma PropagationVotes(links: seq<Link>, nodes: seq<string>, k: nat, i: nat)
    requires nodes == Ascending(Built(links).nodes) && i < |nodes|
    ensures var first, labels, after := Swept(Built(links), nodes, 0), Swept(Built(links), nodes, k), Swept(Built(links), nodes, k + 1);
      && nodes[i] in first && first[nodes[i]] == i
      && after.Keys == labels.Keys && nodes[i] in labels
      && var seen := Seen(labels, after, nodes, i);
         if forall x :: Votes(links, seen, nodes[i], x) == 0 then after[nodes[i]] == labels[nodes[i]]
         else Wins(links, seen, nodes[i], after[nodes[i]])
  {
    AscendingDistinct(Built(links).nodes);
    FirstNumbers(nodes, i);
    SweptKeys(Built(links), nodes, k);
    SweepVotes(links, nodes, Swept(Built(links), nodes, k), i);
  }
}
