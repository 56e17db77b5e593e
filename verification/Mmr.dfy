/** Maximal marginal relevance with a similarity ceiling. */
module Mmr {
  import opened Orders
  import opened RankModel

  type Vector = seq<real>

  /** Dense vectors by entity id, and a similarity between them. */
  datatype Space = Space(vectors: map<string, Vector>, cosine: (Vector, Vector) -> real)

  /** How relevance is traded against similarity, and the similarity ceiling. */
  datatype Settings = Settings(trade: (real, real) -> real, ceiling: Option<real>)

  /** The weighted trade of the source. */
  function Weighted(lambda: real): (real, real) -> real {
    (score: real, similarity: real) => lambda * score - (1.0 - lambda) * similarity
  }

  /** Only entities have vectors. */
  function VectorOf(space: Space, item: Item): Option<Vector> {
    if item.facts.target.Entity? && item.facts.target.id in space.vectors
    then Some(space.vectors[item.facts.target.id]) else None
  }

  predicate Paired(space: Space, a: Item, b: Item) { VectorOf(space, a).Some? && VectorOf(space, b).Some? }

  function Cosine(space: Space, a: Item, b: Item): real
    requires Paired(space, a, b)
  {
    space.cosine(VectorOf(space, a).value, VectorOf(space, b).value)
  }

  /** The two items have vectors more similar than `c`. */
  predicate Close(space: Space, a: Item, b: Item, c: real) { Paired(space, a, b) && Cosine(space, a, b) > c }

  // ---- The score of one candidate ----

  /** Largest similarity to a selected item, never below zero. */
  function MaxSim(space: Space, selected: seq<Item>, cand: Item): real {
    if selected == [] then 0.0 else
      var best := MaxSim(space, selected[..|selected| - 1], cand);
      var last := selected[|selected| - 1];
      if Paired(space, cand, last) && Cosine(space, cand, last) > best then Cosine(space, cand, last) else best
  }

  predicate Comparable(space: Space, selected: seq<Item>, cand: Item) {
    exists i :: 0 <= i < |selected| && Paired(space, cand, selected[i])
  }

  function Distance(a: real, b: real): real { if a >= b then a - b else b - a }

  function Similarity(space: Space, selected: seq<Item>, cand: Item): real
    requires selected != []
  {
    if Comparable(space, selected, cand) then MaxSim(space, selected, cand)
    else Distance(selected[|selected| - 1].score, cand.score)
  }

  predicate Deferred(space: Space, s: Settings, selected: seq<Item>, cand: Item) {
    s.ceiling.Some? && Comparable(space, selected, cand) && MaxSim(space, selected, cand) > s.ceiling.value
  }

  function Worth(space: Space, s: Settings, selected: seq<Item>, cand: Item): real
    requires selected != []
  {
    s.trade(cand.score, Similarity(space, selected, cand))
  }

  lemma {:induction false} MaxSimMeaning(space: Space, selected: seq<Item>, cand: Item, c: real)
    requires c >= 0.0
    ensures MaxSim(space, selected, cand) > c <==> exists i :: 0 <= i < |selected| && Close(space, cand, selected[i], c)
  {
    if selected != [] {
      var front, last := selected[..|selected| - 1], selected[|selected| - 1];
      MaxSimMeaning(space, front, cand, c);
      assert forall i :: 0 <= i < |front| ==> front[i] == selected[i];
      assert Close(space, cand, last, c) ==> Close(space, cand, selected[|selected| - 1], c);
    }
  }

  /** With a ceiling of at least zero, deferral means too close to some selected item. */
  lemma DeferredMeaning(space: Space, s: Settings, selected: seq<Item>, cand: Item)
    requires s.ceiling.Some? && s.ceiling.value >= 0.0
    ensures Deferred(space, s, selected, cand) <==>
      exists i :: 0 <= i < |selected| && Close(space, cand, selected[i], s.ceiling.value)
  {
    MaxSimMeaning(space, selected, cand, s.ceiling.value);
    forall i | 0 <= i < |selected| && Close(space, cand, selected[i], s.ceiling.value)
      ensures Comparable(space, selected, cand)
    {
      assert Paired(space, cand, selected[i]);
    }
  }

  // ---- The loop ----

  predicate ScoreOrder(a: Item, b: Item) { a.score >= b.score }

  method ScanSelected(space: Space, selected: seq<Item>, cand: Item) returns (maxSim: real, used: bool)
    ensures maxSim == MaxSim(space, selected, cand) && (used <==> Comparable(space, selected, cand))
  {
    maxSim, used := 0.0, false;
    for i := 0 to |selected|
      invariant maxSim == MaxSim(space, selected[..i], cand)
      invariant used <==> exists k :: 0 <= k < i && Paired(space, cand, selected[k])
    {
      assert selected[..i + 1][..i] == selected[..i];
      if Paired(space, cand, selected[i]) {
        if Cosine(space, cand, selected[i]) > maxSim {
          maxSim := Cosine(space, cand, selected[i]);
        }
        used := true;
      }
    }
    assert selected[..|selected|] == selected;
  }

  /** No eligible candidate among `rest` is worth more than `best`. */
  ghost predicate Unbeaten(space: Space, s: Settings, selected: seq<Item>, best: Item, rest: multiset<Item>)
    requires selected != []
  {
    forall y {:trigger Eligible(space, s, selected, y, rest)} :: Eligible(space, s, selected, y, rest) ==>
      Worth(space, s, selected, y) <= Worth(space, s, selected, best)
  }

  predicate Eligible(space: Space, s: Settings, selected: seq<Item>, y: Item, rest: multiset<Item>) {
    y in rest && !Deferred(space, s, selected, y)
  }

  method BestOf(space: Space, s: Settings, selected: seq<Item>, pool: seq<Item>) returns (best: Option<nat>)
    requires selected != []
    ensures best.None? <==> forall x :: x in pool ==> Deferred(space, s, selected, x)
    ensures best.Some? ==> best.value < |pool| && !Deferred(space, s, selected, pool[best.value])
    ensures best.Some? ==> Unbeaten(space, s, selected, pool[best.value], multiset(pool))
  {
    best := None;
    for i := 0 to |pool|
      invariant best.None? <==> forall k :: 0 <= k < i ==> Deferred(space, s, selected, pool[k])
      invariant best.Some? ==> best.value < i && !Deferred(space, s, selected, pool[best.value])
      invariant best.Some? ==> forall k :: 0 <= k < i && !Deferred(space, s, selected, pool[k]) ==>
        Worth(space, s, selected, pool[k]) <= Worth(space, s, selected, pool[best.value])
    {
      var maxSim, used := ScanSelected(space, selected, pool[i]);
      if s.ceiling.Some? && used && maxSim > s.ceiling.value {
        continue;
      }
      var similarity := if used then maxSim else Distance(selected[|selected| - 1].score, pool[i].score);
      var worth := s.trade(pool[i].score, similarity);
      if best.None? || worth > Worth(space, s, selected, pool[best.value]) {
        best := Some(i);
      }
    }
    if best.Some? {
      forall y | Eligible(space, s, selected, y, multiset(pool))
        ensures Worth(space, s, selected, y) <= Worth(space, s, selected, pool[best.value])
      {
        assert y in pool;
      }
    }
  }

  /** Position `p` was a greedy pick: not deferred, and unbeaten among all later items. */
  ghost predicate Picked(space: Space, s: Settings, r: seq<Item>, p: nat, rest: multiset<Item>)
    requires 1 <= p < |r|
  {
    !Deferred(space, s, r[..p], r[p]) && Unbeaten(space, s, r[..p], r[p], multiset(r[p..]) + rest)
  }

  ghost predicate AllPicked(space: Space, s: Settings, r: seq<Item>, n: nat, rest: multiset<Item>)
    requires n <= |r|
  {
    forall p {:trigger Picked(space, s, r, p, rest)} :: 1 <= p < n ==> Picked(space, s, r, p, rest)
  }

  /** The result: best score first, then greedy picks up to `n`, then the deferred rest by score. */
  ghost predicate Arranged(space: Space, s: Settings, r: seq<Item>, n: nat) {
    && 1 <= n <= |r|
    && (forall q :: 0 <= q < |r| ==> ScoreOrder(r[0], r[q]))
    && AllPicked(space, s, r, n, multiset{})
    && (forall q :: n <= q < |r| ==> Deferred(space, s, r[..n], r[q]))
    && SortedBy(r[n..], ScoreOrder)
  }

  /** Moving the pick from the pool to the list keeps every earlier comparison. */
  lemma PickMoves(space: Space, s: Settings, r: seq<Item>, pool: seq<Item>, i: nat)
    requires r != [] && i < |pool| && AllPicked(space, s, r, |r|, multiset(pool))
    requires !Deferred(space, s, r, pool[i]) && Unbeaten(space, s, r, pool[i], multiset(pool))
    ensures multiset(r) + multiset(pool) == multiset(r + [pool[i]]) + multiset(Without(pool, i))
    ensures AllPicked(space, s, r + [pool[i]], |r| + 1, multiset(Without(pool, i)))
  {
    var more, less := r + [pool[i]], Without(pool, i);
    WithoutCounts(pool, i);
    forall p | 1 <= p < |more| ensures Picked(space, s, more, p, multiset(less)) {
      if p < |r| {
        assert Picked(space, s, r, p, multiset(pool));
        assert more[..p] == r[..p] && more[p..] == r[p..] + [pool[i]];
        assert multiset(more[p..]) + multiset(less) == multiset(r[p..]) + multiset(pool);
      } else {
        assert more[..p] == r && more[p..] == [pool[i]];
        assert multiset(more[p..]) + multiset(less) == multiset(pool);
      }
    }
  }

  /** The order the ceiling and the trade dictate: a permutation with a diverse prefix. */
  method Rerank(space: Space, s: Settings, items: seq<Item>) returns (r: seq<Item>)
    ensures multiset(r) == multiset(items)
    ensures items != [] ==> exists n :: Arranged(space, s, r, n)
  {
    if items == [] {
      return [];
    }
    var pool := Sort(items, ScoreOrder);
    SortSorts(items, ScoreOrder);
    ghost var sorted := pool;
    r, pool := [pool[0]], pool[1..];
    assert sorted == r + pool;
    while pool != []
      invariant r != [] && multiset(r) + multiset(pool) == multiset(items)
      invariant AllPicked(space, s, r, |r|, multiset(pool))
      invariant r[0] == sorted[0]
      decreases |pool|
    {
      var best := BestOf(space, s, r, pool);
      if best.None? {
        var tail := Sort(pool, ScoreOrder);
        SortSorts(pool, ScoreOrder);
        SortElements(pool, ScoreOrder);
        TailArranged(space, s, r, pool, tail, sorted, items);
        r := r + tail;
        return;
      }
      PickMoves(space, s, r, pool, best.value);
      r, pool := r + [pool[best.value]], Without(pool, best.value);
    }
    TailArranged(space, s, r, [], [], sorted, items);
    assert r + [] == r;
  }

  lemma TailArranged(space: Space, s: Settings, r: seq<Item>, pool: seq<Item>, tail: seq<Item>, sorted: seq<Item>, items: seq<Item>)
    requires r != [] && AllPicked(space, s, r, |r|, multiset(pool)) && multiset(r) + multiset(pool) == multiset(items)
    requires multiset(tail) == multiset(pool) && SortedBy(tail, ScoreOrder)
    requires forall x :: x in pool ==> Deferred(space, s, r, x)
    requires multiset(sorted) == multiset(items) && SortedBy(sorted, ScoreOrder) && sorted != [] && sorted[0] == r[0]
    ensures Arranged(space, s, r + tail, |r|) && multiset(r + tail) == multiset(items)
  {
    var all := r + tail;
    TopFirst(sorted, all);
    SameElements(tail, pool);
    forall p | 1 <= p < |r| ensures Picked(space, s, all, p, multiset{}) {
      assert Picked(space, s, r, p, multiset(pool));
      assert all[..p] == r[..p] && all[p..] == r[p..] + tail;
      assert multiset(all[p..]) + multiset{} == multiset(r[p..]) + multiset(pool);
    }
    forall q | |r| <= q < |all| ensures Deferred(space, s, all[..|r|], all[q]) {
      assert all[..|r|] == r && all[q] == tail[q - |r|];
      assert tail[q - |r|] in tail;
    }
    assert all[|r|..] == tail;
  }

  lemma TopFirst(sorted: seq<Item>, all: seq<Item>)
    requires multiset(sorted) == multiset(all) && SortedBy(sorted, ScoreOrder) && sorted != []
    ensures forall q :: 0 <= q < |all| ==> ScoreOrder(sorted[0], all[q])
  {
    SameElements(sorted, all);
    forall q | 0 <= q < |all| ensures ScoreOrder(sorted[0], all[q]) {
      assert all[q] in all;
      var k :| 0 <= k < |sorted| && sorted[k] == all[q];
      assert k > 0 ==> ScoreOrder(sorted[0], sorted[k]);
    }
  }

  /** Item `q` is closer than `c` to one of the first `n` items. */
  ghost predicate CloseToEarlier(space: Space, r: seq<Item>, q: nat, n: nat, c: real)
    requires n <= q < |r|
  {
    exists i :: 0 <= i < n && Close(space, r[q], r[i], c)
  }

  /** With a ceiling `c >= 0`: before the split no item is closer than `c` to an earlier one, and
      every item after it is closer than `c` to some item before it. */
  lemma SplitDiverse(space: Space, s: Settings, r: seq<Item>, n: nat)
    requires Arranged(space, s, r, n) && s.ceiling.Some? && s.ceiling.value >= 0.0
    ensures forall i, j :: 0 <= i < j < n ==> !Close(space, r[j], r[i], s.ceiling.value)
    ensures forall q :: n <= q < |r| ==> CloseToEarlier(space, r, q, n, s.ceiling.value)
  {
    forall i, j | 0 <= i < j < n ensures !Close(space, r[j], r[i], s.ceiling.value) {
      assert Picked(space, s, r, j, multiset{});
      DeferredMeaning(space, s, r[..j], r[j]);
      assert r[..j][i] == r[i];
    }
    forall q | n <= q < |r| ensures CloseToEarlier(space, r, q, n, s.ceiling.value) {
      DeferredMeaning(space, s, r[..n], r[q]);
      var i :| 0 <= i < n && Close(space, r[q], r[..n][i], s.ceiling.value);
      assert r[..n][i] == r[i];
    }
  }

  /** Without a ceiling nothing is deferred: every position is a greedy pick. */
  lemma NoCeilingGreedy(space: Space, s: Settings, r: seq<Item>, n: nat)
    requires Arranged(space, s, r, n) && s.ceiling.None?
    ensures n == |r|
  {
    assert n >= |r| || !Deferred(space, s, r[..n], r[n]);
  }

  // ---- The trade of a pick ----

  /** Both items are entities with a vector. */
  predicate HaveVectors(space: Space, a: Item, b: Item) {
    && a.facts.target.Entity? && a.facts.target.id in space.vectors
    && b.facts.target.Entity? && b.facts.target.id in space.vectors
  }

  function CosineOf(space: Space, a: Item, b: Item): real
    requires HaveVectors(space, a, b)
  {
    space.cosine(space.vectors[a.facts.target.id], space.vectors[b.facts.target.id])
  }

  /** The similarity of `x` to the items picked before it is `v`: the largest cosine between their
      vectors, zero at least; when `x` has none in common with them, how far its score is from the
      last one's. */
  ghost predicate IsSimilarity(space: Space, earlier: seq<Item>, x: Item, v: real)
    requires earlier != []
  {
    if exists i :: 0 <= i < |earlier| && HaveVectors(space, x, earlier[i]) then
      && v >= 0.0 && (forall i :: 0 <= i < |earlier| && HaveVectors(space, x, earlier[i]) ==> CosineOf(space, x, earlier[i]) <= v)
      && (v == 0.0 || exists i :: 0 <= i < |earlier| && HaveVectors(space, x, earlier[i]) && CosineOf(space, x, earlier[i]) == v)
    else
      var last := earlier[|earlier| - 1].score;
      v >= 0.0 && (v == last - x.score || v == x.score - last)
  }

  predicate Beyond(space: Space, ceiling: real, a: Item, b: Item) {
    HaveVectors(space, a, b) && (CosineOf(space, a, b) > ceiling || 0.0 > ceiling)
  }

  /** Some earlier item is closer to `x` than the ceiling allows. */
  ghost predicate TooClose(space: Space, ceiling: Option<real>, earlier: seq<Item>, x: Item) {
    ceiling.Some? && exists i :: 0 <= i < |earlier| && Beyond(space, ceiling.value, x, earlier[i])
  }

  lemma {:induction false} LargestCosine(space: Space, earlier: seq<Item>, x: Item)
    ensures MaxSim(space, earlier, x) >= 0.0
    ensures forall i :: 0 <= i < |earlier| && HaveVectors(space, x, earlier[i]) ==> CosineOf(space, x, earlier[i]) <= MaxSim(space, earlier, x)
    ensures MaxSim(space, earlier, x) == 0.0
      || exists i :: 0 <= i < |earlier| && HaveVectors(space, x, earlier[i]) && CosineOf(space, x, earlier[i]) == MaxSim(space, earlier, x)
  {
    if earlier != [] {
      var front, last := earlier[..|earlier| - 1], earlier[|earlier| - 1];
      LargestCosine(space, front, x);
      assert Paired(space, x, last) <==> HaveVectors(space, x, last);
      assert forall i :: 0 <= i < |front| ==> front[i] == earlier[i];
      if HaveVectors(space, x, last) && CosineOf(space, x, last) > MaxSim(space, front, x) {
        assert HaveVectors(space, x, earlier[|earlier| - 1]);
      } else if MaxSim(space, front, x) != 0.0 {
        var i :| 0 <= i < |front| && HaveVectors(space, x, front[i]) && CosineOf(space, x, front[i]) == MaxSim(space, front, x);
        assert HaveVectors(space, x, earlier[i]);
      }
    }
  }

  lemma ComparableMeaning(space: Space, earlier: seq<Item>, x: Item)
    ensures Comparable(space, earlier, x) <==> exists i :: 0 <= i < |earlier| && HaveVectors(space, x, earlier[i])
  {
    forall i | 0 <= i < |earlier| ensures Paired(space, x, earlier[i]) <==> HaveVectors(space, x, earlier[i]) {}
  }

  /** What the similarity of a candidate to the picks so far is. */
  lemma SimilarityMeaning(space: Space, earlier: seq<Item>, x: Item, v: real)
    requires earlier != []
    ensures IsSimilarity(space, earlier, x, v) <==> v == Similarity(space, earlier, x)
  {
    ComparableMeaning(space, earlier, x);
    LargestCosine(space, earlier, x);
  }

  lemma TooCloseMeaning(space: Space, s: Settings, earlier: seq<Item>, x: Item)
    ensures Deferred(space, s, earlier, x) <==> TooClose(space, s.ceiling, earlier, x)
  {
    ComparableMeaning(space, earlier, x);
    LargestCosine(space, earlier, x);
    if s.ceiling.Some? {
      forall i | 0 <= i < |earlier| && HaveVectors(space, x, earlier[i]) && MaxSim(space, earlier, x) > s.ceiling.value
        ensures Beyond(space, s.ceiling.value, x, earlier[i]) || CosineOf(space, x, earlier[i]) < MaxSim(space, earlier, x) {}
    }
  }

  /** No later item that is not deferred is worth more than the pick. */
  lemma PickedBest(space: Space, s: Settings, r: seq<Item>, n: nat, p: nat, q: nat)
    requires Arranged(space, s, r, n) && 1 <= p < n && p <= q < |r|
    ensures !Deferred(space, s, r[..p], r[p])
    ensures Deferred(space, s, r[..p], r[q]) || Worth(space, s, r[..p], r[q]) <= Worth(space, s, r[..p], r[p])
  {
    assert Picked(space, s, r, p, multiset{});
    assert r[p..][q - p] == r[q];
    assert Deferred(space, s, r[..p], r[q]) || Eligible(space, s, r[..p], r[q], multiset(r[p..]) + multiset{});
  }

  /** Each pick before the split is within the ceiling and trades best: no later item within the
      ceiling has more of its weighted score left once its weighted similarity to the picks so far
      is taken off. */
  lemma PickTrade(space: Space, s: Settings, lambda: real, r: seq<Item>, n: nat, p: nat, q: nat)
    requires Arranged(space, s, r, n) && s.trade == Weighted(lambda) && 1 <= p < n && p <= q < |r|
    ensures !TooClose(space, s.ceiling, r[..p], r[p])
    ensures TooClose(space, s.ceiling, r[..p], r[q])
      || lambda * r[q].score - (1.0 - lambda) * Similarity(space, r[..p], r[q])
         <= lambda * r[p].score - (1.0 - lambda) * Similarity(space, r[..p], r[p])
  {
    PickedBest(space, s, r, n, p, q);
    TooCloseMeaning(space, s, r[..p], r[p]);
    TooCloseMeaning(space, s, r[..p], r[q]);
  }

  /** After the split every item is beyond the ceiling. */
  lemma TailTooClose(space: Space, s: Settings, r: seq<Item>, n: nat, q: nat)
    requires Arranged(space, s, r, n) && n <= q < |r|
    ensures TooClose(space, s.ceiling, r[..n], r[q])
  {
    TooCloseMeaning(space, s, r[..n], r[q]);
  }
}
