/** Ranking: candidates are collected, filtered, reranked, sorted and cut, and every one of
    them is accounted for. */
module Ranking {
  import opened Orders
  import opened RankModel
  import Mmr

  datatype Hit = Hit(target: TargetId, score: real)

  /** Channel hits in order, and facts by target. */
  datatype Input = Input(channels: seq<seq<Hit>>, facts: map<TargetId, Facts>, space: Mmr.Space)

  datatype Rerank =
    | NoRerank
    | GraphDistance
    | Corroboration
    | Diversity(lambda: real, ceiling: Option<real>)
    | Chain(steps: seq<Rerank>)

  /** `fuse` combines a candidate's scores; `boost` is the corroboration formula. */
  datatype Query = Query(filters: Filters, fuse: seq<real> -> real, boost: (real, nat) -> real, rerank: Rerank, limit: nat)

  datatype Dropped = Dropped(target: TargetId, reason: DropReason)

  datatype Ranked = Ranked(items: seq<Item>, dropped: seq<Dropped>, total: nat)

  /** Candidates and their channel scores, by key. */
  datatype Pool = Pool(facts: map<string, Facts>, scores: map<string, seq<real>>)

  // ---- Collecting candidates ----

  /** Facts are filed under their own target. */
  ghost predicate FactsOk(input: Input) {
    forall t :: t in input.facts ==> input.facts[t].target == t
  }

  function FactsFor(input: Input, t: TargetId): Facts {
    if t in input.facts then input.facts[t] else MinimalFacts(t)
  }

  /** The pool holds, under its own key, the facts of each of these targets. */
  ghost predicate Holds(input: Input, facts: map<string, Facts>, targets: set<TargetId>) {
    && (forall t :: t in targets ==> RrfKey(t) in facts)
    && (forall k {:trigger EntryOk(input, facts, targets, k)} :: k in facts ==> EntryOk(input, facts, targets, k))
  }

  ghost predicate EntryOk(input: Input, facts: map<string, Facts>, targets: set<TargetId>, k: string)
    requires k in facts
  {
    && RrfKey(facts[k].target) == k && facts[k].target in targets && facts[k] == FactsFor(input, facts[k].target)
  }

  /** The targets of the first `n` hits. */
  ghost function HitTargets(hits: seq<Hit>, n: nat): set<TargetId>
    requires n <= |hits|
  {
    set i | 0 <= i < n :: hits[i].target
  }

  ghost function ChannelTargets(channels: seq<seq<Hit>>): set<TargetId> {
    if channels == [] then {} else ChannelTargets(channels[..|channels| - 1]) + HitTargets(channels[|channels| - 1], |channels[|channels| - 1]|)
  }

  /** Every candidate: hit by a channel, or given facts. */
  ghost function Candidates(input: Input): set<TargetId> { ChannelTargets(input.channels) + input.facts.Keys }

  lemma AddCandidate(input: Input, facts: map<string, Facts>, targets: set<TargetId>, t: TargetId)
    requires FactsOk(input) && Holds(input, facts, targets)
    ensures RrfKey(t) in facts ==> facts[RrfKey(t)] == FactsFor(input, t) && Holds(input, facts, targets + {t})
    ensures RrfKey(t) !in facts ==> Holds(input, facts[RrfKey(t) := FactsFor(input, t)], targets + {t})
  {
    var k := RrfKey(t);
    if k in facts {
      assert EntryOk(input, facts, targets, k);
      RrfKeyInjective(facts[k].target, t);
      forall j | j in facts ensures EntryOk(input, facts, targets + {t}, j) { assert EntryOk(input, facts, targets, j); }
    } else {
      var more := facts[k := FactsFor(input, t)];
      forall j | j in more ensures EntryOk(input, more, targets + {t}, j) {
        assert j != k ==> EntryOk(input, facts, targets, j);
      }
    }
  }

  function ListOf(scores: map<string, seq<real>>, k: string): seq<real> { if k in scores then scores[k] else [] }

  /** The scores the first `n` hits give to one key, in order. */
  function HitScores(hits: seq<Hit>, n: nat, k: string): seq<real>
    requires n <= |hits|
  {
    if n == 0 then [] else HitScores(hits, n - 1, k) + HitScore(hits[n - 1], k)
  }

  function HitScore(hit: Hit, k: string): seq<real> { if RrfKey(hit.target) == k then [hit.score] else [] }

  function ChannelScores(channels: seq<seq<Hit>>, k: string): seq<real> {
    if channels == [] then [] else
      var last := channels[|channels| - 1];
      ChannelScores(channels[..|channels| - 1], k) + HitScores(last, |last|, k)
  }

  lemma ListNext(scores: map<string, seq<real>>, key: string, score: real)
    ensures var more := scores[key := ListOf(scores, key) + [score]];
      forall k :: ListOf(more, k) == ListOf(scores, k) + (if k == key then [score] else [])
  {
  }

  /** The pool of a whole input: every candidate's facts, and all its channel scores in order. */
  ghost predicate Collected(input: Input, pool: Pool) {
    && Holds(input, pool.facts, Candidates(input))
    && forall k :: ListOf(pool.scores, k) == ChannelScores(input.channels, k)
  }

  /** The candidates one channel adds. A hit whose key is present may only replace the facts by
      ones of higher confidence; those are the same facts. */
  method CollectHits(input: Input, hits: seq<Hit>, before: Pool, ghost targets: set<TargetId>) returns (pool: Pool)
    requires FactsOk(input) && Holds(input, before.facts, targets)
    ensures Holds(input, pool.facts, targets + HitTargets(hits, |hits|))
    ensures forall k :: ListOf(pool.scores, k) == ListOf(before.scores, k) + HitScores(hits, |hits|, k)
  {
    pool := before;
    ghost var seen := targets;
    HitsNone(targets, hits, before.scores);
    for i := 0 to |hits|
      invariant Holds(input, pool.facts, seen) && HitsAdded(targets, hits, i, seen, before.scores, pool.scores)
    {
      ghost var was := pool.scores;
      pool := AddHit(input, pool, hits[i], seen);
      HitsNext(targets, hits, i, seen, before.scores, was, pool.scores);
      seen := seen + {hits[i].target};
    }
    HitsAll(targets, hits, seen, before.scores, pool.scores);
  }

  /** After the first `i` hits: their targets are in the pool, their scores appended. */
  ghost predicate HitsAdded(targets: set<TargetId>, hits: seq<Hit>, i: nat, seen: set<TargetId>,
                            before: map<string, seq<real>>, scores: map<string, seq<real>>)
    requires i <= |hits|
  {
    && seen == targets + HitTargets(hits, i)
    && forall k {:trigger ScoreAt(hits, i, before, scores, k)} :: ScoreAt(hits, i, before, scores, k)
  }

  ghost predicate ScoreAt(hits: seq<Hit>, n: nat, before: map<string, seq<real>>, scores: map<string, seq<real>>, k: string)
    requires n <= |hits|
  {
    ListOf(scores, k) == ListOf(before, k) + HitScores(hits, n, k)
  }

  lemma HitsNone(targets: set<TargetId>, hits: seq<Hit>, scores: map<string, seq<real>>)
    ensures HitsAdded(targets, hits, 0, targets, scores, scores)
  {
    assert HitTargets(hits, 0) == {} && targets + {} == targets;
  }

  lemma HitsNext(targets: set<TargetId>, hits: seq<Hit>, i: nat, seen: set<TargetId>,
                 before: map<string, seq<real>>, scores: map<string, seq<real>>, more: map<string, seq<real>>)
    requires i < |hits| && HitsAdded(targets, hits, i, seen, before, scores)
    requires forall k :: ListOf(more, k) == ListOf(scores, k) + HitScore(hits[i], k)
    ensures HitsAdded(targets, hits, i + 1, seen + {hits[i].target}, before, more)
  {
    HitTargetsNext(hits, i);
    var next: nat := i + 1;
    forall k ensures ScoreAt(hits, next, before, more, k) {
      assert ScoreAt(hits, i, before, scores, k);
      Appended(ListOf(before, k), HitScores(hits, i, k), HitScore(hits[i], k));
    }
  }

  lemma Appended(a: seq<real>, b: seq<real>, c: seq<real>)
    ensures a + b + c == a + (b + c)
  {
  }

  lemma HitsAll(targets: set<TargetId>, hits: seq<Hit>, seen: set<TargetId>, before: map<string, seq<real>>, scores: map<string, seq<real>>)
    requires HitsAdded(targets, hits, |hits|, seen, before, scores)
    ensures seen == targets + HitTargets(hits, |hits|)
    ensures forall k :: ListOf(scores, k) == ListOf(before, k) + HitScores(hits, |hits|, k)
  {
    forall k ensures ListOf(scores, k) == ListOf(before, k) + HitScores(hits, |hits|, k) {
      assert ScoreAt(hits, |hits|, before, scores, k);
    }
  }

  method AddHit(input: Input, before: Pool, hit: Hit, ghost targets: set<TargetId>) returns (pool: Pool)
    requires FactsOk(input) && Holds(input, before.facts, targets)
    ensures Holds(input, pool.facts, targets + {hit.target})
    ensures forall k :: ListOf(pool.scores, k) == ListOf(before.scores, k) + HitScore(hit, k)
  {
    var t, key, facts := hit.target, RrfKey(hit.target), before.facts;
    if key !in facts {
      facts := facts[key := FactsFor(input, t)];
    } else if t in input.facts && input.facts[t].confidence > facts[key].confidence {
      facts := facts[key := input.facts[t]];
    }
    AddCandidate(input, before.facts, targets, t);
    ListNext(before.scores, key, hit.score);
    pool := Pool(facts, before.scores[key := ListOf(before.scores, key) + [hit.score]]);
  }

  lemma HitTargetsNext(hits: seq<Hit>, i: nat)
    requires i < |hits|
    ensures HitTargets(hits, i + 1) == HitTargets(hits, i) + {hits[i].target}
  {
  }

  method CollectChannels(input: Input) returns (pool: Pool)
    requires FactsOk(input)
    ensures Holds(input, pool.facts, ChannelTargets(input.channels))
    ensures forall k :: ListOf(pool.scores, k) == ChannelScores(input.channels, k)
  {
    pool := Pool(map[], map[]);
    for c := 0 to |input.channels|
      invariant Holds(input, pool.facts, ChannelTargets(input.channels[..c]))
      invariant forall k :: ListOf(pool.scores, k) == ChannelScores(input.channels[..c], k)
    {
      assert input.channels[..c + 1][..c] == input.channels[..c];
      pool := CollectHits(input, input.channels[c], pool, ChannelTargets(input.channels[..c]));
    }
    assert input.channels[..|input.channels|] == input.channels;
  }

  /** All candidates: the channels' hits, then every target with facts alone. */
  method Collect(input: Input) returns (pool: Pool)
    requires FactsOk(input)
    ensures Collected(input, pool)
  {
    pool := CollectChannels(input);
    pool := AddFacts(input, pool, ChannelTargets(input.channels));
  }

  /** Facts may be visited in any order. */
  method AddFacts(input: Input, before: Pool, ghost base: set<TargetId>) returns (pool: Pool)
    requires FactsOk(input) && Holds(input, before.facts, base)
    ensures Holds(input, pool.facts, base + input.facts.Keys) && pool.scores == before.scores
  {
    pool := before;
    var rest := input.facts.Keys;
    ghost var seen := base;
    while rest != {}
      invariant rest <= input.facts.Keys && Holds(input, pool.facts, seen) && pool.scores == before.scores
      invariant forall t :: t in seen <==> t in base || (t in input.facts && t !in rest)
      decreases |rest|
    {
      var t :| t in rest;
      AddCandidate(input, pool.facts, seen, t);
      if RrfKey(t) !in pool.facts {
        pool := pool.(facts := pool.facts[RrfKey(t) := input.facts[t]]);
      }
      rest, seen := rest - {t}, seen + {t};
    }
    assert seen == base + input.facts.Keys;
  }

  // ---- Filtering ----

  function Fused(q: Query, scores: map<string, seq<real>>, key: string): real {
    if ListOf(scores, key) != [] then q.fuse(ListOf(scores, key)) else 0.0
  }

  function Kept(q: Query, pool: Pool, keys: seq<string>): seq<Item>
    requires forall k :: k in keys ==> k in pool.facts
  {
    if keys == [] then [] else
      var k := keys[|keys| - 1];
      assert forall x :: x in keys[..|keys| - 1] ==> x in keys;
      Kept(q, pool, keys[..|keys| - 1]) +
      (if CheckFilters(pool.facts[k], q.filters).None? then [Item(pool.facts[k], Fused(q, pool.scores, k))] else [])
  }

  function Filtered(q: Query, pool: Pool, keys: seq<string>): seq<Dropped>
    requires forall k :: k in keys ==> k in pool.facts
  {
    if keys == [] then [] else
      var f := pool.facts[keys[|keys| - 1]];
      assert forall x :: x in keys[..|keys| - 1] ==> x in keys;
      Filtered(q, pool, keys[..|keys| - 1]) +
      (if CheckFilters(f, q.filters).Some? then [Dropped(f.target, CheckFilters(f, q.filters).value)] else [])
  }

  method Filter(q: Query, pool: Pool, keys: seq<string>) returns (items: seq<Item>, dropped: seq<Dropped>)
    requires forall k :: k in keys ==> k in pool.facts
    ensures items == Kept(q, pool, keys) && dropped == Filtered(q, pool, keys)
  {
    items, dropped := [], [];
    for i := 0 to |keys|
      invariant forall k :: k in keys[..i] ==> k in pool.facts
      invariant items == Kept(q, pool, keys[..i]) && dropped == Filtered(q, pool, keys[..i])
    {
      assert keys[..i + 1][..i] == keys[..i];
      assert keys[i] in keys;
      var facts := pool.facts[keys[i]];
      var reason := CheckFilters(facts, q.filters);
      if reason.Some? {
        dropped := dropped + [Dropped(facts.target, reason.value)];
        continue;
      }
      items := items + [Item(facts, Fused(q, pool.scores, keys[i]))];
    }
    assert keys[..|keys|] == keys;
  }

  // ---- Reranking ----

  function BoostOne(boost: (real, nat) -> real): Item -> Item {
    (x: Item) => x.(score := boost(x.score, x.facts.episodes))
  }

  function Boost(boost: (real, nat) -> real, items: seq<Item>): seq<Item> { Map(items, BoostOne(boost)) }

  /** The scores a reranker leaves behind: only corroboration changes any. */
  function Rescored(boost: (real, nat) -> real, items: seq<Item>, r: Rerank): seq<Item>
    decreases r
  {
    match r
    case Corroboration => Boost(boost, items)
    case Chain(steps) => RescoredAll(boost, items, steps)
    case _ => items
  }

  function RescoredAll(boost: (real, nat) -> real, items: seq<Item>, steps: seq<Rerank>): seq<Item>
    decreases steps
  {
    if steps == [] then items else RescoredAll(boost, Rescored(boost, items, steps[0]), steps[1..])
  }

  predicate SalienceOrder(a: Item, b: Item) { a.facts.salience >= b.facts.salience }

  /** Rerankers permute the items, and corroboration also rescores them. */
  method ApplyRerank(space: Mmr.Space, boost: (real, nat) -> real, items: seq<Item>, r: Rerank) returns (out: seq<Item>)
    ensures multiset(out) == multiset(Rescored(boost, items, r))
    decreases r
  {
    match r
    case NoRerank => out := items;
    case Corroboration => out := Boost(boost, items);
    case GraphDistance => out := Sort(items, SalienceOrder);
    case Diversity(lambda, ceiling) => out := Mmr.Rerank(space, Mmr.Settings(Mmr.Weighted(lambda), ceiling), items);
    case Chain(steps) => out := ApplyAll(space, boost, items, steps);
  }

  method ApplyAll(space: Mmr.Space, boost: (real, nat) -> real, items: seq<Item>, steps: seq<Rerank>) returns (out: seq<Item>)
    ensures multiset(out) == multiset(RescoredAll(boost, items, steps))
    decreases steps
  {
    out := items;
    if steps != [] {
      var first := ApplyRerank(space, boost, items, steps[0]);
      out := ApplyAll(space, boost, first, steps[1..]);
      RescoredSame(boost, first, Rescored(boost, items, steps[0]), steps[1..]);
    }
  }


  lemma {:induction false} RescoredSame(boost: (real, nat) -> real, a: seq<Item>, b: seq<Item>, steps: seq<Rerank>)
    requires multiset(a) == multiset(b)
    ensures multiset(RescoredAll(boost, a, steps)) == multiset(RescoredAll(boost, b, steps))
    decreases steps
  {
    if steps != [] {
      RescoredOneSame(boost, a, b, steps[0]);
      RescoredSame(boost, Rescored(boost, a, steps[0]), Rescored(boost, b, steps[0]), steps[1..]);
    }
  }

  lemma {:induction false} RescoredOneSame(boost: (real, nat) -> real, a: seq<Item>, b: seq<Item>, r: Rerank)
    requires multiset(a) == multiset(b)
    ensures multiset(Rescored(boost, a, r)) == multiset(Rescored(boost, b, r))
    decreases r
  {
    match r
    case Corroboration => MapMultiset(a, b, BoostOne(boost));
    case Chain(steps) => RescoredSame(boost, a, b, steps);
    case _ =>
  }

  // ---- Sorting and cutting ----

  function KindRank(t: TargetId): nat {
    match t
    case Statement(_) => 0
    case Episode(_) => 1
    case Entity(_) => 2
    case Chunk(_) => 3
    case Community(_) => 4
  }

  /** Higher score first, then evidence before navigation, then the key. */
  predicate RankOrder(a: Item, b: Item) {
    a.score > b.score
    || (a.score == b.score && (KindRank(a.facts.target) < KindRank(b.facts.target)
        || (KindRank(a.facts.target) == KindRank(b.facts.target)
            && AtMost(RrfKey(a.facts.target), RrfKey(b.facts.target)))))
  }

  lemma RankOrderTotal()
    ensures TotalPreorder(RankOrder)
  {
    AtMostIsTotalOrder();
    KeyedOrderTotal(AtMost);
    assert forall a, b :: RankOrder(a, b) <==> OrderBy(AtMost, a, b);
  }

  ghost predicate OrderBy(le: (string, string) -> bool, a: Item, b: Item) {
    a.score > b.score
    || (a.score == b.score && (KindRank(a.facts.target) < KindRank(b.facts.target)
        || (KindRank(a.facts.target) == KindRank(b.facts.target) && le(RrfKey(a.facts.target), RrfKey(b.facts.target)))))
  }

  lemma KeyedOrderTotal(le: (string, string) -> bool)
    requires TotalPreorder(le)
    ensures forall a, b :: OrderBy(le, a, b) || OrderBy(le, b, a)
    ensures forall a, b, c :: OrderBy(le, a, b) && OrderBy(le, b, c) ==> OrderBy(le, a, c)
  {
    forall a, b ensures OrderBy(le, a, b) || OrderBy(le, b, a) {
      assert le(RrfKey(a.facts.target), RrfKey(b.facts.target)) || le(RrfKey(b.facts.target), RrfKey(a.facts.target));
    }
    forall a, b, c | OrderBy(le, a, b) && OrderBy(le, b, c) ensures OrderBy(le, a, c) {
      var x, y, z := RrfKey(a.facts.target), RrfKey(b.facts.target), RrfKey(c.facts.target);
      assert le(x, y) && le(y, z) ==> le(x, z);
    }
  }

  function KeyOf(i: Item): string { RrfKey(i.facts.target) }

  function KeysOf(items: seq<Item>): seq<string> { Map(items, KeyOf) }

  function DroppedKey(d: Dropped): string { RrfKey(d.target) }

  function DroppedKeys(dropped: seq<Dropped>): seq<string> { Map(dropped, DroppedKey) }

  /** The kept items: the best `limit` of the rescored candidates that pass. */
  function Selected(q: Query, pool: Pool, keys: seq<string>): seq<Item>
    requires forall k :: k in keys ==> k in pool.facts
  {
    var sorted := Sort(Rescored(q.boost, Kept(q, pool, keys), q.rerank), RankOrder);
    if |sorted| <= q.limit then sorted else sorted[..q.limit]
  }

  /** The candidates that passed but did not fit, in key order, with their positions. */
  function Overflow(q: Query, pool: Pool, keys: seq<string>, kept: seq<string>, n: nat): seq<Dropped>
    requires n <= |keys| && forall k :: k in keys ==> k in pool.facts
  {
    if n == 0 then [] else
      var f := pool.facts[keys[n - 1]];
      Overflow(q, pool, keys, kept, n - 1) +
      (if CheckFilters(f, q.filters).None? && keys[n - 1] !in kept then [Dropped(f.target, TruncatedByBudget(n - 1))] else [])
  }

  function Outcome(q: Query, pool: Pool): Ranked {
    var keys := Ascending(pool.facts.Keys);
    var items := Selected(q, pool, keys);
    Ranked(items, Filtered(q, pool, keys) + Overflow(q, pool, keys, KeysOf(items), |keys|), |pool.facts|)
  }

  /** Two arrangements of items with different keys sort to the same list: the rank order is
      strict on them. */
  lemma SortedSame(a: seq<Item>, b: seq<Item>)
    requires multiset(a) == multiset(b) && Distinct(KeysOf(a))
    ensures Sort(a, RankOrder) == Sort(b, RankOrder)
  {
    KeysDistinctSame(a, Sort(a, RankOrder));
    KeysDistinctSame(a, Sort(b, RankOrder));
    RankOrderTotal();
    SortSorts(a, RankOrder);
    SortSorts(b, RankOrder);
    SortElements(a, RankOrder);
    SortElements(b, RankOrder);
    SameElements(a, b);
    StrictRank(Sort(a, RankOrder));
    StrictRank(Sort(b, RankOrder));
    StrictAsymmetric();
    StrictlySortedUnique(Sort(a, RankOrder), Sort(b, RankOrder), Ahead);
  }

  predicate Ahead(a: Item, b: Item) { RankOrder(a, b) && KeyOf(a) != KeyOf(b) }

  lemma StrictAsymmetric()
    ensures forall x, y :: Ahead(x, y) ==> !Ahead(y, x)
  {
    AtMostIsTotalOrder();
  }

  lemma StrictRank(s: seq<Item>)
    requires SortedBy(s, RankOrder) && Distinct(KeysOf(s))
    ensures StrictlySorted(s, Ahead)
  {
    forall i, j | 0 <= i < j < |s| ensures Ahead(s[i], s[j]) {
      assert KeysOf(s)[i] != KeysOf(s)[j];
    }
  }

  lemma KeysDistinctSame(a: seq<Item>, b: seq<Item>)
    requires multiset(a) == multiset(b) && Distinct(KeysOf(a))
    ensures Distinct(KeysOf(b))
  {
    MapMultiset(a, b, KeyOf);
    DistinctMultiset(KeysOf(a));
    MultisetDistinct(KeysOf(b));
  }

  // ---- Every candidate exactly once ----

  ghost predicate Keyed(pool: Pool) {
    forall k {:trigger KeyedAt(pool, k)} :: k in pool.facts ==> KeyedAt(pool, k)
  }

  predicate KeyedAt(pool: Pool, k: string)
    requires k in pool.facts
  {
    RrfKey(pool.facts[k].target) == k
  }

  lemma HoldsKeyed(input: Input, pool: Pool, targets: set<TargetId>)
    requires Holds(input, pool.facts, targets)
    ensures Keyed(pool)
  {
    forall k | k in pool.facts ensures KeyedAt(pool, k) { assert EntryOk(input, pool.facts, targets, k); }
  }

  /** The filters split the keys: each is kept or filtered, once. */
  lemma {:induction false} SplitKeys(q: Query, pool: Pool, keys: seq<string>)
    requires Keyed(pool) && forall k :: k in keys ==> k in pool.facts
    ensures multiset(KeysOf(Kept(q, pool, keys))) + multiset(DroppedKeys(Filtered(q, pool, keys))) == multiset(keys)
  {
    if keys != [] {
      var front, k := keys[..|keys| - 1], keys[|keys| - 1];
      assert keys == front + [k];
      assert KeyedAt(pool, k);
      SplitKeys(q, pool, front);
      SplitStep(Kept(q, pool, front), Filtered(q, pool, front), Item(pool.facts[k], Fused(q, pool.scores, k)),
                pool.facts[k].target, k);
    }
  }

  lemma SplitStep(kept: seq<Item>, filtered: seq<Dropped>, item: Item, t: TargetId, k: string)
    requires item.facts.target == t && RrfKey(t) == k
    ensures KeysOf(kept + [item]) == KeysOf(kept) + [k] && KeysOf(kept + []) == KeysOf(kept)
    ensures forall r :: DroppedKeys(filtered + [Dropped(t, r)]) == DroppedKeys(filtered) + [k]
    ensures DroppedKeys(filtered + []) == DroppedKeys(filtered)
  {
    MapConcat(kept, [item], KeyOf);
    assert kept + [] == kept && filtered + [] == filtered;
    forall r ensures DroppedKeys(filtered + [Dropped(t, r)]) == DroppedKeys(filtered) + [k] {
      MapConcat(filtered, [Dropped(t, r)], DroppedKey);
    }
  }

  lemma {:induction false} RescoredKeys(boost: (real, nat) -> real, items: seq<Item>, r: Rerank)
    ensures Map(Rescored(boost, items, r), FactsOf) == Map(items, FactsOf)
    decreases r
  {
    match r
    case Chain(steps) => RescoredAllKeys(boost, items, steps);
    case _ =>
  }

  function FactsOf(i: Item): Facts { i.facts }

  lemma {:induction false} RescoredAllKeys(boost: (real, nat) -> real, items: seq<Item>, steps: seq<Rerank>)
    ensures Map(RescoredAll(boost, items, steps), FactsOf) == Map(items, FactsOf)
    decreases steps
  {
    if steps != [] {
      RescoredKeys(boost, items, steps[0]);
      RescoredAllKeys(boost, Rescored(boost, items, steps[0]), steps[1..]);
    }
  }

  lemma SameFactsKeys(a: seq<Item>, b: seq<Item>)
    requires Map(a, FactsOf) == Map(b, FactsOf)
    ensures KeysOf(a) == KeysOf(b)
  {
    assert |a| == |Map(a, FactsOf)| == |b|;
    forall i | 0 <= i < |a| ensures KeyOf(a[i]) == KeyOf(b[i]) {
      assert Map(a, FactsOf)[i] == Map(b, FactsOf)[i];
    }
  }

  /** All candidates that pass, best first. */
  function Lineup(q: Query, pool: Pool, keys: seq<string>): seq<Item>
    requires forall k :: k in keys ==> k in pool.facts
  {
    Sort(Rescored(q.boost, Kept(q, pool, keys), q.rerank), RankOrder)
  }

  lemma LineupKeys(q: Query, pool: Pool, keys: seq<string>)
    requires forall k :: k in keys ==> k in pool.facts
    ensures multiset(KeysOf(Lineup(q, pool, keys))) == multiset(KeysOf(Kept(q, pool, keys)))
  {
    var kept := Kept(q, pool, keys);
    RescoredKeys(q.boost, kept, q.rerank);
    SameFactsKeys(Rescored(q.boost, kept, q.rerank), kept);
    MapMultiset(Lineup(q, pool, keys), Rescored(q.boost, kept, q.rerank), KeyOf);
  }

  lemma KeptNext(q: Query, pool: Pool, keys: seq<string>, i: nat)
    requires i < |keys| && forall k :: k in keys ==> k in pool.facts
    ensures (forall k :: k in keys[..i] ==> k in pool.facts) && (forall k :: k in keys[..i + 1] ==> k in pool.facts)
    ensures keys[i] in pool.facts && Kept(q, pool, keys[..i + 1]) == Kept(q, pool, keys[..i])
      + (if CheckFilters(pool.facts[keys[i]], q.filters).None?
         then [Item(pool.facts[keys[i]], Fused(q, pool.scores, keys[i]))] else [])
  {
    assert keys[i] in keys;
    assert forall k :: k in keys[..i + 1] ==> k in keys;
    assert forall k :: k in keys[..i] ==> k in keys;
    assert keys[..i + 1][..i] == keys[..i];
  }

  /** The key the n-th candidate adds to a list when `there`. */
  function KeyIf(k: string, there: bool): seq<string> { if there then [k] else [] }

  lemma KeysNext(q: Query, pool: Pool, keys: seq<string>, kept: seq<string>, i: nat)
    requires Keyed(pool) && i < |keys| && forall k :: k in keys ==> k in pool.facts
    ensures (forall k :: k in keys[..i] ==> k in pool.facts) && (forall k :: k in keys[..i + 1] ==> k in pool.facts)
    ensures keys[i] in pool.facts
    ensures var passes := CheckFilters(pool.facts[keys[i]], q.filters).None?;
      && KeysOf(Kept(q, pool, keys[..i + 1])) == KeysOf(Kept(q, pool, keys[..i])) + KeyIf(keys[i], passes)
      && DroppedKeys(Overflow(q, pool, keys, kept, i + 1))
        == DroppedKeys(Overflow(q, pool, keys, kept, i)) + KeyIf(keys[i], passes && keys[i] !in kept)
  {
    KeptNext(q, pool, keys, i);
    assert KeyedAt(pool, keys[i]);
    SplitStep(Kept(q, pool, keys[..i]), Overflow(q, pool, keys, kept, i),
              Item(pool.facts[keys[i]], Fused(q, pool.scores, keys[i])), pool.facts[keys[i]].target, keys[i]);
  }

  lemma CountNext(over: seq<string>, passed: seq<string>, kept: seq<string>, k: string, passes: bool, x: string)
    requires multiset(over)[x] == if x in kept then 0 else multiset(passed)[x]
    ensures multiset(over + KeyIf(k, passes && k !in kept))[x]
      == if x in kept then 0 else multiset(passed + KeyIf(k, passes))[x]
  {
  }

  lemma {:induction false} OverflowCounts(q: Query, pool: Pool, keys: seq<string>, kept: seq<string>, n: nat, x: string)
    requires Keyed(pool) && n <= |keys| && forall k :: k in keys ==> k in pool.facts
    ensures forall k :: k in keys[..n] ==> k in pool.facts
    ensures multiset(DroppedKeys(Overflow(q, pool, keys, kept, n)))[x] ==
      if x in kept then 0 else multiset(KeysOf(Kept(q, pool, keys[..n])))[x]
    decreases n
  {
    assert forall k :: k in keys[..n] ==> k in keys;
    if n > 0 {
      var i: nat := n - 1;
      OverflowCounts(q, pool, keys, kept, i, x);
      KeysNext(q, pool, keys, kept, i);
      CountNext(DroppedKeys(Overflow(q, pool, keys, kept, i)), KeysOf(Kept(q, pool, keys[..i])), kept, keys[i],
                CheckFilters(pool.facts[keys[i]], q.filters).None?, x);
    }
  }

  /** What is selected and what overflows make up what passed. */
  lemma OverflowCompletes(q: Query, pool: Pool, keys: seq<string>)
    requires Keyed(pool) && Distinct(keys) && forall k :: k in keys ==> k in pool.facts
    ensures multiset(KeysOf(Selected(q, pool, keys)))
      + multiset(DroppedKeys(Overflow(q, pool, keys, KeysOf(Selected(q, pool, keys)), |keys|)))
      == multiset(KeysOf(Kept(q, pool, keys)))
  {
    KeptDistinct(q, pool, keys);
    forall x { CompletesAt(q, pool, keys, x); }
    SameCounts(multiset(KeysOf(Selected(q, pool, keys))),
               multiset(DroppedKeys(Overflow(q, pool, keys, KeysOf(Selected(q, pool, keys)), |keys|))),
               multiset(KeysOf(Kept(q, pool, keys))));
  }

  lemma CompletesAt(q: Query, pool: Pool, keys: seq<string>, x: string)
    requires Keyed(pool) && (forall k :: k in keys ==> k in pool.facts) && Distinct(KeysOf(Kept(q, pool, keys)))
    ensures multiset(KeysOf(Selected(q, pool, keys)))[x]
      + multiset(DroppedKeys(Overflow(q, pool, keys, KeysOf(Selected(q, pool, keys)), |keys|)))[x]
      == multiset(KeysOf(Kept(q, pool, keys)))[x]
  {
    OverflowCounts(q, pool, keys, KeysOf(Selected(q, pool, keys)), |keys|, x);
    assert keys[..|keys|] == keys;
    SelectedCounts(q, pool, keys, x);
  }

  lemma SameCounts(a: multiset<string>, b: multiset<string>, c: multiset<string>)
    requires forall x :: a[x] + b[x] == c[x]
    ensures a + b == c
  {
  }

  lemma ListedOnce(q: Query, pool: Pool, keys: seq<string>)
    requires Keyed(pool) && Distinct(keys) && forall k :: k in keys ==> k in pool.facts
    ensures var items := Selected(q, pool, keys);
      var dropped := Filtered(q, pool, keys) + Overflow(q, pool, keys, KeysOf(items), |keys|);
      multiset(KeysOf(items)) + multiset(DroppedKeys(dropped)) == multiset(keys)
  {
    SplitKeys(q, pool, keys);
    OverflowCompletes(q, pool, keys);
    MapConcat(Filtered(q, pool, keys), Overflow(q, pool, keys, KeysOf(Selected(q, pool, keys)), |keys|), DroppedKey);
  }

  /** Every candidate's key appears exactly once, in the items or among the dropped. */
  lemma OutcomeConserves(q: Query, pool: Pool)
    requires Keyed(pool)
    ensures multiset(KeysOf(Outcome(q, pool).items)) + multiset(DroppedKeys(Outcome(q, pool).dropped))
      == multiset(pool.facts.Keys)
    ensures Outcome(q, pool).total == |pool.facts|
  {
    AscendingDistinct(pool.facts.Keys);
    ListedOnce(q, pool, Ascending(pool.facts.Keys));
    DistinctSet(Ascending(pool.facts.Keys), pool.facts.Keys);
  }

  lemma KeptDistinct(q: Query, pool: Pool, keys: seq<string>)
    requires Keyed(pool) && Distinct(keys) && forall k :: k in keys ==> k in pool.facts
    ensures Distinct(KeysOf(Kept(q, pool, keys)))
  {
    SplitKeys(q, pool, keys);
    DistinctMultiset(keys);
    var kept := KeysOf(Kept(q, pool, keys));
    assert forall x :: multiset(kept)[x] <= multiset(keys)[x];
    MultisetDistinct(kept);
  }

  lemma PrefixCounts(all: seq<string>, line: seq<string>, n: nat, x: string)
    requires multiset(line) == multiset(all) && Distinct(all) && n <= |line|
    ensures multiset(line[..n])[x] == if x in line[..n] then multiset(all)[x] else 0
  {
    DistinctMultiset(all);
    assert line == line[..n] + line[n..];
  }

  /** A key is selected as often as it passes, or not at all. */
  lemma SelectedCounts(q: Query, pool: Pool, keys: seq<string>, x: string)
    requires (forall k :: k in keys ==> k in pool.facts) && Distinct(KeysOf(Kept(q, pool, keys)))
    ensures multiset(KeysOf(Selected(q, pool, keys)))[x] ==
      if x in KeysOf(Selected(q, pool, keys)) then multiset(KeysOf(Kept(q, pool, keys)))[x] else 0
  {
    var n := |Selected(q, pool, keys)|;
    LineupKeys(q, pool, keys);
    SelectedPrefix(q, pool, keys);
    PrefixCounts(KeysOf(Kept(q, pool, keys)), KeysOf(Lineup(q, pool, keys)), n, x);
  }

  lemma SelectedPrefix(q: Query, pool: Pool, keys: seq<string>)
    requires forall k :: k in keys ==> k in pool.facts
    ensures var n := |Selected(q, pool, keys)|;
      n <= |Lineup(q, pool, keys)| && KeysOf(Selected(q, pool, keys)) == KeysOf(Lineup(q, pool, keys))[..n]
  {
  }

  lemma {:induction false} KeptPasses(q: Query, pool: Pool, keys: seq<string>, item: Item)
    requires Keyed(pool) && forall k :: k in keys ==> k in pool.facts
    requires item in Kept(q, pool, keys)
    ensures Passes(item.facts, q.filters) && KeyOf(item) in keys && item.facts == pool.facts[KeyOf(item)]
  {
    var front, k := keys[..|keys| - 1], keys[|keys| - 1];
    assert keys == front + [k];
    assert k in keys && KeyedAt(pool, k);
    FiltersExact(pool.facts[k], q.filters);
    if item in Kept(q, pool, front) { KeptPasses(q, pool, front, item); }
  }

  lemma LineupSound(q: Query, pool: Pool, keys: seq<string>, i: nat)
    requires Keyed(pool) && (forall k :: k in keys ==> k in pool.facts) && i < |Lineup(q, pool, keys)|
    ensures var line := Lineup(q, pool, keys);
      && Passes(line[i].facts, q.filters)
      && KeyOf(line[i]) in pool.facts && line[i].facts == pool.facts[KeyOf(line[i])]
  {
    var line, kept := Lineup(q, pool, keys), Kept(q, pool, keys);
    var rescored := Rescored(q.boost, kept, q.rerank);
    var j := SameElementAt(line, rescored, i);
    RescoredKeys(q.boost, kept, q.rerank);
    assert Map(rescored, FactsOf)[j] == Map(kept, FactsOf)[j];
    KeptPasses(q, pool, keys, kept[j]);
  }

  lemma LineupSorted(q: Query, pool: Pool, keys: seq<string>)
    requires forall k :: k in keys ==> k in pool.facts
    ensures SortedBy(Lineup(q, pool, keys), RankOrder)
  {
    RankOrderTotal();
    SortSorts(Rescored(q.boost, Kept(q, pool, keys), q.rerank), RankOrder);
  }

  /** Every ranked item passes the filters, carries its candidate's facts, and is in order
      within the limit. */
  lemma ItemsSound(q: Query, pool: Pool, i: nat)
    requires Keyed(pool) && i < |Outcome(q, pool).items|
    ensures var items := Outcome(q, pool).items;
      && Passes(items[i].facts, q.filters)
      && KeyOf(items[i]) in pool.facts && items[i].facts == pool.facts[KeyOf(items[i])]
      && SortedBy(items, RankOrder) && |items| <= q.limit
  {
    LineupSound(q, pool, Ascending(pool.facts.Keys), i);
    LineupSorted(q, pool, Ascending(pool.facts.Keys));
  }

  /** The drop records the filter the candidate failed. */
  ghost predicate FailedFilter(q: Query, pool: Pool, d: Dropped) {
    && RrfKey(d.target) in pool.facts && !Passes(pool.facts[RrfKey(d.target)], q.filters)
    && CheckFilters(pool.facts[RrfKey(d.target)], q.filters) == Some(d.reason)
  }

  /** The candidate's own scored item, as it stands in the line-up, has every ranked item ahead of it. */
  ghost predicate BehindAll(q: Query, pool: Pool, keys: seq<string>, items: seq<Item>, k: string)
    requires forall x :: x in keys ==> x in pool.facts
  {
    exists x :: x in Lineup(q, pool, keys) && KeyOf(x) == k && forall i :: 0 <= i < |items| ==> RankOrder(items[i], x)
  }

  /** The candidate passed, the limit is used up, and every ranked item is ahead of it. */
  ghost predicate CutOff(q: Query, pool: Pool, keys: seq<string>, items: seq<Item>, d: Dropped)
    requires forall x :: x in keys ==> x in pool.facts
  {
    && RrfKey(d.target) in pool.facts && Passes(pool.facts[RrfKey(d.target)], q.filters)
    && d.reason.TruncatedByBudget? && |items| == q.limit
    && BehindAll(q, pool, keys, items, RrfKey(d.target))
  }

  lemma {:induction false} FilteredMeaning(q: Query, pool: Pool, keys: seq<string>, d: Dropped)
    requires Keyed(pool) && forall k :: k in keys ==> k in pool.facts
    requires d in Filtered(q, pool, keys)
    ensures FailedFilter(q, pool, d)
  {
    var front, k := keys[..|keys| - 1], keys[|keys| - 1];
    assert keys == front + [k];
    assert k in keys && KeyedAt(pool, k);
    FiltersExact(pool.facts[k], q.filters);
    if d in Filtered(q, pool, front) { FilteredMeaning(q, pool, front, d); }
  }

  lemma {:induction false} OverflowMeaning(q: Query, pool: Pool, keys: seq<string>, kept: seq<string>, n: nat, d: Dropped)
    requires Keyed(pool) && n <= |keys| && forall k :: k in keys ==> k in pool.facts
    requires d in Overflow(q, pool, keys, kept, n)
    ensures RrfKey(d.target) in keys && CheckFilters(pool.facts[RrfKey(d.target)], q.filters).None?
    ensures RrfKey(d.target) !in kept && d.reason.TruncatedByBudget?
    decreases n
  {
    var k := keys[n - 1];
    assert k in keys && KeyedAt(pool, k);
    if d in Overflow(q, pool, keys, kept, n - 1) { OverflowMeaning(q, pool, keys, kept, n - 1, d); }
  }

  lemma {:induction false} PassingKept(q: Query, pool: Pool, keys: seq<string>, k: string)
    requires Keyed(pool) && (forall x :: x in keys ==> x in pool.facts)
    requires k in keys && CheckFilters(pool.facts[k], q.filters).None?
    ensures k in KeysOf(Kept(q, pool, keys))
  {
    var front, last := keys[..|keys| - 1], keys[|keys| - 1];
    assert keys == front + [last];
    assert last in keys && KeyedAt(pool, last);
    var item := Item(pool.facts[last], Fused(q, pool.scores, last));
    if k == last {
      assert KeysOf(Kept(q, pool, front) + [item])[|Kept(q, pool, front)|] == k;
    } else {
      PassingKept(q, pool, front, k);
      MapConcat(Kept(q, pool, front), [item], KeyOf);
      assert Kept(q, pool, front) + [] == Kept(q, pool, front);
    }
  }

  /** A passing candidate left out of the items stands behind all of them in the line-up. */
  lemma OverflowBehind(q: Query, pool: Pool, keys: seq<string>, k: string)
    requires Keyed(pool) && (forall x :: x in keys ==> x in pool.facts)
    requires k in KeysOf(Kept(q, pool, keys)) && k !in KeysOf(Selected(q, pool, keys))
    ensures |Selected(q, pool, keys)| == q.limit
    ensures BehindAll(q, pool, keys, Selected(q, pool, keys), k)
  {
    var line, n := Lineup(q, pool, keys), |Selected(q, pool, keys)|;
    LineupKeys(q, pool, keys);
    SelectedPrefix(q, pool, keys);
    LineupSorted(q, pool, keys);
    SameElements(KeysOf(line), KeysOf(Kept(q, pool, keys)));
    var j := BeyondPrefix(KeysOf(line), n, k);
    assert line[j] in line && KeyOf(line[j]) == k;
    assert |line| > q.limit || n == |line|;
  }

  lemma BeyondPrefix(s: seq<string>, n: nat, k: string) returns (j: nat)
    requires n <= |s| && k in s && k !in s[..n]
    ensures n <= j < |s| && s[j] == k
  {
    j :| 0 <= j < |s| && s[j] == k;
    assert forall i :: 0 <= i < n ==> s[..n][i] == s[i] && s[i] in s[..n];
  }

  /** Every drop is explained: a failed filter, or the limit. */
  lemma DropsSound(q: Query, pool: Pool, d: Dropped)
    requires Keyed(pool) && d in Outcome(q, pool).dropped
    ensures FailedFilter(q, pool, d) || CutOff(q, pool, Ascending(pool.facts.Keys), Outcome(q, pool).items, d)
  {
    DropsOver(q, pool, Ascending(pool.facts.Keys), d);
  }

  lemma DropsOver(q: Query, pool: Pool, keys: seq<string>, d: Dropped)
    requires Keyed(pool) && forall k :: k in keys ==> k in pool.facts
    requires d in Filtered(q, pool, keys) + Overflow(q, pool, keys, KeysOf(Selected(q, pool, keys)), |keys|)
    ensures FailedFilter(q, pool, d) || CutOff(q, pool, keys, Selected(q, pool, keys), d)
  {
    if d in Filtered(q, pool, keys) {
      FilteredMeaning(q, pool, keys, d);
    } else {
      OverflowMeaning(q, pool, keys, KeysOf(Selected(q, pool, keys)), |keys|, d);
      var k := RrfKey(d.target);
      FiltersExact(pool.facts[k], q.filters);
      PassingKept(q, pool, keys, k);
      OverflowBehind(q, pool, keys, k);
    }
  }

  /** Each candidate of the input appears once, ranked or dropped; nothing else appears. */
  lemma Conservation(input: Input, q: Query, pool: Pool, t: TargetId)
    requires Collected(input, pool)
    ensures var r := Outcome(q, pool);
      multiset(KeysOf(r.items))[RrfKey(t)] + multiset(DroppedKeys(r.dropped))[RrfKey(t)]
        == if t in Candidates(input) then 1 else 0
  {
    HoldsKeyed(input, pool, Candidates(input));
    OutcomeConserves(q, pool);
    CandidateKey(input, pool, t);
    CountedOnce(KeysOf(Outcome(q, pool).items), DroppedKeys(Outcome(q, pool).dropped), pool.facts.Keys, RrfKey(t));
  }

  lemma CountedOnce(a: seq<string>, b: seq<string>, keys: set<string>, k: string)
    requires multiset(a) + multiset(b) == multiset(keys)
    ensures multiset(a)[k] + multiset(b)[k] == if k in keys then 1 else 0
  {
    assert (multiset(a) + multiset(b))[k] == multiset(keys)[k];
  }

  lemma CandidateKey(input: Input, pool: Pool, t: TargetId)
    requires Collected(input, pool)
    ensures RrfKey(t) in pool.facts <==> t in Candidates(input)
  {
    if RrfKey(t) in pool.facts {
      assert EntryOk(input, pool.facts, Candidates(input), RrfKey(t));
      RrfKeyInjective(pool.facts[RrfKey(t)].target, t);
    }
  }

  // ---- What reranking can change ----

  /** No corroboration anywhere in the reranker. */
  predicate ScoreFree(r: Rerank)
    decreases r
  {
    match r
    case Corroboration => false
    case Chain(steps) => forall i :: 0 <= i < |steps| ==> ScoreFree(steps[i])
    case _ => true
  }

  lemma {:induction false} ScoreFreeRescores(boost: (real, nat) -> real, items: seq<Item>, r: Rerank)
    requires ScoreFree(r)
    ensures Rescored(boost, items, r) == items
    decreases r
  {
    match r
    case Chain(steps) => ScoreFreeAll(boost, items, steps);
    case _ =>
  }

  lemma {:induction false} ScoreFreeAll(boost: (real, nat) -> real, items: seq<Item>, steps: seq<Rerank>)
    requires forall i :: 0 <= i < |steps| ==> ScoreFree(steps[i])
    ensures RescoredAll(boost, items, steps) == items
    decreases steps
  {
    if steps != [] {
      ScoreFreeRescores(boost, items, steps[0]);
      ScoreFreeAll(boost, items, steps[1..]);
    }
  }

  /** The final sort undoes every reranker that only reorders: with diversity or graph distance
      the ranking is the one without reranking. */
  lemma ReorderingUndone(q: Query, pool: Pool)
    requires ScoreFree(q.rerank)
    ensures Outcome(q, pool) == Outcome(q.(rerank := NoRerank), pool)
  {
    var keys, plain := Ascending(pool.facts.Keys), q.(rerank := NoRerank);
    KeptAgrees(q, pool, keys);
    FilteredAgrees(q, pool, keys);
    ScoreFreeRescores(q.boost, Kept(q, pool, keys), q.rerank);
    OverflowAgrees(q, pool, keys, KeysOf(Selected(q, pool, keys)), |keys|);
  }

  lemma {:induction false} KeptAgrees(q: Query, pool: Pool, keys: seq<string>)
    requires forall k :: k in keys ==> k in pool.facts
    ensures Kept(q.(rerank := NoRerank), pool, keys) == Kept(q, pool, keys)
  {
    if keys != [] {
      assert forall x :: x in keys[..|keys| - 1] ==> x in keys;
      KeptAgrees(q, pool, keys[..|keys| - 1]);
    }
  }

  lemma {:induction false} FilteredAgrees(q: Query, pool: Pool, keys: seq<string>)
    requires forall k :: k in keys ==> k in pool.facts
    ensures Filtered(q.(rerank := NoRerank), pool, keys) == Filtered(q, pool, keys)
  {
    if keys != [] {
      assert forall x :: x in keys[..|keys| - 1] ==> x in keys;
      FilteredAgrees(q, pool, keys[..|keys| - 1]);
    }
  }

  lemma {:induction false} OverflowAgrees(q: Query, pool: Pool, keys: seq<string>, kept: seq<string>, n: nat)
    requires n <= |keys| && forall k :: k in keys ==> k in pool.facts
    ensures Overflow(q.(rerank := NoRerank), pool, keys, kept, n) == Overflow(q, pool, keys, kept, n)
    decreases n
  {
    if n > 0 { OverflowAgrees(q, pool, keys, kept, n - 1); }
  }

  // ---- The whole operation ----

  /** Collected, filtered, reranked, sorted, cut: the outcome of the pool. */
  method Rank(input: Input, q: Query) returns (r: Ranked)
    requires FactsOk(input)
    ensures exists pool :: Collected(input, pool) && r == Outcome(q, pool)
  {
    var pool := Collect(input);
    HoldsKeyed(input, pool, Candidates(input));
    AscendingDistinct(pool.facts.Keys);
    r := RankPool(q, input.space, pool, Ascending(pool.facts.Keys));
    assert r == Outcome(q, pool);
  }

  method RankPool(q: Query, space: Mmr.Space, pool: Pool, keys: seq<string>) returns (r: Ranked)
    requires Keyed(pool) && Distinct(keys) && forall k :: k in keys ==> k in pool.facts
    ensures r.items == Selected(q, pool, keys) && r.total == |pool.facts|
    ensures r.dropped == Filtered(q, pool, keys) + Overflow(q, pool, keys, KeysOf(r.items), |keys|)
  {
    var items, dropped := Filter(q, pool, keys);
    var reranked := ApplyRerank(space, q.boost, items, q.rerank);
    KeptDistinct(q, pool, keys);
    RescoredKeys(q.boost, items, q.rerank);
    SameFactsKeys(Rescored(q.boost, items, q.rerank), items);
    SortedSame(Rescored(q.boost, items, q.rerank), reranked);
    items := Sort(reranked, RankOrder);
    if |items| > q.limit { items := items[..q.limit]; }
    var late := CollectOverflow(q, pool, keys, items, dropped);
    r := Ranked(items, dropped + late, |pool.facts|);
  }

  /** Candidates neither ranked nor already dropped. */
  method CollectOverflow(q: Query, pool: Pool, keys: seq<string>, items: seq<Item>, dropped: seq<Dropped>)
    returns (late: seq<Dropped>)
    requires Keyed(pool) && Distinct(keys) && forall k :: k in keys ==> k in pool.facts
    requires dropped == Filtered(q, pool, keys)
    ensures late == Overflow(q, pool, keys, KeysOf(items), |keys|)
  {
    late := [];
    var kept, gone := KeysOf(items), DroppedKeys(dropped);
    for n := 0 to |keys|
      invariant late == Overflow(q, pool, keys, kept, n)
    {
      assert keys[n] in keys;
      GoneFailed(q, pool, keys, keys[n]);
      if keys[n] !in kept && keys[n] !in gone {
        late := late + [Dropped(pool.facts[keys[n]].target, TruncatedByBudget(n))];
      }
    }
  }

  /** A key is among the filtered ones exactly when its candidate fails a filter. */
  lemma GoneFailed(q: Query, pool: Pool, keys: seq<string>, k: string)
    requires Keyed(pool) && Distinct(keys) && (forall x :: x in keys ==> x in pool.facts) && k in keys
    ensures k in DroppedKeys(Filtered(q, pool, keys)) <==> CheckFilters(pool.facts[k], q.filters).Some?
  {
    var gone := Filtered(q, pool, keys);
    if k in DroppedKeys(gone) {
      var i :| 0 <= i < |gone| && DroppedKeys(gone)[i] == k;
      assert gone[i] in gone;
      FilteredMeaning(q, pool, keys, gone[i]);
    }
    if CheckFilters(pool.facts[k], q.filters).Some? {
      FailedDropped(q, pool, keys, k);
    }
  }

  lemma {:induction false} FailedDropped(q: Query, pool: Pool, keys: seq<string>, k: string)
    requires Keyed(pool) && (forall x :: x in keys ==> x in pool.facts)
    requires k in keys && CheckFilters(pool.facts[k], q.filters).Some?
    ensures k in DroppedKeys(Filtered(q, pool, keys))
  {
    var front, last := keys[..|keys| - 1], keys[|keys| - 1];
    assert keys == front + [last];
    assert last in keys && KeyedAt(pool, last);
    var before := Filtered(q, pool, front);
    if k == last {
      assert DroppedKeys(Filtered(q, pool, keys))[|before|] == k;
    } else {
      FailedDropped(q, pool, front, k);
      var i :| 0 <= i < |before| && DroppedKeys(before)[i] == k;
      assert DroppedKeys(Filtered(q, pool, keys))[i] == k;
    }
  }
}
