/** The score, the place and the fate of every candidate, in terms of the input. */
module RankMeaning {
  import opened Orders
  import opened RankModel
  import opened Ranking
  import Adjacency
  import TemporalFold

  // ---- The score of a candidate ----

  /** How often a reranker corroborates. */
  function Corroborations(r: Rerank): nat
    decreases r
  {
    match r
    case Corroboration => 1
    case Chain(steps) => CorroborationsIn(steps)
    case _ => 0
  }

  function CorroborationsIn(steps: seq<Rerank>): nat
    decreases steps
  {
    if steps == [] then 0 else Corroborations(steps[0]) + CorroborationsIn(steps[1..])
  }

  /** A score boosted `n` times over. */
  function Boosted(boost: (real, nat) -> real, score: real, episodes: nat, n: nat): real {
    if n == 0 then score else boost(Boosted(boost, score, episodes, n - 1), episodes)
  }

  /** What the channels say of a target: its scores, channel by channel, fused; zero when there
      are none. */
  function FusedScore(input: Input, q: Query, t: TargetId): real {
    var scores := ChannelScores(input.channels, RrfKey(t));
    if |scores| == 0 then 0.0 else q.fuse(scores)
  }

  function SuppliedFacts(input: Input, t: TargetId): Facts {
    if t in input.facts then input.facts[t] else
      Facts(t, 0.0, TIME_MIN, TIME_MAX, TIME_MIN, None, TemporalFold.SemiTrusted, "", 0.0, 0)
  }

  /** The score a candidate is ranked by. */
  function FinalScore(input: Input, q: Query, t: TargetId): real {
    Boosted(q.boost, FusedScore(input, q, t), SuppliedFacts(input, t).episodes, Corroborations(q.rerank))
  }

  lemma {:induction false} BoostedAdds(boost: (real, nat) -> real, score: real, episodes: nat, m: nat, n: nat)
    ensures Boosted(boost, Boosted(boost, score, episodes, m), episodes, n) == Boosted(boost, score, episodes, m + n)
    decreases n
  {
    if n > 0 { BoostedAdds(boost, score, episodes, m, n - 1); }
  }

  /** Item `i` has been boosted `n` times and keeps its facts. */
  ghost predicate BoostedAt(boost: (real, nat) -> real, before: seq<Item>, after: seq<Item>, n: nat, i: nat)
    requires i < |before| && |before| == |after|
  {
    after[i] == Item(before[i].facts, Boosted(boost, before[i].score, before[i].facts.episodes, n))
  }

  ghost predicate AllBoosted(boost: (real, nat) -> real, before: seq<Item>, after: seq<Item>, n: nat) {
    && |after| == |before|
    && forall i: nat {:trigger BoostedAt(boost, before, after, n, i)} :: i < |before| ==> BoostedAt(boost, before, after, n, i)
  }

  lemma {:induction false} RescoredBoosts(boost: (real, nat) -> real, items: seq<Item>, r: Rerank) returns (after: seq<Item>)
    ensures after == Rescored(boost, items, r) && AllBoosted(boost, items, after, Corroborations(r))
    decreases r
  {
    match r
    case Corroboration => after := Boost(boost, items); BoostedOnce(boost, items);
    case Chain(steps) => after := RescoredAllBoosts(boost, items, steps);
    case _ => after := items; NotBoosted(boost, items);
  }

  lemma NotBoosted(boost: (real, nat) -> real, items: seq<Item>)
    ensures AllBoosted(boost, items, items, 0)
  {
    forall i: nat | i < |items| ensures BoostedAt(boost, items, items, 0, i) {
      assert items[i] == Item(items[i].facts, items[i].score);
    }
  }

  lemma BoostedOnce(boost: (real, nat) -> real, items: seq<Item>)
    ensures AllBoosted(boost, items, Boost(boost, items), 1)
  {
    forall i: nat | i < |items| ensures BoostedAt(boost, items, Boost(boost, items), 1, i) {
      assert Boost(boost, items)[i] == BoostOne(boost)(items[i]);
      assert Boosted(boost, items[i].score, items[i].facts.episodes, 0) == items[i].score;
    }
  }

  lemma BoostedThen(boost: (real, nat) -> real, a: seq<Item>, b: seq<Item>, c: seq<Item>, m: nat, n: nat)
    requires AllBoosted(boost, a, b, m) && AllBoosted(boost, b, c, n)
    ensures AllBoosted(boost, a, c, m + n)
  {
    var total := m + n;
    forall i: nat | i < |a| ensures BoostedAt(boost, a, c, total, i) {
      assert BoostedAt(boost, a, b, m, i) && BoostedAt(boost, b, c, n, i);
      BoostedAdds(boost, a[i].score, a[i].facts.episodes, m, n);
    }
  }

  lemma {:induction false} RescoredAllBoosts(boost: (real, nat) -> real, items: seq<Item>, steps: seq<Rerank>)
    returns (after: seq<Item>)
    ensures after == RescoredAll(boost, items, steps) && AllBoosted(boost, items, after, CorroborationsIn(steps))
    decreases steps
  {
    if steps == [] {
      after := items;
      NotBoosted(boost, items);
    } else {
      var first := RescoredBoosts(boost, items, steps[0]);
      after := RescoredAllBoosts(boost, first, steps[1..]);
      BoostedThen(boost, items, first, after, Corroborations(steps[0]), CorroborationsIn(steps[1..]));
    }
  }

  lemma {:induction false} KeptScore(q: Query, pool: Pool, keys: seq<string>, item: Item)
    requires Keyed(pool) && forall k :: k in keys ==> k in pool.facts
    requires item in Kept(q, pool, keys)
    ensures item.score == if |ListOf(pool.scores, KeyOf(item))| == 0 then 0.0 else q.fuse(ListOf(pool.scores, KeyOf(item)))
  {
    var front, k := keys[..|keys| - 1], keys[|keys| - 1];
    assert keys == front + [k];
    assert k in keys && KeyedAt(pool, k);
    if item in Kept(q, pool, front) { KeptScore(q, pool, front, item); }
  }

  /** Every scored candidate of the line-up carries its supplied facts and its final score. */
  lemma LineupScores(input: Input, q: Query, pool: Pool, keys: seq<string>, i: nat)
    requires Collected(input, pool) && (forall k :: k in keys ==> k in pool.facts) && i < |Lineup(q, pool, keys)|
    ensures var x := Lineup(q, pool, keys)[i];
      && x.facts.target in Candidates(input) && x.facts == SuppliedFacts(input, x.facts.target)
      && x.score == FinalScore(input, q, x.facts.target)
  {
    HoldsKeyed(input, pool, Candidates(input));
    LineupSound(q, pool, keys, i);
    var line, kept := Lineup(q, pool, keys), Kept(q, pool, keys);
    var rescored := RescoredBoosts(q.boost, kept, q.rerank);
    var j := SameElementAt(line, rescored, i);
    assert BoostedAt(q.boost, kept, rescored, Corroborations(q.rerank), j);
    KeptScore(q, pool, keys, kept[j]);
    CandidateFacts(input, pool, KeyOf(line[i]));
    ListedScores(input, pool, KeyOf(line[i]));
  }

  lemma CandidateFacts(input: Input, pool: Pool, k: string)
    requires Collected(input, pool) && k in pool.facts
    ensures var t := pool.facts[k].target;
      RrfKey(t) == k && t in Candidates(input) && pool.facts[k] == SuppliedFacts(input, t)
  {
    assert EntryOk(input, pool.facts, Candidates(input), k);
  }

  lemma ListedScores(input: Input, pool: Pool, k: string)
    requires Collected(input, pool)
    ensures ListOf(pool.scores, k) == ChannelScores(input.channels, k)
  {
  }

  /** Whatever the reranker, an item's facts are the supplied ones and its score is the fused
      score of its target, boosted once for every corroboration. */
  lemma ItemScores(input: Input, q: Query, pool: Pool, i: nat)
    requires Collected(input, pool) && i < |Outcome(q, pool).items|
    ensures var x := Outcome(q, pool).items[i];
      && x.facts.target in Candidates(input) && x.facts == SuppliedFacts(input, x.facts.target)
      && x.score == FinalScore(input, q, x.facts.target)
  {
    ItemInLine(q, pool, i);
    LineupScores(input, q, pool, Ascending(pool.facts.Keys), i);
  }

  lemma ItemInLine(q: Query, pool: Pool, i: nat)
    requires i < |Outcome(q, pool).items|
    ensures var line := Lineup(q, pool, Ascending(pool.facts.Keys)); i < |line| && Outcome(q, pool).items[i] == line[i]
  {
  }

  /** Without corroboration that is the fused score itself; under one corroboration, its boost. */
  lemma ScoresSpelledOut(input: Input, q: Query, t: TargetId)
    ensures ScoreFree(q.rerank) ==> FinalScore(input, q, t) == FusedScore(input, q, t)
    ensures q.rerank == Corroboration ==> FinalScore(input, q, t) == q.boost(FusedScore(input, q, t), SuppliedFacts(input, t).episodes)
  {
    if ScoreFree(q.rerank) { NoCorroborations(q.rerank); }
    if q.rerank == Corroboration {
      assert Boosted(q.boost, FusedScore(input, q, t), SuppliedFacts(input, t).episodes, 0) == FusedScore(input, q, t);
    }
  }

  lemma {:induction false} NoCorroborations(r: Rerank)
    requires ScoreFree(r)
    ensures Corroborations(r) == 0
    decreases r
  {
    match r
    case Chain(steps) => NoCorroborationsIn(steps);
    case _ =>
  }

  lemma {:induction false} NoCorroborationsIn(steps: seq<Rerank>)
    requires forall i :: 0 <= i < |steps| ==> ScoreFree(steps[i])
    ensures CorroborationsIn(steps) == 0
    decreases steps
  {
    if steps != [] {
      NoCorroborations(steps[0]);
      NoCorroborationsIn(steps[1..]);
    }
  }

  // ---- Ties ----

  /** Evidence before navigation: statements, episodes, entities, chunks, communities. */
  predicate SoonerKind(a: TargetId, b: TargetId) {
    || (a.Statement? && !b.Statement?)
    || (a.Episode? && (b.Entity? || b.Chunk? || b.Community?))
    || (a.Entity? && (b.Chunk? || b.Community?))
    || (a.Chunk? && b.Community?)
  }

  predicate SameKind(a: TargetId, b: TargetId) { !SoonerKind(a, b) && !SoonerKind(b, a) }

  /** The first candidate outranks the second. */
  predicate Outranks(a: TargetId, scoreA: real, b: TargetId, scoreB: real) {
    || scoreA > scoreB
    || (scoreA == scoreB && SoonerKind(a, b))
    || (scoreA == scoreB && SameKind(a, b) && Below(RrfKey(a), RrfKey(b)))
  }

  lemma OrderOutranks(a: Item, b: Item)
    requires RankOrder(a, b) && a.facts.target != b.facts.target
    ensures Outranks(a.facts.target, a.score, b.facts.target, b.score)
  {
    if RrfKey(a.facts.target) == RrfKey(b.facts.target) { RrfKeyInjective(a.facts.target, b.facts.target); }
  }

  /** The ranking is strict: every item outranks every later one. */
  lemma ItemsOutrank(input: Input, q: Query, pool: Pool, i: nat, j: nat)
    requires Collected(input, pool) && i < j < |Outcome(q, pool).items|
    ensures var items := Outcome(q, pool).items;
      Outranks(items[i].facts.target, FinalScore(input, q, items[i].facts.target),
               items[j].facts.target, FinalScore(input, q, items[j].facts.target))
  {
    HoldsKeyed(input, pool, Candidates(input));
    var items := Outcome(q, pool).items;
    ItemsSound(q, pool, i);
    ItemScores(input, q, pool, i);
    ItemScores(input, q, pool, j);
    ItemsDistinct(q, pool, i, j);
    assert RankOrder(items[i], items[j]);
    OrderOutranks(items[i], items[j]);
  }

  lemma ItemsDistinct(q: Query, pool: Pool, i: nat, j: nat)
    requires Keyed(pool) && i < j < |Outcome(q, pool).items|
    ensures Outcome(q, pool).items[i].facts.target != Outcome(q, pool).items[j].facts.target
  {
    var keys := Ascending(pool.facts.Keys);
    AscendingDistinct(pool.facts.Keys);
    KeptDistinct(q, pool, keys);
    LineupKeys(q, pool, keys);
    DistinctMultiset(KeysOf(Kept(q, pool, keys)));
    MultisetDistinct(KeysOf(Lineup(q, pool, keys)));
    assert KeysOf(Lineup(q, pool, keys))[i] != KeysOf(Lineup(q, pool, keys))[j];
  }

  /** A candidate that passes its filters but is cut by the limit is outranked by every item kept:
      none of them has a lower score. */
  lemma CutOutranked(input: Input, q: Query, pool: Pool, t: TargetId, i: nat)
    requires Collected(input, pool) && t in Candidates(input) && Passes(SuppliedFacts(input, t), q.filters)
    requires RrfKey(t) !in KeysOf(Outcome(q, pool).items) && i < |Outcome(q, pool).items|
    ensures |Outcome(q, pool).items| == q.limit
    ensures var x := Outcome(q, pool).items[i];
      && x.score >= FinalScore(input, q, t)
      && Outranks(x.facts.target, x.score, t, FinalScore(input, q, t))
  {
    var items := Outcome(q, pool).items;
    var x := CutBehind(input, q, pool, t, items);
    assert KeysOf(items)[i] == KeyOf(items[i]);
    OrderOutranks(items[i], x);
  }

  lemma CutBehind(input: Input, q: Query, pool: Pool, t: TargetId, items: seq<Item>) returns (x: Item)
    requires Collected(input, pool) && t in Candidates(input) && Passes(SuppliedFacts(input, t), q.filters)
    requires items == Outcome(q, pool).items && RrfKey(t) !in KeysOf(items)
    ensures |items| == q.limit && x.facts.target == t && x.score == FinalScore(input, q, t)
    ensures forall i :: 0 <= i < |items| ==> RankOrder(items[i], x)
  {
    var keys, k := Ascending(pool.facts.Keys), RrfKey(t);
    PassesListed(input, q, pool, t, keys);
    OverflowBehind(q, pool, keys, k);
    var j := BehindAt(q, pool, keys, items, k);
    x := Lineup(q, pool, keys)[j];
    LineupScores(input, q, pool, keys, j);
    RrfKeyInjective(x.facts.target, t);
  }

  lemma BehindAt(q: Query, pool: Pool, keys: seq<string>, items: seq<Item>, k: string) returns (j: nat)
    requires (forall x :: x in keys ==> x in pool.facts) && BehindAll(q, pool, keys, items, k)
    ensures j < |Lineup(q, pool, keys)| && KeyOf(Lineup(q, pool, keys)[j]) == k
    ensures forall i :: 0 <= i < |items| ==> RankOrder(items[i], Lineup(q, pool, keys)[j])
  {
    var line := Lineup(q, pool, keys);
    var x :| x in line && KeyOf(x) == k && forall i :: 0 <= i < |items| ==> RankOrder(items[i], x);
    j :| 0 <= j < |line| && line[j] == x;
  }

  /** A candidate that passes is among those scored. */
  lemma PassesListed(input: Input, q: Query, pool: Pool, t: TargetId, keys: seq<string>)
    requires Collected(input, pool) && t in Candidates(input) && Passes(SuppliedFacts(input, t), q.filters)
    requires keys == Ascending(pool.facts.Keys)
    ensures Keyed(pool) && RrfKey(t) in KeysOf(Kept(q, pool, keys))
  {
    HoldsKeyed(input, pool, Candidates(input));
    CandidateKey(input, pool, t);
    CandidateFacts(input, pool, RrfKey(t));
    RrfKeyInjective(pool.facts[RrfKey(t)].target, t);
    FiltersExact(pool.facts[RrfKey(t)], q.filters);
    PassingKept(q, pool, keys, RrfKey(t));
  }

  // ---- Drops ----

  /** As many candidates are counted as there are. */
  lemma TotalIsCandidates(input: Input, q: Query, pool: Pool)
    requires Collected(input, pool)
    ensures Outcome(q, pool).total == |Candidates(input)|
  {
    var keys := Ascending(pool.facts.Keys);
    AscendingDistinct(pool.facts.Keys);
    var listed := CountListed(input, pool, keys, |keys|);
    ListedAll(input, pool, keys);
  }

  lemma ListedAll(input: Input, pool: Pool, keys: seq<string>)
    requires Collected(input, pool) && forall k :: k in keys <==> k in pool.facts
    ensures Listed(input, keys, |keys|) == Candidates(input)
  {
    assert keys[..|keys|] == keys;
    forall t ensures t in Listed(input, keys, |keys|) <==> t in Candidates(input) {
      CandidateKey(input, pool, t);
    }
  }

  /** The candidates whose keys are among the first `n`. */
  ghost function Listed(input: Input, keys: seq<string>, n: nat): set<TargetId>
    requires n <= |keys|
  {
    set t | t in Candidates(input) && RrfKey(t) in keys[..n]
  }

  lemma {:induction false} CountListed(input: Input, pool: Pool, keys: seq<string>, n: nat) returns (listed: set<TargetId>)
    requires Collected(input, pool) && Distinct(keys) && n <= |keys| && forall k :: k in keys ==> k in pool.facts
    ensures listed == Listed(input, keys, n) && |listed| == n
    decreases n
  {
    if n > 0 {
      var before := CountListed(input, pool, keys, n - 1);
      var t := ListedKey(input, pool, keys, n - 1);
      ListedNext(input, keys, n - 1, t);
      listed := before + {t};
    } else {
      listed := {};
      assert keys[..0] == [];
    }
  }

  lemma ListedKey(input: Input, pool: Pool, keys: seq<string>, i: nat) returns (t: TargetId)
    requires Collected(input, pool) && i < |keys| && forall k :: k in keys ==> k in pool.facts
    ensures t in Candidates(input) && RrfKey(t) == keys[i]
  {
    assert keys[i] in keys;
    CandidateFacts(input, pool, keys[i]);
    t := pool.facts[keys[i]].target;
  }

  lemma ListedNext(input: Input, keys: seq<string>, n: nat, t: TargetId)
    requires Distinct(keys) && n < |keys| && t in Candidates(input) && RrfKey(t) == keys[n]
    ensures Listed(input, keys, n + 1) == Listed(input, keys, n) + {t} && t !in Listed(input, keys, n)
  {
    assert keys[..n + 1] == keys[..n] + [keys[n]];
    forall u ensures u in Listed(input, keys, n + 1) <==> u in Listed(input, keys, n) + {t} {
      if RrfKey(u) == keys[n] { RrfKeyInjective(u, t); }
    }
    assert forall i :: 0 <= i < n ==> keys[..n][i] == keys[i] && keys[i] != keys[n];
  }

  /** The candidates whose key stands before `k`. */
  ghost function Before(input: Input, k: string): set<TargetId> {
    set t | t in Candidates(input) && Below(RrfKey(t), k)
  }

  lemma {:induction false} OverflowPlace(q: Query, pool: Pool, keys: seq<string>, kept: seq<string>, n: nat, d: Dropped)
    returns (p: nat)
    requires Keyed(pool) && n <= |keys| && forall k :: k in keys ==> k in pool.facts
    requires d in Overflow(q, pool, keys, kept, n)
    ensures p < n && keys[p] == RrfKey(d.target) && d.reason == TruncatedByBudget(p)
    decreases n
  {
    var k := keys[n - 1];
    assert k in keys && KeyedAt(pool, k);
    if d in Overflow(q, pool, keys, kept, n - 1) {
      p := OverflowPlace(q, pool, keys, kept, n - 1, d);
    } else {
      p := n - 1;
    }
  }

  lemma BeforeIsPrefix(input: Input, pool: Pool, keys: seq<string>, p: nat)
    requires Collected(input, pool) && keys == Ascending(pool.facts.Keys) && p < |keys|
    ensures Before(input, keys[p]) == Listed(input, keys, p)
  {
    AscendingStrict(pool.facts.Keys);
    forall t | t in Candidates(input) ensures Below(RrfKey(t), keys[p]) <==> RrfKey(t) in keys[..p] {
      CandidateKey(input, pool, t);
      BelowIsEarlier(keys, p, RrfKey(t));
    }
  }

  lemma BelowIsEarlier(keys: seq<string>, p: nat, k: string)
    requires StrictlySorted(keys, Below) && p < |keys| && k in keys
    ensures Below(k, keys[p]) <==> k in keys[..p]
  {
    BelowTrichotomy(k, keys[p]);
    EarlierIs(keys, p, k, Below);
  }

  lemma EarlierIs(keys: seq<string>, p: nat, k: string, lt: (string, string) -> bool)
    requires StrictlySorted(keys, lt) && p < |keys| && k in keys
    ensures k in keys[..p] ==> lt(k, keys[p])
    ensures k !in keys[..p] ==> k == keys[p] || lt(keys[p], k)
  {
    var i :| 0 <= i < |keys| && keys[i] == k;
    assert i < p ==> keys[..p][i] == k;
    if k in keys[..p] {
      var j :| 0 <= j < p && keys[..p][j] == k;
    }
  }

  /** A candidate cut by the limit is reported at its place among all candidates in key order. */
  lemma CutPosition(input: Input, q: Query, pool: Pool, d: Dropped)
    requires Collected(input, pool) && d in Outcome(q, pool).dropped && d.reason.TruncatedByBudget?
    ensures d.target in Candidates(input) && d.reason.position == |Before(input, RrfKey(d.target))|
  {
    HoldsKeyed(input, pool, Candidates(input));
    var keys := Ascending(pool.facts.Keys);
    if d in Filtered(q, pool, keys) {
      FilteredMeaning(q, pool, keys, d);
      FiltersExact(pool.facts[RrfKey(d.target)], q.filters);
    }
    var p := OverflowPlace(q, pool, keys, KeysOf(Selected(q, pool, keys)), |keys|, d);
    AscendingDistinct(pool.facts.Keys);
    BeforeIsPrefix(input, pool, keys, p);
    var listed := CountListed(input, pool, keys, p);
    assert keys[p] in keys;
    CandidateKey(input, pool, d.target);
  }

  /** A drop is either a failed filter, on the supplied facts, or the limit. */
  lemma FilterDrop(input: Input, q: Query, pool: Pool, d: Dropped)
    requires Collected(input, pool) && d in Outcome(q, pool).dropped && !d.reason.TruncatedByBudget?
    ensures d.target in Candidates(input) && FailsFirst(SuppliedFacts(input, d.target), q.filters, d.reason)
  {
    HoldsKeyed(input, pool, Candidates(input));
    DropsSound(q, pool, d);
    CandidateKey(input, pool, d.target);
    CandidateFacts(input, pool, RrfKey(d.target));
    RrfKeyInjective(pool.facts[RrfKey(d.target)].target, d.target);
    ReasonExact(SuppliedFacts(input, d.target), q.filters, d.reason);
  }

  predicate InWindow(f: Facts, filters: Filters) {
    filters.asOf == None || f.validFrom <= filters.asOf.value <= f.validTo
  }

  predicate Known(f: Facts, filters: Filters) {
    filters.knownAt == None
    || (f.recordedAt <= filters.knownAt.value && (f.retractedAt == None || f.retractedAt.value > filters.knownAt.value))
  }

  predicate Confident(f: Facts, filters: Filters) { f.confidence >= filters.minConfidence }

  predicate Trusted(f: Facts, filters: Filters) { f.trust !in filters.excluded }

  predicate RelationAllowed(f: Facts, filters: Filters) { filters.relations.Allows(f.relation) }

  /** The reason names the first filter the facts fail, in the order valid time, transaction time,
      confidence, trust, relation, entity type, with the values that failed. */
  predicate FailsFirst(f: Facts, filters: Filters, r: DropReason) {
    match r
    case OutsideValidWindow(at) =>
      filters.asOf == Some(at) && (at < f.validFrom || f.validTo < at)
    case BeforeKnownAt(at, stamp) =>
      && InWindow(f, filters) && filters.knownAt == Some(at)
      && (if f.recordedAt > at then stamp == f.recordedAt else f.retractedAt == Some(stamp) && stamp <= at)
    case BelowConfidenceFloor(actual, floor) =>
      InWindow(f, filters) && Known(f, filters) && actual == f.confidence && floor == filters.minConfidence && actual < floor
    case TrustExcluded(tier) =>
      && InWindow(f, filters) && Known(f, filters) && Confident(f, filters) && tier == f.trust && tier in filters.excluded
    case PredicateDenied(relation) =>
      && InWindow(f, filters) && Known(f, filters) && Confident(f, filters) && Trusted(f, filters)
      && relation == f.relation && !filters.relations.Allows(relation)
    case EntityTypeMismatch(expected) =>
      && InWindow(f, filters) && Known(f, filters) && Confident(f, filters) && Trusted(f, filters)
      && RelationAllowed(f, filters) && filters.entityTypes == Some(expected) && expected != [] && f.relation !in expected
    case TruncatedByBudget(_) => false
  }

  lemma ReasonExact(f: Facts, filters: Filters, r: DropReason)
    ensures CheckFilters(f, filters) == Some(r) <==> FailsFirst(f, filters, r)
  {
  }

  /** A hit without facts is kept only by filters that ask for no confidence and admit semi-trusted
      sources and the empty relation. */
  lemma BareHit(input: Input, filters: Filters, t: TargetId)
    requires t !in input.facts
    ensures Passes(SuppliedFacts(input, t), filters) <==>
      && filters.minConfidence <= 0.0 && TemporalFold.SemiTrusted !in filters.excluded && filters.relations.Allows("")
      && (filters.entityTypes == None || filters.entityTypes.value == [] || "" in filters.entityTypes.value)
  {
  }

  // ---- The order of the drops ----

  /** One more key at most, taken from the keys in turn. */
  lemma PushWithin(names: seq<string>, keys: seq<string>, n: nat, there: bool, lt: (string, string) -> bool)
    requires n < |keys| && StrictlySorted(keys, lt) && StrictlySorted(names, lt)
    requires forall x :: x in names ==> x in keys[..n]
    ensures StrictlySorted(names + KeyIf(keys[n], there), lt)
    ensures forall x :: x in names + KeyIf(keys[n], there) ==> x in keys[..n + 1]
  {
    assert keys[..n + 1] == keys[..n] + [keys[n]];
    forall i | 0 <= i < |names| ensures lt(names[i], keys[n]) {
      assert names[i] in names;
      var j :| 0 <= j < n && keys[j] == names[i];
    }
  }

  /** The keys of what the filters reject among the first `n`. */
  function Rejected(q: Query, pool: Pool, keys: seq<string>, n: nat): seq<string>
    requires n <= |keys| && forall k :: k in keys ==> k in pool.facts
  {
    if n == 0 then [] else
      Rejected(q, pool, keys, n - 1) + KeyIf(keys[n - 1], CheckFilters(pool.facts[keys[n - 1]], q.filters).Some?)
  }

  lemma {:induction false} RejectedAgree(q: Query, pool: Pool, keys: seq<string>, n: nat) returns (front: seq<string>)
    requires Keyed(pool) && n <= |keys| && forall k :: k in keys ==> k in pool.facts
    ensures front == keys[..n] && (forall k :: k in front ==> k in pool.facts)
    ensures DroppedKeys(Filtered(q, pool, front)) == Rejected(q, pool, keys, n)
    decreases n
  {
    front := keys[..n];
    assert forall k :: k in front ==> k in keys;
    if n > 0 {
      var before := RejectedAgree(q, pool, keys, n - 1);
      assert front[..|front| - 1] == before && front[|front| - 1] == keys[n - 1] && keys[n - 1] in keys;
      assert KeyedAt(pool, keys[n - 1]);
      SplitStep([], Filtered(q, pool, before), Item(pool.facts[keys[n - 1]], 0.0), pool.facts[keys[n - 1]].target, keys[n - 1]);
    }
  }

  lemma {:induction false} RejectedAscending(q: Query, pool: Pool, keys: seq<string>, n: nat, lt: (string, string) -> bool)
    returns (names: seq<string>)
    requires n <= |keys| && (forall k :: k in keys ==> k in pool.facts) && StrictlySorted(keys, lt)
    ensures names == Rejected(q, pool, keys, n) && StrictlySorted(names, lt) && forall x :: x in names ==> x in keys[..n]
    decreases n
  {
    if n > 0 {
      var before := RejectedAscending(q, pool, keys, n - 1, lt);
      var there := CheckFilters(pool.facts[keys[n - 1]], q.filters).Some?;
      PushWithin(before, keys, n - 1, there, lt);
      names := before + KeyIf(keys[n - 1], there);
    } else {
      names := [];
    }
  }

  lemma FilteredAscending(q: Query, pool: Pool, keys: seq<string>)
    requires Keyed(pool) && (forall k :: k in keys ==> k in pool.facts) && StrictlySorted(keys, Below)
    ensures StrictlySorted(DroppedKeys(Filtered(q, pool, keys)), Below)
  {
    var names := RejectedAscending(q, pool, keys, |keys|, Below);
    var front := RejectedAgree(q, pool, keys, |keys|);
    assert front == keys;
  }

  lemma {:induction false} OverflowAscending(q: Query, pool: Pool, keys: seq<string>, kept: seq<string>, n: nat, lt: (string, string) -> bool)
    returns (names: seq<string>)
    requires Keyed(pool) && n <= |keys| && (forall k :: k in keys ==> k in pool.facts) && StrictlySorted(keys, lt)
    ensures names == DroppedKeys(Overflow(q, pool, keys, kept, n)) && StrictlySorted(names, lt)
    ensures forall x :: x in names ==> x in keys[..n]
    decreases n
  {
    if n > 0 {
      var before := OverflowAscending(q, pool, keys, kept, n - 1, lt);
      KeysNext(q, pool, keys, kept, n - 1);
      var there := CheckFilters(pool.facts[keys[n - 1]], q.filters).None? && keys[n - 1] !in kept;
      PushWithin(before, keys, n - 1, there, lt);
      names := before + KeyIf(keys[n - 1], there);
    } else {
      names := [];
    }
  }

  lemma DropKinds(q: Query, pool: Pool, keys: seq<string>, kept: seq<string>)
    requires Keyed(pool) && forall k :: k in keys ==> k in pool.facts
    ensures forall d :: d in Filtered(q, pool, keys) ==> !d.reason.TruncatedByBudget?
    ensures forall d :: d in Overflow(q, pool, keys, kept, |keys|) ==> d.reason.TruncatedByBudget?
  {
    forall d | d in Filtered(q, pool, keys) ensures !d.reason.TruncatedByBudget? {
      FilteredMeaning(q, pool, keys, d);
      FiltersExact(pool.facts[RrfKey(d.target)], q.filters);
    }
    forall d | d in Overflow(q, pool, keys, kept, |keys|) ensures d.reason.TruncatedByBudget? {
      OverflowMeaning(q, pool, keys, kept, |keys|, d);
    }
  }

  /** Filtered candidates come first, those cut by the limit last, each in key order. */
  lemma DropsOrdered(input: Input, q: Query, pool: Pool) returns (n: nat)
    requires Collected(input, pool)
    ensures var dropped := Outcome(q, pool).dropped;
      && n <= |dropped| && StrictlySorted(DroppedKeys(dropped[..n]), Below) && StrictlySorted(DroppedKeys(dropped[n..]), Below)
      && forall i :: 0 <= i < |dropped| ==> (dropped[i].reason.TruncatedByBudget? <==> n <= i)
  {
    HoldsKeyed(input, pool, Candidates(input));
    var keys := Ascending(pool.facts.Keys);
    AscendingStrict(pool.facts.Keys);
    var filtered, cut := Filtered(q, pool, keys), Overflow(q, pool, keys, KeysOf(Selected(q, pool, keys)), |keys|);
    FilteredAscending(q, pool, keys);
    var late := OverflowAscending(q, pool, keys, KeysOf(Selected(q, pool, keys)), |keys|, Below);
    n := |filtered|;
    assert (filtered + cut)[..n] == filtered && (filtered + cut)[n..] == cut;
    DropKinds(q, pool, keys, KeysOf(Selected(q, pool, keys)));
    var dropped: seq<Dropped> := filtered + cut;
    forall i | 0 <= i < |dropped| ensures dropped[i].reason.TruncatedByBudget? <==> n <= i {
      if i < n { assert filtered[i] in filtered; } else { assert cut[i - n] in cut; }
    }
  }

  // ---- Reciprocal-rank fusion as coded ----

  /** The sum over positions `0 .. n` of `1 / (k + position + 1)`. */
  function ReciprocalSum(k: nat, n: nat): real {
    if n == 0 then 0.0 else ReciprocalSum(k, n - 1) + 1.0 / (k + n) as real
  }

  /** The fusion sorts the scores and then uses their positions only. */
  function ReciprocalRank(k: nat): seq<real> -> real { (scores: seq<real>) => ReciprocalSum(k, |scores|) }

  lemma {:induction false} MoreHitsMore(k: nat, m: nat, n: nat)
    requires m < n
    ensures ReciprocalSum(k, m) < ReciprocalSum(k, n)
    decreases n
  {
    assert 1.0 / (k + n) as real > 0.0;
    if m < n - 1 { MoreHitsMore(k, m, n - 1); }
  }

  lemma FusedByHits(input: Input, q: Query, k: nat, t: TargetId)
    requires q.fuse == ReciprocalRank(k)
    ensures FusedScore(input, q, t) == ReciprocalSum(k, |ChannelScores(input.channels, RrfKey(t))|)
  {
  }

  /** Under reciprocal-rank fusion without corroboration a candidate with fewer hits, whatever their
      ranks and scores, never keeps one with more out: if it is ranked, so is the other, and before it. */
  lemma HitsDecide(input: Input, q: Query, pool: Pool, k: nat, a: TargetId, b: TargetId, i: nat) returns (j: nat)
    requires Collected(input, pool) && q.fuse == ReciprocalRank(k) && ScoreFree(q.rerank)
    requires b in Candidates(input) && Passes(SuppliedFacts(input, b), q.filters)
    requires |ChannelScores(input.channels, RrfKey(a))| < |ChannelScores(input.channels, RrfKey(b))|
    requires i < |Outcome(q, pool).items| && Outcome(q, pool).items[i].facts.target == a
    ensures j < i && Outcome(q, pool).items[j].facts.target == b
  {
    HitsScore(input, q, k, a, b);
    HigherKept(input, q, pool, b, i);
    j := KeptAt(q, pool, b);
    var x := ScoreOfItem(input, q, pool, i);
    var y := ScoreOfItem(input, q, pool, j);
    HigherBefore(q, pool, i, j, x, y);
  }

  /** A passing candidate with a higher final score than some item is itself among the items. */
  lemma HigherKept(input: Input, q: Query, pool: Pool, b: TargetId, i: nat)
    requires Collected(input, pool) && b in Candidates(input) && Passes(SuppliedFacts(input, b), q.filters)
    requires i < |Outcome(q, pool).items|
    requires FinalScore(input, q, Outcome(q, pool).items[i].facts.target) < FinalScore(input, q, b)
    ensures RrfKey(b) in KeysOf(Outcome(q, pool).items)
  {
    ItemScores(input, q, pool, i);
    if RrfKey(b) !in KeysOf(Outcome(q, pool).items) { CutOutranked(input, q, pool, b, i); }
  }

  lemma KeptAt(q: Query, pool: Pool, b: TargetId) returns (j: nat)
    requires RrfKey(b) in KeysOf(Outcome(q, pool).items)
    ensures j < |Outcome(q, pool).items| && Outcome(q, pool).items[j].facts.target == b
  {
    var items := Outcome(q, pool).items;
    j :| 0 <= j < |items| && KeysOf(items)[j] == RrfKey(b);
    RrfKeyInjective(items[j].facts.target, b);
  }

  lemma ScoreOfItem(input: Input, q: Query, pool: Pool, i: nat) returns (x: real)
    requires Collected(input, pool) && i < |Outcome(q, pool).items|
    ensures x == Outcome(q, pool).items[i].score && x == FinalScore(input, q, Outcome(q, pool).items[i].facts.target)
  {
    ItemScores(input, q, pool, i);
    x := Outcome(q, pool).items[i].score;
  }

  lemma HigherBefore(q: Query, pool: Pool, i: nat, j: nat, x: real, y: real)
    requires i < |Outcome(q, pool).items| && j < |Outcome(q, pool).items| && x < y
    requires x == Outcome(q, pool).items[i].score && y == Outcome(q, pool).items[j].score
    ensures j < i
  {
    LineupSorted(q, pool, Ascending(pool.facts.Keys));
    ItemInLine(q, pool, i);
    ItemInLine(q, pool, j);
    assert i < j ==> RankOrder(Outcome(q, pool).items[i], Outcome(q, pool).items[j]);
  }

  lemma HitsScore(input: Input, q: Query, k: nat, a: TargetId, b: TargetId)
    requires q.fuse == ReciprocalRank(k) && ScoreFree(q.rerank)
    requires |ChannelScores(input.channels, RrfKey(a))| < |ChannelScores(input.channels, RrfKey(b))|
    ensures FinalScore(input, q, a) < FinalScore(input, q, b)
  {
    ScoresSpelledOut(input, q, a);
    ScoresSpelledOut(input, q, b);
    FusedByHits(input, q, k, a);
    FusedByHits(input, q, k, b);
    MoreHitsMore(k, |ChannelScores(input.channels, RrfKey(a))|, |ChannelScores(input.channels, RrfKey(b))|);
  }
}
