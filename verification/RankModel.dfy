/** Retrieval candidates, their identities and the filters they must pass. */
module RankModel {
  import opened Orders
  import Adjacency
  import Intervals
  import TemporalFold

  datatype TargetId =
    | Episode(id: string)
    | Statement(id: string)
    | Entity(id: string)
    | Chunk(id: string)
    | Community(id: string)

  function Prefix(t: TargetId): string {
    match t
    case Episode(_) => "episode:"
    case Statement(_) => "statement:"
    case Entity(_) => "entity:"
    case Chunk(_) => "chunk:"
    case Community(_) => "community:"
  }

  /** The key two channels fuse a candidate under. */
  function RrfKey(t: TargetId): string { Prefix(t) + t.id }

  lemma KeySpelled(id: string)
    ensures RrfKey(Episode(id)) == "episode:" + id && RrfKey(Statement(id)) == "statement:" + id
    ensures RrfKey(Entity(id)) == "entity:" + id && RrfKey(Chunk(id)) == "chunk:" + id
    ensures RrfKey(Community(id)) == "community:" + id
  {
  }

  lemma PrefixLetters(t: TargetId)
    ensures |Prefix(t)| >= 2 && Prefix(t)[0] == RrfKey(t)[0] && Prefix(t)[1] == RrfKey(t)[1]
    ensures Prefix(t)[0] == 'e' || Prefix(t)[0] == 's' || Prefix(t)[0] == 'c'
  {
  }

  /** Different targets have different keys, whatever their ids contain. */
  lemma RrfKeyInjective(a: TargetId, b: TargetId)
    requires RrfKey(a) == RrfKey(b)
    ensures a == b
  {
    PrefixLetters(a);
    PrefixLetters(b);
    assert Prefix(a) == Prefix(b);
    assert a.id == RrfKey(a)[|Prefix(a)|..] && b.id == RrfKey(b)[|Prefix(b)|..];
  }

  type Timestamp = Intervals.Timestamp
  type TrustTier = TemporalFold.TrustTier

  const TIME_MIN: Timestamp := -0x8000_0000_0000_0000
  const TIME_MAX: Timestamp := 0x7fff_ffff_ffff_ffff

  datatype Facts = Facts(
    target: TargetId, confidence: real, validFrom: Timestamp, validTo: Timestamp, recordedAt: Timestamp,
    retractedAt: Option<Timestamp>, trust: TrustTier, relation: string, salience: real, episodes: nat)

  /** The row used for a channel hit that has no facts. */
  function MinimalFacts(t: TargetId): Facts {
    Facts(t, 0.0, TIME_MIN, TIME_MAX, TIME_MIN, None, TemporalFold.SemiTrusted, "", 0.0, 0)
  }

  datatype Filters = Filters(
    asOf: Option<Timestamp>, knownAt: Option<Timestamp>, minConfidence: real, excluded: seq<TrustTier>,
    relations: Adjacency.Filter, entityTypes: Option<seq<string>>)

  datatype DropReason =
    | BelowConfidenceFloor(actual: real, floor: real)
    | OutsideValidWindow(validAt: Timestamp)
    | BeforeKnownAt(knownAt: Timestamp, recordedAt: Timestamp)
    | TrustExcluded(tier: TrustTier)
    | PredicateDenied(relation: string)
    | EntityTypeMismatch(expected: seq<string>)
    | TruncatedByBudget(position: nat)

  function CheckFilters(f: Facts, filters: Filters): Option<DropReason> {
    if filters.asOf.Some? && (filters.asOf.value < f.validFrom || filters.asOf.value > f.validTo) then
      Some(OutsideValidWindow(filters.asOf.value))
    else if filters.knownAt.Some? && f.recordedAt > filters.knownAt.value then
      Some(BeforeKnownAt(filters.knownAt.value, f.recordedAt))
    else if filters.knownAt.Some? && f.retractedAt.Some? && f.retractedAt.value <= filters.knownAt.value then
      Some(BeforeKnownAt(filters.knownAt.value, f.retractedAt.value))
    else if f.confidence < filters.minConfidence then
      Some(BelowConfidenceFloor(f.confidence, filters.minConfidence))
    else if f.trust in filters.excluded then
      Some(TrustExcluded(f.trust))
    else if !filters.relations.Allows(f.relation) then
      Some(PredicateDenied(f.relation))
    else if filters.entityTypes.Some? && filters.entityTypes.value != [] && f.relation !in filters.entityTypes.value then
      Some(EntityTypeMismatch(filters.entityTypes.value))
    else
      None
  }

  /** Visible at the asked valid time and transaction time, confident, trusted and allowed. The
      entity-type list is compared with the predicate, as the code does. */
  predicate Passes(f: Facts, filters: Filters) {
    && (filters.asOf.Some? ==> f.validFrom <= filters.asOf.value <= f.validTo)
    && (filters.knownAt.Some? ==> f.recordedAt <= filters.knownAt.value)
    && (filters.knownAt.Some? && f.retractedAt.Some? ==> filters.knownAt.value < f.retractedAt.value)
    && f.confidence >= filters.minConfidence && f.trust !in filters.excluded && filters.relations.Allows(f.relation)
    && (filters.entityTypes.Some? && filters.entityTypes.value != [] ==> f.relation in filters.entityTypes.value)
  }

  /** A candidate is kept exactly when it passes every filter, and a drop names the failed one. */
  lemma FiltersExact(f: Facts, filters: Filters)
    ensures CheckFilters(f, filters).None? <==> Passes(f, filters)
    ensures CheckFilters(f, filters).Some? ==> !CheckFilters(f, filters).value.TruncatedByBudget?
  {
  }

  datatype Item = Item(facts: Facts, score: real)
}
