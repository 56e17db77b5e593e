/** The temporal fold: assertions of one (subject, predicate) group become beliefs.
    Every function here has a loop-by-loop method beside it that is proved to compute it;
    what the beliefs mean is proved in FoldMeaning.dfy. */
module TemporalFold {
  import opened Orders
  import opened Intervals

  datatype Polarity = Affirm | Deny
  datatype TrustTier = Trusted | SemiTrusted | Untrusted
  datatype BeliefStatus = Active | Superseded | Contradicted | Retracted
  datatype Cardinality = Functional | MultiValued
  datatype Temporality = Static | IntervalTime | PointTime
  datatype Invalidation = Supersede | ExplicitOnly | Coexist

  datatype PredicateDef = PredicateDef(
    name: string, cardinality: Cardinality, temporality: Temporality,
    invalidation: Invalidation, profileRelevant: bool)

  datatype Statement = Statement(id: string, predicateName: string)

  datatype Assertion = Assertion(
    id: string, episode: string, extractor: Option<string>, polarity: Polarity,
    claimedFrom: Timestamp, claimedTo: Timestamp, confidence: real,
    recordedAt: Timestamp, retractedAt: Option<Timestamp>, trust: TrustTier)

  datatype StatementEntry = StatementEntry(statement: Statement, assertions: seq<Assertion>)

  datatype Support = Support(
    affirmCount: nat, denyCount: nat, distinctEpisodes: nat, trustWeights: seq<(TrustTier, nat)>)

  datatype Belief = Belief(
    statement: string, validFrom: Timestamp, validTo: Timestamp,
    support: Support, confidence: real, status: BeliefStatus)

  /** All that support and confidence read of a visible assertion. */
  datatype Witness = Witness(
    episode: string, extractor: Option<string>, polarity: Polarity, confidence: real, trust: TrustTier)

  /** The floating-point confidence formula, left open: any function of a statement's
      witnesses and their support. */
  type Scorer = (seq<Witness>, Support) -> real

  /** A statement after transaction-time filtering. */
  datatype VisibleStmt = VisibleStmt(id: string, affirm: seq<Interval>, witnesses: seq<Witness>)

  // ---- What the source demands of a group ----

  ghost predicate AssertionsOk(s: seq<Assertion>) {
    forall i :: 0 <= i < |s| ==> s[i].claimedFrom <= s[i].claimedTo
  }

  ghost predicate GroupOk(group: seq<StatementEntry>) {
    && (forall i, j :: 0 <= i < j < |group| ==> group[i].statement.id != group[j].statement.id)
    && (forall i :: 0 <= i < |group| ==> AssertionsOk(group[i].assertions))
  }

  // ---- Step 1: transaction time and polarity ----

  predicate Visible(a: Assertion, at: Timestamp) {
    a.recordedAt <= at && (a.retractedAt.None? || a.retractedAt.value > at)
  }

  function VisibleOf(s: seq<Assertion>, at: Timestamp): seq<Assertion> {
    if s == [] then [] else
      VisibleOf(s[..|s| - 1], at) + (if Visible(s[|s| - 1], at) then [s[|s| - 1]] else [])
  }

  function Claimed(s: seq<Assertion>, p: Polarity): seq<Interval> {
    if s == [] then [] else
      var last := s[|s| - 1];
      Claimed(s[..|s| - 1], p) + (if last.polarity == p then [Interval(last.claimedFrom, last.claimedTo)] else [])
  }

  function ClipAll(s: seq<Interval>, denials: seq<Interval>): seq<Interval> {
    if denials == [] then s else Clip(ClipAll(s, denials[..|denials| - 1]), denials[|denials| - 1])
  }

  /** The affirmed timeline of one statement: merged affirmations minus every denial. */
  function Affirmed(visible: seq<Assertion>): seq<Interval> {
    ClipAll(Merge(Claimed(visible, Affirm)), Claimed(visible, Deny))
  }

  function Witnesses(s: seq<Assertion>): seq<Witness> {
    seq(|s|, i requires 0 <= i < |s| =>
      Witness(s[i].episode, s[i].extractor, s[i].polarity, s[i].confidence, s[i].trust))
  }

  /** One statement as the rules see it at transaction time `at`. */
  function View(e: StatementEntry, at: Timestamp): VisibleStmt {
    var vis := VisibleOf(e.assertions, at);
    VisibleStmt(e.statement.id, Affirmed(vis), Witnesses(vis))
  }

  function VisibleGroup(group: seq<StatementEntry>, at: Timestamp): seq<VisibleStmt> {
    if group == [] then [] else
      var e := group[|group| - 1];
      VisibleGroup(group[..|group| - 1], at) + (if VisibleOf(e.assertions, at) == [] then [] else [View(e, at)])
  }

  /** What the rules may rely on: one entry per statement, each with a canonical timeline. */
  ghost predicate Prepared(visible: seq<VisibleStmt>) {
    && (forall i, j :: 0 <= i < j < |visible| ==> visible[i].id != visible[j].id)
    && (forall i :: 0 <= i < |visible| ==> Canonical(visible[i].affirm))
  }

  // ---- Support ----

  function EpisodeTrust(s: seq<Witness>): map<string, TrustTier> {
    if s == [] then map[] else
      var m, last := EpisodeTrust(s[..|s| - 1]), s[|s| - 1];
      if last.episode in m then m else m[last.episode := last.trust]
  }

  /** The map's values in key order, as a BTreeMap yields them. */
  function Tiers(trust: map<string, TrustTier>): seq<TrustTier> {
    var keys := Ascending(trust.Keys);
    seq(|keys|, i requires 0 <= i < |keys| => assert keys[i] in keys; trust[keys[i]])
  }

  function Occurrences(tiers: seq<TrustTier>, tier: TrustTier): nat {
    if tiers == [] then 0 else
      Occurrences(tiers[..|tiers| - 1], tier) + (if tiers[|tiers| - 1] == tier then 1 else 0)
  }

  function Count(s: seq<Witness>, p: Polarity): nat {
    if s == [] then 0 else Count(s[..|s| - 1], p) + (if s[|s| - 1].polarity == p then 1 else 0)
  }

  function Weight(tier: TrustTier, n: nat): seq<(TrustTier, nat)> {
    if n > 0 then [(tier, n)] else []
  }

  function TrustWeights(tiers: seq<TrustTier>): seq<(TrustTier, nat)> {
    Weight(Trusted, Occurrences(tiers, Trusted)) +
    Weight(SemiTrusted, Occurrences(tiers, SemiTrusted)) +
    Weight(Untrusted, Occurrences(tiers, Untrusted))
  }

  function SupportOf(s: seq<Witness>): Support {
    var trust := EpisodeTrust(s);
    Support(Count(s, Affirm), Count(s, Deny), |trust|, TrustWeights(Tiers(trust)))
  }

  function Confidence(s: seq<Witness>, score: Scorer): real {
    score(s, SupportOf(s))
  }

  // ---- Step 2: cross-object rules ----

  function Rows(vs: VisibleStmt, status: BeliefStatus, score: Scorer): seq<Belief> {
    seq(|vs.affirm|, i requires 0 <= i < |vs.affirm| =>
      Belief(vs.id, vs.affirm[i].start, vs.affirm[i].end,
             SupportOf(vs.witnesses), Confidence(vs.witnesses, score), status))
  }

  function Independent(visible: seq<VisibleStmt>, score: Scorer): seq<Belief> {
    if visible == [] then [] else
      Independent(visible[..|visible| - 1], score) + Rows(visible[|visible| - 1], Active, score)
  }

  /** Some interval of `a` shares a point with some interval of `b`. */
  predicate Collide(a: VisibleStmt, b: VisibleStmt) {
    exists i, j :: 0 <= i < |a.affirm| && 0 <= j < |b.affirm| && Overlaps(a.affirm[i], b.affirm[j])
  }

  /** Another statement of the group collides with `vs`. */
  predicate Contested(visible: seq<VisibleStmt>, vs: VisibleStmt) {
    exists k :: 0 <= k < |visible| && visible[k].id != vs.id && Collide(vs, visible[k])
  }

  function ContestedRows(all: seq<VisibleStmt>, visible: seq<VisibleStmt>, score: Scorer): seq<Belief> {
    if visible == [] then [] else
      var vs := visible[|visible| - 1];
      ContestedRows(all, visible[..|visible| - 1], score) +
      Rows(vs, if Contested(all, vs) then Contradicted else Active, score)
  }

  // The supersession rule works on (statement, interval) claims in (start, statement) order.

  datatype Claim = Claim(stmt: string, iv: Interval)

  predicate ClaimOrder(a: Claim, b: Claim) {
    a.iv.start < b.iv.start || (a.iv.start == b.iv.start && AtMost(a.stmt, b.stmt))
  }

  function OwnClaims(vs: VisibleStmt): seq<Claim> {
    seq(|vs.affirm|, i requires 0 <= i < |vs.affirm| => Claim(vs.id, vs.affirm[i]))
  }

  function ClaimsOf(visible: seq<VisibleStmt>): seq<Claim> {
    if visible == [] then [] else
      ClaimsOf(visible[..|visible| - 1]) + OwnClaims(visible[|visible| - 1])
  }

  /** Rows in processing order, before any of them is resolved: sorted by start, disjoint
      within a statement. */
  ghost predicate RowsOk(rows: seq<Belief>) {
    && (forall i :: 0 <= i < |rows| ==> rows[i].validFrom <= rows[i].validTo && rows[i].status == Active)
    && (forall i, j :: 0 <= i < j < |rows| ==> rows[i].validFrom <= rows[j].validFrom)
    && (forall i, j :: 0 <= i < j < |rows| && rows[i].statement == rows[j].statement ==>
          rows[i].validTo < rows[j].validFrom)
  }

  /** Row `k` opens a run of rows of one statement. */
  predicate OpensRun(rows: seq<Belief>, k: nat)
    requires k < |rows|
  {
    k == 0 || rows[k - 1].statement != rows[k].statement
  }

  /** Rows `k` and `k+1` contradict each other: rival statements with one start, the first
      of which is not a later interval of the statement before it. */
  predicate Clash(rows: seq<Belief>, k: int) {
    && 0 <= k < |rows| - 1
    && rows[k].statement != rows[k + 1].statement
    && rows[k].validFrom == rows[k + 1].validFrom
    && OpensRun(rows, k)
  }

  function StatusAt(rows: seq<Belief>, k: nat): BeliefStatus
    requires k < |rows|
  {
    if Clash(rows, k - 1) || Clash(rows, k) then Contradicted
    else if k + 1 < |rows| && rows[k].statement != rows[k + 1].statement && rows[k].validTo >= rows[k + 1].validFrom
    then Superseded
    else Active
  }

  /** A superseded row ends one millisecond before its successor: no underflow. */
  function EndAt(rows: seq<Belief>, k: nat): Timestamp
    requires k < |rows| && RowsOk(rows)
  {
    if StatusAt(rows, k) == Superseded then
      assert OpensRun(rows, k) ==> rows[k].validFrom < rows[k + 1].validFrom;
      rows[k + 1].validFrom - 1
    else
      rows[k].validTo
  }

  /** Closed form of the supersession sweep: belief `k` depends on rows `k-1 .. k+1` only. */
  function Resolved(rows: seq<Belief>, k: nat): Belief
    requires k < |rows| && RowsOk(rows)
  {
    rows[k].(validTo := EndAt(rows, k), status := StatusAt(rows, k))
  }

  function Resolve(rows: seq<Belief>): seq<Belief>
    requires RowsOk(rows)
  {
    seq(|rows|, k requires 0 <= k < |rows| => Resolved(rows, k))
  }

  ghost function Ids(visible: seq<VisibleStmt>): set<string> {
    set i | 0 <= i < |visible| :: visible[i].id
  }

  /** The statement with the given id: the first match, as `find` returns it. */
  function Lookup(visible: seq<VisibleStmt>, id: string): (vs: VisibleStmt)
    requires id in Ids(visible)
    ensures vs.id == id && vs in visible
  {
    if visible[0].id == id then visible[0] else
      assert visible == [visible[0]] + visible[1..];
      assert id in Ids(visible[1..]) by {
        var i :| 0 <= i < |visible| && visible[i].id == id;
        assert visible[1..][i - 1].id == id;
      }
      Lookup(visible[1..], id)
  }

  ghost predicate KnownClaims(visible: seq<VisibleStmt>, all: seq<Claim>) {
    forall k :: 0 <= k < |all| ==> all[k].stmt in Ids(visible)
  }

  /** The belief pushed for one claim before any later claim is seen. */
  function BaseRow(visible: seq<VisibleStmt>, c: Claim, score: Scorer): Belief
    requires c.stmt in Ids(visible)
  {
    var vs := Lookup(visible, c.stmt);
    Belief(c.stmt, c.iv.start, c.iv.end, SupportOf(vs.witnesses), Confidence(vs.witnesses, score), Active)
  }

  function BaseRows(visible: seq<VisibleStmt>, all: seq<Claim>, score: Scorer): seq<Belief>
    requires KnownClaims(visible, all)
  {
    seq(|all|, k requires 0 <= k < |all| => BaseRow(visible, all[k], score))
  }

  lemma {:induction false} ClaimsOfElements(visible: seq<VisibleStmt>)
    ensures forall c :: c in ClaimsOf(visible) <==>
      exists i, j :: 0 <= i < |visible| && 0 <= j < |visible[i].affirm| && c == Claim(visible[i].id, visible[i].affirm[j])
  {
    if visible != [] {
      var front, vs := visible[..|visible| - 1], visible[|visible| - 1];
      var own := OwnClaims(vs);
      ClaimsOfElements(front);
      forall c ensures c in ClaimsOf(visible) <==>
        exists i, j :: 0 <= i < |visible| && 0 <= j < |visible[i].affirm| && c == Claim(visible[i].id, visible[i].affirm[j])
      {
        if c in own {
          var j :| 0 <= j < |own| && own[j] == c;
          assert c == Claim(visible[|visible| - 1].id, visible[|visible| - 1].affirm[j]);
        } else if c in ClaimsOf(front) {
          var i, j :| 0 <= i < |front| && 0 <= j < |front[i].affirm| && c == Claim(front[i].id, front[i].affirm[j]);
          assert c == Claim(visible[i].id, visible[i].affirm[j]);
        }
        forall i, j | 0 <= i < |visible| && 0 <= j < |visible[i].affirm| && c == Claim(visible[i].id, visible[i].affirm[j])
          ensures c in ClaimsOf(visible)
        {
          if i == |visible| - 1 { assert own[j] == c; } else { assert front[i] == visible[i]; }
        }
      }
    }
  }

  lemma {:induction false} ClaimsOfDistinct(visible: seq<VisibleStmt>)
    requires Prepared(visible)
    ensures Distinct(ClaimsOf(visible))
  {
    if visible != [] {
      var front, vs := visible[..|visible| - 1], visible[|visible| - 1];
      var own := OwnClaims(vs);
      var before := ClaimsOf(front);
      ClaimsOfDistinct(front);
      ClaimsOfElements(front);
      forall i | 0 <= i < |before| ensures before[i].stmt != vs.id {
        assert before[i] in before;
      }
      forall i, j | 0 <= i < j < |before + own| ensures (before + own)[i] != (before + own)[j] {
        if |before| <= i {
          var p, q := i - |before|, j - |before|;
          assert vs.affirm[p].end < vs.affirm[q].start;
        }
      }
    }
  }

  lemma ClaimOrderTotal()
    ensures TotalPreorder(ClaimOrder)
    ensures forall a, b :: ClaimOrder(a, b) && ClaimOrder(b, a) ==> a.iv.start == b.iv.start && a.stmt == b.stmt
  {
    AtMostIsTotalOrder();
  }

  /** Claims of one statement are intervals of one canonical timeline. */
  lemma ClaimsDisjoint(visible: seq<VisibleStmt>, a: Claim, b: Claim)
    requires Prepared(visible) && a in ClaimsOf(visible) && b in ClaimsOf(visible)
    requires a.stmt == b.stmt && a != b && a.iv.start <= b.iv.start
    ensures a.iv.end < b.iv.start
  {
    ClaimsOfElements(visible);
    var p, x :| 0 <= p < |visible| && 0 <= x < |visible[p].affirm| && a == Claim(visible[p].id, visible[p].affirm[x]);
    var q, y :| 0 <= q < |visible| && 0 <= y < |visible[q].affirm| && b == Claim(visible[q].id, visible[q].affirm[y]);
    assert p == q;
    CanonicalOrder(visible[p].affirm, x, y);
  }

  lemma CanonicalOrder(s: seq<Interval>, x: nat, y: nat)
    requires Canonical(s) && x < |s| && y < |s| && s[x] != s[y] && s[x].start <= s[y].start
    ensures s[x].end < s[y].start
  {
    var u, v := s[x], s[y];
    assert y < x ==> v.end < u.start;
  }

  lemma ClaimKnown(visible: seq<VisibleStmt>, c: Claim)
    requires Prepared(visible) && c in ClaimsOf(visible)
    ensures c.iv.Valid() && c.stmt in Ids(visible)
  {
    ClaimsOfElements(visible);
  }

  /** Claims in processing order. */
  ghost predicate ClaimsOk(all: seq<Claim>) {
    && (forall i :: 0 <= i < |all| ==> all[i].iv.Valid())
    && (forall i, j :: 0 <= i < j < |all| ==> all[i].iv.start <= all[j].iv.start)
    && (forall i, j :: 0 <= i < j < |all| && all[i].stmt == all[j].stmt ==> all[i].iv.end < all[j].iv.start)
  }

  lemma BaseRowsOk(visible: seq<VisibleStmt>, all: seq<Claim>, score: Scorer)
    requires ClaimsOk(all) && KnownClaims(visible, all)
    ensures RowsOk(BaseRows(visible, all, score))
  {
    var rows := BaseRows(visible, all, score);
    assert forall k :: 0 <= k < |rows| ==>
      rows[k].statement == all[k].stmt && rows[k].validFrom == all[k].iv.start &&
      rows[k].validTo == all[k].iv.end && rows[k].status == Active;
  }

  /** Sorting the claims of a prepared group puts them in processing order. */
  lemma SortedClaimsOk(visible: seq<VisibleStmt>)
    requires Prepared(visible)
    ensures var all := Sort(ClaimsOf(visible), ClaimOrder);
      KnownClaims(visible, all) && ClaimsOk(all) && Distinct(all) && SortedBy(all, ClaimOrder)
  {
    var raw := ClaimsOf(visible);
    var all := Sort(raw, ClaimOrder);
    ClaimOrderTotal();
    ClaimsOfDistinct(visible);
    SortDistinct(raw, ClaimOrder);
    SortElements(raw, ClaimOrder);
    forall k | 0 <= k < |all|
      ensures all[k].iv.Valid() && all[k].stmt in Ids(visible)
    {
      assert all[k] in all;
      ClaimKnown(visible, all[k]);
    }
    forall i, j | 0 <= i < j < |all|
      ensures all[i].iv.start <= all[j].iv.start
      ensures all[i].stmt == all[j].stmt ==> all[i].iv.end < all[j].iv.start
    {
      var x, y := all[i], all[j];
      assert x in all && y in all && x != y && ClaimOrder(x, y);
      if x.stmt == y.stmt {
        ClaimsDisjoint(visible, x, y);
      }
    }
  }

  function SupersedeRows(visible: seq<VisibleStmt>, score: Scorer): seq<Belief>
    requires Prepared(visible)
  {
    SortedClaimsOk(visible);
    var all := Sort(ClaimsOf(visible), ClaimOrder);
    BaseRowsOk(visible, all, score);
    Resolve(BaseRows(visible, all, score))
  }

  // ---- Step 3: the whole fold ----

  predicate BeliefOrder(a: Belief, b: Belief) {
    Below(a.statement, b.statement) || (a.statement == b.statement && a.validFrom <= b.validFrom)
  }

  function ApplyRule(def: PredicateDef, visible: seq<VisibleStmt>, score: Scorer): seq<Belief>
    requires Prepared(visible)
  {
    match (def.cardinality, def.invalidation, def.temporality)
    case (MultiValued, _, _) => Independent(visible, score)
    case (Functional, _, Static) => ContestedRows(visible, visible, score)
    case (Functional, Supersede, _) => SupersedeRows(visible, score)
    case (Functional, ExplicitOnly, _) => Independent(visible, score)
    case (Functional, Coexist, _) => Independent(visible, score)
  }

  lemma {:induction false} VisibleOfElements(s: seq<Assertion>, at: Timestamp)
    ensures forall a :: a in VisibleOf(s, at) <==> a in s && Visible(a, at)
  {
    if s != [] {
      VisibleOfElements(s[..|s| - 1], at);
      assert s == s[..|s| - 1] + [s[|s| - 1]];
    }
  }

  lemma {:induction false} ClaimedElements(s: seq<Assertion>, p: Polarity)
    ensures forall iv :: iv in Claimed(s, p) <==>
      exists a :: a in s && a.polarity == p && iv == Interval(a.claimedFrom, a.claimedTo)
  {
    if s != [] {
      ClaimedElements(s[..|s| - 1], p);
      assert s == s[..|s| - 1] + [s[|s| - 1]];
    }
  }

  lemma ClaimedValid(s: seq<Assertion>, p: Polarity)
    requires AssertionsOk(s)
    ensures AllValid(Claimed(s, p))
  {
    ClaimedElements(s, p);
    var ivs := Claimed(s, p);
    forall i | 0 <= i < |ivs| ensures ivs[i].Valid() { assert ivs[i] in ivs; }
  }

  lemma {:induction false} ClipAllMeaning(s: seq<Interval>, denials: seq<Interval>)
    requires Canonical(s) && AllValid(denials)
    ensures Canonical(ClipAll(s, denials))
    ensures forall t :: Covers(ClipAll(s, denials), t) <==> Covers(s, t) && !Covers(denials, t)
    ensures forall t :: Links(ClipAll(s, denials), t) <==>
      Links(s, t) && forall d :: d in denials ==> !d.Touches(t)
  {
    if denials != [] {
      var front, last := denials[..|denials| - 1], denials[|denials| - 1];
      assert denials == front + [last];
      ClipAllMeaning(s, front);
      ClipMeaning(ClipAll(s, front), last);
      forall t: Timestamp ensures Covers(denials, t) <==> Covers(front, t) || last.Contains(t) {
        CoversConcat(front, [last], t);
        assert Covers([last], t) <==> [last][0].Contains(t);
      }
    }
  }

  lemma AffirmedCanonical(vis: seq<Assertion>)
    requires AssertionsOk(vis)
    ensures Canonical(Affirmed(vis))
  {
    ClaimedValid(vis, Affirm);
    ClaimedValid(vis, Deny);
    MergeMeaning(Claimed(vis, Affirm));
    ClipAllMeaning(Merge(Claimed(vis, Affirm)), Claimed(vis, Deny));
  }

  lemma VisibleOfOk(s: seq<Assertion>, at: Timestamp)
    requires AssertionsOk(s)
    ensures AssertionsOk(VisibleOf(s, at))
  {
    VisibleOfElements(s, at);
    var v := VisibleOf(s, at);
    forall i | 0 <= i < |v| ensures v[i].claimedFrom <= v[i].claimedTo { assert v[i] in v; }
  }

  lemma {:induction false} VisibleGroupElements(group: seq<StatementEntry>, at: Timestamp)
    ensures forall vs :: vs in VisibleGroup(group, at) <==>
      exists e :: e in group && VisibleOf(e.assertions, at) != [] && vs == View(e, at)
  {
    if group != [] {
      var front, last := group[..|group| - 1], group[|group| - 1];
      VisibleGroupElements(front, at);
      assert group == front + [last];
      assert forall e :: e in group <==> e in front || e == last;
    }
  }

  lemma ViewCanonical(e: StatementEntry, at: Timestamp)
    requires AssertionsOk(e.assertions)
    ensures Canonical(View(e, at).affirm)
  {
    VisibleOfOk(e.assertions, at);
    AffirmedCanonical(VisibleOf(e.assertions, at));
  }

  lemma PreparedAppend(visible: seq<VisibleStmt>, vs: VisibleStmt)
    requires Prepared(visible) && Canonical(vs.affirm)
    requires forall i :: 0 <= i < |visible| ==> visible[i].id != vs.id
    ensures Prepared(visible + [vs])
  {
  }

  lemma {:induction false} VisibleGroupPrepared(group: seq<StatementEntry>, at: Timestamp)
    requires GroupOk(group)
    ensures Prepared(VisibleGroup(group, at))
  {
    if group != [] {
      var front, last := group[..|group| - 1], group[|group| - 1];
      var before := VisibleGroup(front, at);
      VisibleGroupPrepared(front, at);
      VisibleGroupElements(front, at);
      ViewCanonical(last, at);
      forall i | 0 <= i < |before| ensures before[i].id != last.statement.id {
        assert before[i] in before;
      }
      PreparedAppend(before, View(last, at));
    }
  }

  /** The value `fold` returns. */
  function FoldGroup(def: PredicateDef, group: seq<StatementEntry>, at: Timestamp, score: Scorer): seq<Belief>
    requires GroupOk(group)
  {
    VisibleGroupPrepared(group, at);
    Sort(ApplyRule(def, VisibleGroup(group, at), score), BeliefOrder)
  }
}
