/** The support a belief carries, counted on the assertions of its statement. */
module FoldSupport {
  import opened Orders
  import opened Intervals
  import opened TemporalFold
  import opened FoldMeaning
  import opened FoldStatus

  // ---- Counting positions ----

  /** The places of on-record assertions with polarity `p`. */
  ghost function PolarityPlaces(s: seq<Assertion>, at: Timestamp, p: Polarity): set<nat> {
    set i: nat | i < |s| && OnRecord(s[i], at) && s[i].polarity == p
  }

  /** The assertion at `i` is the first on record from its episode. */
  ghost predicate FirstOfEpisode(s: seq<Assertion>, at: Timestamp, i: nat)
    requires i < |s|
  {
    OnRecord(s[i], at) && forall j :: 0 <= j < i && OnRecord(s[j], at) ==> s[j].episode != s[i].episode
  }

  ghost function EpisodePlaces(s: seq<Assertion>, at: Timestamp): set<nat> {
    set i: nat | i < |s| && FirstOfEpisode(s, at, i)
  }

  ghost function TierPlaces(s: seq<Assertion>, at: Timestamp, tier: TrustTier): set<nat> {
    set i: nat | i < |s| && FirstOfEpisode(s, at, i) && s[i].trust == tier
  }

  lemma OneMore<T>(a: set<T>, b: set<T>, x: T, more: bool)
    requires forall y :: y in b <==> y in a || (more && y == x)
    requires more ==> x !in a
    ensures |b| == |a| + if more then 1 else 0
  {
    assert b == if more then a + {x} else a;
  }

  function WitnessOf(a: Assertion): Witness { Witness(a.episode, a.extractor, a.polarity, a.confidence, a.trust) }

  lemma WitnessesLast(s: seq<Assertion>, at: Timestamp)
    requires s != []
    ensures var front, a := s[..|s| - 1], s[|s| - 1];
      Witnesses(VisibleOf(s, at)) == Witnesses(VisibleOf(front, at)) + (if OnRecord(a, at) then [WitnessOf(a)] else [])
  {
  }

  lemma CountLast(w: seq<Witness>, x: Witness, p: Polarity)
    ensures Count(w + [x], p) == Count(w, p) + if x.polarity == p then 1 else 0
  {
    assert (w + [x])[..|w|] == w;
  }

  lemma {:induction false} CountPlaces(s: seq<Assertion>, at: Timestamp, p: Polarity)
    ensures Count(Witnesses(VisibleOf(s, at)), p) == |PolarityPlaces(s, at, p)|
  {
    if s != [] {
      var front, a := s[..|s| - 1], s[|s| - 1];
      CountPlaces(front, at, p);
      WitnessesLast(s, at);
      CountLast(Witnesses(VisibleOf(front, at)), WitnessOf(a), p);
      assert Witnesses(VisibleOf(front, at)) + [] == Witnesses(VisibleOf(front, at));
      OneMore(PolarityPlaces(front, at, p), PolarityPlaces(s, at, p), |front|, OnRecord(a, at) && a.polarity == p);
    }
  }

  // ---- Episodes and tiers ----

  ghost predicate TrustAgrees(s: seq<Assertion>, at: Timestamp, m: map<string, TrustTier>) {
    && (forall i {:trigger s[i]} :: 0 <= i < |s| && FirstOfEpisode(s, at, i) ==> s[i].episode in m && m[s[i].episode] == s[i].trust)
    && (forall i {:trigger s[i]} :: 0 <= i < |s| && OnRecord(s[i], at) ==> s[i].episode in m)
    && (forall e :: e in m ==> exists i :: 0 <= i < |s| && OnRecord(s[i], at) && s[i].episode == e)
  }

  lemma TrustLast(w: seq<Witness>, x: Witness)
    ensures var m := EpisodeTrust(w); EpisodeTrust(w + [x]) == if x.episode in m then m else m[x.episode := x.trust]
  {
    assert (w + [x])[..|w|] == w;
  }

  /** What the last assertion adds to the trust map. */
  lemma TrustNext(s: seq<Assertion>, at: Timestamp)
    returns (front: seq<Assertion>, a: Assertion, before: map<string, TrustTier>, m: map<string, TrustTier>)
    requires s != []
    ensures front == s[..|s| - 1] && a == s[|s| - 1] && s == front + [a]
    ensures before == EpisodeTrust(Witnesses(VisibleOf(front, at))) && m == EpisodeTrust(Witnesses(VisibleOf(s, at)))
    ensures m == if OnRecord(a, at) && a.episode !in before then before[a.episode := a.trust] else before
  {
    front, a := s[..|s| - 1], s[|s| - 1];
    before, m := EpisodeTrust(Witnesses(VisibleOf(front, at))), EpisodeTrust(Witnesses(VisibleOf(s, at)));
    WitnessesLast(s, at);
    TrustLast(Witnesses(VisibleOf(front, at)), WitnessOf(a));
    assert Witnesses(VisibleOf(front, at)) + [] == Witnesses(VisibleOf(front, at));
  }

  lemma {:induction false} TrustPlaces(s: seq<Assertion>, at: Timestamp) returns (m: map<string, TrustTier>)
    ensures m == EpisodeTrust(Witnesses(VisibleOf(s, at))) && TrustAgrees(s, at, m)
    decreases |s|
  {
    if s != [] {
      var front, a, before, next := TrustNext(s, at);
      var agreed := TrustPlaces(front, at);
      TrustStep(front, a, at, before, next);
      m := next;
    } else {
      m := map[];
    }
  }

  lemma FirstKept(front: seq<Assertion>, a: Assertion, at: Timestamp, i: nat)
    requires i < |front|
    ensures FirstOfEpisode(front + [a], at, i) <==> FirstOfEpisode(front, at, i)
  {
    var s := front + [a];
    assert forall j :: 0 <= j < |front| ==> s[j] == front[j];
  }

  lemma FirstNew(front: seq<Assertion>, a: Assertion, at: Timestamp, m: map<string, TrustTier>)
    requires TrustAgrees(front, at, m)
    ensures FirstOfEpisode(front + [a], at, |front|) <==> OnRecord(a, at) && a.episode !in m
  {
    var s := front + [a];
    assert forall j :: 0 <= j < |front| ==> s[j] == front[j];
  }

  lemma TrustStep(front: seq<Assertion>, a: Assertion, at: Timestamp, m: map<string, TrustTier>, m': map<string, TrustTier>)
    requires TrustAgrees(front, at, m)
    requires m' == if OnRecord(a, at) && a.episode !in m then m[a.episode := a.trust] else m
    ensures TrustAgrees(front + [a], at, m')
  {
    var s := front + [a];
    FirstNew(front, a, at, m);
    forall i | 0 <= i < |s|
      ensures FirstOfEpisode(s, at, i) ==> s[i].episode in m' && m'[s[i].episode] == s[i].trust
      ensures OnRecord(s[i], at) ==> s[i].episode in m'
    {
      if i < |front| {
        assert s[i] == front[i];
        FirstKept(front, a, at, i);
        assert OnRecord(front[i], at) ==> front[i].episode in m;
      }
    }
    forall e | e in m' ensures exists i :: 0 <= i < |s| && OnRecord(s[i], at) && s[i].episode == e {
      if e in m {
        var i :| 0 <= i < |front| && OnRecord(front[i], at) && front[i].episode == e;
        assert s[i] == front[i];
      } else {
        assert s[|front|] == a;
      }
    }
  }

  /** Each episode has one first place, and each tier those of its episodes. */
  ghost predicate Sized(s: seq<Assertion>, at: Timestamp, m: map<string, TrustTier>) {
    |m| == |EpisodePlaces(s, at)| && forall tier :: |TierKeys(m, tier)| == |TierPlaces(s, at, tier)|
  }

  lemma SizedNext(front: seq<Assertion>, a: Assertion, at: Timestamp, before: map<string, TrustTier>, m: map<string, TrustTier>)
    requires TrustAgrees(front, at, before) && Sized(front, at, before)
    requires m == if OnRecord(a, at) && a.episode !in before then before[a.episode := a.trust] else before
    ensures Sized(front + [a], at, m)
  {
    EpisodesStep(front, a, at, before, m);
    forall tier ensures |TierKeys(m, tier)| == |TierPlaces(front + [a], at, tier)| {
      TierStep(front, a, at, before, m, tier);
    }
  }

  lemma SizedNone(at: Timestamp)
    ensures Sized([], at, map[])
  {
  }

  /** The first place of each episode, one for one. */
  lemma {:induction false} PlacesSize(s: seq<Assertion>, at: Timestamp) returns (m: map<string, TrustTier>)
    ensures m == EpisodeTrust(Witnesses(VisibleOf(s, at))) && Sized(s, at, m)
    decreases |s|
  {
    if s != [] {
      var front, a, before, next := TrustNext(s, at);
      var sized := PlacesSize(front, at);
      var agreed := TrustPlaces(front, at);
      SizedNext(front, a, at, before, next);
      m := next;
    } else {
      m := map[];
      SizedNone(at);
    }
  }

  lemma PlaceLast(front: seq<Assertion>, a: Assertion, at: Timestamp, i: nat)
    ensures i in EpisodePlaces(front + [a], at) <==>
      i in EpisodePlaces(front, at) || (i == |front| && FirstOfEpisode(front + [a], at, |front|))
    ensures forall tier :: i in TierPlaces(front + [a], at, tier) <==>
      i in TierPlaces(front, at, tier) || (i == |front| && FirstOfEpisode(front + [a], at, |front|) && a.trust == tier)
  {
    if i < |front| {
      FirstKept(front, a, at, i);
      assert (front + [a])[i] == front[i];
    }
  }

  lemma EpisodesStep(front: seq<Assertion>, a: Assertion, at: Timestamp, m: map<string, TrustTier>, m': map<string, TrustTier>)
    requires TrustAgrees(front, at, m) && |m| == |EpisodePlaces(front, at)|
    requires m' == if OnRecord(a, at) && a.episode !in m then m[a.episode := a.trust] else m
    ensures |m'| == |EpisodePlaces(front + [a], at)|
  {
    var more := OnRecord(a, at) && a.episode !in m;
    FirstNew(front, a, at, m);
    if more { InsertSize(m, a.episode, a.trust); }
    var before, after := EpisodePlaces(front, at), EpisodePlaces(front + [a], at);
    forall i: nat ensures i in after <==> i in before || (more && i == |front|) { PlaceLast(front, a, at, i); }
    OneMore(before, after, |front|, more);
  }

  ghost function TierKeys(m: map<string, TrustTier>, tier: TrustTier): set<string> { set e | e in m && m[e] == tier }

  lemma TierStep(front: seq<Assertion>, a: Assertion, at: Timestamp, m: map<string, TrustTier>, m': map<string, TrustTier>, tier: TrustTier)
    requires TrustAgrees(front, at, m) && |TierKeys(m, tier)| == |TierPlaces(front, at, tier)|
    requires m' == if OnRecord(a, at) && a.episode !in m then m[a.episode := a.trust] else m
    ensures |TierKeys(m', tier)| == |TierPlaces(front + [a], at, tier)|
  {
    var more := OnRecord(a, at) && a.episode !in m && a.trust == tier;
    FirstNew(front, a, at, m);
    var before, after := TierPlaces(front, at, tier), TierPlaces(front + [a], at, tier);
    forall i: nat ensures i in after <==> i in before || (more && i == |front|) { PlaceLast(front, a, at, i); }
    OneMore(before, after, |front|, more);
    OneMore(TierKeys(m, tier), TierKeys(m', tier), a.episode, more);
  }

  ghost function ListedKeys(keys: seq<string>, m: map<string, TrustTier>, tier: TrustTier): set<string> {
    set e | e in keys && e in TierKeys(m, tier)
  }

  lemma OccurrencesLast(tiers: seq<TrustTier>, tier: TrustTier)
    requires tiers != []
    ensures Occurrences(tiers, tier) == Occurrences(tiers[..|tiers| - 1], tier) + if tiers[|tiers| - 1] == tier then 1 else 0
  {
  }

  /** Values listed by distinct keys: each tier occurs once for each of its keys. */
  lemma {:induction false} OccurrencesOfKeys(keys: seq<string>, m: map<string, TrustTier>, tiers: seq<TrustTier>, tier: TrustTier)
    requires |tiers| == |keys| && Distinct(keys) && forall i :: 0 <= i < |keys| ==> keys[i] in m && tiers[i] == m[keys[i]]
    ensures Occurrences(tiers, tier) == |ListedKeys(keys, m, tier)|
    decreases |keys|
  {
    if keys != [] {
      var front, k := keys[..|keys| - 1], keys[|keys| - 1];
      OccurrencesOfKeys(front, m, tiers[..|tiers| - 1], tier);
      OccurrencesLast(tiers, tier);
      assert keys == front + [k] && k !in front;
      OneMore(ListedKeys(front, m, tier), ListedKeys(keys, m, tier), k, m[k] == tier);
    }
  }

  lemma TiersCount(m: map<string, TrustTier>, tier: TrustTier)
    ensures Occurrences(Tiers(m), tier) == |TierKeys(m, tier)|
  {
    var keys := Ascending(m.Keys);
    AscendingStrict(m.Keys);
    forall i, j | 0 <= i < j < |keys| ensures keys[i] != keys[j] { BelowTrichotomy(keys[i], keys[j]); }
    forall i | 0 <= i < |keys| ensures keys[i] in m { assert keys[i] in keys; }
    OccurrencesOfKeys(keys, m, Tiers(m), tier);
    assert ListedKeys(keys, m, tier) == TierKeys(m, tier);
  }

  // ---- What support says ----

  /** The counts of a support are counts of the statement's on-record assertions: places by
      polarity, and first places of an episode, in all and by trust tier. */
  ghost predicate Counts(s: seq<Assertion>, at: Timestamp, r: Support) {
    && r.affirmCount == |PolarityPlaces(s, at, Affirm)| && r.denyCount == |PolarityPlaces(s, at, Deny)|
    && r.distinctEpisodes == |EpisodePlaces(s, at)|
    && (forall tier, n :: (tier, n) in r.trustWeights <==> n > 0 && n == |TierPlaces(s, at, tier)|)
    && (forall i, j :: 0 <= i < j < |r.trustWeights| ==> TierRank(r.trustWeights[i].0) < TierRank(r.trustWeights[j].0))
  }

  function TierRank(t: TrustTier): nat {
    match t
    case Trusted => 0
    case SemiTrusted => 1
    case Untrusted => 2
  }

  lemma WeightsListed(tiers: seq<TrustTier>)
    ensures forall tier, n :: (tier, n) in TrustWeights(tiers) <==> n > 0 && n == Occurrences(tiers, tier)
    ensures var w := TrustWeights(tiers); forall i, j :: 0 <= i < j < |w| ==> TierRank(w[i].0) < TierRank(w[j].0)
  {
  }

  lemma SupportCounts(s: seq<Assertion>, at: Timestamp)
    ensures Counts(s, at, SupportOf(Witnesses(VisibleOf(s, at))))
  {
    CountPlaces(s, at, Affirm);
    CountPlaces(s, at, Deny);
    var m := PlacesSize(s, at);
    WeightsListed(Tiers(m));
    forall tier, n ensures (tier, n) in TrustWeights(Tiers(m)) <==> n > 0 && n == |TierPlaces(s, at, tier)| {
      TiersCount(m, tier);
    }
  }

  // ---- Each belief carries its own statement's support ----

  ghost predicate Backed(visible: seq<VisibleStmt>, b: Belief, score: Scorer) {
    exists vs :: vs in visible && vs.id == b.statement && b.support == SupportOf(vs.witnesses) && b.confidence == score(vs.witnesses, b.support)
  }

  lemma RowsBacked(vs: VisibleStmt, visible: seq<VisibleStmt>, status: BeliefStatus, score: Scorer)
    requires vs in visible
    ensures forall b :: b in Rows(vs, status, score) ==> Backed(visible, b, score)
  {
  }

  lemma {:induction false} IndependentBacked(all: seq<VisibleStmt>, visible: seq<VisibleStmt>, score: Scorer)
    requires forall vs :: vs in visible ==> vs in all
    ensures forall b :: b in Independent(visible, score) ==> Backed(all, b, score)
  {
    if visible != [] {
      assert visible[|visible| - 1] in visible;
      RowsBacked(visible[|visible| - 1], all, Active, score);
      IndependentBacked(all, visible[..|visible| - 1], score);
    }
  }

  lemma {:induction false} ContestedBacked(all: seq<VisibleStmt>, visible: seq<VisibleStmt>, score: Scorer)
    requires forall vs :: vs in visible ==> vs in all
    ensures forall b :: b in ContestedRows(all, visible, score) ==> Backed(all, b, score)
  {
    if visible != [] {
      var vs := visible[|visible| - 1];
      assert vs in visible;
      RowsBacked(vs, all, if Contested(all, vs) then Contradicted else Active, score);
      ContestedBacked(all, visible[..|visible| - 1], score);
    }
  }

  lemma ResolvedBacked(visible: seq<VisibleStmt>, all: seq<Claim>, score: Scorer, k: nat)
    requires KnownClaims(visible, all) && RowsOk(BaseRows(visible, all, score)) && k < |all|
    ensures Backed(visible, Resolved(BaseRows(visible, all, score), k), score)
  {
    var vs := Lookup(visible, all[k].stmt);
    assert BaseRows(visible, all, score)[k] == BaseRow(visible, all[k], score);
  }

  lemma SupersedeBacked(visible: seq<VisibleStmt>, score: Scorer, b: Belief)
    requires Prepared(visible) && b in SupersedeRows(visible, score)
    ensures Backed(visible, b, score)
  {
    SortedClaimsOk(visible);
    var all := Sort(ClaimsOf(visible), ClaimOrder);
    BaseRowsOk(visible, all, score);
    var k :| 0 <= k < |all| && Resolve(BaseRows(visible, all, score))[k] == b;
    ResolvedBacked(visible, all, score, k);
  }

  lemma FoldBacked(def: PredicateDef, group: seq<StatementEntry>, at: Timestamp, score: Scorer, b: Belief)
    requires GroupOk(group) && b in FoldGroup(def, group, at, score)
    ensures Backed(VisibleGroup(group, at), b, score)
  {
    var visible := VisibleGroup(group, at);
    VisibleGroupPrepared(group, at);
    SortElements(ApplyRule(def, visible, score), BeliefOrder);
    if b in Independent(visible, score) { IndependentBacked(visible, visible, score); }
    else if b in ContestedRows(visible, visible, score) { ContestedBacked(visible, visible, score); }
    else { SupersedeBacked(visible, score, b); }
  }

  /** `ws` are the assertions on record, in order. */
  ghost predicate Listed(s: seq<Assertion>, at: Timestamp, ws: seq<Witness>) {
    if s == [] then ws == [] else
      var a := s[|s| - 1];
      if OnRecord(a, at) then ws != [] && ws[|ws| - 1] == WitnessOf(a) && Listed(s[..|s| - 1], at, ws[..|ws| - 1])
      else Listed(s[..|s| - 1], at, ws)
  }

  lemma {:induction false} WitnessesListed(s: seq<Assertion>, at: Timestamp)
    ensures Listed(s, at, Witnesses(VisibleOf(s, at)))
  {
    if s != [] {
      var ws, front := Witnesses(VisibleOf(s, at)), Witnesses(VisibleOf(s[..|s| - 1], at));
      WitnessesLast(s, at);
      WitnessesListed(s[..|s| - 1], at);
      assert ws == if OnRecord(s[|s| - 1], at) then front + [WitnessOf(s[|s| - 1])] else front;
      assert OnRecord(s[|s| - 1], at) ==> ws[..|ws| - 1] == front;
    }
  }

  /** Every belief carries the support of its own statement's on-record assertions, and the
      confidence the formula gives for them. */
  lemma BeliefSupport(def: PredicateDef, group: seq<StatementEntry>, at: Timestamp, score: Scorer, b: Belief)
    returns (e: StatementEntry, ws: seq<Witness>)
    requires GroupOk(group) && b in FoldGroup(def, group, at, score)
    ensures e in group && e.statement.id == b.statement
    ensures Counts(e.assertions, at, b.support)
    ensures Listed(e.assertions, at, ws) && b.confidence == score(ws, b.support)
  {
    FoldBacked(def, group, at, score, b);
    var visible := VisibleGroup(group, at);
    var vs :| vs in visible && vs.id == b.statement && b.support == SupportOf(vs.witnesses) && b.confidence == score(vs.witnesses, b.support);
    VisibleGroupElements(group, at);
    e :| e in group && VisibleOf(e.assertions, at) != [] && vs == View(e, at);
    ws := vs.witnesses;
    SupportCounts(e.assertions, at);
    WitnessesListed(e.assertions, at);
  }
}
