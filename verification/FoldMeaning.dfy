/** What folded beliefs mean, instant by instant. */
module FoldMeaning {
  import opened Orders
  import opened Intervals
  import opened TemporalFold

  predicate Holds(b: Belief, t: Timestamp) { b.validFrom <= t <= b.validTo }

  // ---- The affirmed timeline of one statement ----

  /** Some assertion of `s` with polarity `p` claims instant `t`. */
  ghost predicate Claims(s: seq<Assertion>, p: Polarity, t: Timestamp) {
    exists a :: a in s && a.polarity == p && a.claimedFrom <= t <= a.claimedTo
  }

  /** On record at `at`: recorded by then and not retracted by then. */
  predicate OnRecord(a: Assertion, at: Timestamp) {
    a.recordedAt <= at && !(a.retractedAt.Some? && a.retractedAt.value <= at)
  }

  ghost predicate ClaimsVisibly(s: seq<Assertion>, at: Timestamp, p: Polarity, t: Timestamp) {
    exists a :: a in s && OnRecord(a, at) && a.polarity == p && a.claimedFrom <= t <= a.claimedTo
  }

  lemma ClaimedCovers(s: seq<Assertion>, p: Polarity, t: Timestamp)
    ensures Covers(Claimed(s, p), t) <==> Claims(s, p, t)
  {
    var ivs := Claimed(s, p);
    ClaimedElements(s, p);
    if Covers(ivs, t) {
      var i :| 0 <= i < |ivs| && ivs[i].Contains(t);
      assert ivs[i] in ivs;
    }
    if Claims(s, p, t) {
      var a :| a in s && a.polarity == p && a.claimedFrom <= t <= a.claimedTo;
      var iv := Interval(a.claimedFrom, a.claimedTo);
      assert iv in ivs && iv.Contains(t);
    }
  }

  /** The timeline is sorted, disjoint and non-empty, and covers exactly the instants some
      visible assertion affirms and no visible assertion denies. */
  lemma AffirmedMeaning(e: StatementEntry, at: Timestamp, t: Timestamp)
    requires AssertionsOk(e.assertions)
    ensures Canonical(View(e, at).affirm)
    ensures Covers(View(e, at).affirm, t) <==>
      ClaimsVisibly(e.assertions, at, Affirm, t) && !ClaimsVisibly(e.assertions, at, Deny, t)
  {
    var vis := VisibleOf(e.assertions, at);
    VisibleOfOk(e.assertions, at);
    VisibleOfElements(e.assertions, at);
    ClaimedValid(vis, Affirm);
    ClaimedValid(vis, Deny);
    MergeMeaning(Claimed(vis, Affirm));
    ClipAllMeaning(Merge(Claimed(vis, Affirm)), Claimed(vis, Deny));
    ClaimedCovers(vis, Affirm, t);
    ClaimedCovers(vis, Deny, t);
  }

  // ---- Rows line up with claims ----

  /** The part of a belief that does not depend on how assertions are listed. */
  datatype Slice = Slice(statement: string, validFrom: Timestamp, validTo: Timestamp, status: BeliefStatus)

  function SliceOf(b: Belief): Slice { Slice(b.statement, b.validFrom, b.validTo, b.status) }

  function ClaimSlice(c: Claim, status: BeliefStatus): Slice { Slice(c.stmt, c.iv.start, c.iv.end, status) }

  lemma RowsAligned(vs: VisibleStmt, status: BeliefStatus, score: Scorer)
    ensures |Rows(vs, status, score)| == |OwnClaims(vs)|
    ensures forall i :: 0 <= i < |OwnClaims(vs)| ==>
      SliceOf(Rows(vs, status, score)[i]) == ClaimSlice(OwnClaims(vs)[i], status) && OwnClaims(vs)[i].stmt == vs.id
  {
  }

  lemma {:induction false} IndependentAligned(visible: seq<VisibleStmt>, score: Scorer)
    ensures |Independent(visible, score)| == |ClaimsOf(visible)|
    ensures forall i :: 0 <= i < |ClaimsOf(visible)| ==>
      SliceOf(Independent(visible, score)[i]) == ClaimSlice(ClaimsOf(visible)[i], Active)
  {
    if visible != [] {
      RowsAligned(visible[|visible| - 1], Active, score);
      IndependentAligned(visible[..|visible| - 1], score);
    }
  }

  /** Contestedness read off the claims: some claim of `id` shares an instant with a rival's. */
  ghost predicate Rivalled(claims: seq<Claim>, id: string) {
    exists c, d :: c in claims && d in claims && c.stmt == id && d.stmt != id && Overlaps(c.iv, d.iv)
  }

  lemma ContestedIsRivalled(visible: seq<VisibleStmt>, vs: VisibleStmt)
    requires Prepared(visible) && vs in visible
    ensures Contested(visible, vs) <==> Rivalled(ClaimsOf(visible), vs.id)
  {
    if Contested(visible, vs) {
      ContestedClaims(visible, vs);
    }
    if Rivalled(ClaimsOf(visible), vs.id) {
      RivalledCollides(visible, vs);
    }
  }

  lemma ContestedClaims(visible: seq<VisibleStmt>, vs: VisibleStmt)
    requires Prepared(visible) && vs in visible && Contested(visible, vs)
    ensures Rivalled(ClaimsOf(visible), vs.id)
  {
    var k :| 0 <= k < |visible| && visible[k].id != vs.id && Collide(vs, visible[k]);
    var i, j :| 0 <= i < |vs.affirm| && 0 <= j < |visible[k].affirm| && Overlaps(vs.affirm[i], visible[k].affirm[j]);
    VisibleClaim(visible, vs, vs.affirm[i]);
    VisibleClaim(visible, visible[k], visible[k].affirm[j]);
    var c, d := Claim(vs.id, vs.affirm[i]), Claim(visible[k].id, visible[k].affirm[j]);
    assert c in ClaimsOf(visible) && d in ClaimsOf(visible);
  }

  lemma RivalledCollides(visible: seq<VisibleStmt>, vs: VisibleStmt)
    requires Prepared(visible) && vs in visible && Rivalled(ClaimsOf(visible), vs.id)
    ensures Contested(visible, vs)
  {
    ClaimsOfElements(visible);
    var claims := ClaimsOf(visible);
    var c, d :| c in claims && d in claims && c.stmt == vs.id && d.stmt != vs.id && Overlaps(c.iv, d.iv);
    var p, i :| 0 <= p < |visible| && 0 <= i < |visible[p].affirm| && c == Claim(visible[p].id, visible[p].affirm[i]);
    var k, j :| 0 <= k < |visible| && 0 <= j < |visible[k].affirm| && d == Claim(visible[k].id, visible[k].affirm[j]);
    assert visible[p] == vs;
    assert Overlaps(vs.affirm[i], visible[k].affirm[j]);
    assert Collide(vs, visible[k]);
  }

  ghost function RivalStatus(claims: seq<Claim>, id: string): BeliefStatus {
    if Rivalled(claims, id) then Contradicted else Active
  }

  lemma {:induction false} ContestedAligned(all: seq<VisibleStmt>, visible: seq<VisibleStmt>, score: Scorer)
    requires Prepared(all) && forall vs :: vs in visible ==> vs in all
    ensures |ContestedRows(all, visible, score)| == |ClaimsOf(visible)|
    ensures forall i :: 0 <= i < |ClaimsOf(visible)| ==>
      SliceOf(ContestedRows(all, visible, score)[i]) ==
      ClaimSlice(ClaimsOf(visible)[i], RivalStatus(ClaimsOf(all), ClaimsOf(visible)[i].stmt))
  {
    if visible != [] {
      var vs := visible[|visible| - 1];
      assert vs in visible;
      var rows := ContestedOwn(all, vs, score);
      ContestedAligned(all, visible[..|visible| - 1], score);
      assert ContestedRows(all, visible, score) == ContestedRows(all, visible[..|visible| - 1], score) + rows;
    }
  }

  lemma ContestedOwn(all: seq<VisibleStmt>, vs: VisibleStmt, score: Scorer) returns (rows: seq<Belief>)
    requires Prepared(all) && vs in all
    ensures rows == Rows(vs, if Contested(all, vs) then Contradicted else Active, score) && |rows| == |OwnClaims(vs)|
    ensures forall i :: 0 <= i < |rows| ==>
      SliceOf(rows[i]) == ClaimSlice(OwnClaims(vs)[i], RivalStatus(ClaimsOf(all), OwnClaims(vs)[i].stmt))
  {
    ContestedStatus(all, vs);
    rows := Rows(vs, RivalStatus(ClaimsOf(all), vs.id), score);
    RowsAligned(vs, RivalStatus(ClaimsOf(all), vs.id), score);
  }

  lemma ContestedStatus(all: seq<VisibleStmt>, vs: VisibleStmt)
    requires Prepared(all) && vs in all
    ensures RivalStatus(ClaimsOf(all), vs.id) == if Contested(all, vs) then Contradicted else Active
  {
    ContestedIsRivalled(all, vs);
  }

  // ---- Supersession, instant by instant ----

  /** A belief that was not contradicted is in force exactly while its own interval lasts
      and no later row has started. */
  lemma SupersedePointwise(rows: seq<Belief>, k: nat, t: Timestamp)
    requires RowsOk(rows) && k < |rows| && StatusAt(rows, k) != Contradicted
    ensures Holds(Resolved(rows, k), t) <==>
      Holds(rows[k], t) && forall j :: k < j < |rows| ==> t < rows[j].validFrom
  {
    if k + 1 < |rows| {
      var next := rows[k + 1];
      assert rows[k].statement == next.statement ==> rows[k].validTo < next.validFrom;
      assert forall j :: k < j < |rows| ==> next.validFrom <= rows[j].validFrom;
    }
  }

  /** No two uncontradicted beliefs are in force at one instant. */
  lemma SupersedeExclusive(rows: seq<Belief>, i: nat, j: nat, t: Timestamp)
    requires RowsOk(rows) && i < |rows| && j < |rows| && i != j
    requires StatusAt(rows, i) != Contradicted && StatusAt(rows, j) != Contradicted
    ensures !(Holds(Resolved(rows, i), t) && Holds(Resolved(rows, j), t))
  {
    SupersedePointwise(rows, i, t);
    SupersedePointwise(rows, j, t);
  }

  // ---- Whole groups ----

  predicate Supersedes(def: PredicateDef) {
    def.cardinality == Functional && def.invalidation == Supersede && def.temporality != Static
  }

  predicate Contradicts(def: PredicateDef) {
    def.cardinality == Functional && def.temporality == Static
  }

  lemma OccursTwice<T>(s: seq<T>, x: T, y: T) returns (i: nat, j: nat)
    requires multiset{x, y} <= multiset(s)
    ensures i < |s| && j < |s| && i != j && s[i] == x && s[j] == y
  {
    assert x in multiset(s);
    i :| i < |s| && s[i] == x;
    var rest := Without(s, i);
    WithoutCounts(s, i);
    assert multiset{x, y} == multiset{y} + multiset{x};
    assert y in multiset(rest);
    var k :| 0 <= k < |rest| && rest[k] == y;
    j := if k < i then k else k + 1;
  }

  /** The fold under Functional/Supersede, as resolved rows of sorted claims. */
  lemma SupersedeShape(def: PredicateDef, group: seq<StatementEntry>, at: Timestamp, score: Scorer)
    returns (all: seq<Claim>, rows: seq<Belief>)
    requires GroupOk(group) && Supersedes(def)
    ensures ClaimsOk(all) && Distinct(all) && SortedBy(all, ClaimOrder)
    ensures forall c :: c in all <==> c in ClaimsOf(VisibleGroup(group, at))
    ensures RowsOk(rows) && |rows| == |all|
    ensures forall k :: 0 <= k < |rows| ==>
      Claim(rows[k].statement, Interval(rows[k].validFrom, rows[k].validTo)) == all[k]
    ensures FoldGroup(def, group, at, score) == Sort(Resolve(rows), BeliefOrder)
  {
    var visible := VisibleGroup(group, at);
    VisibleGroupPrepared(group, at);
    SortedClaimsOk(visible);
    all := Sort(ClaimsOf(visible), ClaimOrder);
    SortElements(ClaimsOf(visible), ClaimOrder);
    BaseRowsOk(visible, all, score);
    rows := BaseRows(visible, all, score);
  }

  lemma PermutedExclusive(rows: seq<Belief>, out: seq<Belief>, i: nat, j: nat, t: Timestamp)
    requires RowsOk(rows) && multiset(out) == multiset(Resolve(rows))
    requires i < j < |out| && out[i].status != Contradicted && out[j].status != Contradicted
    ensures !(Holds(out[i], t) && Holds(out[j], t))
  {
    TwoOccurrences(out, i, j);
    var p, q := OccursTwice(Resolve(rows), out[i], out[j]);
    SupersedeExclusive(rows, p, q, t);
  }

  /** Under Functional/Supersede the fold keeps at most one uncontradicted belief in force
      at every instant. */
  lemma AtMostOneInForce(def: PredicateDef, group: seq<StatementEntry>, at: Timestamp, score: Scorer,
                         i: nat, j: nat, t: Timestamp)
    requires GroupOk(group) && Supersedes(def)
    requires var out := FoldGroup(def, group, at, score);
      && i < j < |out| && out[i].status != Contradicted && out[j].status != Contradicted
    ensures var out := FoldGroup(def, group, at, score); !(Holds(out[i], t) && Holds(out[j], t))
  {
    var all, rows := SupersedeShape(def, group, at, score);
    PermutedExclusive(rows, FoldGroup(def, group, at, score), i, j, t);
  }

  /** `d` comes after `c` in the sweep's (start, statement) order. */
  predicate Later(c: Claim, d: Claim) { d != c && ClaimOrder(c, d) }

  ghost predicate Overtaken(claims: seq<Claim>, c: Claim, t: Timestamp) {
    exists d :: d in claims && Later(c, d) && d.iv.start <= t
  }

  /** A belief of the fold read against the affirmed claims: in force while claim `c` lasts
      and nothing later has begun. */
  ghost predicate InForceUntilLater(claims: seq<Claim>, c: Claim, b: Belief) {
    forall t :: Holds(b, t) <==> c.iv.Contains(t) && !Overtaken(claims, c, t)
  }

  lemma OvertakenByRow(claims: seq<Claim>, all: seq<Claim>, k: nat, t: Timestamp)
    requires k < |all| && ClaimsOk(all) && Distinct(all) && SortedBy(all, ClaimOrder)
    requires forall c :: c in all <==> c in claims
    ensures Overtaken(claims, all[k], t) <==> exists j :: k < j < |all| && all[j].iv.start <= t
  {
    LaterIsAfter(all, k);
    if Overtaken(claims, all[k], t) {
      var d :| d in claims && Later(all[k], d) && d.iv.start <= t;
      assert d in all;
      var j :| 0 <= j < |all| && all[j] == d;
      assert k < j;
    }
    forall j | k < j < |all| && all[j].iv.start <= t ensures Overtaken(claims, all[k], t) {
      assert all[j] in all && all[j] in claims;
    }
  }

  /** Every uncontradicted belief under Functional/Supersede comes from one affirmed claim
      and is in force exactly until a later claim of the group starts. */
  lemma SupersedeMeaning(def: PredicateDef, group: seq<StatementEntry>, at: Timestamp, score: Scorer, b: Belief)
    returns (c: Claim)
    requires GroupOk(group) && Supersedes(def)
    requires b in FoldGroup(def, group, at, score) && b.status != Contradicted
    ensures c in ClaimsOf(VisibleGroup(group, at)) && c.stmt == b.statement && c.iv.start == b.validFrom
    ensures InForceUntilLater(ClaimsOf(VisibleGroup(group, at)), c, b)
  {
    var all, rows := SupersedeShape(def, group, at, score);
    SortElements(Resolve(rows), BeliefOrder);
    c := ResolvedMeaning(ClaimsOf(VisibleGroup(group, at)), all, rows, b);
  }

  /** And every affirmed claim has its belief, statement and start unchanged: supersession
      shortens and marks, it never drops. */
  lemma SupersedeKeepsClaims(def: PredicateDef, group: seq<StatementEntry>, at: Timestamp, score: Scorer, c: Claim)
    returns (b: Belief)
    requires GroupOk(group) && Supersedes(def) && c in ClaimsOf(VisibleGroup(group, at))
    ensures b in FoldGroup(def, group, at, score) && b.statement == c.stmt && b.validFrom == c.iv.start
    ensures b.validTo <= c.iv.end
  {
    var all, rows := SupersedeShape(def, group, at, score);
    b := ResolvedClaim(all, rows, c);
    SortElements(Resolve(rows), BeliefOrder);
  }

  lemma ResolvedClaim(all: seq<Claim>, rows: seq<Belief>, c: Claim) returns (b: Belief)
    requires RowsOk(rows) && |rows| == |all| && c in all
    requires forall k :: 0 <= k < |rows| ==>
      Claim(rows[k].statement, Interval(rows[k].validFrom, rows[k].validTo)) == all[k]
    ensures b in Resolve(rows) && b.statement == c.stmt && b.validFrom == c.iv.start && b.validTo <= c.iv.end
  {
    var k :| 0 <= k < |all| && all[k] == c;
    b := Resolve(rows)[k];
    assert Claim(rows[k].statement, Interval(rows[k].validFrom, rows[k].validTo)) == c;
  }

  lemma ResolvedMeaning(claims: seq<Claim>, all: seq<Claim>, rows: seq<Belief>, b: Belief) returns (c: Claim)
    requires ClaimsOk(all) && Distinct(all) && SortedBy(all, ClaimOrder)
    requires forall c :: c in all <==> c in claims
    requires RowsOk(rows) && |rows| == |all|
    requires forall k :: 0 <= k < |rows| ==>
      Claim(rows[k].statement, Interval(rows[k].validFrom, rows[k].validTo)) == all[k]
    requires b in Resolve(rows) && b.status != Contradicted
    ensures c in claims && c.stmt == b.statement && c.iv.start == b.validFrom && InForceUntilLater(claims, c, b)
  {
    var k :| 0 <= k < |rows| && Resolve(rows)[k] == b;
    c := all[k];
    assert c in all;
    forall t ensures Holds(b, t) <==> c.iv.Contains(t) && !Overtaken(claims, c, t) {
      RowInForce(all, rows, k, t);
      OvertakenByRow(claims, all, k, t);
    }
  }

  lemma RowInForce(all: seq<Claim>, rows: seq<Belief>, k: nat, t: Timestamp)
    requires RowsOk(rows) && |rows| == |all| && k < |rows| && StatusAt(rows, k) != Contradicted
    requires forall i :: 0 <= i < |rows| ==>
      Claim(rows[i].statement, Interval(rows[i].validFrom, rows[i].validTo)) == all[i]
    ensures Holds(Resolved(rows, k), t) <==>
      all[k].iv.Contains(t) && !exists j :: k < j < |all| && all[j].iv.start <= t
  {
    SupersedePointwise(rows, k, t);
    forall j | 0 <= j < |all| ensures all[j].iv == Interval(rows[j].validFrom, rows[j].validTo) {
      assert Claim(rows[j].statement, Interval(rows[j].validFrom, rows[j].validTo)) == all[j];
    }
  }

  lemma LaterIsAfter(all: seq<Claim>, k: nat)
    requires k < |all| && ClaimsOk(all) && Distinct(all) && SortedBy(all, ClaimOrder)
    ensures forall j :: 0 <= j < |all| ==> (Later(all[k], all[j]) <==> k < j)
  {
    ClaimOrderTotal();
    forall j | 0 <= j < |all| ensures Later(all[k], all[j]) <==> k < j {
      if j < k {
        assert ClaimOrder(all[j], all[k]);
        assert all[j].stmt == all[k].stmt ==> all[j].iv.end < all[k].iv.start;
      }
    }
  }

  ghost function PlainStatus(def: PredicateDef, claims: seq<Claim>, c: Claim): BeliefStatus {
    if Contradicts(def) then RivalStatus(claims, c.stmt) else Active
  }

  /** The fold without supersession, as rows lined up with the affirmed claims. */
  lemma PlainShape(def: PredicateDef, group: seq<StatementEntry>, at: Timestamp, score: Scorer)
    returns (rows: seq<Belief>)
    requires GroupOk(group) && !Supersedes(def)
    ensures var claims := ClaimsOf(VisibleGroup(group, at));
      && |rows| == |claims|
      && forall k :: 0 <= k < |rows| ==> SliceOf(rows[k]) == ClaimSlice(claims[k], PlainStatus(def, claims, claims[k]))
    ensures FoldGroup(def, group, at, score) == Sort(rows, BeliefOrder)
  {
    var visible := VisibleGroup(group, at);
    VisibleGroupPrepared(group, at);
    IndependentAligned(visible, score);
    ContestedAligned(visible, visible, score);
    rows := ApplyRule(def, visible, score);
  }

  /** Under Functional/Static a belief is Contradicted exactly when its statement shares an
      affirmed instant with another statement of the group. */
  lemma ContradictedIff(def: PredicateDef, group: seq<StatementEntry>, at: Timestamp, score: Scorer, b: Belief)
    requires GroupOk(group) && Contradicts(def)
    requires b in FoldGroup(def, group, at, score)
    ensures Claim(b.statement, Interval(b.validFrom, b.validTo)) in ClaimsOf(VisibleGroup(group, at))
    ensures b.status == (if Rivalled(ClaimsOf(VisibleGroup(group, at)), b.statement) then Contradicted else Active)
  {
    var rows := PlainShape(def, group, at, score);
    SortElements(rows, BeliefOrder);
    var k :| 0 <= k < |rows| && rows[k] == b;
    var c := ClaimsOf(VisibleGroup(group, at))[k];
    assert SliceOf(b) == ClaimSlice(c, PlainStatus(def, ClaimsOf(VisibleGroup(group, at)), c));
  }

  /** Hence Active beliefs of different statements never share an instant. */
  lemma ActiveDisjoint(def: PredicateDef, group: seq<StatementEntry>, at: Timestamp, score: Scorer,
                       a: Belief, b: Belief, t: Timestamp)
    requires GroupOk(group) && Contradicts(def)
    requires a in FoldGroup(def, group, at, score) && b in FoldGroup(def, group, at, score)
    requires a.statement != b.statement && a.status == Active && b.status == Active
    ensures !(Holds(a, t) && Holds(b, t))
  {
    ContradictedIff(def, group, at, score, a);
    ContradictedIff(def, group, at, score, b);
    var claims := ClaimsOf(VisibleGroup(group, at));
    var c, d := Claim(a.statement, Interval(a.validFrom, a.validTo)), Claim(b.statement, Interval(b.validFrom, b.validTo));
    assert c in claims && d in claims;
    assert Holds(a, t) && Holds(b, t) ==> Overlaps(c.iv, d.iv);
  }

  /** Under every rule without cross-object effect (and under contradiction, which only
      changes statuses) the beliefs of a statement cover exactly the instants affirmed by
      some visible assertion and denied by none. */
  lemma CoverageMeaning(def: PredicateDef, group: seq<StatementEntry>, at: Timestamp, score: Scorer,
                        e: StatementEntry, t: Timestamp)
    requires GroupOk(group) && !Supersedes(def) && e in group
    ensures (exists b :: b in FoldGroup(def, group, at, score) && b.statement == e.statement.id && Holds(b, t)) <==>
      ClaimsVisibly(e.assertions, at, Affirm, t) && !ClaimsVisibly(e.assertions, at, Deny, t)
  {
    var out, own := FoldGroup(def, group, at, score), View(e, at).affirm;
    AffirmedMeaning(e, at, t);
    if Covers(own, t) {
      var i :| 0 <= i < |own| && own[i].Contains(t);
      ClaimsOfEntry(group, at, e, own[i]);
      RowsAreClaims(def, group, at, score, Claim(e.statement.id, own[i]));
    }
    forall b | b in out && b.statement == e.statement.id && Holds(b, t) ensures Covers(own, t) {
      var iv := Interval(b.validFrom, b.validTo);
      assert Carried(out, Claim(b.statement, iv));
      RowsAreClaims(def, group, at, score, Claim(b.statement, iv));
      ClaimsOfEntry(group, at, e, iv);
    }
  }

  /** Some belief carries claim `c` unchanged. */
  ghost predicate Carried(out: seq<Belief>, c: Claim) {
    exists b :: b in out && c == Claim(b.statement, Interval(b.validFrom, b.validTo))
  }

  lemma RowsAreClaims(def: PredicateDef, group: seq<StatementEntry>, at: Timestamp, score: Scorer, c: Claim)
    requires GroupOk(group) && !Supersedes(def)
    ensures Carried(FoldGroup(def, group, at, score), c) <==> c in ClaimsOf(VisibleGroup(group, at))
  {
    var claims := ClaimsOf(VisibleGroup(group, at));
    var rows := PlainShape(def, group, at, score);
    SortElements(rows, BeliefOrder);
    assert forall k :: 0 <= k < |rows| ==>
      claims[k] == Claim(SliceOf(rows[k]).statement, Interval(SliceOf(rows[k]).validFrom, SliceOf(rows[k]).validTo));
    if c in claims {
      var k :| 0 <= k < |claims| && claims[k] == c;
      assert rows[k] in rows;
    }
    if Carried(FoldGroup(def, group, at, score), c) {
      var b :| b in FoldGroup(def, group, at, score) && c == Claim(b.statement, Interval(b.validFrom, b.validTo));
      var k :| 0 <= k < |rows| && rows[k] == b;
    }
  }

  lemma ClaimsOfEntry(group: seq<StatementEntry>, at: Timestamp, e: StatementEntry, iv: Interval)
    requires GroupOk(group) && e in group
    ensures Claim(e.statement.id, iv) in ClaimsOf(VisibleGroup(group, at)) <==> iv in View(e, at).affirm
  {
    if Claim(e.statement.id, iv) in ClaimsOf(VisibleGroup(group, at)) { ClaimFromEntry(group, at, e, iv); }
    if iv in View(e, at).affirm { EntryClaim(group, at, e, iv); }
  }

  lemma ClaimFromEntry(group: seq<StatementEntry>, at: Timestamp, e: StatementEntry, iv: Interval)
    requires GroupOk(group) && e in group && Claim(e.statement.id, iv) in ClaimsOf(VisibleGroup(group, at))
    ensures iv in View(e, at).affirm
  {
    var visible, c := VisibleGroup(group, at), Claim(e.statement.id, iv);
    ClaimsOfElements(visible);
    var p, i :| 0 <= p < |visible| && 0 <= i < |visible[p].affirm| && c == Claim(visible[p].id, visible[p].affirm[i]);
    assert visible[p] in visible;
    VisibleFromEntry(group, at, e, visible[p]);
  }

  lemma VisibleFromEntry(group: seq<StatementEntry>, at: Timestamp, e: StatementEntry, vs: VisibleStmt)
    requires GroupOk(group) && e in group && vs in VisibleGroup(group, at) && vs.id == e.statement.id
    ensures vs == View(e, at)
  {
    VisibleGroupElements(group, at);
    var f :| f in group && VisibleOf(f.assertions, at) != [] && vs == View(f, at);
    assert f == e;
  }

  lemma EntryClaim(group: seq<StatementEntry>, at: Timestamp, e: StatementEntry, iv: Interval)
    requires GroupOk(group) && e in group && iv in View(e, at).affirm
    ensures Claim(e.statement.id, iv) in ClaimsOf(VisibleGroup(group, at))
  {
    var visible, vs := VisibleGroup(group, at), View(e, at);
    VisibleGroupElements(group, at);
    EmptyTimeline(e, at);
    assert vs in visible;
    VisibleClaim(visible, vs, iv);
  }

  lemma VisibleClaim(visible: seq<VisibleStmt>, vs: VisibleStmt, iv: Interval)
    requires vs in visible && iv in vs.affirm
    ensures Claim(vs.id, iv) in ClaimsOf(visible)
  {
    ClaimsOfElements(visible);
    var p :| 0 <= p < |visible| && visible[p] == vs;
    var i :| 0 <= i < |visible[p].affirm| && visible[p].affirm[i] == iv;
  }

  lemma EmptyTimeline(e: StatementEntry, at: Timestamp)
    ensures VisibleOf(e.assertions, at) == [] ==> View(e, at).affirm == []
  {
  }

  // ---- Support ----

  lemma {:induction false} CountsPartition(s: seq<Witness>)
    ensures Count(s, Affirm) + Count(s, Deny) == |s|
  {
    if s != [] { CountsPartition(s[..|s| - 1]); }
  }

  lemma {:induction false} EpisodeTrustKeys(s: seq<Witness>)
    ensures forall e :: e in EpisodeTrust(s) <==> exists a :: a in s && a.episode == e
  {
    if s != [] {
      EpisodeTrustKeys(s[..|s| - 1]);
      assert s == s[..|s| - 1] + [s[|s| - 1]];
    }
  }

  lemma {:induction false} OccurrencesPartition(tiers: seq<TrustTier>)
    ensures Occurrences(tiers, Trusted) + Occurrences(tiers, SemiTrusted) + Occurrences(tiers, Untrusted) == |tiers|
  {
    if tiers != [] { OccurrencesPartition(tiers[..|tiers| - 1]); }
  }

  function TotalWeight(weights: seq<(TrustTier, nat)>): nat {
    if weights == [] then 0 else TotalWeight(weights[..|weights| - 1]) + weights[|weights| - 1].1
  }

  /** Support conserves what it counts: polarities partition the assertions, and trust
      weights partition the distinct episodes. */
  lemma SupportConserves(s: seq<Witness>)
    ensures var r := SupportOf(s);
      && r.affirmCount + r.denyCount == |s|
      && TotalWeight(r.trustWeights) == r.distinctEpisodes == |set a | a in s :: a.episode|
  {
    CountsPartition(s);
    EpisodeTrustKeys(s);
    var trust := EpisodeTrust(s);
    var tiers := Tiers(trust);
    OccurrencesPartition(tiers);
    WeightsTotal(tiers);
    assert trust.Keys == set a | a in s :: a.episode;
  }

  lemma WeightsTotal(tiers: seq<TrustTier>)
    ensures TotalWeight(TrustWeights(tiers)) ==
      Occurrences(tiers, Trusted) + Occurrences(tiers, SemiTrusted) + Occurrences(tiers, Untrusted)
  {
    var x, y, z := Weight(Trusted, Occurrences(tiers, Trusted)), Weight(SemiTrusted, Occurrences(tiers, SemiTrusted)),
                   Weight(Untrusted, Occurrences(tiers, Untrusted));
    TotalWeightConcat(x, y);
    TotalWeightConcat(x + y, z);
  }

  lemma {:induction false} TotalWeightConcat(a: seq<(TrustTier, nat)>, b: seq<(TrustTier, nat)>)
    ensures TotalWeight(a + b) == TotalWeight(a) + TotalWeight(b)
  {
    if b == [] {
      assert a + b == a;
    } else {
      assert (a + b)[..|a + b| - 1] == a + b[..|b| - 1];
      TotalWeightConcat(a, b[..|b| - 1]);
    }
  }
}
