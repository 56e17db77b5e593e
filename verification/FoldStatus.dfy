/** Which status supersession gives each affirmed claim, read off the claims of the group. */
module FoldStatus {
  import opened Orders
  import opened Intervals
  import opened TemporalFold
  import opened FoldMeaning
  import opened FoldOrder

  /** `d` is the claim right after `c` in (start, statement) order. */
  ghost predicate Next(claims: seq<Claim>, c: Claim, d: Claim) {
    c in claims && d in claims && Later(c, d) && forall e :: e in claims && Later(c, e) ==> e == d || Later(d, e)
  }

  /** The claim right before `c` belongs to the same statement. */
  ghost predicate Continues(claims: seq<Claim>, c: Claim) {
    exists p :: Next(claims, p, c) && p.stmt == c.stmt
  }

  /** Neighbours with one start, the first of which does not continue its statement. */
  ghost predicate Clashing(claims: seq<Claim>, c: Claim, d: Claim) {
    Next(claims, c, d) && c.iv.start == d.iv.start && !Continues(claims, c)
  }

  ghost predicate InClash(claims: seq<Claim>, c: Claim) {
    exists d :: Clashing(claims, c, d) || Clashing(claims, d, c)
  }

  /** The next claim is another statement's and starts while `c` lasts. */
  ghost predicate Replaces(claims: seq<Claim>, c: Claim, d: Claim) {
    Next(claims, c, d) && c.stmt != d.stmt && d.iv.start <= c.iv.end
  }

  ghost function SweepStatus(claims: seq<Claim>, c: Claim): BeliefStatus {
    if InClash(claims, c) then Contradicted
    else if exists d :: Replaces(claims, c, d) then Superseded
    else Active
  }

  /** The slice the sweep leaves of claim `c`. */
  ghost predicate SweptSlice(claims: seq<Claim>, c: Claim, x: Slice) {
    && x.statement == c.stmt && x.validFrom == c.iv.start && x.status == SweepStatus(claims, c)
    && (if x.status == Superseded then exists d :: Replaces(claims, c, d) && x.validTo as int == d.iv.start as int - 1
        else x.validTo == c.iv.end)
  }

  // ---- Claims in order ----

  /** `all` lists the claims in processing order. */
  ghost predicate InOrder(claims: seq<Claim>, all: seq<Claim>) {
    ClaimsOk(all) && Distinct(all) && SortedBy(all, ClaimOrder) && SameClaims(all, claims)
  }

  lemma {:induction false} NextIsAdjacent(claims: seq<Claim>, all: seq<Claim>, i: nat, j: nat)
    requires InOrder(claims, all) && i < |all| && j < |all|
    ensures Next(claims, all[i], all[j]) <==> j == i + 1
  {
    LaterIsAfter(all, i);
    LaterIsAfter(all, j);
    assert all[i] in all && all[j] in all;
    if j == i + 1 {
      forall e | e in claims && Later(all[i], e) ensures e == all[j] || Later(all[j], e) {
        assert e in all;
        var k :| 0 <= k < |all| && all[k] == e;
      }
    } else if i + 1 < j {
      assert all[i + 1] in all && Later(all[i], all[i + 1]) && !Later(all[j], all[i + 1]) && all[i + 1] != all[j];
    }
  }

  lemma {:induction false} NextAt(claims: seq<Claim>, all: seq<Claim>, k: nat, d: Claim)
    requires InOrder(claims, all) && k < |all|
    ensures Next(claims, all[k], d) <==> k + 1 < |all| && d == all[k + 1]
    ensures Next(claims, d, all[k]) <==> k > 0 && d == all[k - 1]
  {
    if d in all {
      var j :| 0 <= j < |all| && all[j] == d;
      NextIsAdjacent(claims, all, k, j);
      NextIsAdjacent(claims, all, j, k);
    } else {
      assert k + 1 < |all| ==> all[k + 1] in all;
      assert k > 0 ==> all[k - 1] in all;
    }
  }

  lemma {:induction false} ContinuesAt(claims: seq<Claim>, all: seq<Claim>, k: nat)
    requires InOrder(claims, all) && k < |all|
    ensures Continues(claims, all[k]) <==> k > 0 && all[k - 1].stmt == all[k].stmt
  {
    if k > 0 { NextAt(claims, all, k, all[k - 1]); }
    if Continues(claims, all[k]) {
      var p :| Next(claims, p, all[k]) && p.stmt == all[k].stmt;
      NextAt(claims, all, k, p);
    }
  }

  /** Places `k` and `k + 1` hold a clash. */
  ghost predicate ClashAt(all: seq<Claim>, k: int) {
    && 0 <= k < |all| - 1 && all[k].iv.start == all[k + 1].iv.start
    && (k == 0 || all[k - 1].stmt != all[k].stmt)
  }

  lemma {:induction false} ClashingAt(claims: seq<Claim>, all: seq<Claim>, k: nat, d: Claim)
    requires InOrder(claims, all) && k < |all|
    ensures Clashing(claims, all[k], d) <==> ClashAt(all, k) && d == all[k + 1]
    ensures Clashing(claims, d, all[k]) <==> ClashAt(all, k - 1) && d == all[k - 1]
  {
    NextAt(claims, all, k, d);
    ContinuesAt(claims, all, k);
    if k > 0 { ContinuesAt(claims, all, k - 1); }
  }

  lemma {:induction false} InClashAt(claims: seq<Claim>, all: seq<Claim>, k: nat)
    requires InOrder(claims, all) && k < |all|
    ensures InClash(claims, all[k]) <==> ClashAt(all, k - 1) || ClashAt(all, k)
  {
    if ClashAt(all, k) { ClashingAt(claims, all, k, all[k + 1]); }
    if ClashAt(all, k - 1) { ClashingAt(claims, all, k, all[k - 1]); }
    if InClash(claims, all[k]) {
      var d :| Clashing(claims, all[k], d) || Clashing(claims, d, all[k]);
      ClashingAt(claims, all, k, d);
    }
  }

  lemma {:induction false} ReplacesAt(claims: seq<Claim>, all: seq<Claim>, k: nat, d: Claim)
    requires InOrder(claims, all) && k < |all|
    ensures Replaces(claims, all[k], d) <==>
      k + 1 < |all| && d == all[k + 1] && all[k].stmt != d.stmt && d.iv.start <= all[k].iv.end
  {
    NextAt(claims, all, k, d);
  }

  // ---- Rows ----

  ghost predicate RowsOf(all: seq<Claim>, rows: seq<Belief>) {
    && RowsOk(rows) && |rows| == |all|
    && forall k :: 0 <= k < |rows| ==> Claim(rows[k].statement, Interval(rows[k].validFrom, rows[k].validTo)) == all[k]
  }

  lemma {:induction false} RowFields(all: seq<Claim>, rows: seq<Belief>)
    requires RowsOf(all, rows)
    ensures forall k :: 0 <= k < |rows| ==> rows[k].statement == all[k].stmt
    ensures forall k :: 0 <= k < |rows| ==> rows[k].validFrom == all[k].iv.start && rows[k].validTo == all[k].iv.end
  {
    forall k | 0 <= k < |rows|
      ensures rows[k].statement == all[k].stmt && rows[k].validFrom == all[k].iv.start && rows[k].validTo == all[k].iv.end
    {
      assert Claim(rows[k].statement, Interval(rows[k].validFrom, rows[k].validTo)) == all[k];
    }
  }

  lemma {:induction false} RowClash(all: seq<Claim>, rows: seq<Belief>, k: int)
    requires RowsOf(all, rows) && ClaimsOk(all)
    ensures Clash(rows, k) <==> ClashAt(all, k)
  {
    RowFields(all, rows);
    if ClashAt(all, k) { assert all[k].stmt != all[k + 1].stmt; }
  }

  lemma {:induction false} RowSwept(claims: seq<Claim>, all: seq<Claim>, rows: seq<Belief>, k: nat)
    requires InOrder(claims, all) && RowsOf(all, rows) && k < |rows|
    ensures SweptSlice(claims, all[k], SliceOf(Resolved(rows, k)))
  {
    RowFields(all, rows);
    RowClash(all, rows, k);
    RowClash(all, rows, k - 1);
    InClashAt(claims, all, k);
    if k + 1 < |all| { ReplacesAt(claims, all, k, all[k + 1]); }
    if exists d :: Replaces(claims, all[k], d) {
      var d :| Replaces(claims, all[k], d);
      ReplacesAt(claims, all, k, d);
    }
  }

  // ---- The fold ----

  /** The claims of a group in order, and their rows: the fold returns what the sweep leaves. */
  lemma {:induction false} OrderedRows(def: PredicateDef, group: seq<StatementEntry>, at: Timestamp, score: Scorer)
    returns (all: seq<Claim>, rows: seq<Belief>)
    requires GroupOk(group) && Supersedes(def)
    ensures InOrder(ClaimsOf(VisibleGroup(group, at)), all) && RowsOf(all, rows)
    ensures FoldGroup(def, group, at, score) == Sort(Resolve(rows), BeliefOrder)
    ensures forall b :: b in FoldGroup(def, group, at, score) <==> b in Resolve(rows)
  {
    all, rows := SupersedeShape(def, group, at, score);
    SortElements(Resolve(rows), BeliefOrder);
  }

  lemma {:induction false} BeliefOfRow(claims: seq<Claim>, all: seq<Claim>, rows: seq<Belief>, b: Belief) returns (c: Claim)
    requires InOrder(claims, all) && RowsOf(all, rows) && b in Resolve(rows)
    ensures c in claims && SweptSlice(claims, c, SliceOf(b))
  {
    var k :| 0 <= k < |rows| && Resolve(rows)[k] == b;
    c := all[k];
    assert c in all;
    RowSwept(claims, all, rows, k);
  }

  lemma {:induction false} RowOfClaim(claims: seq<Claim>, all: seq<Claim>, rows: seq<Belief>, c: Claim) returns (b: Belief)
    requires InOrder(claims, all) && RowsOf(all, rows) && c in claims
    ensures b in Resolve(rows) && SweptSlice(claims, c, SliceOf(b))
  {
    assert c in all;
    var k :| 0 <= k < |all| && all[k] == c;
    b := Resolve(rows)[k];
    RowSwept(claims, all, rows, k);
  }

  /** Each belief of the fold under Functional/Supersede is what the sweep leaves of one claim. */
  lemma {:induction false} SweptBelief(def: PredicateDef, group: seq<StatementEntry>, at: Timestamp, score: Scorer, b: Belief)
    returns (c: Claim)
    requires GroupOk(group) && Supersedes(def) && b in FoldGroup(def, group, at, score)
    ensures c in ClaimsOf(VisibleGroup(group, at)) && SweptSlice(ClaimsOf(VisibleGroup(group, at)), c, SliceOf(b))
  {
    var all, rows := OrderedRows(def, group, at, score);
    c := BeliefOfRow(ClaimsOf(VisibleGroup(group, at)), all, rows, b);
  }

  /** And each claim leaves such a belief. */
  lemma {:induction false} SweptClaim(def: PredicateDef, group: seq<StatementEntry>, at: Timestamp, score: Scorer, c: Claim)
    returns (b: Belief)
    requires GroupOk(group) && Supersedes(def) && c in ClaimsOf(VisibleGroup(group, at))
    ensures b in FoldGroup(def, group, at, score) && SweptSlice(ClaimsOf(VisibleGroup(group, at)), c, SliceOf(b))
  {
    var all, rows := OrderedRows(def, group, at, score);
    b := RowOfClaim(ClaimsOf(VisibleGroup(group, at)), all, rows, c);
  }

  // ---- Equal starts ----

  /** Some two claims start at `t`. */
  ghost predicate SharedStart(claims: seq<Claim>, t: Timestamp) {
    exists c, d :: c in claims && d in claims && c != d && c.iv.start == t && d.iv.start == t
  }

  /** The first claim that starts at `t` continues the statement of the claim before it. */
  ghost predicate StartContinues(claims: seq<Claim>, t: Timestamp) {
    exists c :: c in claims && c.iv.start == t && Continues(claims, c)
  }

  /** The place of another claim with the same start. */
  lemma {:induction false} SharedPlace(claims: seq<Claim>, all: seq<Claim>, t: Timestamp, k: nat) returns (j: nat)
    requires InOrder(claims, all) && k < |all| && SharedStart(claims, t)
    ensures j < |all| && j != k && all[j].iv.start == t
  {
    var c, d :| c in claims && d in claims && c != d && c.iv.start == t && d.iv.start == t;
    var other := if c == all[k] then d else c;
    assert other in all;
    j :| 0 <= j < |all| && all[j] == other;
  }

  lemma {:induction false} PlacedClash(all: seq<Claim>, t: Timestamp, k: nat, j: nat)
    requires ClaimsOk(all) && k < |all| && j < |all| && j != k && all[k].iv.start == t == all[j].iv.start
    requires forall i :: 0 < i < |all| && all[i].iv.start == t ==> all[i - 1].stmt != all[i].stmt
    ensures ClashAt(all, k - 1) || ClashAt(all, k)
  {
    if k < j {
      assert all[k].iv.start <= all[k + 1].iv.start <= all[j].iv.start;
    } else {
      assert all[j].iv.start <= all[k - 1].iv.start <= all[k].iv.start;
    }
  }

  lemma {:induction false} SharedClash(claims: seq<Claim>, all: seq<Claim>, t: Timestamp, k: nat)
    requires InOrder(claims, all) && k < |all| && all[k].iv.start == t
    requires SharedStart(claims, t) && !StartContinues(claims, t)
    ensures InClash(claims, all[k])
  {
    forall i | 0 < i < |all| && all[i].iv.start == t ensures all[i - 1].stmt != all[i].stmt {
      ContinuesAt(claims, all, i);
      assert all[i] in all;
    }
    var j := SharedPlace(claims, all, t, k);
    PlacedClash(all, t, k, j);
    InClashAt(claims, all, k);
  }

  lemma {:induction false} ContinuingSpared(claims: seq<Claim>, all: seq<Claim>, k: nat)
    requires InOrder(claims, all) && k < |all| && Continues(claims, all[k])
    ensures !InClash(claims, all[k])
  {
    ContinuesAt(claims, all, k);
    InClashAt(claims, all, k);
    assert all[k - 1].iv.end < all[k].iv.start;
  }

  lemma {:induction false} SharedContradicted(def: PredicateDef, group: seq<StatementEntry>, at: Timestamp, score: Scorer, t: Timestamp, b: Belief)
    requires GroupOk(group) && Supersedes(def) && SharedStart(ClaimsOf(VisibleGroup(group, at)), t)
    requires b in FoldGroup(def, group, at, score) && b.validFrom == t && !StartContinues(ClaimsOf(VisibleGroup(group, at)), t)
    ensures b.status == Contradicted
  {
    var claims := ClaimsOf(VisibleGroup(group, at));
    var all, _ := OrderedRows(def, group, at, score);
    var c := SweptBelief(def, group, at, score, b);
    assert c in all;
    var k :| 0 <= k < |all| && all[k] == c;
    SharedClash(claims, all, t, k);
  }

  lemma {:induction false} SparedBelief(def: PredicateDef, group: seq<StatementEntry>, at: Timestamp, score: Scorer, c: Claim)
    returns (b: Belief)
    requires GroupOk(group) && Supersedes(def) && c in ClaimsOf(VisibleGroup(group, at))
    requires Continues(ClaimsOf(VisibleGroup(group, at)), c)
    ensures b in FoldGroup(def, group, at, score) && b.validFrom == c.iv.start && b.status != Contradicted
  {
    var claims := ClaimsOf(VisibleGroup(group, at));
    var all, _ := OrderedRows(def, group, at, score);
    b := SweptClaim(def, group, at, score, c);
    assert c in all;
    var k :| 0 <= k < |all| && all[k] == c;
    ContinuingSpared(claims, all, k);
  }

  /** Where several claims start together, every belief that starts there is Contradicted
      exactly when none of those claims continues the statement of the claim before it. */
  lemma {:induction false} EqualStartsContradicted(def: PredicateDef, group: seq<StatementEntry>, at: Timestamp, score: Scorer, t: Timestamp)
    requires GroupOk(group) && Supersedes(def) && SharedStart(ClaimsOf(VisibleGroup(group, at)), t)
    ensures (forall b :: b in FoldGroup(def, group, at, score) && b.validFrom == t ==> b.status == Contradicted) <==>
      !StartContinues(ClaimsOf(VisibleGroup(group, at)), t)
  {
    if StartContinues(ClaimsOf(VisibleGroup(group, at)), t) {
      var c :| c in ClaimsOf(VisibleGroup(group, at)) && c.iv.start == t && Continues(ClaimsOf(VisibleGroup(group, at)), c);
      var b := SparedBelief(def, group, at, score, c);
    } else {
      forall b | b in FoldGroup(def, group, at, score) && b.validFrom == t ensures b.status == Contradicted {
        SharedContradicted(def, group, at, score, t, b);
      }
    }
  }

  // ---- Where the rule misses a rival ----

  function Affirmation(id: string, from: Timestamp, to: Timestamp, at: Timestamp): Assertion {
    Assertion(id, "episode", None, Affirm, from, to, 1.0, at, None, Trusted)
  }

  /** A is affirmed on [1,2] and [5,10], B on [5,8]. */
  function MissedGroup(def: PredicateDef, at: Timestamp): seq<StatementEntry> {
    [StatementEntry(Statement("A", def.name), [Affirmation("1", 1, 2, at), Affirmation("2", 5, 10, at)]),
     StatementEntry(Statement("B", def.name), [Affirmation("3", 5, 8, at)])]
  }

  ghost predicate ThreeClaims(claims: seq<Claim>, a: Claim, b: Claim, c: Claim) {
    && claims == [a, b, c] && a == Claim("A", Interval(1, 2)) && b == Claim("A", Interval(5, 10)) && c == Claim("B", Interval(5, 8))
  }

  lemma {:induction false} VisibleLast(s: seq<Assertion>, a: Assertion, at: Timestamp)
    requires Visible(a, at) && a.polarity == Affirm
    ensures VisibleOf(s + [a], at) == VisibleOf(s, at) + [a]
    ensures Claimed(s + [a], Affirm) == Claimed(s, Affirm) + [Interval(a.claimedFrom, a.claimedTo)]
    ensures Claimed(s + [a], Deny) == Claimed(s, Deny)
  {
    assert (s + [a])[..|s + [a]| - 1] == s;
  }

  lemma {:induction false} OneTimeline(a: Assertion, at: Timestamp)
    requires Visible(a, at) && a.polarity == Affirm
    ensures VisibleOf([a], at) == [a] && Affirmed([a]) == [Interval(a.claimedFrom, a.claimedTo)]
    ensures Claimed([a], Affirm) == [Interval(a.claimedFrom, a.claimedTo)] && Claimed([a], Deny) == []
  {
    VisibleLast([], a, at);
    assert [] + [a] == [a];
  }

  lemma {:induction false} TwoTimelines(a: Assertion, b: Assertion, at: Timestamp)
    requires Visible(a, at) && Visible(b, at) && a.polarity == b.polarity == Affirm
    requires a.claimedFrom <= a.claimedTo < b.claimedFrom <= b.claimedTo
    ensures VisibleOf([a, b], at) == [a, b]
    ensures Affirmed([a, b]) == [Interval(a.claimedFrom, a.claimedTo), Interval(b.claimedFrom, b.claimedTo)]
  {
    OneTimeline(a, at);
    VisibleLast([a], b, at);
    assert [a] + [b] == [a, b];
    TwoMerged(Interval(a.claimedFrom, a.claimedTo), Interval(b.claimedFrom, b.claimedTo));
  }

  lemma {:induction false} TwoMerged(x: Interval, y: Interval)
    requires x.start <= x.end < y.start
    ensures Merge([x, y]) == [x, y]
  {
    SortSorted([x, y], StartsFirst);
    assert [x, y][1..] == [y] && [y][1..] == [];
    assert MergeInto(x, [y]) == [x] + MergeInto(y, []);
  }

  lemma {:induction false} ViewLast(group: seq<StatementEntry>, e: StatementEntry, at: Timestamp, all: seq<StatementEntry>, vs: VisibleStmt)
    requires VisibleOf(e.assertions, at) != [] && vs == View(e, at) && all == group + [e]
    ensures VisibleGroup(all, at) == VisibleGroup(group, at) + [vs]
  {
    assert all[..|all| - 1] == group;
  }

  lemma {:induction false} ClaimsLast(visible: seq<VisibleStmt>, vs: VisibleStmt)
    ensures ClaimsOf(visible + [vs]) == ClaimsOf(visible) + OwnClaims(vs)
  {
    assert (visible + [vs])[..|visible + [vs]| - 1] == visible;
  }

  lemma {:induction false} ClaimsPair(u: VisibleStmt, v: VisibleStmt)
    ensures ClaimsOf([u, v]) == OwnClaims(u) + OwnClaims(v)
  {
    ClaimsLast([], u);
    ClaimsLast([u], v);
    assert [] + [u] == [u] && [u] + [v] == [u, v];
  }

  lemma {:induction false} ClaimsThree(u: VisibleStmt, v: VisibleStmt, a: Claim, b: Claim, c: Claim)
    requires a == Claim(u.id, Interval(1, 2)) && b == Claim(u.id, Interval(5, 10)) && c == Claim(v.id, Interval(5, 8))
    requires u.affirm == [a.iv, b.iv] && v.affirm == [c.iv]
    ensures ClaimsOf([u, v]) == [a, b, c]
  {
    ClaimsPair(u, v);
    assert OwnClaims(u) == [a, b] && OwnClaims(v) == [c];
  }

  lemma {:induction false} MissedClaims(e: StatementEntry, f: StatementEntry, at: Timestamp)
    returns (a: Claim, b: Claim, c: Claim)
    requires e.statement.id == "A" && e.assertions == [Affirmation("1", 1, 2, at), Affirmation("2", 5, 10, at)]
    requires f.statement.id == "B" && f.assertions == [Affirmation("3", 5, 8, at)]
    ensures ThreeClaims(ClaimsOf(VisibleGroup([e, f], at)), a, b, c)
  {
    a, b, c := Claim("A", Interval(1, 2)), Claim("A", Interval(5, 10)), Claim("B", Interval(5, 8));
    var u, v := MissedViews(e, f, at);
    ClaimsThree(u, v, a, b, c);
  }

  lemma {:induction false} MissedViews(e: StatementEntry, f: StatementEntry, at: Timestamp)
    returns (u: VisibleStmt, v: VisibleStmt)
    requires e.assertions == [Affirmation("1", 1, 2, at), Affirmation("2", 5, 10, at)]
    requires f.assertions == [Affirmation("3", 5, 8, at)]
    ensures u.id == e.statement.id && u.affirm == [Interval(1, 2), Interval(5, 10)]
    ensures v.id == f.statement.id && v.affirm == [Interval(5, 8)]
    ensures VisibleGroup([e, f], at) == [u, v]
  {
    TwoTimelines(Affirmation("1", 1, 2, at), Affirmation("2", 5, 10, at), at);
    OneTimeline(Affirmation("3", 5, 8, at), at);
    u, v := View(e, at), View(f, at);
    ViewLast([], e, at, [e], u);
    ViewLast([e], f, at, [e, f], v);
  }

  lemma {:induction false} ThreeInOrder(claims: seq<Claim>, all: seq<Claim>, a: Claim, b: Claim, c: Claim)
    requires ThreeClaims(claims, a, b, c) && InOrder(claims, all)
    ensures all == claims
  {
    assert AtMost("A", "B");
    SameSortedClaims(all, claims);
  }

  /** The sweep over the three claims, row by row. */
  lemma {:induction false} ThreeSwept(all: seq<Claim>, rows: seq<Belief>, a: Claim, b: Claim, c: Claim)
    requires RowsOf(all, rows) && ThreeClaims(all, a, b, c)
    ensures SliceOf(Resolved(rows, 0)) == Slice("A", 1, 2, Active)
    ensures SliceOf(Resolved(rows, 1)) == Slice("A", 5, 4, Superseded)
    ensures SliceOf(Resolved(rows, 2)) == Slice("B", 5, 8, Active)
  {
    RowFields(all, rows);
    assert !OpensRun(rows, 1);
    assert !Clash(rows, 0) && !Clash(rows, 1) && !Clash(rows, 2);
  }

  lemma {:induction false} ThreeSorted(out: seq<Belief>)
    requires |out| == 3 && SliceOf(out[0]) == Slice("A", 1, 2, Active)
    requires SliceOf(out[1]) == Slice("A", 5, 4, Superseded) && SliceOf(out[2]) == Slice("B", 5, 8, Active)
    ensures Slices(Sort(out, BeliefOrder)) == [Slice("A", 1, 2, Active), Slice("A", 5, 4, Superseded), Slice("B", 5, 8, Active)]
  {
    assert BeliefOrder(out[0], out[1]) && BeliefOrder(out[0], out[2]) && BeliefOrder(out[1], out[2]);
    SortSorted(out, BeliefOrder);
  }

  /** The rival B starts together with A's second interval, yet neither is contradicted: the
      sweep continues A and closes its second belief before it begins. */
  lemma {:induction false} EqualStartMissed(def: PredicateDef, at: Timestamp, score: Scorer)
    requires Supersedes(def)
    ensures GroupOk(MissedGroup(def, at))
    ensures Slices(FoldGroup(def, MissedGroup(def, at), at, score)) ==
      [Slice("A", 1, 2, Active), Slice("A", 5, 4, Superseded), Slice("B", 5, 8, Active)]
  {
    var a, b, c := MissedClaims(MissedGroup(def, at)[0], MissedGroup(def, at)[1], at);
    var all, rows := OrderedRows(def, MissedGroup(def, at), at, score);
    ThreeInOrder(ClaimsOf(VisibleGroup(MissedGroup(def, at), at)), all, a, b, c);
    ThreeSwept(all, rows, a, b, c);
    ThreeSorted(Resolve(rows));
  }
}
