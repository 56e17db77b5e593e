/** The loops of the fold, each proved to compute its closed form in Fold.dfy. The
    supersession sweep carries a mutable `current` and rewrites the last belief it
    pushed; its closed form looks at neighbouring claims only. */
module FoldLoops {
  import opened Orders
  import opened Intervals
  import opened TemporalFold

  method ComputeSupport(assertions: seq<Witness>) returns (support: Support)
    ensures support == SupportOf(assertions)
  {
    var affirmCount, denyCount: nat := 0, 0;
    var episodeTrust: map<string, TrustTier> := map[];
    for i := 0 to |assertions|
      invariant affirmCount == Count(assertions[..i], Affirm) && denyCount == Count(assertions[..i], Deny)
      invariant episodeTrust == EpisodeTrust(assertions[..i])
    {
      var a := assertions[i];
      assert assertions[..i + 1][..i] == assertions[..i];
      if a.polarity == Affirm { affirmCount := affirmCount + 1; } else { denyCount := denyCount + 1; }
      if a.episode !in episodeTrust {
        episodeTrust := episodeTrust[a.episode := a.trust];
      }
    }
    assert assertions[..|assertions|] == assertions;
    var weights := WeighTiers(Tiers(episodeTrust));
    support := Support(affirmCount, denyCount, |episodeTrust|, weights);
  }

  method WeighTiers(tiers: seq<TrustTier>) returns (weights: seq<(TrustTier, nat)>)
    ensures weights == TrustWeights(tiers)
  {
    var trusted, semi, untrusted: nat := 0, 0, 0;
    for i := 0 to |tiers|
      invariant trusted == Occurrences(tiers[..i], Trusted)
      invariant semi == Occurrences(tiers[..i], SemiTrusted)
      invariant untrusted == Occurrences(tiers[..i], Untrusted)
    {
      assert tiers[..i + 1][..i] == tiers[..i];
      match tiers[i]
      case Trusted => trusted := trusted + 1;
      case SemiTrusted => semi := semi + 1;
      case Untrusted => untrusted := untrusted + 1;
    }
    assert tiers[..|tiers|] == tiers;
    weights := [];
    if trusted > 0 { weights := weights + [(Trusted, trusted)]; }
    if semi > 0 { weights := weights + [(SemiTrusted, semi)]; }
    if untrusted > 0 { weights := weights + [(Untrusted, untrusted)]; }
  }

  method PushRows(beliefs: seq<Belief>, vs: VisibleStmt, status: BeliefStatus, score: Scorer) returns (r: seq<Belief>)
    ensures r == beliefs + Rows(vs, status, score)
  {
    var support := ComputeSupport(vs.witnesses);
    var conf := score(vs.witnesses, support);
    r := AppendRows(beliefs, vs.id, vs.affirm, support, conf, status, Rows(vs, status, score));
  }

  method AppendRows(beliefs: seq<Belief>, id: string, affirm: seq<Interval>, support: Support, conf: real,
                    status: BeliefStatus, ghost rows: seq<Belief>) returns (r: seq<Belief>)
    requires |rows| == |affirm|
    requires forall i :: 0 <= i < |rows| ==> rows[i] == Belief(id, affirm[i].start, affirm[i].end, support, conf, status)
    ensures r == beliefs + rows
  {
    r := beliefs;
    for i := 0 to |affirm|
      invariant r == beliefs + rows[..i]
    {
      assert rows[..i + 1] == rows[..i] + [rows[i]];
      r := r + [Belief(id, affirm[i].start, affirm[i].end, support, conf, status)];
    }
    assert rows[..|rows|] == rows;
  }

  method FoldIndependent(visible: seq<VisibleStmt>, score: Scorer) returns (beliefs: seq<Belief>)
    ensures beliefs == Independent(visible, score)
  {
    beliefs := [];
    for i := 0 to |visible|
      invariant beliefs == Independent(visible[..i], score)
    {
      assert visible[..i + 1][..i] == visible[..i];
      beliefs := PushRows(beliefs, visible[i], Active, score);
    }
    assert visible[..|visible|] == visible;
  }

  // ---- Contradiction ----

  function Affirming(visible: seq<VisibleStmt>): seq<VisibleStmt> {
    if visible == [] then [] else
      Affirming(visible[..|visible| - 1]) +
      (if visible[|visible| - 1].affirm != [] then [visible[|visible| - 1]] else [])
  }

  lemma {:induction false} AffirmingMembers(visible: seq<VisibleStmt>)
    ensures forall vs :: vs in Affirming(visible) <==> vs in visible && vs.affirm != []
  {
    if visible != [] {
      AffirmingMembers(visible[..|visible| - 1]);
      assert visible == visible[..|visible| - 1] + [visible[|visible| - 1]];
    }
  }

  lemma {:induction false} AffirmingElements(visible: seq<VisibleStmt>)
    requires Prepared(visible)
    ensures forall vs :: vs in Affirming(visible) <==> vs in visible && vs.affirm != []
    ensures Prepared(Affirming(visible))
  {
    AffirmingMembers(visible);
    if visible != [] {
      var front, last := visible[..|visible| - 1], visible[|visible| - 1];
      AffirmingElements(front);
      AffirmingPush(Affirming(front), front, last);
    }
  }

  lemma AffirmingPush(kept: seq<VisibleStmt>, front: seq<VisibleStmt>, last: VisibleStmt)
    requires Prepared(front + [last]) && Prepared(kept) && forall vs :: vs in kept ==> vs in front
    ensures Prepared(kept + [last])
  {
    assert (front + [last])[|front|] == last;
    forall i | 0 <= i < |kept| ensures kept[i].id != last.id {
      assert kept[i] in front;
      var k :| 0 <= k < |front| && front[k] == kept[i];
      assert (front + [last])[k] == front[k];
    }
    PreparedAppend(kept, last);
  }

  /** The pairs the double loop has examined when it stands at (i, j). */
  ghost predicate Examined(p: nat, q: nat, i: nat, j: nat) {
    p < q && (p < i || (p == i && q < j))
  }

  ghost predicate HasCollision(a: seq<VisibleStmt>, id: string) {
    exists p, q :: 0 <= p < |a| && 0 <= q < |a| && p != q && Collide(a[p], a[q]) && a[p].id == id
  }

  ghost predicate Marks(a: seq<VisibleStmt>, contradicted: seq<string>, i: nat, j: nat) {
    && (forall p, q :: 0 <= p < |a| && 0 <= q < |a| && Examined(p, q, i, j) && Collide(a[p], a[q]) ==>
          a[p].id in contradicted && a[q].id in contradicted)
    && (forall id :: id in contradicted ==> HasCollision(a, id))
  }

  lemma CollideSymmetric(a: VisibleStmt, b: VisibleStmt)
    requires Collide(a, b)
    ensures Collide(b, a)
  {
    var i, j :| 0 <= i < |a.affirm| && 0 <= j < |b.affirm| && Overlaps(a.affirm[i], b.affirm[j]);
    assert Overlaps(b.affirm[j], a.affirm[i]);
  }

  function AddOnce(ids: seq<string>, id: string): (r: seq<string>)
    ensures forall x :: x in r <==> x in ids || x == id
  {
    if id in ids then ids else ids + [id]
  }

  lemma MarksStep(a: seq<VisibleStmt>, contradicted: seq<string>, i: nat, j: nat)
    requires i < j < |a| && Marks(a, contradicted, i, j)
    ensures Marks(a, if Collide(a[i], a[j]) then AddOnce(AddOnce(contradicted, a[i].id), a[j].id) else contradicted, i, j + 1)
  {
    var more := if Collide(a[i], a[j]) then AddOnce(AddOnce(contradicted, a[i].id), a[j].id) else contradicted;
    if Collide(a[i], a[j]) { CollisionOfPair(a, i, j); }
    forall p, q | 0 <= p < |a| && 0 <= q < |a| && Examined(p, q, i, j + 1) && Collide(a[p], a[q])
      ensures a[p].id in more && a[q].id in more
    {
      assert Examined(p, q, i, j) || (p == i && q == j);
    }
  }

  lemma CollisionOfPair(a: seq<VisibleStmt>, i: nat, j: nat)
    requires i < j < |a| && Collide(a[i], a[j])
    ensures HasCollision(a, a[i].id) && HasCollision(a, a[j].id)
  {
    CollideSymmetric(a[i], a[j]);
  }

  lemma MarksNextRow(a: seq<VisibleStmt>, contradicted: seq<string>, i: nat)
    requires Marks(a, contradicted, i, |a|)
    ensures Marks(a, contradicted, i + 1, i + 2)
  {
    assert forall p: nat, q: nat :: Examined(p, q, i + 1, i + 2) && q < |a| ==> Examined(p, q, i, |a|);
  }

  lemma MarksComplete(a: seq<VisibleStmt>, contradicted: seq<string>, k: nat)
    requires Prepared(a) && k < |a| && Marks(a, contradicted, |a|, |a| + 1)
    ensures a[k].id in contradicted <==> Contested(a, a[k])
  {
    if Contested(a, a[k]) {
      var m :| 0 <= m < |a| && a[m].id != a[k].id && Collide(a[k], a[m]);
      CollideSymmetric(a[k], a[m]);
      assert if k < m then Examined(k, m, |a|, |a| + 1) else Examined(m, k, |a|, |a| + 1);
    }
    if a[k].id in contradicted {
      assert HasCollision(a, a[k].id);
      var p, q :| 0 <= p < |a| && 0 <= q < |a| && p != q && Collide(a[p], a[q]) && a[p].id == a[k].id;
      assert p == k && a[q].id != a[k].id;
    }
  }

  /** The marking double loop: statement ids that collide with some other statement. */
  method MarkContradicted(a: seq<VisibleStmt>) returns (contradicted: seq<string>)
    requires Prepared(a)
    ensures Marks(a, contradicted, |a|, |a| + 1)
  {
    contradicted := [];
    for i := 0 to |a|
      invariant Marks(a, contradicted, i, i + 1)
    {
      for j := i + 1 to |a|
        invariant Marks(a, contradicted, i, j)
      {
        MarksStep(a, contradicted, i, j);
        if Collide(a[i], a[j]) {
          contradicted := AddOnce(contradicted, a[i].id);
          contradicted := AddOnce(contradicted, a[j].id);
        }
      }
      MarksNextRow(a, contradicted, i);
    }
  }

  lemma {:induction false} NothingContested(all: seq<VisibleStmt>, visible: seq<VisibleStmt>, score: Scorer)
    requires forall vs :: vs in visible ==> vs.affirm == [] || !Contested(all, vs)
    ensures ContestedRows(all, visible, score) == Independent(visible, score)
  {
    if visible != [] {
      assert visible[|visible| - 1] in visible;
      NothingContested(all, visible[..|visible| - 1], score);
    }
  }

  /** With at most one affirming statement nothing can be contested. */
  lemma SingleNotContested(visible: seq<VisibleStmt>, vs: VisibleStmt)
    requires Prepared(visible) && |Affirming(visible)| <= 1 && vs in visible
    ensures !Contested(visible, vs)
  {
    AffirmingMembers(visible);
    forall k | 0 <= k < |visible| && visible[k].id != vs.id ensures !Collide(vs, visible[k]) {
      assert visible[k] in visible;
      if visible[k].affirm != [] && vs.affirm != [] { OnlyElement(Affirming(visible), visible[k], vs); }
    }
  }

  lemma OnlyElement<T>(s: seq<T>, x: T, y: T)
    requires |s| <= 1 && x in s && y in s
    ensures x == y
  {
  }

  lemma ContestedAmongAffirming(visible: seq<VisibleStmt>, vs: VisibleStmt)
    requires Prepared(visible)
    ensures Contested(visible, vs) <==> Contested(Affirming(visible), vs)
  {
    AffirmingElements(visible);
    var a := Affirming(visible);
    forall k | 0 <= k < |visible| && visible[k].id != vs.id && Collide(vs, visible[k]) ensures Contested(a, vs) {
      assert visible[k] in visible && visible[k] in a;
      var m :| 0 <= m < |a| && a[m] == visible[k];
    }
    forall m | 0 <= m < |a| && a[m].id != vs.id && Collide(vs, a[m]) ensures Contested(visible, vs) {
      assert a[m] in a && a[m] in visible;
      var k :| 0 <= k < |visible| && visible[k] == a[m];
    }
  }

  method FoldContradiction(visible: seq<VisibleStmt>, score: Scorer) returns (beliefs: seq<Belief>)
    requires Prepared(visible)
    ensures beliefs == ContestedRows(visible, visible, score)
  {
    var affirming := Affirming(visible);
    AffirmingElements(visible);
    if |affirming| <= 1 {
      forall vs | vs in visible ensures !Contested(visible, vs) { SingleNotContested(visible, vs); }
      NothingContested(visible, visible, score);
      beliefs := FoldIndependent(visible, score);
      return;
    }
    var contradicted := MarkContradicted(affirming);
    beliefs := PushMarkedRows(visible, contradicted, score);
  }

  method PushMarkedRows(visible: seq<VisibleStmt>, contradicted: seq<string>, score: Scorer)
    returns (beliefs: seq<Belief>)
    requires Prepared(visible)
    requires Marks(Affirming(visible), contradicted, |Affirming(visible)|, |Affirming(visible)| + 1)
    ensures beliefs == ContestedRows(visible, visible, score)
  {
    beliefs := [];
    for i := 0 to |visible|
      invariant beliefs == ContestedRows(visible, visible[..i], score)
    {
      assert visible[..i + 1][..i] == visible[..i];
      MarkedIffContested(visible, visible[i], contradicted);
      var status := if visible[i].id in contradicted then Contradicted else Active;
      beliefs := PushRows(beliefs, visible[i], status, score);
    }
    assert visible[..|visible|] == visible;
  }

  lemma MarkedIffContested(visible: seq<VisibleStmt>, vs: VisibleStmt, contradicted: seq<string>)
    requires Prepared(visible) && vs in visible
    requires var a := Affirming(visible); Marks(a, contradicted, |a|, |a| + 1)
    ensures vs.id in contradicted <==> Contested(visible, vs)
  {
    AffirmingElements(visible);
    ContestedAmongAffirming(visible, vs);
    if vs.affirm != [] {
      AffirmingMarked(visible, vs, contradicted);
    } else {
      SilentUnmarked(visible, vs, contradicted);
    }
  }

  lemma AffirmingMarked(visible: seq<VisibleStmt>, vs: VisibleStmt, contradicted: seq<string>)
    requires Prepared(visible) && vs in visible && vs.affirm != []
    requires var a := Affirming(visible); Marks(a, contradicted, |a|, |a| + 1)
    ensures vs.id in contradicted <==> Contested(Affirming(visible), vs)
  {
    AffirmingElements(visible);
    var a := Affirming(visible);
    var k :| 0 <= k < |a| && a[k] == vs;
    MarksComplete(a, contradicted, k);
  }

  lemma SilentUnmarked(visible: seq<VisibleStmt>, vs: VisibleStmt, contradicted: seq<string>)
    requires Prepared(visible) && vs in visible && vs.affirm == []
    requires var a := Affirming(visible); Marks(a, contradicted, |a|, |a| + 1)
    ensures vs.id !in contradicted && !Contested(visible, vs)
  {
    AffirmingElements(visible);
    var a := Affirming(visible);
    forall k | 0 <= k < |a| ensures a[k].id != vs.id {
      assert a[k] in a && a[k] in visible;
    }
  }

  // ---- Supersession ----

  /** The sweep's mutable `current`: the statement in force, the start of its run and its end. */
  datatype Current = Current(stmt: string, start: Timestamp, end: Timestamp)

  /** Row `k` as it stands while it is the last one pushed. */
  ghost function Provisional(rows: seq<Belief>, k: nat): Belief
    requires k < |rows|
  {
    rows[k].(status := if Clash(rows, k - 1) then Contradicted else Active)
  }

  ghost predicate Swept(rows: seq<Belief>, n: nat, beliefs: seq<Belief>, current: Option<Current>)
    requires n <= |rows| && RowsOk(rows)
  {
    && |beliefs| == n
    && (current.None? <==> n == 0)
    && (forall k :: 0 <= k < n - 1 ==> beliefs[k] == Resolved(rows, k))
    && (n > 0 ==>
        && beliefs[n - 1] == Provisional(rows, n - 1)
        && current.value.stmt == rows[n - 1].statement
        && current.value.start <= rows[n - 1].validFrom
        && (current.value.start == rows[n - 1].validFrom <==> OpensRun(rows, n - 1)))
  }

  /** One turn of the sweep on the values of its variables. */
  function Turn(beliefs: seq<Belief>, current: Option<Current>, next: Belief): (r: (seq<Belief>, Option<Current>))
    requires beliefs == [] ==> current.None?
    requires current.Some? ==> current.value.start <= next.validFrom
  {
    var entered := Some(Current(next.statement, next.validFrom, next.validTo));
    if current.None? then
      (beliefs + [next], entered)
    else if current.value.stmt == next.statement then
      (beliefs + [next],
       if next.validTo > current.value.end
       then Some(current.value.(end := next.validTo)) else current)
    else
      var front, last := beliefs[..|beliefs| - 1], beliefs[|beliefs| - 1];
      if next.validFrom == current.value.start then
        (front + [if last.statement == current.value.stmt && last.status == Active
                  then last.(status := Contradicted) else last]
               + [next.(status := Contradicted)], entered)
      else
        (front + [if last.statement == current.value.stmt && last.status == Active && last.validTo >= next.validFrom
                  then last.(validTo := next.validFrom - 1, status := Superseded) else last]
               + [next], entered)
  }

  /** What the turn for row `n` does to the row before it settles that row for good. */
  lemma TurnSettles(rows: seq<Belief>, n: nat, beliefs: seq<Belief>, current: Option<Current>)
    requires 0 < n < |rows| && RowsOk(rows) && Swept(rows, n, beliefs, current)
    ensures Turn(beliefs, current, rows[n]).0 == beliefs[..n - 1] + [Resolved(rows, n - 1), Provisional(rows, n)]
  {
    var prev, next := rows[n - 1], rows[n];
    assert prev.statement == next.statement ==> prev.validTo < next.validFrom;
    assert Clash(rows, n - 1) <==> prev.statement != next.statement && current.value.start == next.validFrom;
    assert beliefs == beliefs[..n - 1] + [beliefs[n - 1]];
  }

  lemma TurnSweeps(rows: seq<Belief>, n: nat, beliefs: seq<Belief>, current: Option<Current>)
    requires n < |rows| && RowsOk(rows) && Swept(rows, n, beliefs, current)
    ensures var r := Turn(beliefs, current, rows[n]); Swept(rows, n + 1, r.0, r.1)
  {
    if n > 0 {
      TurnSettles(rows, n, beliefs, current);
      assert rows[n - 1].statement == rows[n].statement ==> rows[n - 1].validTo < rows[n].validFrom;
    }
  }

  lemma SweptComplete(rows: seq<Belief>, beliefs: seq<Belief>, current: Option<Current>)
    requires RowsOk(rows) && Swept(rows, |rows|, beliefs, current)
    ensures beliefs == Resolve(rows)
  {
  }

  method Sweep(rows: seq<Belief>) returns (beliefs: seq<Belief>)
    requires RowsOk(rows)
    ensures beliefs == Resolve(rows)
  {
    beliefs := [];
    var current: Option<Current> := None;
    for n := 0 to |rows|
      invariant Swept(rows, n, beliefs, current)
    {
      TurnSweeps(rows, n, beliefs, current);
      beliefs, current := SweepClaim(beliefs, current, rows[n]);
    }
    SweptComplete(rows, beliefs, current);
  }

  method FoldSupersede(visible: seq<VisibleStmt>, score: Scorer) returns (beliefs: seq<Belief>)
    requires Prepared(visible)
    ensures beliefs == SupersedeRows(visible, score)
  {
    var all := Sort(ClaimsOf(visible), ClaimOrder);
    SortedClaimsOk(visible);
    BaseRowsOk(visible, all, score);
    var rows := PendingRows(visible, all, score);
    beliefs := Sweep(rows);
  }

  /** The belief each claim starts as, with its statement's support looked up. */
  method PendingRows(visible: seq<VisibleStmt>, all: seq<Claim>, score: Scorer) returns (rows: seq<Belief>)
    requires KnownClaims(visible, all)
    ensures rows == BaseRows(visible, all, score)
  {
    rows := [];
    for n := 0 to |all|
      invariant KnownClaims(visible, all[..n]) && rows == BaseRows(visible, all[..n], score)
    {
      assert all[..n + 1] == all[..n] + [all[n]];
      var row := NextRow(visible, all[n], score);
      BaseRowsPush(visible, all[..n], all[n], score);
      rows := rows + [row];
    }
    assert all[..|all|] == all;
  }

  lemma BaseRowsPush(visible: seq<VisibleStmt>, all: seq<Claim>, c: Claim, score: Scorer)
    requires KnownClaims(visible, all) && c.stmt in Ids(visible)
    ensures KnownClaims(visible, all + [c])
    ensures BaseRows(visible, all + [c], score) == BaseRows(visible, all, score) + [BaseRow(visible, c, score)]
  {
  }

  method NextRow(visible: seq<VisibleStmt>, c: Claim, score: Scorer) returns (row: Belief)
    requires c.stmt in Ids(visible)
    ensures row == BaseRow(visible, c, score)
  {
    var vs := Lookup(visible, c.stmt);
    var support := ComputeSupport(vs.witnesses);
    row := Belief(c.stmt, c.iv.start, c.iv.end, support, score(vs.witnesses, support), Active);
  }

  /** The loop body of the sweep, assignment by assignment. */
  method SweepClaim(before: seq<Belief>, cur: Option<Current>, next: Belief)
    returns (beliefs: seq<Belief>, current: Option<Current>)
    requires before == [] ==> cur.None?
    requires cur.Some? ==> cur.value.start <= next.validFrom
    ensures beliefs == Turn(before, cur, next).0 && current == Turn(before, cur, next).1
  {
    beliefs, current := before, cur;
    assert before != [] ==> before == before[..|before| - 1] + [before[|before| - 1]];
    if current.None? {
      beliefs := beliefs + [next];
      current := Some(Current(next.statement, next.validFrom, next.validTo));
    } else if current.value.stmt == next.statement {
      beliefs := beliefs + [next];
      if next.validTo > current.value.end {
        current := Some(Current(next.statement, current.value.start, next.validTo));
      }
    } else {
      var last := |beliefs| - 1;
      if next.validFrom == current.value.start {
        if beliefs[last].statement == current.value.stmt && beliefs[last].status == Active {
          beliefs := beliefs[last := beliefs[last].(status := Contradicted)];
        }
        beliefs := beliefs + [next.(status := Contradicted)];
      } else {
        if beliefs[last].statement == current.value.stmt && beliefs[last].status == Active
           && beliefs[last].validTo >= next.validFrom {
          beliefs := beliefs[last := beliefs[last].(validTo := next.validFrom - 1, status := Superseded)];
        }
        beliefs := beliefs + [next];
      }
      current := Some(Current(next.statement, next.validFrom, next.validTo));
    }
  }

  // ---- The fold ----

  method Fold(def: PredicateDef, group: seq<StatementEntry>, at: Timestamp, score: Scorer)
    returns (beliefs: seq<Belief>)
    requires GroupOk(group)
    ensures beliefs == FoldGroup(def, group, at, score)
  {
    var visible := FilterVisible(group, at);
    VisibleGroupPrepared(group, at);
    if visible == [] {
      return [];
    }
    match (def.cardinality, def.invalidation, def.temporality) {
      case (MultiValued, _, _) => beliefs := FoldIndependent(visible, score);
      case (Functional, _, Static) => beliefs := FoldContradiction(visible, score);
      case (Functional, Supersede, _) => beliefs := FoldSupersede(visible, score);
      case (Functional, ExplicitOnly, _) => beliefs := FoldIndependent(visible, score);
      case (Functional, Coexist, _) => beliefs := FoldIndependent(visible, score);
    }
    beliefs := Sort(beliefs, BeliefOrder);
  }

  method FilterVisible(group: seq<StatementEntry>, at: Timestamp) returns (visible: seq<VisibleStmt>)
    requires GroupOk(group)
    ensures visible == VisibleGroup(group, at)
  {
    visible := [];
    for i := 0 to |group|
      invariant visible == VisibleGroup(group[..i], at)
    {
      assert group[..i + 1][..i] == group[..i];
      var vis := VisibleOf(group[i].assertions, at);
      if vis == [] { continue; }
      VisibleOfOk(group[i].assertions, at);
      var affirm := ClipDenials(vis);
      visible := visible + [VisibleStmt(group[i].statement.id, affirm, Witnesses(vis))];
    }
    assert group[..|group|] == group;
  }

  method ClipDenials(vis: seq<Assertion>) returns (affirm: seq<Interval>)
    requires AssertionsOk(vis)
    ensures affirm == Affirmed(vis)
  {
    ClaimedValid(vis, Affirm);
    ClaimedValid(vis, Deny);
    var deny := Claimed(vis, Deny);
    affirm := MergeOverlapping(Claimed(vis, Affirm));
    MergeMeaning(Claimed(vis, Affirm));
    for i := 0 to |deny|
      invariant affirm == ClipAll(Merge(Claimed(vis, Affirm)), deny[..i]) && Canonical(affirm)
    {
      assert deny[..i + 1][..i] == deny[..i];
      ClipMeaning(affirm, deny[i]);
      affirm := ClipDenial(affirm, deny[i]);
    }
    assert deny[..|deny|] == deny;
  }
}
