/** What a consumer can rely on: budgets, caps, decisions, and citations that read back
    exactly the delivered text. */
module EvidenceReader {
  import opened Orders
  import opened Utf8
  import opened EvidenceRender
  import opened EvidencePack

  // ---- Consideration order ----

  predicate Doubled(u: Unit) { Recent(u) && (u.layer == Profile || u.layer == Documents) }

  function Capped(s: seq<Unit>, n: nat): seq<Unit> { if n <= |s| then s[..n] else s }

  /** `h` adds up over concatenation. */
  ghost predicate Additive(h: seq<Unit> -> int) {
    h([]) == 0 && forall s, t {:trigger h(s + t)} :: h(s + t) == h(s) + h(t)
  }

  lemma CappedStep(s: seq<Unit>, n: nat, h: seq<Unit> -> int)
    requires n > 0 && Additive(h)
    ensures h(Capped(s, n)) == h(Capped(s, n - 1)) + h(At(s, n - 1))
  {
    assert Capped(s, n) == Capped(s, n - 1) + At(s, n - 1);
  }

  lemma RoundAdds(r: seq<Unit>, s: seq<Unit>, t: seq<Unit>, u: seq<Unit>, h: seq<Unit> -> int)
    requires Additive(h)
    ensures h(r + s + t + u) == h(r) + h(s) + h(t) + h(u)
  {
  }

  /** Alternating distributes any additive measure over its three channels. */
  lemma {:induction false} AlternateAdds(a: seq<Unit>, b: seq<Unit>, c: seq<Unit>, n: nat, h: seq<Unit> -> int)
    requires Additive(h)
    ensures h(Alternate(a, b, c, n)) == h(Capped(a, n)) + h(Capped(b, n)) + h(Capped(c, n))
    decreases n
  {
    if n > 0 {
      AlternateAdds(a, b, c, n - 1, h);
      RoundAdds(Alternate(a, b, c, n - 1), At(a, n - 1), At(b, n - 1), At(c, n - 1), h);
      CappedStep(a, n, h);
      CappedStep(b, n, h);
      CappedStep(c, n, h);
    } else {
      assert Capped(a, n) == [] && Capped(b, n) == [] && Capped(c, n) == [];
    }
  }

  lemma AlternateAll(a: seq<Unit>, b: seq<Unit>, c: seq<Unit>, n: nat)
    requires n >= |a| && n >= |b| && n >= |c|
    ensures multiset(Alternate(a, b, c, n)) == multiset(a) + multiset(b) + multiset(c)
  {
    forall x ensures multiset(Alternate(a, b, c, n))[x] == (multiset(a) + multiset(b) + multiset(c))[x] {
      AlternateCounts(a, b, c, n, x);
    }
  }

  lemma AlternateCounts(a: seq<Unit>, b: seq<Unit>, c: seq<Unit>, n: nat, x: Unit)
    requires n >= |a| && n >= |b| && n >= |c|
    ensures multiset(Alternate(a, b, c, n))[x] == multiset(a)[x] + multiset(b)[x] + multiset(c)[x]
  {
    var h: seq<Unit> -> int := s => multiset(s)[x];
    AlternateAdds(a, b, c, n, h);
    assert Capped(a, n) == a && Capped(b, n) == b && Capped(c, n) == c;
  }

  ghost function Classes(units: seq<Unit>): multiset<Unit> {
    multiset(Where(units, IsProfile)) + multiset(Where(units, IsEpisode)) + multiset(Where(units, IsSummary))
    + multiset(Where(units, IsClaim)) + multiset(Where(units, IsDocument)) + multiset(Where(units, Recent))
  }

  predicate Any(u: Unit) { true }

  /** How often `x` passes the filter. */
  function Tally(units: seq<Unit>, p: Unit -> bool, x: Unit): nat {
    if units == [] then 0 else
      Tally(units[..|units| - 1], p, x) + (if units[|units| - 1] == x && p(x) then 1 else 0)
  }

  lemma {:induction false} TallyWhere(units: seq<Unit>, p: Unit -> bool, x: Unit)
    ensures multiset(Where(units, p))[x] == Tally(units, p, x)
  {
    if units != [] { TallyWhere(units[..|units| - 1], p, x); }
  }

  lemma {:induction false} WhereAny(units: seq<Unit>)
    ensures Where(units, Any) == units
  {
    if units != [] {
      var front, u := units[..|units| - 1], units[|units| - 1];
      assert units == front + [u];
      WhereAny(front);
      assert Any(u);
    }
  }

  lemma {:induction false} TallyCover(units: seq<Unit>, x: Unit)
    ensures Tally(units, IsProfile, x) + Tally(units, IsEpisode, x) + Tally(units, IsSummary, x) + Tally(units, IsClaim, x)
      + Tally(units, IsDocument, x) + Tally(units, Recent, x) == Tally(units, Any, x) + Tally(units, Doubled, x)
  {
    if units != [] { TallyCover(units[..|units| - 1], x); }
  }

  lemma ClassesCover(units: seq<Unit>)
    ensures Classes(units) == multiset(units) + multiset(Where(units, Doubled))
  {
    WhereAny(units);
    forall x ensures Classes(units)[x] == (multiset(units) + multiset(Where(units, Doubled)))[x] {
      TallyCover(units, x);
      TallyWhere(units, IsProfile, x);
      TallyWhere(units, IsEpisode, x);
      TallyWhere(units, IsSummary, x);
      TallyWhere(units, IsClaim, x);
      TallyWhere(units, IsDocument, x);
      TallyWhere(units, Recent, x);
      TallyWhere(units, Any, x);
      TallyWhere(units, Doubled, x);
    }
  }

  /** Every unit is considered exactly once, except that a Profile or Documents unit with the
      recency role is considered twice. */
  lemma OrderConserves(units: seq<Unit>)
    ensures multiset(Ordered(units)) == multiset(units) + multiset(Where(units, Doubled))
  {
    var a, b, c := Where(units, IsEpisode), Where(units, IsSummary), Where(units, IsClaim);
    var m, d := Memory(units), Where(units, IsDocument);
    AlternateAll(a, b, c, Max(|a|, Max(|b|, |c|)));
    AlternateAll(m, d, [], Max(|m|, |d|));
    ClassesCover(units);
  }

  // ---- What acceptance means ----

  ghost predicate FromUnit(c: Chosen, u: Unit) { c in Candidates(u) }

  /** One attempt either leaves everything as it was or adds one acceptable candidate. */
  ghost predicate AttemptOk(env: Env, u: Unit, before: seq<Chosen>, spent: nat, a: Attempt) {
    if a.selected == before then a.spent == spent && a.reason != WasSelected && a.reason != WasShortened
    else
      && |a.selected| == |before| + 1 && a.selected[..|before|] == before
      && (a.reason == WasSelected || a.reason == WasShortened)
      && var c := a.selected[|before|];
         && FromUnit(c, u) && !Delivered(before, c.source)
         && (a.reason == WasSelected <==> c.text == u.text)
         && Accepts(env, u, Tokens(env, before), env.plain(a.selected), spent)
         && a.spent == (if Recent(u) then spent + Cost(Tokens(env, before), Tokens(env, a.selected)) else spent)
  }

  lemma {:induction false} TryAllOk(env: Env, u: Unit, candidates: seq<Chosen>, before: seq<Chosen>, spent: nat, reason: Reason)
    requires forall i :: 0 <= i < |candidates| ==> FromUnit(candidates[i], u)
    requires reason != WasSelected && reason != WasShortened
    ensures AttemptOk(env, u, before, spent, TryAll(env, u, candidates, before, spent, reason))
    decreases |candidates|
  {
    if candidates != [] {
      var c := candidates[0];
      var r := env.plain(before + [c]);
      var next := if Delivered(before, c.source) then DuplicateRange
                  else if env.metadata(r.evidence) > env.policy.metadataBytes then OverMetadata else reason;
      TryAllOk(env, u, candidates[1..], before, spent, next);
    }
  }

  /** The candidate would be accepted as the next delivery. */
  predicate Takes(env: Env, u: Unit, before: seq<Chosen>, spent: nat, c: Chosen) {
    !Delivered(before, c.source) && Accepts(env, u, Tokens(env, before), env.plain(before + [c]), spent)
  }

  /** `after` adds the first acceptable candidate to `before`, or nothing when there is none. */
  ghost predicate TakesFirst(env: Env, u: Unit, candidates: seq<Chosen>, before: seq<Chosen>, spent: nat, after: seq<Chosen>) {
    if exists c :: c in candidates && Takes(env, u, before, spent, c)
    then exists i :: 0 <= i < |candidates| && FirstTaken(env, u, candidates, before, spent, after, i)
    else after == before
  }

  ghost predicate FirstTaken(env: Env, u: Unit, candidates: seq<Chosen>, before: seq<Chosen>, spent: nat, after: seq<Chosen>, i: nat)
    requires i < |candidates|
  {
    && after == before + [candidates[i]] && Takes(env, u, before, spent, candidates[i])
    && forall j :: 0 <= j < i ==> !Takes(env, u, before, spent, candidates[j])
  }

  /** The full text is preferred to every variant, and nothing acceptable is passed over. */
  lemma {:induction false} FirstFit(env: Env, u: Unit, candidates: seq<Chosen>, before: seq<Chosen>, spent: nat, reason: Reason)
    ensures TakesFirst(env, u, candidates, before, spent, TryAll(env, u, candidates, before, spent, reason).selected)
    decreases |candidates|
  {
    if candidates != [] {
      var c, rest := candidates[0], candidates[1..];
      var r := env.plain(before + [c]);
      var next := if Delivered(before, c.source) then DuplicateRange
                  else if env.metadata(r.evidence) > env.policy.metadataBytes then OverMetadata else reason;
      assert candidates == [c] + rest;
      if Takes(env, u, before, spent, c) {
        assert FirstTaken(env, u, candidates, before, spent, before + [c], 0);
      } else {
        FirstFit(env, u, rest, before, spent, next);
        FirstLater(env, u, c, rest, before, spent, TryAll(env, u, rest, before, spent, next).selected);
      }
    }
  }

  lemma FirstLater(env: Env, u: Unit, c: Chosen, rest: seq<Chosen>, before: seq<Chosen>, spent: nat, after: seq<Chosen>)
    requires !Takes(env, u, before, spent, c) && TakesFirst(env, u, rest, before, spent, after)
    ensures TakesFirst(env, u, [c] + rest, before, spent, after)
  {
    var all := [c] + rest;
    if exists x :: x in rest && Takes(env, u, before, spent, x) {
      var i :| 0 <= i < |rest| && FirstTaken(env, u, rest, before, spent, after, i);
      assert forall j :: 0 < j < |all| ==> all[j] == rest[j - 1];
      assert FirstTaken(env, u, all, before, spent, after, i + 1);
    }
  }

  /** A considered unit is left out only when its id was seen, it is a summary without support,
      or neither its text nor any variant would be accepted. */
  lemma LeftOutOnlyIf(env: Env, p: Packing, u: Unit)
    ensures Consider(env, p, u).selected == p.selected ==>
      || u.id in p.seen || (u.role == SummaryRole() && u.support == [])
      || forall c :: c in Candidates(u) ==> !Takes(env, u, p.selected, p.spent, c)
  {
    FirstFit(env, u, Candidates(u), p.selected, p.spent, OverBudget);
  }

  function AttemptFor(env: Env, p: Packing, u: Unit): Attempt {
    if u.id in p.seen then Attempt(p.selected, p.spent, DuplicateRange)
    else if u.role == SummaryRole() && u.support == [] then Attempt(p.selected, p.spent, MissingSupport)
    else TryAll(env, u, Candidates(u), p.selected, p.spent, OverBudget)
  }

  lemma ConsiderOk(env: Env, p: Packing, u: Unit)
    ensures var a := AttemptFor(env, p, u);
      && AttemptOk(env, u, p.selected, p.spent, a)
      && (u.id in p.seen ==> a.selected == p.selected)
      && Consider(env, p, u) == Packing(a.selected, p.seen + {u.id}, a.spent, p.decisions + [Decision(u.id, a.reason)])
  {
    var candidates := Candidates(u);
    forall i | 0 <= i < |candidates| ensures FromUnit(candidates[i], u) { assert candidates[i] in candidates; }
    TryAllOk(env, u, candidates, p.selected, p.spent, OverBudget);
  }

  function Taken(decisions: seq<Decision>): nat {
    if decisions == [] then 0 else
      Taken(decisions[..|decisions| - 1]) +
      (if decisions[|decisions| - 1].reason == WasSelected || decisions[|decisions| - 1].reason == WasShortened then 1 else 0)
  }

  /** The limits hold for the selection as it stands. */
  ghost predicate WithinLimits(env: Env, selected: seq<Chosen>) {
    selected != [] ==>
      Tokens(env, selected) <= env.budget && env.metadata(env.plain(selected).evidence) <= env.policy.metadataBytes
  }

  ghost predicate NoRepeats(selected: seq<Chosen>) {
    forall i, j :: 0 <= i < j < |selected| ==> !Contains(selected[i].source, selected[j].source)
  }

  ghost predicate DistinctUnits(selected: seq<Chosen>) {
    forall i, j :: 0 <= i < j < |selected| ==> selected[i].unit.id != selected[j].unit.id
  }

  ghost predicate Sound(env: Env, units: seq<Unit>, p: Packing) {
    && WithinLimits(env, p.selected) && NoRepeats(p.selected) && DistinctUnits(p.selected)
    && Answered(p.decisions, units) && Taken(p.decisions) == |p.selected|
    && p.seen == UnitIds(units)
    && Offered(p.selected, units)
  }

  ghost function UnitIds(units: seq<Unit>): set<Text> { set i | 0 <= i < |units| :: units[i].id }

  /** One decision for each unit, in order. */
  ghost predicate Answered(decisions: seq<Decision>, units: seq<Unit>) {
    |decisions| == |units| && forall i :: 0 <= i < |units| ==> decisions[i].unitId == units[i].id
  }

  /** Everything selected is the text of a considered unit or one of its variants. */
  ghost predicate Offered(selected: seq<Chosen>, units: seq<Unit>) {
    forall k :: 0 <= k < |selected| ==> selected[k].unit in units && FromUnit(selected[k], selected[k].unit)
  }

  lemma CandidateUnit(c: Chosen, u: Unit)
    requires FromUnit(c, u)
    ensures c.unit == u
  {
    var i :| 0 <= i < |Candidates(u)| && Candidates(u)[i] == c;
  }

  lemma SelectedStep(env: Env, u: Unit, before: seq<Chosen>, spent: nat, a: Attempt, seen: set<Text>)
    requires AttemptOk(env, u, before, spent, a) && WithinLimits(env, before) && NoRepeats(before) && DistinctUnits(before)
    requires forall k :: 0 <= k < |before| ==> before[k].unit.id in seen
    requires u.id in seen ==> a.selected == before
    ensures WithinLimits(env, a.selected) && NoRepeats(a.selected) && DistinctUnits(a.selected)
  {
    if a.selected != before {
      var c := a.selected[|before|];
      CandidateUnit(c, u);
      assert a.selected == before + [c];
    }
  }

  /** Every packing state is within limits, free of repeats, and has one decision a unit. */
  lemma {:induction false} PackedSound(env: Env, units: seq<Unit>)
    ensures Sound(env, units, Packed(env, units))
  {
    if units != [] {
      var front, u := units[..|units| - 1], units[|units| - 1];
      assert units == front + [u];
      PackedSound(env, front);
      SoundNext(env, front, Packed(env, front), u);
    }
  }

  lemma OfferedSeen(selected: seq<Chosen>, units: seq<Unit>, k: nat)
    requires Offered(selected, units) && k < |selected|
    ensures selected[k].unit.id in UnitIds(units)
  {
    assert selected[k].unit in units;
    var i :| 0 <= i < |units| && units[i] == selected[k].unit;
    assert units[i].id in UnitIds(units);
  }

  lemma SoundNext(env: Env, front: seq<Unit>, p: Packing, u: Unit)
    requires Sound(env, front, p)
    ensures Sound(env, front + [u], Consider(env, p, u))
  {
    ConsiderOk(env, p, u);
    var a := AttemptFor(env, p, u);
    forall k | 0 <= k < |p.selected| ensures p.selected[k].unit.id in p.seen { OfferedSeen(p.selected, front, k); }
    SelectedStep(env, u, p.selected, p.spent, a, p.seen);
    SoundStep(env, front, p, u, a);
  }

  lemma SoundStep(env: Env, front: seq<Unit>, p: Packing, u: Unit, a: Attempt)
    requires Sound(env, front, p) && AttemptOk(env, u, p.selected, p.spent, a)
    requires WithinLimits(env, a.selected) && NoRepeats(a.selected) && DistinctUnits(a.selected)
    ensures Sound(env, front + [u], Packing(a.selected, p.seen + {u.id}, a.spent, p.decisions + [Decision(u.id, a.reason)]))
  {
    var decisions := p.decisions + [Decision(u.id, a.reason)];
    assert decisions[..|decisions| - 1] == p.decisions;
    UnitIdsPush(front, u);
    OfferedPush(front, p.selected, u, a.selected);
  }

  lemma UnitIdsPush(front: seq<Unit>, u: Unit)
    ensures UnitIds(front + [u]) == UnitIds(front) + {u.id}
  {
    var units := front + [u];
    assert units[|front|] == u;
    assert forall i :: 0 <= i < |front| ==> units[i] == front[i];
  }

  lemma OfferedPush(front: seq<Unit>, before: seq<Chosen>, u: Unit, after: seq<Chosen>)
    requires Offered(before, front)
    requires after == before || (|after| == |before| + 1 && after[..|before|] == before && FromUnit(after[|before|], u))
    ensures Offered(after, front + [u])
  {
    if after != before { CandidateUnit(after[|before|], u); }
    forall k | 0 <= k < |after| ensures after[k].unit in front + [u] && FromUnit(after[k], after[k].unit) {
      if k < |before| { assert after[k] == before[k]; }
    }
  }

  // ---- Recency ----

  /** The tokens added from `p` to `q` are charged to the recency allowance. */
  ghost predicate Charged(env: Env, p: Packing, q: Packing) {
    && p.spent <= q.spent && Tokens(env, q.selected) + p.spent <= Tokens(env, p.selected) + q.spent
    && (q.selected != p.selected ==> q.spent <= RecencyCap(env))
  }

  lemma RecencyStep(env: Env, m: Packing, u: Unit)
    requires Recent(u) && (u.layer == Profile ==> u.id in m.seen)
    ensures var q := Consider(env, m, u);
      Charged(env, m, q) && (q.selected != m.selected ==> |q.selected| == |m.selected| + 1)
  {
    ConsiderOk(env, m, u);
  }

  lemma ChargedTrans(env: Env, p: Packing, m: Packing, q: Packing)
    requires Charged(env, p, m) && Charged(env, m, q)
    requires |p.selected| <= |m.selected| && (q.selected != m.selected ==> |q.selected| == |m.selected| + 1)
    requires q.selected == m.selected ==> q.spent == m.spent
    ensures Charged(env, p, q)
  {
  }

  /** Considering recency units one after another adds at most the recency cap in tokens:
      Profile ones among them were already seen. */
  lemma {:induction false} RecencyBounded(env: Env, before: seq<Unit>, recent: seq<Unit>)
    requires forall i :: 0 <= i < |recent| ==> Recent(recent[i])
    requires forall i :: 0 <= i < |recent| && recent[i].layer == Profile ==> recent[i] in before
    ensures Charged(env, Packed(env, before), Packed(env, before + recent))
    decreases |recent|
  {
    if recent == [] {
      assert before + recent == before;
    } else {
      var front, u := recent[..|recent| - 1], recent[|recent| - 1];
      RecencyBounded(env, before, front);
      assert (before + recent)[..|before + recent| - 1] == before + front;
      SeenEarlier(env, before, front, u);
      var m := Packed(env, before + front);
      RecencyStep(env, m, u);
      ConsiderOk(env, m, u);
      PackedGrows(env, before, front);
      ChargedTrans(env, Packed(env, before), m, Consider(env, m, u));
    }
  }

  lemma SeenEarlier(env: Env, before: seq<Unit>, front: seq<Unit>, u: Unit)
    ensures u in before ==> u.id in Packed(env, before + front).seen
  {
    PackedSound(env, before + front);
    if u in before {
      var i :| 0 <= i < |before| && before[i] == u;
      assert (before + front)[i] == u;
    }
  }

  /** The trailing recency units add at most min(budget/10, recency_tokens) to the total. */
  lemma RecencyWithinCap(env: Env, units: seq<Unit>)
    ensures var recent := Where(units, Recent); var n := |Ordered(units)| - |recent|;
      && n >= 0 && Ordered(units)[n..] == recent
      && Tokens(env, Packed(env, Ordered(units)).selected) <= Tokens(env, Packed(env, Ordered(units)[..n]).selected) + RecencyCap(env)
  {
    var ordered, recent := Ordered(units), Where(units, Recent);
    var n := |ordered| - |recent|;
    var before := ordered[..n];
    assert ordered == before + recent;
    WhereElements(units, Recent);
    WhereElements(units, IsProfile);
    forall i | 0 <= i < |recent| ensures Recent(recent[i]) && (recent[i].layer == Profile ==> recent[i] in before) {
      assert recent[i] in recent;
      ProfilesFirst(units);
    }
    RecencyBounded(env, before, recent);
  }

  lemma ProfilesFirst(units: seq<Unit>)
    ensures var n := |Ordered(units)| - |Where(units, Recent)|;
      n >= 0 && forall u :: u in Where(units, IsProfile) ==> u in Ordered(units)[..n]
  {
    var profiles, n := Where(units, IsProfile), |Ordered(units)| - |Where(units, Recent)|;
    forall u | u in profiles ensures u in Ordered(units)[..n] {
      var i :| 0 <= i < |profiles| && profiles[i] == u;
      assert Ordered(units)[..n][i] == u;
    }
  }

  ghost predicate Extends(p: Packing, q: Packing) {
    |p.selected| <= |q.selected| && q.selected[..|p.selected|] == p.selected
  }

  lemma ConsiderExtends(env: Env, p: Packing, u: Unit, q: Packing)
    requires q == Consider(env, p, u)
    ensures Extends(p, q)
  {
    ConsiderOk(env, p, u);
  }

  lemma ExtendsTrans(p: Packing, q: Packing, r: Packing)
    requires Extends(p, q) && Extends(q, r)
    ensures Extends(p, r)
  {
    assert r.selected[..|p.selected|] == r.selected[..|q.selected|][..|p.selected|];
  }

  lemma {:induction false} PackedGrows(env: Env, before: seq<Unit>, more: seq<Unit>)
    ensures Extends(Packed(env, before), Packed(env, before + more))
    decreases |more|
  {
    if more == [] {
      assert before + more == before;
    } else {
      var front := more[..|more| - 1];
      PackedGrows(env, before, front);
      assert (before + more)[..|before + more| - 1] == before + front;
      ConsiderExtends(env, Packed(env, before + front), more[|more| - 1], Packed(env, before + more));
      ExtendsTrans(Packed(env, before), Packed(env, before + front), Packed(env, before + more));
    }
  }

  // ---- The Profile layer ----

  ghost predicate AllProfile(s: seq<Chosen>) { forall i :: 0 <= i < |s| ==> s[i].unit.layer == Profile }

  ghost predicate NoProfile(s: seq<Chosen>) { forall i :: 0 <= i < |s| ==> s[i].unit.layer != Profile }

  /** After the profile units, the whole rendering is within the profile cap. */
  lemma {:induction false} ProfilePhase(env: Env, units: seq<Unit>)
    requires forall i :: 0 <= i < |units| ==> units[i].layer == Profile
    ensures var p := Packed(env, units);
      AllProfile(p.selected) && (p.selected != [] ==> Tokens(env, p.selected) <= ProfileCap(env))
  {
    if units != [] {
      var front, u := units[..|units| - 1], units[|units| - 1];
      ProfilePhase(env, front);
      var p := Packed(env, front);
      ConsiderOk(env, p, u);
      var a := AttemptFor(env, p, u);
      if a.selected != p.selected { CandidateUnit(a.selected[|p.selected|], u); }
    }
  }

  ghost predicate ExtendsPlain(p: seq<Chosen>, q: seq<Chosen>) {
    |p| <= |q| && q[..|p|] == p && NoProfile(q[|p|..])
  }

  lemma ExtendsStep(env: Env, p: seq<Chosen>, m: Packing, u: Unit)
    requires ExtendsPlain(p, m.selected) && (u.layer == Profile ==> u.id in m.seen)
    ensures ExtendsPlain(p, Consider(env, m, u).selected)
  {
    ConsiderOk(env, m, u);
    var a := AttemptFor(env, m, u);
    if a.selected != m.selected {
      CandidateUnit(a.selected[|m.selected|], u);
      assert a.selected == m.selected + [a.selected[|m.selected|]];
    }
  }

  /** Later units add nothing to the Profile layer. */
  lemma {:induction false} LaterPhase(env: Env, profiles: seq<Unit>, later: seq<Unit>)
    requires forall i :: 0 <= i < |later| && later[i].layer == Profile ==> later[i] in profiles
    ensures ExtendsPlain(Packed(env, profiles).selected, Packed(env, profiles + later).selected)
    decreases |later|
  {
    if later == [] {
      assert profiles + later == profiles;
    } else {
      var front, u := later[..|later| - 1], later[|later| - 1];
      LaterPhase(env, profiles, front);
      assert (profiles + later)[..|profiles + later| - 1] == profiles + front;
      SeenEarlier(env, profiles, front, u);
      ExtendsStep(env, Packed(env, profiles).selected, Packed(env, profiles + front), u);
    }
  }

  lemma {:induction false} WhereElements(units: seq<Unit>, p: Unit -> bool)
    ensures forall u :: u in Where(units, p) <==> u in units && p(u)
  {
    if units != [] {
      WhereElements(units[..|units| - 1], p);
      assert units == units[..|units| - 1] + [units[|units| - 1]];
    }
  }

  lemma {:induction false} AlternateElements(a: seq<Unit>, b: seq<Unit>, c: seq<Unit>, n: nat)
    ensures forall u :: u in Alternate(a, b, c, n) ==> u in a || u in b || u in c
  {
    if n > 0 { AlternateElements(a, b, c, n - 1); }
  }

  /** Everything considered after the profile units is of another layer or a repeat. */
  lemma OrderAfterProfiles(units: seq<Unit>)
    ensures var profiles := Where(units, IsProfile);
      && |profiles| <= |Ordered(units)| && Ordered(units)[..|profiles|] == profiles
      && forall i :: |profiles| <= i < |Ordered(units)| && Ordered(units)[i].layer == Profile ==> Ordered(units)[i] in profiles
  {
    var profiles, m, d := Where(units, IsProfile), Memory(units), Where(units, IsDocument);
    var rest, recent := Alternate(m, d, [], Max(|m|, |d|)), Where(units, Recent);
    WhereElements(units, IsProfile);
    WhereElements(units, IsDocument);
    WhereElements(units, Recent);
    MemoryElements(units);
    AlternateElements(m, d, [], Max(|m|, |d|));
    forall u | u in rest || u in recent ensures u.layer == Profile ==> u in profiles {
      assert u in rest ==> u in m || u in d;
    }
    PrefixThenRest(profiles, rest, recent);
  }

  lemma PrefixThenRest(profiles: seq<Unit>, rest: seq<Unit>, recent: seq<Unit>)
    requires forall u :: u in rest || u in recent ==> u.layer == Profile ==> u in profiles
    ensures var all := profiles + rest + recent;
      && all[..|profiles|] == profiles
      && forall i :: |profiles| <= i < |all| && all[i].layer == Profile ==> all[i] in profiles
  {
    var all := profiles + rest + recent;
    forall i | |profiles| <= i < |all| ensures all[i] in rest || all[i] in recent {
      if i < |profiles| + |rest| {
        assert all[i] == rest[i - |profiles|];
      } else {
        assert all[i] == recent[i - |profiles| - |rest|];
      }
    }
  }

  lemma MemoryElements(units: seq<Unit>)
    ensures forall u :: u in Memory(units) ==> u in units && InMemory(u)
  {
    var a, b, c := Where(units, IsEpisode), Where(units, IsSummary), Where(units, IsClaim);
    WhereElements(units, IsEpisode);
    WhereElements(units, IsSummary);
    WhereElements(units, IsClaim);
    AlternateElements(a, b, c, Max(|a|, Max(|b|, |c|)));
  }

  lemma {:induction false} ProfileLayOut(sorted: seq<Chosen>, framing: Framing)
    requires AllProfile(sorted)
    ensures var layers := LayOut(sorted, framing).layers;
      |layers| == (if sorted == [] then 0 else 1) && (sorted != [] ==> layers[0].kind == Profile)
  {
    if sorted != [] { ProfileLayOut(sorted[..|sorted| - 1], framing); }
  }

  /** `b` starts with the layers `a`, all Profile, and has no further Profile layer. */
  ghost predicate ProfileFirst(a: seq<Layer>, b: seq<Layer>) {
    && |a| <= |b| && b[..|a|] == a
    && (forall i :: 0 <= i < |a| ==> a[i].kind == Profile)
    && (forall i :: |a| <= i < |b| ==> b[i].kind != Profile)
  }

  lemma {:induction false} LaterLayOut(first: seq<Chosen>, later: seq<Chosen>, framing: Framing)
    requires AllProfile(first) && NoProfile(later)
    ensures ProfileFirst(LayOut(first, framing).layers, LayOut(first + later, framing).layers)
    decreases |later|
  {
    if later == [] {
      ProfileLayOut(first, framing);
      assert first + later == first;
    } else {
      var front, c := later[..|later| - 1], later[|later| - 1];
      assert first + later == first + front + [c];
      LaterLayOut(first, front, framing);
      LayOutPush(first + front, c, framing);
      PlaceLater(LayOut(first, framing).layers, LayOut(first + front, framing), c, framing(c, |first + later|));
    }
  }

  lemma PlaceLater(a: seq<Layer>, before: Layout, c: Chosen, f: Frame)
    requires ProfileFirst(a, before.layers) && c.unit.layer != Profile
    ensures ProfileFirst(a, Place(before, c, f).layers)
  {
  }

  /** Any Profile layer of the packed context is within the profile cap. */
  lemma ProfileWithinCap(env: Env, tok: Text -> nat, framing: Framing, units: seq<Unit>)
    requires PlainOk(env, tok, framing)
    ensures ProfileCapped(Pack(env, units).rendering.context.layers, ProfileCap(env))
  {
    var profiles, later := ProfilesThenLater(units);
    ProfilePhase(env, profiles);
    LaterPhase(env, profiles, later);
    var p, q := Packed(env, profiles).selected, Packed(env, profiles + later).selected;
    ProfileOfRendering(env, tok, framing, p, q[|p|..]);
    assert q == p + q[|p|..];
  }

  lemma ProfilesThenLater(units: seq<Unit>) returns (profiles: seq<Unit>, later: seq<Unit>)
    ensures Ordered(units) == profiles + later
    ensures forall i :: 0 <= i < |profiles| ==> profiles[i].layer == Profile
    ensures forall i :: 0 <= i < |later| && later[i].layer == Profile ==> later[i] in profiles
  {
    var ordered := Ordered(units);
    profiles := Where(units, IsProfile);
    OrderAfterProfiles(units);
    WhereElements(units, IsProfile);
    later := ordered[|profiles|..];
    assert ordered == profiles + later;
    forall i | 0 <= i < |profiles| ensures profiles[i].layer == Profile { assert profiles[i] in profiles; }
    forall i | 0 <= i < |later| && later[i].layer == Profile ensures later[i] in profiles {
      assert later[i] == ordered[|profiles| + i];
    }
  }

  lemma ProfileOfRendering(env: Env, tok: Text -> nat, framing: Framing, first: seq<Chosen>, later: seq<Chosen>)
    requires PlainOk(env, tok, framing) && AllProfile(first) && NoProfile(later)
    requires first != [] ==> Tokens(env, first) <= ProfileCap(env)
    ensures ProfileCapped(env.plain(first + later).context.layers, ProfileCap(env))
  {
    assert Rendered(first + later, env.budget, tok, framing) == env.plain(first + later);
    assert Rendered(first, env.budget, tok, framing) == env.plain(first);
    ProfileLayers(first, later, tok, framing, ProfileCap(env));
  }

  ghost predicate ProfileCapped(layers: seq<Layer>, cap: nat) {
    forall i :: 0 <= i < |layers| && layers[i].kind == Profile ==> layers[i].tokens <= cap
  }

  lemma SortedParts(first: seq<Chosen>, later: seq<Chosen>)
    requires AllProfile(first) && NoProfile(later)
    ensures Sort(first + later, LayerOrder) == Sort(first, LayerOrder) + Sort(later, LayerOrder)
    ensures AllProfile(Sort(first, LayerOrder)) && NoProfile(Sort(later, LayerOrder))
  {
    SortSplit(first, later, LayerOrder);
    SortedProfile(first);
    SortedLater(later);
  }

  lemma SortedProfile(s: seq<Chosen>)
    requires AllProfile(s)
    ensures AllProfile(Sort(s, LayerOrder))
  {
    var a := Sort(s, LayerOrder);
    SortElements(s, LayerOrder);
    forall i | 0 <= i < |a| ensures a[i].unit.layer == Profile { assert a[i] in a; }
  }

  lemma SortedLater(s: seq<Chosen>)
    requires NoProfile(s)
    ensures NoProfile(Sort(s, LayerOrder))
  {
    var a := Sort(s, LayerOrder);
    SortElements(s, LayerOrder);
    forall i | 0 <= i < |a| ensures a[i].unit.layer != Profile { assert a[i] in a; }
  }

  lemma ProfileLayers(first: seq<Chosen>, later: seq<Chosen>, tok: Text -> nat, framing: Framing, cap: nat)
    requires AllProfile(first) && NoProfile(later)
    requires first != [] ==> Total(LayOut(Sort(first, LayerOrder), framing).layers, tok) <= cap
    ensures ProfileCapped(Counted(LayOut(Sort(first + later, LayerOrder), framing).layers, tok), cap)
  {
    SortedParts(first, later);
    var a, b := Sort(first, LayerOrder), Sort(later, LayerOrder);
    ProfileLayOut(a, framing);
    LaterLayOut(a, b, framing);
    CountedCapped(LayOut(a, framing).layers, LayOut(a + b, framing).layers, tok, cap);
  }

  lemma CountedCapped(first: seq<Layer>, all: seq<Layer>, tok: Text -> nat, cap: nat)
    requires |first| <= 1 && (first != [] ==> Total(first, tok) <= cap)
    requires |first| <= |all| && all[..|first|] == first
    requires forall i :: |first| <= i < |all| ==> all[i].kind != Profile
    ensures ProfileCapped(Counted(all, tok), cap)
  {
    if first != [] {
      SingleLayerText(first);
      assert all[0] == first[0];
    }
  }

  // ---- Totals ----

  lemma EmptyRendering(tok: Text -> nat, framing: Framing)
    ensures Sort<Chosen>([], LayerOrder) == [] && Total(LayOut([], framing).layers, tok) == 0
  {
  }

  lemma RenderedTotals(selected: seq<Chosen>, budget: nat, tok: Text -> nat, framing: Framing)
    ensures var c := Rendered(selected, budget, tok, framing).context;
      c.total == Total(c.layers, tok) && forall i :: 0 <= i < |c.layers| ==> c.layers[i].tokens == tok(c.layers[i].text)
  {
    var layers := LayOut(Sort(selected, LayerOrder), framing).layers;
    assert Texts(Counted(layers, tok)) == Texts(layers);
  }

  /** The packed total is the tokenizer's count of the final text and within budget; every
      layer's count is the tokenizer's count of its text. */
  lemma PackTotals(env: Env, tok: Text -> nat, framing: Framing, units: seq<Unit>)
    requires PlainOk(env, tok, framing)
    ensures var c := Pack(env, units).rendering.context;
      && c.total == Total(c.layers, tok) && c.total <= env.budget
      && forall i :: 0 <= i < |c.layers| ==> c.layers[i].tokens == tok(c.layers[i].text)
  {
    var selected := Packed(env, Ordered(units)).selected;
    PackedSound(env, Ordered(units));
    assert Rendered(selected, env.budget, tok, framing) == env.plain(selected);
    RenderedTotals(selected, env.budget, tok, framing);
    EmptyRendering(tok, framing);
  }

  // ---- Reading back ----

  datatype ReaderEvidence = ReaderEvidence(id: Text, text: Text, role: Text, source: Source)

  /** One citation resolved against the layers; None when its offsets are unusable or empty. */
  function ReadOne(layers: seq<Layer>, i: nat, c: Citation): Option<ReaderEvidence> {
    if c.layer < |layers| && c.textStart < c.textEnd then
      match Slice(layers[c.layer].text, c.textStart, c.textEnd)
      case Some(text) => Some(ReaderEvidence(if c.id == [] then CitationId(i + 1) else c.id, text, c.role, c.source))
      case None => None
    else None
  }

  /** All citations resolved, or None when one fails. */
  function FromResult(r: Rendering, n: nat): Option<seq<ReaderEvidence>>
    requires n <= |r.evidence|
  {
    if n == 0 then Some([]) else
      match (FromResult(r, n - 1), ReadOne(r.context.layers, n - 1, r.evidence[n - 1]))
      case (Some(read), Some(e)) => Some(read + [e])
      case _ => None
  }

  function Expected(sorted: seq<Chosen>, n: nat): seq<ReaderEvidence>
    requires n <= |sorted|
  {
    seq(n, k requires 0 <= k < n => ReaderEvidence(CitationId(k + 1), sorted[k].text, sorted[k].unit.role, sorted[k].source))
  }

  ghost predicate Citable(r: Rendering, sorted: seq<Chosen>) {
    && |r.evidence| == |sorted|
    && forall k :: 0 <= k < |sorted| ==> CitesAs(r, k, sorted[k])
  }

  ghost predicate CitesAs(r: Rendering, k: nat, c: Chosen)
    requires k < |r.evidence|
  {
    var cit := r.evidence[k];
    && Points(r.context.layers, cit, c.text) && cit.role == c.unit.role && cit.source == c.source
    && (cit.id == [] || cit.id == CitationId(k + 1))
  }

  lemma {:induction false} ReadsBack(r: Rendering, sorted: seq<Chosen>, n: nat)
    requires Citable(r, sorted) && n <= |sorted|
    ensures FromResult(r, n).Some? <==> forall k :: 0 <= k < n ==> sorted[k].text != []
    ensures FromResult(r, n).Some? ==> FromResult(r, n).value == Expected(sorted, n)
  {
    if n > 0 {
      ReadsBack(r, sorted, n - 1);
      assert CitesAs(r, n - 1, sorted[n - 1]);
      assert Expected(sorted, n) == Expected(sorted, n - 1) +
        [ReaderEvidence(CitationId(n), sorted[n - 1].text, sorted[n - 1].unit.role, sorted[n - 1].source)];
    }
  }

  lemma LayoutCitable(sorted: seq<Chosen>, compact: bool, k: nat)
    requires k < |sorted| && forall i :: 0 <= i < |sorted| ==> ChosenOk(sorted[i])
    ensures var l := LayOut(sorted, FramingOf(compact)); var cit := l.evidence[k];
      && Points(l.layers, cit, sorted[k].text) && cit.role == sorted[k].unit.role && cit.source == sorted[k].source
      && (cit.id == [] || cit.id == CitationId(k + 1))
  {
    FramingValid(compact);
    LayOutExact(sorted, FramingOf(compact));
    assert PointsAt(LayOut(sorted, FramingOf(compact)), sorted, k);
    CitationFields(sorted, FramingOf(compact), k);
    assert FramingOf(compact)(sorted[k], k + 1).id == if compact then CitationId(k + 1) else [];
  }

  lemma CountedPoints(layers: seq<Layer>, tok: Text -> nat, cit: Citation, text: Text)
    requires Points(layers, cit, text)
    ensures Points(Counted(layers, tok), cit, text)
  {
  }

  lemma CountedCites(l: Layout, r: Rendering, tok: Text -> nat, sorted: seq<Chosen>, compact: bool)
    requires forall i :: 0 <= i < |sorted| ==> ChosenOk(sorted[i])
    requires l == LayOut(sorted, FramingOf(compact)) && r.evidence == l.evidence && r.context.layers == Counted(l.layers, tok)
    ensures Citable(r, sorted)
  {
    forall k | 0 <= k < |sorted| ensures CitesAs(r, k, sorted[k]) {
      LayoutCitable(sorted, compact, k);
      CountedPoints(l.layers, tok, l.evidence[k], sorted[k].text);
    }
  }

  lemma SortedOk(selected: seq<Chosen>)
    requires forall i :: 0 <= i < |selected| ==> ChosenOk(selected[i])
    ensures forall i :: 0 <= i < |Sort(selected, LayerOrder)| ==> ChosenOk(Sort(selected, LayerOrder)[i])
  {
    var sorted := Sort(selected, LayerOrder);
    SortElements(selected, LayerOrder);
    forall i | 0 <= i < |sorted| ensures ChosenOk(sorted[i]) { assert sorted[i] in sorted; }
  }

  lemma RenderedCitable(selected: seq<Chosen>, budget: nat, tok: Text -> nat, compact: bool)
    requires forall i :: 0 <= i < |selected| ==> ChosenOk(selected[i])
    ensures Citable(Rendered(selected, budget, tok, FramingOf(compact)), Sort(selected, LayerOrder))
  {
    SortedOk(selected);
    var sorted := Sort(selected, LayerOrder);
    CountedCites(LayOut(sorted, FramingOf(compact)), Rendered(selected, budget, tok, FramingOf(compact)), tok, sorted, compact);
  }

  ghost predicate UnitOk(u: Unit) {
    forall c :: c in Candidates(u) ==> ChosenOk(c)
  }

  lemma SelectedOk(env: Env, units: seq<Unit>)
    requires forall u :: u in units ==> UnitOk(u)
    ensures forall i :: 0 <= i < |Packed(env, Ordered(units)).selected| ==> ChosenOk(Packed(env, Ordered(units)).selected[i])
  {
    var selected := Packed(env, Ordered(units)).selected;
    PackedSound(env, Ordered(units));
    OrderConserves(units);
    WhereElements(units, Doubled);
    forall i | 0 <= i < |selected| ensures ChosenOk(selected[i]) {
      assert selected[i].unit in multiset(Ordered(units));
      assert selected[i].unit in units;
      assert UnitOk(selected[i].unit);
    }
  }

  /** Reading the packed result back succeeds exactly when no delivered text is empty, and
      then yields, under the ids E1 … En, each delivered text with its role and source. */
  lemma PackReadsBack(env: Env, tok: Text -> nat, compact: bool, units: seq<Unit>)
    requires PlainOk(env, tok, FramingOf(compact)) && forall u :: u in units ==> UnitOk(u)
    ensures var delivered := Sort(Packed(env, Ordered(units)).selected, LayerOrder);
      var r := Pack(env, units).rendering;
      && |r.evidence| == |delivered|
      && (FromResult(r, |r.evidence|).Some? <==> forall k :: 0 <= k < |delivered| ==> delivered[k].text != [])
      && (FromResult(r, |r.evidence|).Some? ==> FromResult(r, |r.evidence|).value == Expected(delivered, |delivered|))
  {
    var selected := Packed(env, Ordered(units)).selected;
    SelectedOk(env, units);
    assert Rendered(selected, env.budget, tok, FramingOf(compact)) == env.plain(selected);
    RenderedCitable(selected, env.budget, tok, compact);
    ReadsBack(env.plain(selected), Sort(selected, LayerOrder), |selected|);
  }

  /** The response-scoped ids are pairwise different. */
  lemma CitationIdsDistinct(i: nat, j: nat)
    requires CitationId(i) == CitationId(j)
    ensures i == j
  {
    assert CitationId(i)[1..] == Decimal(i) && CitationId(j)[1..] == Decimal(j);
    DecimalInjective(i, j);
  }
}
