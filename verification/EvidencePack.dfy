/** Greedy evidence packing. `Packed` decides with plain rendering; the method
    `PackEvidence` keeps the accepted rendering and feeds it back as a token cache. */
module EvidencePack {
  import opened Orders
  import opened Utf8
  import opened EvidenceRender

  datatype Policy = Policy(profileTokens: nat, recencyTokens: nat, metadataBytes: nat)

  /** What a packing decision reads: the limits, the JSON length of citations (any function)
      and the plain rendering of a selection. */
  datatype Env = Env(budget: nat, policy: Policy, metadata: seq<Citation> -> nat, plain: seq<Chosen> -> Rendering)

  /** The decisions are made on renderings from scratch with this tokenizer and framing. */
  ghost predicate PlainOk(env: Env, tok: Text -> nat, framing: Framing) {
    forall s {:trigger Rendered(s, env.budget, tok, framing)} :: Rendered(s, env.budget, tok, framing) == env.plain(s)
  }

  datatype Reason = WasSelected | WasShortened | DuplicateRange | MissingSupport | OverBudget | OverMetadata

  datatype Decision = Decision(unitId: Text, reason: Reason)

  function RecencyRole(): Text { Ascii("recency_observation") }
  function SummaryRole(): Text { Ascii("summary") }

  predicate Recent(u: Unit) { u.role == RecencyRole() }

  // ---- Consideration order ----

  function Where(units: seq<Unit>, p: Unit -> bool): seq<Unit> {
    if units == [] then [] else
      Where(units[..|units| - 1], p) + (if p(units[|units| - 1]) then [units[|units| - 1]] else [])
  }

  predicate IsProfile(u: Unit) { u.layer == Profile }
  predicate IsDocument(u: Unit) { u.layer == Documents }
  predicate InMemory(u: Unit) { u.layer != Profile && u.layer != Documents && !Recent(u) }
  predicate IsSummary(u: Unit) { InMemory(u) && u.layer == Summaries }
  predicate IsEpisode(u: Unit) { InMemory(u) && (u.layer == RecentEpisodes || u.layer == SessionSummaries) }
  predicate IsClaim(u: Unit) { InMemory(u) && !IsSummary(u) && !IsEpisode(u) }

  function At(s: seq<Unit>, i: nat): seq<Unit> { if i < |s| then [s[i]] else [] }

  /** Rounds `0 .. n` of alternating between three channels. */
  function Alternate(a: seq<Unit>, b: seq<Unit>, c: seq<Unit>, n: nat): seq<Unit> {
    if n == 0 then [] else Alternate(a, b, c, n - 1) + At(a, n - 1) + At(b, n - 1) + At(c, n - 1)
  }

  function Memory(units: seq<Unit>): seq<Unit> {
    var a, b, c := Where(units, IsEpisode), Where(units, IsSummary), Where(units, IsClaim);
    Alternate(a, b, c, Max(|a|, Max(|b|, |c|)))
  }

  function Ordered(units: seq<Unit>): seq<Unit> {
    var m, d := Memory(units), Where(units, IsDocument);
    Where(units, IsProfile) + Alternate(m, d, [], Max(|m|, |d|)) + Where(units, Recent)
  }

  method AlternateLoop(a: seq<Unit>, b: seq<Unit>, c: seq<Unit>) returns (r: seq<Unit>)
    ensures r == Alternate(a, b, c, Max(|a|, Max(|b|, |c|)))
  {
    r := [];
    for i := 0 to Max(|a|, Max(|b|, |c|))
      invariant r == Alternate(a, b, c, i)
    {
      if i < |a| { r := r + [a[i]]; }
      if i < |b| { r := r + [b[i]]; }
      if i < |c| { r := r + [c[i]]; }
    }
  }

  // ---- One unit ----

  predicate Contains(delivered: Source, candidate: Source) {
    && candidate.reference == delivered.reference && candidate.revision == delivered.revision
    && candidate.view == delivered.view && candidate.viewDigest == delivered.viewDigest
    && candidate.decoder == delivered.decoder && candidate.uuid == delivered.uuid
    && delivered.start <= candidate.start && candidate.end <= delivered.end
  }

  predicate Delivered(selected: seq<Chosen>, candidate: Source) {
    exists i :: 0 <= i < |selected| && Contains(selected[i].source, candidate)
  }

  function Candidates(u: Unit): seq<Chosen> {
    [Chosen(u, u.text, u.source)] +
    seq(|u.variants|, i requires 0 <= i < |u.variants| => Chosen(u, u.variants[i].text, u.variants[i].source))
  }

  function Tokens(env: Env, selected: seq<Chosen>): nat { env.plain(selected).context.total }

  function Cost(before: nat, after: nat): nat { if after >= before then after - before else 0 }

  function ProfileCap(env: Env): nat { Min(env.budget / 4, env.policy.profileTokens) }
  function RecencyCap(env: Env): nat { Min(env.budget / 10, env.policy.recencyTokens) }

  /** The priority limit of the unit's class, given the totals before and after adding it. */
  predicate PriorityFits(env: Env, u: Unit, before: nat, after: nat, spent: nat) {
    if u.layer == Profile then after <= ProfileCap(env)
    else if Recent(u) then spent + Cost(before, after) <= RecencyCap(env)
    else true
  }

  predicate Accepts(env: Env, u: Unit, before: nat, r: Rendering, spent: nat) {
    r.context.total <= env.budget && env.metadata(r.evidence) <= env.policy.metadataBytes
    && PriorityFits(env, u, before, r.context.total, spent)
  }

  datatype Attempt = Attempt(selected: seq<Chosen>, spent: nat, reason: Reason)

  function TryAll(env: Env, u: Unit, candidates: seq<Chosen>, selected: seq<Chosen>, spent: nat, reason: Reason): Attempt {
    if candidates == [] then Attempt(selected, spent, reason)
    else
      var c := candidates[0];
      if Delivered(selected, c.source) then
        TryAll(env, u, candidates[1..], selected, spent, DuplicateRange)
      else
        var r := env.plain(selected + [c]);
        if Accepts(env, u, Tokens(env, selected), r, spent) then
          Attempt(selected + [c], if Recent(u) then spent + Cost(Tokens(env, selected), r.context.total) else spent,
                  if c.text == u.text then WasSelected else WasShortened)
        else
          TryAll(env, u, candidates[1..], selected, spent,
                 if env.metadata(r.evidence) > env.policy.metadataBytes then OverMetadata else reason)
  }

  // ---- The whole pass ----

  datatype Packing = Packing(selected: seq<Chosen>, seen: set<Text>, spent: nat, decisions: seq<Decision>)

  function Consider(env: Env, p: Packing, u: Unit): Packing {
    var a :=
      if u.id in p.seen then Attempt(p.selected, p.spent, DuplicateRange)
      else if u.role == SummaryRole() && u.support == [] then Attempt(p.selected, p.spent, MissingSupport)
      else TryAll(env, u, Candidates(u), p.selected, p.spent, OverBudget);
    Packing(a.selected, p.seen + {u.id}, a.spent, p.decisions + [Decision(u.id, a.reason)])
  }

  function Packed(env: Env, units: seq<Unit>): Packing {
    if units == [] then Packing([], {}, 0, []) else Consider(env, Packed(env, units[..|units| - 1]), units[|units| - 1])
  }

  predicate Cuts(r: Reason) { r == OverBudget || r == OverMetadata || r == WasShortened }

  datatype Result = Result(rendering: Rendering, truncated: bool, decisions: seq<Decision>)

  /** The value packing returns, computed with plain rendering throughout. */
  function Pack(env: Env, units: seq<Unit>): Result {
    var p := Packed(env, Ordered(units));
    Result(env.plain(p.selected), Truncates(p.decisions), p.decisions)
  }

  /** One rendering of the growing selection, counts reused from the accepted one. */
  method RenderNext(env: Env, tok: Text -> nat, framing: Framing, selected: seq<Chosen>, previous: Option<Rendering>)
    returns (r: Rendering)
    requires FramesExact(framing) && PlainOk(env, tok, framing)
    requires previous.Some? ==> CountsSound(previous.value, tok)
    ensures r == env.plain(selected) && CountsSound(r, tok)
  {
    r := Render(selected, env.budget, tok, previous, framing);
    RenderedSound(selected, env.budget, tok, framing);
  }

  method ConsiderUnit(env: Env, tok: Text -> nat, framing: Framing, u: Unit, before: seq<Chosen>, rendered: Rendering, spent: nat)
    returns (a: Attempt, accepted: Rendering)
    requires FramesExact(framing) && PlainOk(env, tok, framing)
    requires rendered == env.plain(before) && CountsSound(rendered, tok)
    ensures a == TryAll(env, u, Candidates(u), before, spent, OverBudget)
    ensures accepted == env.plain(a.selected) && CountsSound(accepted, tok)
  {
    var candidates := Candidates(u);
    var selected, reason := before, OverBudget;
    accepted := rendered;
    for i := 0 to |candidates|
      invariant selected == before && accepted == rendered
      invariant TryAll(env, u, candidates[i..], before, spent, reason) == TryAll(env, u, candidates, before, spent, OverBudget)
    {
      var c := candidates[i];
      assert candidates[i..][0] == c && candidates[i..][1..] == candidates[i + 1..];
      if Delivered(selected, c.source) {
        reason := DuplicateRange;
        continue;
      }
      var total := accepted.context.total;
      selected := selected + [c];
      var candidate := RenderNext(env, tok, framing, selected, Some(accepted));
      if Accepts(env, u, total, candidate, spent) {
        a := Attempt(selected, if Recent(u) then spent + Cost(total, candidate.context.total) else spent,
                     if c.text == u.text then WasSelected else WasShortened);
        accepted := candidate;
        return;
      }
      if env.metadata(candidate.evidence) > env.policy.metadataBytes {
        reason := OverMetadata;
      }
      selected := selected[..|selected| - 1];
    }
    a := Attempt(selected, spent, reason);
  }

  method Step(env: Env, tok: Text -> nat, framing: Framing, before: Packing, rendered: Rendering, u: Unit)
    returns (p: Packing, accepted: Rendering)
    requires FramesExact(framing) && PlainOk(env, tok, framing)
    requires rendered == env.plain(before.selected) && CountsSound(rendered, tok)
    ensures p == Consider(env, before, u)
    ensures accepted == env.plain(p.selected) && CountsSound(accepted, tok)
  {
    var a;
    accepted := rendered;
    if u.id in before.seen {
      a := Attempt(before.selected, before.spent, DuplicateRange);
    } else if u.role == SummaryRole() && u.support == [] {
      a := Attempt(before.selected, before.spent, MissingSupport);
    } else {
      a, accepted := ConsiderUnit(env, tok, framing, u, before.selected, rendered, before.spent);
    }
    p := Packing(a.selected, before.seen + {u.id}, a.spent, before.decisions + [Decision(u.id, a.reason)]);
  }

  lemma PackedStep(env: Env, units: seq<Unit>, i: nat)
    requires i < |units|
    ensures Packed(env, units[..i + 1]) == Consider(env, Packed(env, units[..i]), units[i])
  {
    assert units[..i + 1][..i] == units[..i];
  }

  method PackOrdered(env: Env, tok: Text -> nat, framing: Framing, ordered: seq<Unit>)
    returns (p: Packing, accepted: Rendering)
    requires FramesExact(framing) && PlainOk(env, tok, framing)
    ensures p == Packed(env, ordered) && accepted == env.plain(p.selected)
  {
    p := Packing([], {}, 0, []);
    accepted := RenderNext(env, tok, framing, [], None);
    for i := 0 to |ordered|
      invariant p == Packed(env, ordered[..i])
      invariant accepted == env.plain(p.selected) && CountsSound(accepted, tok)
    {
      PackedStep(env, ordered, i);
      p, accepted := Step(env, tok, framing, p, accepted, ordered[i]);
    }
    assert ordered[..|ordered|] == ordered;
  }

  predicate Truncates(decisions: seq<Decision>) {
    exists i :: 0 <= i < |decisions| && Cuts(decisions[i].reason)
  }

  /** Packing with cached counts returns what packing with plain rendering returns. */
  method PackEvidence(env: Env, tok: Text -> nat, framing: Framing, units: seq<Unit>) returns (result: Result)
    requires FramesExact(framing) && PlainOk(env, tok, framing)
    ensures result == Pack(env, units)
  {
    var ordered := OrderUnits(units);
    var p, accepted := PackOrdered(env, tok, framing, ordered);
    result := Result(accepted, Truncates(p.decisions), p.decisions);
  }

  method OrderUnits(units: seq<Unit>) returns (ordered: seq<Unit>)
    ensures ordered == Ordered(units)
  {
    var memory := AlternateLoop(Where(units, IsEpisode), Where(units, IsSummary), Where(units, IsClaim));
    var rest := AlternateLoop(memory, Where(units, IsDocument), []);
    ordered := Where(units, IsProfile) + rest + Where(units, Recent);
  }
}
