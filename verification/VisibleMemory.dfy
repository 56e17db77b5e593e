/** Reading the past: visible claims at a (known, valid) pair, and why later ledger events
    cannot change what was returned for it. */
module VisibleMemory {
  import opened Orders
  import opened Intervals
  import opened TemporalFold
  import opened FoldMeaning
  import opened FoldStatus
  import opened FoldLoops
  import opened Growth

  type Groups = seq<seq<StatementEntry>>

  datatype Scope = Scope(known: Timestamp, valid: Timestamp, minConfidence: real)

  datatype VisibleClaim = VisibleClaim(
    profileRelevant: bool, assertions: seq<string>, statement: Statement, belief: Belief, sources: seq<string>)

  function LiveOf(s: seq<Assertion>, live: set<string>): seq<Assertion> {
    if s == [] then [] else
      LiveOf(s[..|s| - 1], live) + (if s[|s| - 1].episode in live then [s[|s| - 1]] else [])
  }

  /** The group with assertions of dead episodes removed. */
  function LiveGroup(group: seq<StatementEntry>, live: set<string>): seq<StatementEntry> {
    seq(|group|, i requires 0 <= i < |group| =>
      StatementEntry(group[i].statement, LiveOf(group[i].assertions, live)))
  }

  function Episodes(s: seq<Assertion>): set<string> { set a | a in s :: a.episode }

  function AssertionIds(s: seq<Assertion>): seq<string> {
    seq(|s|, i requires 0 <= i < |s| => s[i].id)
  }

  ghost predicate GroupsOk(groups: Groups) {
    forall i :: 0 <= i < |groups| ==> GroupOk(groups[i])
  }

  lemma {:induction false} LiveOfElements(s: seq<Assertion>, live: set<string>)
    ensures forall a :: a in LiveOf(s, live) <==> a in s && a.episode in live
  {
    if s != [] {
      LiveOfElements(s[..|s| - 1], live);
      assert s == s[..|s| - 1] + [s[|s| - 1]];
    }
  }

  lemma LiveGroupOk(group: seq<StatementEntry>, live: set<string>)
    requires GroupOk(group)
    ensures GroupOk(LiveGroup(group, live))
  {
    forall i | 0 <= i < |group| ensures AssertionsOk(LiveOf(group[i].assertions, live)) {
      var kept := LiveOf(group[i].assertions, live);
      LiveOfElements(group[i].assertions, live);
      forall k | 0 <= k < |kept| ensures kept[k].claimedFrom <= kept[k].claimedTo { assert kept[k] in kept; }
    }
  }

  /** The first entry with the given statement id. */
  function EntryOf(input: seq<StatementEntry>, id: string): Option<StatementEntry> {
    if input == [] then None
    else if input[0].statement.id == id then Some(input[0])
    else EntryOf(input[1..], id)
  }

  predicate Passes(b: Belief, scope: Scope) {
    b.validFrom <= scope.valid <= b.validTo && b.confidence >= scope.minConfidence
  }

  function ClaimFor(def: PredicateDef, e: StatementEntry, b: Belief, known: Timestamp): VisibleClaim {
    var vis := VisibleOf(e.assertions, known);
    VisibleClaim(def.profileRelevant, AssertionIds(vis), e.statement, b, Ascending(Episodes(vis)))
  }

  /** The claims one list of beliefs contributes, in belief order. */
  function ClaimsOfBeliefs(def: PredicateDef, input: seq<StatementEntry>, beliefs: seq<Belief>, scope: Scope): seq<VisibleClaim> {
    if beliefs == [] then [] else
      var b := beliefs[|beliefs| - 1];
      var e := EntryOf(input, b.statement);
      ClaimsOfBeliefs(def, input, beliefs[..|beliefs| - 1], scope) +
      (if Passes(b, scope) && e.Some? && ClaimFor(def, e.value, b, scope.known).sources != []
       then [ClaimFor(def, e.value, b, scope.known)] else [])
  }

  function GroupClaims(group: seq<StatementEntry>, defs: map<string, PredicateDef>, live: set<string>,
                       scope: Scope, score: PredicateDef -> Scorer): seq<VisibleClaim>
    requires GroupOk(group)
  {
    if group == [] || group[0].statement.predicateName !in defs then [] else
      var def := defs[group[0].statement.predicateName];
      LiveGroupOk(group, live);
      var input := LiveGroup(group, live);
      ClaimsOfBeliefs(def, input, FoldGroup(def, input, scope.known, score(def)), scope)
  }

  function AllClaims(groups: Groups, defs: map<string, PredicateDef>, live: set<string>,
                     scope: Scope, score: PredicateDef -> Scorer): seq<VisibleClaim>
    requires GroupsOk(groups)
  {
    if groups == [] then [] else
      AllClaims(groups[..|groups| - 1], defs, live, scope, score) +
      GroupClaims(groups[|groups| - 1], defs, live, scope, score)
  }

  predicate ClaimIdOrder(a: VisibleClaim, b: VisibleClaim) { AtMost(a.statement.id, b.statement.id) }

  /** The value `visible_claims` returns. */
  function ClaimsAt(groups: Groups, defs: map<string, PredicateDef>, live: set<string>,
                    scope: Scope, score: PredicateDef -> Scorer): seq<VisibleClaim>
    requires GroupsOk(groups)
  {
    Sort(AllClaims(groups, defs, live, scope, score), ClaimIdOrder)
  }

  method VisibleClaims(groups: Groups, defs: map<string, PredicateDef>, live: set<string>,
                       scope: Scope, score: PredicateDef -> Scorer) returns (out: seq<VisibleClaim>)
    requires GroupsOk(groups)
    ensures out == ClaimsAt(groups, defs, live, scope, score)
  {
    out := [];
    for i := 0 to |groups|
      invariant out == AllClaims(groups[..i], defs, live, scope, score)
    {
      assert groups[..i + 1][..i] == groups[..i];
      var claims := ClaimsOfGroup(groups[i], defs, live, scope, score);
      out := out + claims;
    }
    assert groups[..|groups|] == groups;
    out := Sort(out, ClaimIdOrder);
  }

  method ClaimsOfGroup(group: seq<StatementEntry>, defs: map<string, PredicateDef>, live: set<string>,
                       scope: Scope, score: PredicateDef -> Scorer) returns (out: seq<VisibleClaim>)
    requires GroupOk(group)
    ensures out == GroupClaims(group, defs, live, scope, score)
  {
    if group == [] || group[0].statement.predicateName !in defs {
      return [];
    }
    var def := defs[group[0].statement.predicateName];
    var input := LiveGroup(group, live);
    LiveGroupOk(group, live);
    var beliefs := Fold(def, input, scope.known, score(def));
    out := CollectClaims(def, input, beliefs, scope);
  }

  method CollectClaims(def: PredicateDef, input: seq<StatementEntry>, beliefs: seq<Belief>, scope: Scope)
    returns (out: seq<VisibleClaim>)
    ensures out == ClaimsOfBeliefs(def, input, beliefs, scope)
  {
    out := [];
    for i := 0 to |beliefs|
      invariant out == ClaimsOfBeliefs(def, input, beliefs[..i], scope)
    {
      assert beliefs[..i + 1][..i] == beliefs[..i];
      var b := beliefs[i];
      if b.validFrom > scope.valid || b.validTo < scope.valid || b.confidence < scope.minConfidence { continue; }
      var e := EntryOf(input, b.statement);
      if e.None? { continue; }
      var claim := ClaimFor(def, e.value, b, scope.known);
      if claim.sources == [] { continue; }
      out := out + [claim];
    }
    assert beliefs[..|beliefs|] == beliefs;
  }

  // ---- What a returned claim guarantees ----

  /** The assertion counts: its episode is live and it is visible at `known`. */
  predicate Counts(a: Assertion, live: set<string>, known: Timestamp) {
    a.episode in live && OnRecord(a, known)
  }

  /** Some counting assertion of the entry comes from episode `ep`. */
  ghost predicate FromEpisode(e: StatementEntry, live: set<string>, known: Timestamp, ep: string) {
    exists a :: a in e.assertions && Counts(a, live, known) && a.episode == ep
  }

  /** Some counting assertion of the entry has the id. */
  ghost predicate FromAssertion(e: StatementEntry, live: set<string>, known: Timestamp, id: string) {
    exists a :: a in e.assertions && Counts(a, live, known) && a.id == id
  }

  /** The claim reports entry `e` and a belief about it: it holds at the asked time, meets the
      confidence floor, and lists exactly the live sources and assertions visible at `known`. */
  ghost predicate Reports(e: StatementEntry, live: set<string>, scope: Scope, c: VisibleClaim) {
    && c.statement == e.statement && c.belief.statement == e.statement.id
    && Holds(c.belief, scope.valid) && c.belief.confidence >= scope.minConfidence
    && c.sources != [] && StrictlySorted(c.sources, Below)
    && (forall ep :: ep in c.sources <==> FromEpisode(e, live, scope.known, ep))
    && (forall id :: id in c.assertions <==> FromAssertion(e, live, scope.known, id))
  }

  ghost predicate Grounded(groups: Groups, live: set<string>, scope: Scope, c: VisibleClaim) {
    exists g, e :: g in groups && e in g && Reports(e, live, scope, c)
  }

  lemma {:induction false} EntryOfFinds(input: seq<StatementEntry>, id: string)
    ensures EntryOf(input, id).Some? ==> EntryOf(input, id).value in input && EntryOf(input, id).value.statement.id == id
    ensures EntryOf(input, id).None? ==> forall e :: e in input ==> e.statement.id != id
  {
    if input != [] && input[0].statement.id != id {
      EntryOfFinds(input[1..], id);
      assert input == [input[0]] + input[1..];
    }
  }

  lemma CountingVisible(e: StatementEntry, live: set<string>, known: Timestamp)
    ensures forall a :: a in VisibleOf(LiveOf(e.assertions, live), known) <==> a in e.assertions && Counts(a, live, known)
  {
    LiveOfElements(e.assertions, live);
    VisibleOfElements(LiveOf(e.assertions, live), known);
  }

  lemma AssertionIdsElements(s: seq<Assertion>, id: string)
    ensures id in AssertionIds(s) <==> exists a :: a in s && a.id == id
  {
    if id in AssertionIds(s) {
      var i :| 0 <= i < |s| && AssertionIds(s)[i] == id;
      assert s[i] in s;
    }
    forall a | a in s && a.id == id ensures id in AssertionIds(s) {
      var i :| 0 <= i < |s| && s[i] == a;
      assert AssertionIds(s)[i] == id;
    }
  }

  lemma ClaimReports(e: StatementEntry, def: PredicateDef, live: set<string>, scope: Scope, b: Belief)
    requires Passes(b, scope) && b.statement == e.statement.id
    requires ClaimFor(def, StatementEntry(e.statement, LiveOf(e.assertions, live)), b, scope.known).sources != []
    ensures Reports(e, live, scope, ClaimFor(def, StatementEntry(e.statement, LiveOf(e.assertions, live)), b, scope.known))
  {
    var vis := VisibleOf(LiveOf(e.assertions, live), scope.known);
    CountingVisible(e, live, scope.known);
    AscendingStrict(Episodes(vis));
    forall ep ensures ep in Ascending(Episodes(vis)) <==> FromEpisode(e, live, scope.known, ep) {}
    forall id ensures id in AssertionIds(vis) <==> FromAssertion(e, live, scope.known, id) { AssertionIdsElements(vis, id); }
  }

  lemma ClaimGrounded(groups: Groups, group: seq<StatementEntry>, def: PredicateDef, live: set<string>, scope: Scope,
                      b: Belief)
    requires group in groups && Passes(b, scope)
    requires var e := EntryOf(LiveGroup(group, live), b.statement);
      e.Some? && ClaimFor(def, e.value, b, scope.known).sources != []
    ensures Grounded(groups, live, scope, ClaimFor(def, EntryOf(LiveGroup(group, live), b.statement).value, b, scope.known))
  {
    var input := LiveGroup(group, live);
    var e := EntryOf(input, b.statement).value;
    EntryOfFinds(input, b.statement);
    var i :| 0 <= i < |input| && input[i] == e;
    assert group[i] in group;
    ClaimReports(group[i], def, live, scope, b);
  }

  lemma {:induction false} BeliefClaimsGrounded(groups: Groups, group: seq<StatementEntry>, def: PredicateDef,
                                                live: set<string>, beliefs: seq<Belief>, scope: Scope)
    requires group in groups
    ensures forall c :: c in ClaimsOfBeliefs(def, LiveGroup(group, live), beliefs, scope) ==> Grounded(groups, live, scope, c)
  {
    if beliefs != [] {
      BeliefClaimsGrounded(groups, group, def, live, beliefs[..|beliefs| - 1], scope);
      var b := beliefs[|beliefs| - 1];
      var e := EntryOf(LiveGroup(group, live), b.statement);
      if Passes(b, scope) && e.Some? && ClaimFor(def, e.value, b, scope.known).sources != [] {
        ClaimGrounded(groups, group, def, live, scope, b);
      }
    }
  }

  lemma {:induction false} AllClaimsGrounded(all: Groups, groups: Groups, defs: map<string, PredicateDef>, live: set<string>,
                                             scope: Scope, score: PredicateDef -> Scorer)
    requires GroupsOk(groups) && forall g :: g in groups ==> g in all
    ensures forall c :: c in AllClaims(groups, defs, live, scope, score) ==> Grounded(all, live, scope, c)
  {
    if groups != [] {
      var group := groups[|groups| - 1];
      AllClaimsGrounded(all, groups[..|groups| - 1], defs, live, scope, score);
      assert group in groups;
      if group != [] && group[0].statement.predicateName in defs {
        var def := defs[group[0].statement.predicateName];
        LiveGroupOk(group, live);
        BeliefClaimsGrounded(all, group, def, live, FoldGroup(def, LiveGroup(group, live), scope.known, score(def)), scope);
      }
    }
  }

  /** Every returned claim reports some entry: it holds at the asked time, meets the confidence
      floor, and lists exactly the live sources and assertions visible at `known`, at least one. */
  lemma ClaimsGrounded(groups: Groups, defs: map<string, PredicateDef>, live: set<string>,
                       scope: Scope, score: PredicateDef -> Scorer, c: VisibleClaim)
    requires GroupsOk(groups) && c in ClaimsAt(groups, defs, live, scope, score)
    ensures Grounded(groups, live, scope, c)
  {
    AllClaimsGrounded(groups, groups, defs, live, scope, score);
    SortElements(AllClaims(groups, defs, live, scope, score), ClaimIdOrder);
  }

  // ---- No belief is left out ----

  /** Every belief of the fold is about an entry with a visible assertion, so looking its
      statement up never fails. */
  lemma BeliefEntry(def: PredicateDef, group: seq<StatementEntry>, at: Timestamp, score: Scorer, b: Belief)
    returns (e: StatementEntry)
    requires GroupOk(group) && b in FoldGroup(def, group, at, score)
    ensures e in group && e.statement.id == b.statement && VisibleOf(e.assertions, at) != []
  {
    var c := BeliefClaim(def, group, at, score, b);
    var visible := VisibleGroup(group, at);
    ClaimsOfElements(visible);
    var i, j :| 0 <= i < |visible| && 0 <= j < |visible[i].affirm| && c == Claim(visible[i].id, visible[i].affirm[j]);
    assert visible[i] in visible;
    VisibleGroupElements(group, at);
    e :| e in group && VisibleOf(e.assertions, at) != [] && visible[i] == View(e, at);
  }

  lemma BeliefClaim(def: PredicateDef, group: seq<StatementEntry>, at: Timestamp, score: Scorer, b: Belief) returns (c: Claim)
    requires GroupOk(group) && b in FoldGroup(def, group, at, score)
    ensures c in ClaimsOf(VisibleGroup(group, at)) && c.stmt == b.statement
  {
    if Supersedes(def) {
      c := SweptBelief(def, group, at, score, b);
    } else {
      c := Claim(b.statement, Interval(b.validFrom, b.validTo));
      RowsAreClaims(def, group, at, score, c);
    }
  }

  lemma {:induction false} CollectedBelief(def: PredicateDef, input: seq<StatementEntry>, beliefs: seq<Belief>, scope: Scope, b: Belief)
    requires b in beliefs && Passes(b, scope)
    requires var e := EntryOf(input, b.statement); e.Some? && ClaimFor(def, e.value, b, scope.known).sources != []
    ensures ClaimFor(def, EntryOf(input, b.statement).value, b, scope.known) in ClaimsOfBeliefs(def, input, beliefs, scope)
  {
    var front := beliefs[..|beliefs| - 1];
    assert beliefs == front + [beliefs[|beliefs| - 1]];
    if b in front { CollectedBelief(def, input, front, scope, b); }
  }

  /** The beliefs of a group's live assertions. */
  function LiveFold(def: PredicateDef, group: seq<StatementEntry>, live: set<string>, known: Timestamp, score: Scorer): seq<Belief>
    requires GroupOk(group)
  {
    LiveGroupOk(group, live);
    FoldGroup(def, LiveGroup(group, live), known, score)
  }

  /** A group's belief that holds at the asked time and meets the floor is returned. */
  lemma GroupClaimsComplete(group: seq<StatementEntry>, defs: map<string, PredicateDef>, live: set<string>,
                            scope: Scope, score: PredicateDef -> Scorer, b: Belief) returns (c: VisibleClaim)
    requires GroupOk(group) && group != [] && group[0].statement.predicateName in defs
    requires var def := defs[group[0].statement.predicateName]; b in LiveFold(def, group, live, scope.known, score(def))
    requires Passes(b, scope)
    ensures c in GroupClaims(group, defs, live, scope, score) && c.belief == b
  {
    var def, input := defs[group[0].statement.predicateName], LiveGroup(group, live);
    LiveGroupOk(group, live);
    var e := BeliefEntry(def, input, scope.known, score(def), b);
    EntryOfOnly(input, e);
    c := ClaimFor(def, e, b, scope.known);
    SourcesExist(e, scope.known);
    CollectedBelief(def, input, FoldGroup(def, input, scope.known, score(def)), scope, b);
  }

  lemma SourcesExist(e: StatementEntry, known: Timestamp)
    requires VisibleOf(e.assertions, known) != []
    ensures Ascending(Episodes(VisibleOf(e.assertions, known))) != []
  {
    var vis := VisibleOf(e.assertions, known);
    assert vis[0].episode in Episodes(vis);
    assert vis[0].episode in Ascending(Episodes(vis));
  }

  lemma AllClaimsLast(groups: Groups, defs: map<string, PredicateDef>, live: set<string>, scope: Scope,
                      score: PredicateDef -> Scorer) returns (before: seq<VisibleClaim>, own: seq<VisibleClaim>)
    requires GroupsOk(groups) && groups != []
    ensures GroupsOk(groups[..|groups| - 1]) && before == AllClaims(groups[..|groups| - 1], defs, live, scope, score)
    ensures own == GroupClaims(groups[|groups| - 1], defs, live, scope, score)
    ensures AllClaims(groups, defs, live, scope, score) == before + own
  {
    before, own := AllClaims(groups[..|groups| - 1], defs, live, scope, score), GroupClaims(groups[|groups| - 1], defs, live, scope, score);
  }

  lemma {:induction false} AllClaimsHold(groups: Groups, i: nat, defs: map<string, PredicateDef>, live: set<string>,
                                         scope: Scope, score: PredicateDef -> Scorer, own: seq<VisibleClaim>, c: VisibleClaim)
    requires GroupsOk(groups) && i < |groups| && own == GroupClaims(groups[i], defs, live, scope, score) && c in own
    ensures c in AllClaims(groups, defs, live, scope, score)
    decreases |groups|
  {
    var before, last := AllClaimsLast(groups, defs, live, scope, score);
    if i < |groups| - 1 {
      AllClaimsHold(groups[..|groups| - 1], i, defs, live, scope, score, own, c);
    }
  }

  /** Reads are complete: each group's belief that holds at the asked time and meets the
      confidence floor is among the returned claims. */
  lemma ClaimsComplete(groups: Groups, defs: map<string, PredicateDef>, live: set<string>,
                       scope: Scope, score: PredicateDef -> Scorer, group: seq<StatementEntry>, b: Belief) returns (c: VisibleClaim)
    requires GroupsOk(groups) && group in groups && group != [] && group[0].statement.predicateName in defs
    requires var def := defs[group[0].statement.predicateName]; b in LiveFold(def, group, live, scope.known, score(def))
    requires b.validFrom <= scope.valid <= b.validTo && b.confidence >= scope.minConfidence
    ensures c in ClaimsAt(groups, defs, live, scope, score) && c.belief == b
  {
    c := GroupClaimsComplete(group, defs, live, scope, score, b);
    var i :| 0 <= i < |groups| && groups[i] == group;
    AllClaimsHold(groups, i, defs, live, scope, score, GroupClaims(group, defs, live, scope, score), c);
    SortElements(AllClaims(groups, defs, live, scope, score), ClaimIdOrder);
  }

  // ---- One uncontradicted claim per valid time ----

  ghost predicate ExclusiveAt(beliefs: seq<Belief>, t: Timestamp) {
    forall i, j :: 0 <= i < j < |beliefs| && beliefs[i].status != Contradicted && beliefs[j].status != Contradicted ==>
      !(Holds(beliefs[i], t) && Holds(beliefs[j], t))
  }

  function Uncontradicted(claims: seq<VisibleClaim>): nat {
    if claims == [] then 0 else
      Uncontradicted(claims[..|claims| - 1]) + (if claims[|claims| - 1].belief.status != Contradicted then 1 else 0)
  }

  ghost predicate InForce(beliefs: seq<Belief>, t: Timestamp) {
    exists i :: 0 <= i < |beliefs| && beliefs[i].status != Contradicted && Holds(beliefs[i], t)
  }

  lemma {:induction false} ExclusiveClaims(def: PredicateDef, input: seq<StatementEntry>, beliefs: seq<Belief>, scope: Scope)
    requires ExclusiveAt(beliefs, scope.valid)
    ensures Uncontradicted(ClaimsOfBeliefs(def, input, beliefs, scope)) <= (if InForce(beliefs, scope.valid) then 1 else 0)
  {
    if beliefs != [] {
      var front, b := beliefs[..|beliefs| - 1], beliefs[|beliefs| - 1];
      ExclusiveClaims(def, input, front, scope);
      assert InForce(front, scope.valid) ==> InForce(beliefs, scope.valid) by {
        assert forall i :: 0 <= i < |front| ==> front[i] == beliefs[i];
      }
      LastClaim(def, input, beliefs, scope);
    }
  }

  lemma LastClaim(def: PredicateDef, input: seq<StatementEntry>, beliefs: seq<Belief>, scope: Scope)
    requires beliefs != []
    ensures var n := Uncontradicted(ClaimsOfBeliefs(def, input, beliefs[..|beliefs| - 1], scope));
      var b := beliefs[|beliefs| - 1];
      Uncontradicted(ClaimsOfBeliefs(def, input, beliefs, scope)) <=
        n + if b.status != Contradicted && Holds(b, scope.valid) then 1 else 0
  {
    var before, own := LastContribution(def, input, beliefs, scope);
    UncontradictedOwn(before, own);
  }

  lemma UncontradictedOwn(before: seq<VisibleClaim>, own: seq<VisibleClaim>)
    requires |own| <= 1
    ensures Uncontradicted(before + own) ==
      Uncontradicted(before) + if own != [] && own[0].belief.status != Contradicted then 1 else 0
  {
    if own == [] {
      assert before + own == before;
    } else {
      assert before + own == before + [own[0]];
      UncontradictedPush(before, own[0]);
    }
  }

  /** The last belief adds its claim, if it has one. */
  lemma LastContribution(def: PredicateDef, input: seq<StatementEntry>, beliefs: seq<Belief>, scope: Scope)
    returns (before: seq<VisibleClaim>, own: seq<VisibleClaim>)
    requires beliefs != []
    ensures before == ClaimsOfBeliefs(def, input, beliefs[..|beliefs| - 1], scope)
    ensures ClaimsOfBeliefs(def, input, beliefs, scope) == before + own && |own| <= 1
    ensures own != [] ==> own[0].belief == beliefs[|beliefs| - 1] && Passes(beliefs[|beliefs| - 1], scope)
    ensures own != [] ==>
      var e := EntryOf(input, beliefs[|beliefs| - 1].statement);
      e.Some? && own[0] == ClaimFor(def, e.value, beliefs[|beliefs| - 1], scope.known)
  {
    var b := beliefs[|beliefs| - 1];
    var e := EntryOf(input, b.statement);
    before := ClaimsOfBeliefs(def, input, beliefs[..|beliefs| - 1], scope);
    own := if Passes(b, scope) && e.Some? && ClaimFor(def, e.value, b, scope.known).sources != []
           then [ClaimFor(def, e.value, b, scope.known)] else [];
  }

  lemma UncontradictedPush(before: seq<VisibleClaim>, c: VisibleClaim)
    ensures Uncontradicted(before + [c]) == Uncontradicted(before) + if c.belief.status != Contradicted then 1 else 0
  {
    assert (before + [c])[..|before|] == before;
  }

  /** A Functional/Supersede group yields at most one uncontradicted claim at any valid time. */
  lemma AtMostOneClaim(group: seq<StatementEntry>, defs: map<string, PredicateDef>, live: set<string>,
                       scope: Scope, score: PredicateDef -> Scorer)
    requires GroupOk(group)
    requires group != [] && group[0].statement.predicateName in defs ==> Supersedes(defs[group[0].statement.predicateName])
    ensures Uncontradicted(GroupClaims(group, defs, live, scope, score)) <= 1
  {
    if group != [] && group[0].statement.predicateName in defs {
      var def := defs[group[0].statement.predicateName];
      var input := LiveGroup(group, live);
      LiveGroupOk(group, live);
      var beliefs := FoldGroup(def, input, scope.known, score(def));
      forall i, j | 0 <= i < j < |beliefs| && beliefs[i].status != Contradicted && beliefs[j].status != Contradicted
        ensures !(Holds(beliefs[i], scope.valid) && Holds(beliefs[j], scope.valid))
      {
        AtMostOneInForce(def, input, scope.known, score(def), i, j, scope.valid);
      }
      ExclusiveClaims(def, input, beliefs, scope);
    }
  }

  // ---- Append-only history ----

  /** Everything a recorded assertion fixes; only its retraction time may be filled in later. */
  function Erased(s: seq<Assertion>): seq<Assertion> {
    seq(|s|, i requires 0 <= i < |s| => s[i].(retractedAt := None))
  }

  predicate Retracts(a: Assertion, b: Assertion, known: Timestamp) {
    a.retractedAt.None? && b.retractedAt.Some? && b.retractedAt.value > known && b == a.(retractedAt := b.retractedAt)
  }

  function AssertionKept(known: Timestamp): (Assertion, Assertion) -> bool {
    (a, b) => b == a || Retracts(a, b, known)
  }

  /** New at a read of `known`: not on record there. */
  function AssertionAdded(known: Timestamp): Assertion -> bool {
    (a: Assertion) => !OnRecord(a, known)
  }

  /** `later` is `s` with assertions that are not on record at `known` listed anywhere among
      its own, and some of its own retracted after `known`. */
  ghost predicate Evolved(s: seq<Assertion>, later: seq<Assertion>, known: Timestamp) {
    Grows(s, later, AssertionKept(known), AssertionAdded(known))
  }

  lemma {:induction false} EvolvedVisible(s: seq<Assertion>, later: seq<Assertion>, known: Timestamp)
    requires Evolved(s, later, known)
    ensures Erased(VisibleOf(later, known)) == Erased(VisibleOf(s, known))
    decreases |later|
  {
    if later != [] {
      var front, b := later[..|later| - 1], later[|later| - 1];
      var joined := LastCase(s, later, AssertionKept(known), AssertionAdded(known));
      if joined {
        EvolvedVisible(s, front, known);
        assert VisibleOf(later, known) == VisibleOf(front, known) + [];
      } else {
        var a := s[|s| - 1];
        EvolvedVisible(s[..|s| - 1], front, known);
        assert Visible(a, known) == Visible(b, known);
        ErasedConcat(VisibleOf(front, known), if Visible(b, known) then [b] else []);
        ErasedConcat(VisibleOf(s[..|s| - 1], known), if Visible(a, known) then [a] else []);
      }
    }
  }

  lemma ErasedConcat(s: seq<Assertion>, u: seq<Assertion>)
    ensures Erased(s + u) == Erased(s) + Erased(u)
  {
  }

  lemma {:induction false} EvolvedLive(s: seq<Assertion>, later: seq<Assertion>, live: set<string>, known: Timestamp)
    requires Evolved(s, later, known)
    ensures Evolved(LiveOf(s, live), LiveOf(later, live), known)
    decreases |later|
  {
    if later != [] {
      var front, b := later[..|later| - 1], later[|later| - 1];
      var joined := LastCase(s, later, AssertionKept(known), AssertionAdded(known));
      if joined {
        EvolvedLive(s, front, live, known);
        if b.episode in live {
          JoinedPush(LiveOf(s, live), LiveOf(front, live), b, AssertionKept(known), AssertionAdded(known));
        } else {
          assert LiveOf(later, live) == LiveOf(front, live);
        }
      } else {
        var init, a := s[..|s| - 1], s[|s| - 1];
        EvolvedLive(init, front, live, known);
        if b.episode in live {
          CarriedPush(LiveOf(init, live), LiveOf(front, live), a, b, AssertionKept(known), AssertionAdded(known));
        } else {
          assert a.episode == b.episode;
          assert LiveOf(later, live) == LiveOf(front, live) && LiveOf(s, live) == LiveOf(init, live);
        }
      }
    }
  }

  lemma {:induction false} ErasedClaimed(s: seq<Assertion>, u: seq<Assertion>, p: Polarity)
    requires Erased(s) == Erased(u)
    ensures Claimed(s, p) == Claimed(u, p)
  {
    if s != [] {
      var n := |s|;
      assert |u| == |Erased(u)| == n;
      assert Erased(s)[n - 1] == Erased(u)[n - 1];
      assert Erased(s[..n - 1]) == Erased(s)[..n - 1] == Erased(u)[..n - 1] == Erased(u[..n - 1]);
      ErasedClaimed(s[..n - 1], u[..n - 1], p);
    } else {
      assert |u| == |Erased(u)|;
    }
  }

  lemma ErasedPointwise(s: seq<Assertion>, u: seq<Assertion>)
    requires Erased(s) == Erased(u)
    ensures |s| == |u|
    ensures forall i :: 0 <= i < |s| ==> s[i].(retractedAt := None) == u[i].(retractedAt := None)
  {
    assert |s| == |Erased(s)| && |u| == |Erased(u)|;
    forall i | 0 <= i < |s| ensures s[i].(retractedAt := None) == u[i].(retractedAt := None) {
      assert Erased(s)[i] == Erased(u)[i];
    }
  }

  lemma ErasedEpisodes(s: seq<Assertion>, u: seq<Assertion>)
    requires Erased(s) == Erased(u)
    ensures Episodes(s) <= Episodes(u)
  {
    ErasedPointwise(s, u);
    forall ep | ep in Episodes(s) ensures ep in Episodes(u) {
      var i :| 0 <= i < |s| && s[i].episode == ep;
      assert u[i] in u && u[i].episode == s[i].(retractedAt := None).episode;
    }
  }

  lemma ErasedReads(s: seq<Assertion>, u: seq<Assertion>)
    requires Erased(s) == Erased(u)
    ensures |s| == |u|
    ensures Affirmed(s) == Affirmed(u) && Witnesses(s) == Witnesses(u)
    ensures AssertionIds(s) == AssertionIds(u) && Episodes(s) == Episodes(u)
  {
    ErasedPointwise(s, u);
    ErasedClaimed(s, u, Affirm);
    ErasedClaimed(s, u, Deny);
    ErasedEpisodes(s, u);
    ErasedEpisodes(u, s);
    forall i | 0 <= i < |s| ensures AssertionIds(s)[i] == AssertionIds(u)[i] && Witnesses(s)[i] == Witnesses(u)[i] {
      var x, y := s[i].(retractedAt := None), u[i].(retractedAt := None);
      assert x == y;
    }
  }

  ghost predicate EntryEvolved(e: StatementEntry, later: StatementEntry, known: Timestamp) {
    e.statement == later.statement && Evolved(e.assertions, later.assertions, known)
  }

  ghost function EntryKept(known: Timestamp): (StatementEntry, StatementEntry) -> bool {
    (e, later) => EntryEvolved(e, later, known)
  }

  ghost function EntryAdded(known: Timestamp): StatementEntry -> bool {
    (e: StatementEntry) => Evolved([], e.assertions, known)
  }

  /** The group later on: entries evolved, and new ones listed anywhere among them. */
  ghost predicate GroupEvolved(g: seq<StatementEntry>, later: seq<StatementEntry>, known: Timestamp) {
    Grows(g, later, EntryKept(known), EntryAdded(known))
  }

  ghost function GroupKept(known: Timestamp): (seq<StatementEntry>, seq<StatementEntry>) -> bool {
    (g, later) => GroupEvolved(g, later, known)
  }

  ghost function GroupAdded(known: Timestamp): seq<StatementEntry> -> bool {
    g => GroupEvolved([], g, known)
  }

  ghost predicate GroupsEvolved(gs: Groups, later: Groups, known: Timestamp) {
    Grows(gs, later, GroupKept(known), GroupAdded(known))
  }

  /** The statements of a group share their predicate. */
  ghost predicate Uniform(g: seq<StatementEntry>) {
    forall e, f :: e in g && f in g ==> e.statement.predicateName == f.statement.predicateName
  }

  ghost predicate AllUniform(gs: Groups) {
    forall g :: g in gs ==> Uniform(g)
  }

  lemma EntryView(e: StatementEntry, later: StatementEntry, known: Timestamp)
    requires EntryEvolved(e, later, known)
    ensures View(e, known) == View(later, known)
    ensures VisibleOf(e.assertions, known) == [] <==> VisibleOf(later.assertions, known) == []
  {
    EvolvedVisible(e.assertions, later.assertions, known);
    ErasedReads(VisibleOf(e.assertions, known), VisibleOf(later.assertions, known));
  }

  lemma NewEntryInvisible(later: StatementEntry, known: Timestamp)
    requires Evolved([], later.assertions, known)
    ensures VisibleOf(later.assertions, known) == []
  {
    EvolvedVisible([], later.assertions, known);
    assert |Erased(VisibleOf(later.assertions, known))| == 0;
  }

  lemma {:induction false} GroupView(g: seq<StatementEntry>, later: seq<StatementEntry>, known: Timestamp)
    requires GroupEvolved(g, later, known)
    ensures VisibleGroup(g, known) == VisibleGroup(later, known)
    decreases |later|
  {
    if later != [] {
      var front := later[..|later| - 1];
      var joined := LastCase(g, later, EntryKept(known), EntryAdded(known));
      if joined {
        GroupView(g, front, known);
        NewEntryInvisible(later[|later| - 1], known);
      } else {
        GroupView(g[..|g| - 1], front, known);
        EntryView(g[|g| - 1], later[|later| - 1], known);
      }
    }
  }

  /** Folding at a past transaction time gives the same beliefs, support and confidence
      included, whatever was recorded or retracted afterwards. */
  lemma FoldStable(def: PredicateDef, g: seq<StatementEntry>, later: seq<StatementEntry>, known: Timestamp, score: Scorer)
    requires GroupOk(g) && GroupOk(later) && GroupEvolved(g, later, known)
    ensures FoldGroup(def, g, known, score) == FoldGroup(def, later, known, score)
  {
    GroupView(g, later, known);
  }

  lemma LiveGroupLast(g: seq<StatementEntry>, live: set<string>)
    requires g != []
    ensures var last := g[|g| - 1];
      LiveGroup(g, live) == LiveGroup(g[..|g| - 1], live) + [StatementEntry(last.statement, LiveOf(last.assertions, live))]
  {
  }

  lemma {:induction false} LiveGroupEvolved(g: seq<StatementEntry>, later: seq<StatementEntry>, live: set<string>, known: Timestamp)
    requires GroupEvolved(g, later, known)
    ensures GroupEvolved(LiveGroup(g, live), LiveGroup(later, live), known)
    decreases |later|
  {
    if later != [] {
      var front, f := later[..|later| - 1], later[|later| - 1];
      var lived := StatementEntry(f.statement, LiveOf(f.assertions, live));
      LiveGroupLast(later, live);
      var joined := LastCase(g, later, EntryKept(known), EntryAdded(known));
      if joined {
        LiveGroupEvolved(g, front, live, known);
        EvolvedLive([], f.assertions, live, known);
        JoinedPush(LiveGroup(g, live), LiveGroup(front, live), lived, EntryKept(known), EntryAdded(known));
      } else {
        var init, e := g[..|g| - 1], g[|g| - 1];
        LiveGroupLast(g, live);
        LiveGroupEvolved(init, front, live, known);
        EvolvedLive(e.assertions, f.assertions, live, known);
        CarriedPush(LiveGroup(init, live), LiveGroup(front, live), StatementEntry(e.statement, LiveOf(e.assertions, live)), lived,
                    EntryKept(known), EntryAdded(known));
      }
    }
  }

  lemma EntryOfOnly(g: seq<StatementEntry>, e: StatementEntry)
    requires GroupOk(g) && e in g
    ensures EntryOf(g, e.statement.id) == Some(e)
  {
    EntryOfFinds(g, e.statement.id);
  }

  /** What a claim reads of an entry: nothing that later events change. */
  lemma EntryOfEvolved(g: seq<StatementEntry>, later: seq<StatementEntry>, known: Timestamp, id: string)
    requires GroupOk(g) && GroupOk(later) && GroupEvolved(g, later, known)
    ensures var e, f := EntryOf(g, id), EntryOf(later, id);
      && (e.Some? ==> f.Some? && EntryEvolved(e.value, f.value, known))
      && (e.None? && f.Some? ==> Evolved([], f.value.assertions, known))
  {
    var e, f := EntryOf(g, id), EntryOf(later, id);
    EntryOfFinds(g, id);
    EntryOfFinds(later, id);
    if e.Some? {
      var y := GrownInto(g, later, EntryKept(known), EntryAdded(known), e.value);
      EntryOfOnly(later, y);
    } else if f.Some? {
      var x := GrownFrom(g, later, EntryKept(known), EntryAdded(known), f.value);
    }
  }

  lemma ClaimForEvolved(def: PredicateDef, e: StatementEntry, f: StatementEntry, b: Belief, known: Timestamp)
    requires EntryEvolved(e, f, known)
    ensures ClaimFor(def, e, b, known) == ClaimFor(def, f, b, known)
  {
    EvolvedVisible(e.assertions, f.assertions, known);
    ErasedReads(VisibleOf(e.assertions, known), VisibleOf(f.assertions, known));
  }

  lemma {:induction false} BeliefClaimsStable(def: PredicateDef, g: seq<StatementEntry>, later: seq<StatementEntry>,
                                              beliefs: seq<Belief>, scope: Scope)
    requires GroupOk(g) && GroupOk(later) && GroupEvolved(g, later, scope.known)
    ensures ClaimsOfBeliefs(def, g, beliefs, scope) == ClaimsOfBeliefs(def, later, beliefs, scope)
  {
    if beliefs != [] {
      var b := beliefs[|beliefs| - 1];
      BeliefClaimsStable(def, g, later, beliefs[..|beliefs| - 1], scope);
      EntryOfEvolved(g, later, scope.known, b.statement);
      var e, f := EntryOf(g, b.statement), EntryOf(later, b.statement);
      if e.Some? {
        ClaimForEvolved(def, e.value, f.value, b, scope.known);
      } else if f.Some? {
        NewEntryInvisible(f.value, scope.known);
        assert Episodes([]) == {};
      }
    }
  }

  lemma SamePredicate(g: seq<StatementEntry>, later: seq<StatementEntry>, known: Timestamp)
    requires GroupEvolved(g, later, known) && Uniform(later) && g != []
    ensures later != [] && later[0].statement.predicateName == g[0].statement.predicateName
  {
    var y := GrownInto(g, later, EntryKept(known), EntryAdded(known), g[0]);
    assert later[0] in later;
  }

  lemma GroupClaimsStable(g: seq<StatementEntry>, later: seq<StatementEntry>, defs: map<string, PredicateDef>,
                          live: set<string>, scope: Scope, score: PredicateDef -> Scorer)
    requires GroupOk(g) && GroupOk(later) && Uniform(later) && GroupEvolved(g, later, scope.known)
    ensures GroupClaims(g, defs, live, scope, score) == GroupClaims(later, defs, live, scope, score)
  {
    if g == [] {
      NewGroupSilent(later, defs, live, scope, score);
      return;
    }
    SamePredicate(g, later, scope.known);
    if g[0].statement.predicateName in defs {
      var def := defs[g[0].statement.predicateName];
      LiveGroupOk(g, live);
      LiveGroupOk(later, live);
      LiveGroupEvolved(g, later, live, scope.known);
      FoldStable(def, LiveGroup(g, live), LiveGroup(later, live), scope.known, score(def));
      BeliefClaimsStable(def, LiveGroup(g, live), LiveGroup(later, live),
        FoldGroup(def, LiveGroup(g, live), scope.known, score(def)), scope);
    }
  }

  lemma NewGroupSilent(later: seq<StatementEntry>, defs: map<string, PredicateDef>,
                       live: set<string>, scope: Scope, score: PredicateDef -> Scorer)
    requires GroupOk(later) && GroupEvolved([], later, scope.known)
    ensures GroupClaims(later, defs, live, scope, score) == []
  {
    if later != [] && later[0].statement.predicateName in defs {
      var def := defs[later[0].statement.predicateName];
      LiveGroupOk(later, live);
      LiveGroupEvolved([], later, live, scope.known);
      assert LiveGroup([], live) == [];
      GroupView([], LiveGroup(later, live), scope.known);
      EmptyFold(def, LiveGroup(later, live), scope.known, score(def));
    }
  }

  lemma EmptyFold(def: PredicateDef, group: seq<StatementEntry>, at: Timestamp, score: Scorer)
    requires GroupOk(group) && VisibleGroup(group, at) == []
    ensures FoldGroup(def, group, at, score) == []
  {
    if Supersedes(def) {
      var all, rows := SupersedeShape(def, group, at, score);
      EmptyOrInhabited(all);
    } else {
      var rows := PlainShape(def, group, at, score);
    }
  }

  lemma GroupsFront(gs: Groups)
    requires GroupsOk(gs) && gs != []
    ensures GroupsOk(gs[..|gs| - 1]) && GroupOk(gs[|gs| - 1])
    ensures AllUniform(gs) ==> AllUniform(gs[..|gs| - 1]) && Uniform(gs[|gs| - 1])
  {
    assert gs == gs[..|gs| - 1] + [gs[|gs| - 1]];
  }

  lemma {:induction false} AllClaimsStable(gs: Groups, later: Groups, defs: map<string, PredicateDef>,
                                           live: set<string>, scope: Scope, score: PredicateDef -> Scorer)
    requires GroupsOk(gs) && GroupsOk(later) && AllUniform(later) && GroupsEvolved(gs, later, scope.known)
    ensures AllClaims(gs, defs, live, scope, score) == AllClaims(later, defs, live, scope, score)
    decreases |later|
  {
    if later != [] {
      var front := later[..|later| - 1];
      GroupsFront(later);
      var joined := LastCase(gs, later, GroupKept(scope.known), GroupAdded(scope.known));
      if joined {
        AllClaimsStable(gs, front, defs, live, scope, score);
        NewGroupSilent(later[|later| - 1], defs, live, scope, score);
      } else {
        GroupsFront(gs);
        AllClaimsStable(gs[..|gs| - 1], front, defs, live, scope, score);
        GroupClaimsStable(gs[|gs| - 1], later[|later| - 1], defs, live, scope, score);
      }
    }
  }

  // ---- Runs of ledger events ----

  /** One append to the ledger, stamped with the time it happened. `at` is the place the
      listing gives the new row: reads do not order rows by time. */
  datatype LedgerEvent =
    | Assert(group: nat, entry: nat, at: nat, assertion: Assertion)
    | NewStatement(group: nat, at: nat, statement: Statement, assertion: Assertion)
    | NewGroup(at: nat, statement: Statement, assertion: Assertion)
    | Retract(group: nat, entry: nat, index: nat, when: Timestamp)

  function Stamp(ev: LedgerEvent): Timestamp {
    match ev
    case Assert(_, _, _, a) => a.recordedAt
    case NewStatement(_, _, _, a) => a.recordedAt
    case NewGroup(_, _, a) => a.recordedAt
    case Retract(_, _, _, when) => when
  }

  function WithEntry(gs: Groups, g: nat, e: nat, listed: seq<Assertion>): Groups
    requires g < |gs| && e < |gs[g]|
  {
    gs[g := gs[g][e := StatementEntry(gs[g][e].statement, listed)]]
  }

  /** Retraction fills in a time once; an event that names nothing changes nothing. */
  function Append(gs: Groups, ev: LedgerEvent): Groups {
    match ev
    case Assert(g, e, at, a) =>
      if g < |gs| && e < |gs[g]| then WithEntry(gs, g, e, Inserted(gs[g][e].assertions, at, a)) else gs
    case NewStatement(g, at, s, a) =>
      if g < |gs| then gs[g := Inserted(gs[g], at, StatementEntry(s, [a]))] else gs
    case NewGroup(at, s, a) => Inserted(gs, at, [StatementEntry(s, [a])])
    case Retract(g, e, i, when) =>
      if g < |gs| && e < |gs[g]| && i < |gs[g][e].assertions| && gs[g][e].assertions[i].retractedAt.None? then
        var listed := gs[g][e].assertions;
        WithEntry(gs, g, e, listed[i := listed[i].(retractedAt := Some(when))])
      else gs
  }

  function AppendAll(gs: Groups, events: seq<LedgerEvent>): Groups {
    if events == [] then gs else Append(AppendAll(gs, events[..|events| - 1]), events[|events| - 1])
  }

  lemma EvolvedSame(s: seq<Assertion>, known: Timestamp)
    ensures Evolved(s, s, known)
  {
    GrowsSame(s, AssertionKept(known), AssertionAdded(known));
  }

  lemma GroupSame(g: seq<StatementEntry>, known: Timestamp)
    ensures forall e {:trigger EntryKept(known)(e, e)} :: EntryKept(known)(e, e)
    ensures GroupEvolved(g, g, known)
  {
    forall e: StatementEntry ensures EntryKept(known)(e, e) { EvolvedSame(e.assertions, known); }
    GrowsSame(g, EntryKept(known), EntryAdded(known));
  }

  lemma GroupsSame(gs: Groups, known: Timestamp)
    ensures forall g {:trigger GroupKept(known)(g, g)} :: GroupKept(known)(g, g)
    ensures GroupsEvolved(gs, gs, known)
  {
    forall g: seq<StatementEntry> ensures GroupKept(known)(g, g) { GroupSame(g, known); }
    GrowsSame(gs, GroupKept(known), GroupAdded(known));
  }

  lemma EvolvedTrans(a: seq<Assertion>, b: seq<Assertion>, c: seq<Assertion>, known: Timestamp)
    requires Evolved(a, b, known) && Evolved(b, c, known)
    ensures Evolved(a, c, known)
  {
    GrowsTrans(a, b, c, AssertionKept(known), AssertionAdded(known));
  }

  lemma GroupEvolvedTrans(a: seq<StatementEntry>, b: seq<StatementEntry>, c: seq<StatementEntry>, known: Timestamp)
    requires GroupEvolved(a, b, known) && GroupEvolved(b, c, known)
    ensures GroupEvolved(a, c, known)
  {
    var kept, added := EntryKept(known), EntryAdded(known);
    forall x, y, z | kept(x, y) && kept(y, z) ensures kept(x, z) {
      EvolvedTrans(x.assertions, y.assertions, z.assertions, known);
    }
    forall x, y | added(x) && kept(x, y) ensures added(y) {
      EvolvedTrans([], x.assertions, y.assertions, known);
    }
    GrowsTrans(a, b, c, kept, added);
  }

  lemma GroupsEvolvedTrans(a: Groups, b: Groups, c: Groups, known: Timestamp)
    requires GroupsEvolved(a, b, known) && GroupsEvolved(b, c, known)
    ensures GroupsEvolved(a, c, known)
  {
    var kept, added := GroupKept(known), GroupAdded(known);
    forall x, y, z | kept(x, y) && kept(y, z) ensures kept(x, z) { GroupEvolvedTrans(x, y, z, known); }
    forall x, y | added(x) && kept(x, y) ensures added(y) { GroupEvolvedTrans([], x, y, known); }
    GrowsTrans(a, b, c, kept, added);
  }

  lemma GroupReplaced(gs: Groups, g: nat, later: seq<StatementEntry>, known: Timestamp)
    requires g < |gs| && GroupEvolved(gs[g], later, known)
    ensures GroupsEvolved(gs, gs[g := later], known)
  {
    GroupsSame(gs, known);
    GrowsUpdate(gs, g, later, GroupKept(known), GroupAdded(known));
  }

  lemma EntryReplaced(gs: Groups, g: nat, e: nat, listed: seq<Assertion>, known: Timestamp)
    requires g < |gs| && e < |gs[g]| && Evolved(gs[g][e].assertions, listed, known)
    ensures GroupsEvolved(gs, WithEntry(gs, g, e, listed), known)
  {
    GroupSame(gs[g], known);
    GrowsUpdate(gs[g], e, StatementEntry(gs[g][e].statement, listed), EntryKept(known), EntryAdded(known));
    GroupReplaced(gs, g, gs[g][e := StatementEntry(gs[g][e].statement, listed)], known);
  }

  lemma NewEntryEvolved(s: Statement, a: Assertion, known: Timestamp)
    requires a.recordedAt > known
    ensures EntryAdded(known)(StatementEntry(s, [a])) && GroupAdded(known)([StatementEntry(s, [a])])
  {
    JoinedPush([], [], a, AssertionKept(known), AssertionAdded(known));
    assert [] + [a] == [a];
    JoinedPush([], [], StatementEntry(s, [a]), EntryKept(known), EntryAdded(known));
    assert [] + [StatementEntry(s, [a])] == [StatementEntry(s, [a])];
  }

  lemma StepEvolves(gs: Groups, ev: LedgerEvent, known: Timestamp)
    requires Stamp(ev) > known
    ensures GroupsEvolved(gs, Append(gs, ev), known)
  {
    GroupsSame(gs, known);
    match ev
    case Assert(g, e, at, a) =>
      if g < |gs| && e < |gs[g]| {
        GrowsInsert(gs[g][e].assertions, at, a, AssertionKept(known), AssertionAdded(known));
        EntryReplaced(gs, g, e, Inserted(gs[g][e].assertions, at, a), known);
      }
    case NewStatement(g, at, s, a) =>
      if g < |gs| {
        NewEntryEvolved(s, a, known);
        GroupSame(gs[g], known);
        GrowsInsert(gs[g], at, StatementEntry(s, [a]), EntryKept(known), EntryAdded(known));
        GroupReplaced(gs, g, Inserted(gs[g], at, StatementEntry(s, [a])), known);
      }
    case NewGroup(at, s, a) =>
      NewEntryEvolved(s, a, known);
      GrowsInsert(gs, at, [StatementEntry(s, [a])], GroupKept(known), GroupAdded(known));
    case Retract(g, e, i, when) =>
      if g < |gs| && e < |gs[g]| && i < |gs[g][e].assertions| && gs[g][e].assertions[i].retractedAt.None? {
        var listed := gs[g][e].assertions;
        GrowsUpdate(listed, i, listed[i].(retractedAt := Some(when)), AssertionKept(known), AssertionAdded(known));
        EntryReplaced(gs, g, e, listed[i := listed[i].(retractedAt := Some(when))], known);
      }
  }

  lemma {:induction false} RunEvolves(gs: Groups, events: seq<LedgerEvent>, known: Timestamp)
    requires forall i :: 0 <= i < |events| ==> Stamp(events[i]) > known
    ensures GroupsEvolved(gs, AppendAll(gs, events), known)
  {
    if events == [] {
      GroupsSame(gs, known);
    } else {
      var front := events[..|events| - 1];
      RunEvolves(gs, front, known);
      StepEvolves(AppendAll(gs, front), events[|events| - 1], known);
      GroupsEvolvedTrans(gs, AppendAll(gs, front), AppendAll(gs, events), known);
    }
  }

  /** Whatever is appended after `known`, wherever it is listed, a read at `known` returns the
      same claims. */
  lemma ClaimsStable(gs: Groups, events: seq<LedgerEvent>, defs: map<string, PredicateDef>,
                     live: set<string>, scope: Scope, score: PredicateDef -> Scorer)
    requires GroupsOk(gs) && GroupsOk(AppendAll(gs, events)) && AllUniform(AppendAll(gs, events))
    requires forall i :: 0 <= i < |events| ==> Stamp(events[i]) > scope.known
    ensures ClaimsAt(AppendAll(gs, events), defs, live, scope, score) == ClaimsAt(gs, defs, live, scope, score)
  {
    RunEvolves(gs, events, scope.known);
    AllClaimsStable(gs, AppendAll(gs, events), defs, live, scope, score);
  }
}
