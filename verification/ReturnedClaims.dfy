/** The claims a read returns: which, how many, in what order, and what each one says. */
module ReturnedClaims {
  import opened Orders
  import opened Intervals
  import opened TemporalFold
  import opened FoldMeaning
  import opened VisibleMemory

  // ---- Which beliefs are reported ----

  function BeliefIn(c: VisibleClaim): Belief { c.belief }

  /** The belief holds at the asked time and meets the confidence floor. */
  function InScope(scope: Scope): Belief -> bool {
    (b: Belief) => b.validFrom <= scope.valid <= b.validTo && b.confidence >= scope.minConfidence
  }

  /** The beliefs in scope of the first `n` groups, folded over live assertions; a group without
      rows, or whose predicate has no definition, has none. */
  function BeliefsInScope(groups: Groups, n: nat, defs: map<string, PredicateDef>, live: set<string>,
                          scope: Scope, score: PredicateDef -> Scorer): seq<Belief>
    requires n <= |groups| && GroupsOk(groups)
  {
    if n == 0 then [] else
      BeliefsInScope(groups, n - 1, defs, live, scope, score) + GroupBeliefs(groups[n - 1], defs, live, scope, score)
  }

  function GroupBeliefs(group: seq<StatementEntry>, defs: map<string, PredicateDef>, live: set<string>,
                        scope: Scope, score: PredicateDef -> Scorer): seq<Belief>
    requires GroupOk(group)
  {
    if |group| > 0 && group[0].statement.predicateName in defs then
      var def := defs[group[0].statement.predicateName];
      Keep(LiveFold(def, group, live, scope.known, score(def)), InScope(scope))
    else []
  }

  ghost predicate Sourced(def: PredicateDef, input: seq<StatementEntry>, b: Belief, known: Timestamp) {
    var e := EntryOf(input, b.statement);
    e.Some? && ClaimFor(def, e.value, b, known).sources != []
  }

  lemma {:induction false} BeliefsCollected(def: PredicateDef, input: seq<StatementEntry>, beliefs: seq<Belief>, scope: Scope)
    requires forall b :: b in beliefs ==> Sourced(def, input, b, scope.known)
    ensures Map(ClaimsOfBeliefs(def, input, beliefs, scope), BeliefIn) == Keep(beliefs, InScope(scope))
  {
    if beliefs != [] {
      var front, b := beliefs[..|beliefs| - 1], beliefs[|beliefs| - 1];
      assert beliefs == front + [b];
      assert Sourced(def, input, b, scope.known);
      BeliefsCollected(def, input, front, scope);
      var before, own := LastContribution(def, input, beliefs, scope);
      MapConcat(before, own, BeliefIn);
      assert Map(own, BeliefIn) == if InScope(scope)(b) then [b] else [];
    }
  }

  lemma LiveBeliefSourced(def: PredicateDef, group: seq<StatementEntry>, live: set<string>, known: Timestamp, score: Scorer, b: Belief)
    requires GroupOk(group) && b in LiveFold(def, group, live, known, score)
    ensures Sourced(def, LiveGroup(group, live), b, known)
  {
    LiveGroupOk(group, live);
    var e := BeliefEntry(def, LiveGroup(group, live), known, score, b);
    EntryOfOnly(LiveGroup(group, live), e);
    SourcesExist(e, known);
  }

  /** One group's claims report exactly its beliefs in scope, once each, in fold order. */
  lemma GroupReports(group: seq<StatementEntry>, defs: map<string, PredicateDef>, live: set<string>,
                     scope: Scope, score: PredicateDef -> Scorer)
    requires GroupOk(group)
    ensures Map(GroupClaims(group, defs, live, scope, score), BeliefIn) == GroupBeliefs(group, defs, live, scope, score)
  {
    if group != [] && group[0].statement.predicateName in defs {
      var def := defs[group[0].statement.predicateName];
      var beliefs := LiveFold(def, group, live, scope.known, score(def));
      forall b | b in beliefs ensures Sourced(def, LiveGroup(group, live), b, scope.known) {
        LiveBeliefSourced(def, group, live, scope.known, score(def), b);
      }
      BeliefsCollected(def, LiveGroup(group, live), beliefs, scope);
    }
  }

  lemma AllReport(groups: Groups, n: nat, defs: map<string, PredicateDef>, live: set<string>,
                  scope: Scope, score: PredicateDef -> Scorer) returns (claims: seq<VisibleClaim>)
    requires n <= |groups| && GroupsOk(groups)
    ensures GroupsOk(groups[..n]) && claims == AllClaims(groups[..n], defs, live, scope, score)
    ensures Map(claims, BeliefIn) == BeliefsInScope(groups, n, defs, live, scope, score)
    decreases n
  {
    if n > 0 {
      var before := AllReport(groups, n - 1, defs, live, scope, score);
      var own := GroupClaims(groups[n - 1], defs, live, scope, score);
      GroupReports(groups[n - 1], defs, live, scope, score);
      MapConcat(before, own, BeliefIn);
      assert groups[..n][..n - 1] == groups[..n - 1];
      claims := before + own;
    } else {
      claims := [];
    }
  }

  /** Reads are exact: the claims returned report the beliefs in scope of all groups, as often as
      they occur, and nothing else. */
  lemma ClaimsExactly(groups: Groups, defs: map<string, PredicateDef>, live: set<string>,
                      scope: Scope, score: PredicateDef -> Scorer)
    requires GroupsOk(groups)
    ensures multiset(Map(ClaimsAt(groups, defs, live, scope, score), BeliefIn))
      == multiset(BeliefsInScope(groups, |groups|, defs, live, scope, score))
  {
    var claims := AllReport(groups, |groups|, defs, live, scope, score);
    assert groups[..|groups|] == groups;
    MapMultiset(ClaimsAt(groups, defs, live, scope, score), claims, BeliefIn);
  }

  // ---- In what order ----

  lemma ClaimOrderTotal()
    ensures TotalPreorder(ClaimIdOrder)
  {
    AtMostIsTotalOrder();
    IdOrderTotal(AtMost);
    assert forall a, b :: ClaimIdOrder(a, b) <==> IdOrder(AtMost, a, b);
  }

  ghost predicate IdOrder(le: (string, string) -> bool, a: VisibleClaim, b: VisibleClaim) { le(a.statement.id, b.statement.id) }

  lemma IdOrderTotal(le: (string, string) -> bool)
    requires TotalPreorder(le)
    ensures forall a, b :: IdOrder(le, a, b) || IdOrder(le, b, a)
    ensures forall a, b, c :: IdOrder(le, a, b) && IdOrder(le, b, c) ==> IdOrder(le, a, c)
  {
  }

  function AboutStatement(id: string): VisibleClaim -> bool { (c: VisibleClaim) => c.statement.id == id }

  /** Claims come in the order of their statement ids; those of one statement keep the order in
      which the groups and their folds give them. */
  lemma ClaimsOrdered(groups: Groups, defs: map<string, PredicateDef>, live: set<string>,
                      scope: Scope, score: PredicateDef -> Scorer, id: string)
    requires GroupsOk(groups)
    ensures var claims := ClaimsAt(groups, defs, live, scope, score);
      && (forall i, j :: 0 <= i < j < |claims| ==>
            claims[i].statement.id == claims[j].statement.id || Below(claims[i].statement.id, claims[j].statement.id))
      && Keep(claims, AboutStatement(id)) == Keep(AllClaims(groups, defs, live, scope, score), AboutStatement(id))
  {
    var all := AllClaims(groups, defs, live, scope, score);
    ClaimOrderTotal();
    SortSorts(all, ClaimIdOrder);
    SortKeeps(all, ClaimIdOrder, AboutStatement(id));
  }

  // ---- What each claim says ----

  function Counting(live: set<string>, known: Timestamp): Assertion -> bool {
    (a: Assertion) => a.episode in live && OnRecord(a, known)
  }

  function IdOf(a: Assertion): string { a.id }

  /** The claim is about entry `e` of a group under the group's definition: it carries the
      definition's profile flag, a belief of the group in scope, and the ids of the entry's live
      assertions on record, in stored order. */
  ghost predicate Says(group: seq<StatementEntry>, e: StatementEntry, defs: map<string, PredicateDef>, live: set<string>,
                       scope: Scope, score: PredicateDef -> Scorer, c: VisibleClaim)
  {
    && GroupOk(group) && e in group && group[0].statement.predicateName in defs
    && var def := defs[group[0].statement.predicateName];
       && c.profileRelevant == def.profileRelevant
       && c.belief in LiveFold(def, group, live, scope.known, score(def)) && InScope(scope)(c.belief)
       && c.statement == e.statement && c.belief.statement == e.statement.id
       && c.assertions == Map(Keep(e.assertions, Counting(live, scope.known)), IdOf)
  }

  lemma {:induction false} CountingListed(s: seq<Assertion>, live: set<string>, known: Timestamp)
    ensures VisibleOf(LiveOf(s, live), known) == Keep(s, Counting(live, known))
  {
    if s != [] {
      var front, a := s[..|s| - 1], s[|s| - 1];
      CountingListed(front, live, known);
      VisiblePush(LiveOf(front, live), a, known);
    }
  }

  lemma VisiblePush(s: seq<Assertion>, a: Assertion, known: Timestamp)
    ensures VisibleOf(s + [a], known) == VisibleOf(s, known) + if OnRecord(a, known) then [a] else []
    ensures s + [] == s
  {
    assert (s + [a])[..|s|] == s;
  }

  lemma IdsListed(s: seq<Assertion>)
    ensures AssertionIds(s) == Map(s, IdOf)
  {
  }

  lemma {:induction false} BeliefClaimSays(def: PredicateDef, input: seq<StatementEntry>, beliefs: seq<Belief>, scope: Scope, c: VisibleClaim)
    returns (e: StatementEntry, b: Belief)
    requires c in ClaimsOfBeliefs(def, input, beliefs, scope)
    ensures b in beliefs && InScope(scope)(b) && EntryOf(input, b.statement) == Some(e) && c == ClaimFor(def, e, b, scope.known)
  {
    var front, last := beliefs[..|beliefs| - 1], beliefs[|beliefs| - 1];
    assert beliefs == front + [last];
    var before, own := LastContribution(def, input, beliefs, scope);
    if c in before {
      e, b := BeliefClaimSays(def, input, front, scope, c);
    } else {
      e, b := EntryOf(input, last.statement).value, last;
    }
  }

  lemma GroupClaimSays(group: seq<StatementEntry>, defs: map<string, PredicateDef>, live: set<string>,
                       scope: Scope, score: PredicateDef -> Scorer, c: VisibleClaim) returns (e: StatementEntry)
    requires GroupOk(group) && c in GroupClaims(group, defs, live, scope, score)
    ensures Says(group, e, defs, live, scope, score, c)
  {
    var def, input := defs[group[0].statement.predicateName], LiveGroup(group, live);
    LiveGroupOk(group, live);
    var l, b := BeliefClaimSays(def, input, FoldGroup(def, input, scope.known, score(def)), scope, c);
    EntryOfFinds(input, b.statement);
    var i :| 0 <= i < |input| && input[i] == l;
    e := group[i];
    CountingListed(e.assertions, live, scope.known);
    IdsListed(VisibleOf(l.assertions, scope.known));
  }

  lemma {:induction false} ClaimInGroup(groups: Groups, defs: map<string, PredicateDef>, live: set<string>,
                                        scope: Scope, score: PredicateDef -> Scorer, c: VisibleClaim) returns (group: seq<StatementEntry>)
    requires GroupsOk(groups) && c in AllClaims(groups, defs, live, scope, score)
    ensures group in groups && GroupOk(group) && c in GroupClaims(group, defs, live, scope, score)
    decreases |groups|
  {
    var before, own := AllClaimsLast(groups, defs, live, scope, score);
    if c in own {
      group := groups[|groups| - 1];
    } else {
      group := ClaimInGroup(groups[..|groups| - 1], defs, live, scope, score, c);
    }
  }

  /** Every claim returned says what some group, its definition and one of its entries say. */
  lemma ClaimSays(groups: Groups, defs: map<string, PredicateDef>, live: set<string>,
                  scope: Scope, score: PredicateDef -> Scorer, c: VisibleClaim)
    returns (group: seq<StatementEntry>, e: StatementEntry)
    requires GroupsOk(groups) && c in ClaimsAt(groups, defs, live, scope, score)
    ensures group in groups && Says(group, e, defs, live, scope, score, c)
  {
    SortElements(AllClaims(groups, defs, live, scope, score), ClaimIdOrder);
    group := ClaimInGroup(groups, defs, live, scope, score, c);
    e := GroupClaimSays(group, defs, live, scope, score, c);
  }
}
