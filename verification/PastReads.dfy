/** What is on record at a time is all that a fold or a read at that time sees. */
module PastReads {
  import opened Orders
  import opened Intervals
  import opened TemporalFold
  import opened FoldMeaning
  import opened Growth
  import opened VisibleMemory

  /** The assertions on record at `at`. */
  function OnRecordOf(s: seq<Assertion>, at: Timestamp): seq<Assertion> {
    if s == [] then [] else
      OnRecordOf(s[..|s| - 1], at) + (if OnRecord(s[|s| - 1], at) then [s[|s| - 1]] else [])
  }

  function OnRecordEntry(e: StatementEntry, at: Timestamp): StatementEntry {
    StatementEntry(e.statement, OnRecordOf(e.assertions, at))
  }

  /** The group with every assertion retracted by `at`, or recorded after it, removed. */
  function OnRecordGroup(group: seq<StatementEntry>, at: Timestamp): seq<StatementEntry> {
    if group == [] then [] else OnRecordGroup(group[..|group| - 1], at) + [OnRecordEntry(group[|group| - 1], at)]
  }

  lemma {:induction false} PrunedEvolves(s: seq<Assertion>, at: Timestamp)
    ensures Evolved(OnRecordOf(s, at), s, at)
  {
    if s != [] {
      var front, a := s[..|s| - 1], s[|s| - 1];
      assert s == front + [a];
      PrunedEvolves(front, at);
      if OnRecord(a, at) {
        CarriedPush(OnRecordOf(front, at), front, a, a, AssertionKept(at), AssertionAdded(at));
      } else {
        JoinedPush(OnRecordOf(front, at), front, a, AssertionKept(at), AssertionAdded(at));
        assert OnRecordOf(s, at) == OnRecordOf(front, at);
      }
    }
  }

  lemma {:induction false} PrunedGroupEvolves(group: seq<StatementEntry>, at: Timestamp)
    ensures GroupEvolved(OnRecordGroup(group, at), group, at)
  {
    if group != [] {
      var front, e := group[..|group| - 1], group[|group| - 1];
      assert group == front + [e];
      PrunedGroupEvolves(front, at);
      PrunedEvolves(e.assertions, at);
      CarriedPush(OnRecordGroup(front, at), front, OnRecordEntry(e, at), e, EntryKept(at), EntryAdded(at));
    }
  }

  lemma {:induction false} OnRecordElements(s: seq<Assertion>, at: Timestamp)
    ensures forall a :: a in OnRecordOf(s, at) <==> a in s && OnRecord(a, at)
  {
    if s != [] {
      OnRecordElements(s[..|s| - 1], at);
      assert s == s[..|s| - 1] + [s[|s| - 1]];
    }
  }

  lemma {:induction false} OnRecordGroupAt(group: seq<StatementEntry>, at: Timestamp)
    ensures |OnRecordGroup(group, at)| == |group|
    ensures forall i :: 0 <= i < |group| ==> OnRecordGroup(group, at)[i] == OnRecordEntry(group[i], at)
  {
    if group != [] { OnRecordGroupAt(group[..|group| - 1], at); }
  }

  lemma OnRecordGroupOk(group: seq<StatementEntry>, at: Timestamp)
    requires GroupOk(group)
    ensures GroupOk(OnRecordGroup(group, at))
  {
    OnRecordGroupAt(group, at);
    forall i | 0 <= i < |group| ensures AssertionsOk(OnRecordOf(group[i].assertions, at)) {
      var kept := OnRecordOf(group[i].assertions, at);
      OnRecordElements(group[i].assertions, at);
      forall k | 0 <= k < |kept| ensures kept[k].claimedFrom <= kept[k].claimedTo { assert kept[k] in kept; }
    }
  }

  /** The fold at `at` is the fold of what is on record there: an assertion recorded later, or
      retracted at or before `at`, might as well not be listed. */
  lemma FoldOnRecord(def: PredicateDef, group: seq<StatementEntry>, at: Timestamp, score: Scorer)
    requires GroupOk(group)
    ensures GroupOk(OnRecordGroup(group, at))
    ensures FoldGroup(def, group, at, score) == FoldGroup(def, OnRecordGroup(group, at), at, score)
  {
    OnRecordGroupOk(group, at);
    PrunedGroupEvolves(group, at);
    FoldStable(def, OnRecordGroup(group, at), group, at, score);
  }

  lemma RetractedEvolves(s: seq<Assertion>, i: nat, when: Timestamp, known: Timestamp)
    requires i < |s| && s[i].retractedAt.None? && when <= known
    ensures Evolved(Without(s, i), s[i := s[i].(retractedAt := Some(when))], known)
  {
    var x := s[i].(retractedAt := Some(when));
    assert Inserted(Without(s, i), i, x) == s[i := x];
    GrowsInsert(Without(s, i), i, x, AssertionKept(known), AssertionAdded(known));
  }

  lemma ReplacedEvolves(gs: Groups, g: nat, e: nat, a: seq<Assertion>, b: seq<Assertion>, known: Timestamp)
    requires g < |gs| && e < |gs[g]| && Evolved(a, b, known)
    ensures GroupsEvolved(WithEntry(gs, g, e, a), WithEntry(gs, g, e, b), known)
  {
    var without := WithEntry(gs, g, e, a);
    EntryReplaced(without, g, e, b, known);
    var x := StatementEntry(gs[g][e].statement, b);
    assert without[g][e := x] == gs[g][e := x];
    assert without[g := gs[g][e := x]] == gs[g := gs[g][e := x]];
  }

  lemma WithEntryOk(gs: Groups, g: nat, e: nat, listed: seq<Assertion>)
    requires GroupsOk(gs) && AllUniform(gs) && g < |gs| && e < |gs[g]| && AssertionsOk(listed)
    ensures GroupsOk(WithEntry(gs, g, e, listed)) && AllUniform(WithEntry(gs, g, e, listed))
  {
    var after := WithEntry(gs, g, e, listed);
    assert GroupOk(gs[g]) && gs[g] in gs;
    forall x: StatementEntry | x in after[g] ensures exists y: StatementEntry :: y in gs[g] && y.statement == x.statement {
      var k :| 0 <= k < |after[g]| && after[g][k] == x;
      assert gs[g][k].statement == x.statement;
    }
    forall h | h in after ensures Uniform(h) {
      var k :| 0 <= k < |after| && after[k] == h;
      assert k != g ==> h in gs;
    }
  }

  /** A retraction takes effect at its own time: every read from then on is the read of the
      ledger without that row. */
  lemma RetractionErases(gs: Groups, g: nat, e: nat, i: nat, when: Timestamp, defs: map<string, PredicateDef>,
                         live: set<string>, scope: Scope, score: PredicateDef -> Scorer)
    requires GroupsOk(gs) && AllUniform(gs) && g < |gs| && e < |gs[g]| && i < |gs[g][e].assertions|
    requires gs[g][e].assertions[i].retractedAt.None? && when <= scope.known
    ensures var after, without := Append(gs, Retract(g, e, i, when)), WithEntry(gs, g, e, Without(gs[g][e].assertions, i));
      GroupsOk(after) && GroupsOk(without) && ClaimsAt(after, defs, live, scope, score) == ClaimsAt(without, defs, live, scope, score)
  {
    var listed := gs[g][e].assertions;
    var retracted := listed[i := listed[i].(retractedAt := Some(when))];
    assert GroupOk(gs[g]) && AssertionsOk(listed);
    assert AssertionsOk(retracted) && AssertionsOk(Without(listed, i));
    WithEntryOk(gs, g, e, retracted);
    WithEntryOk(gs, g, e, Without(listed, i));
    RetractedEvolves(listed, i, when, scope.known);
    ReplacedEvolves(gs, g, e, Without(listed, i), retracted, scope.known);
    AllClaimsStable(WithEntry(gs, g, e, Without(listed, i)), WithEntry(gs, g, e, retracted), defs, live, scope, score);
  }
}
