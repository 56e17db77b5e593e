/** The folded slices do not depend on how statements and assertions are listed. */
module FoldOrder {
  import opened Orders
  import opened Intervals
  import opened TemporalFold
  import opened FoldMeaning

  function Slices(beliefs: seq<Belief>): seq<Slice> {
    seq(|beliefs|, i requires 0 <= i < |beliefs| => SliceOf(beliefs[i]))
  }

  /** The same assertions of the same statements, in any order and multiplicity. */
  ghost predicate Listed(g: seq<StatementEntry>, h: seq<StatementEntry>) {
    forall e :: e in g ==> exists f :: f in h && Alike(e, f)
  }

  ghost predicate Alike(e: StatementEntry, f: StatementEntry) {
    e.statement.id == f.statement.id && forall a :: a in e.assertions <==> a in f.assertions
  }

  // ---- Timelines ----

  lemma ClaimedSameElements(s: seq<Assertion>, u: seq<Assertion>, p: Polarity)
    requires forall a :: a in s <==> a in u
    ensures forall iv :: iv in Claimed(s, p) <==> iv in Claimed(u, p)
  {
    ClaimedElements(s, p);
    ClaimedElements(u, p);
  }

  /** A timeline is determined by the set of visible assertions. */
  lemma AlikeTimelines(e: StatementEntry, f: StatementEntry, at: Timestamp)
    requires Alike(e, f) && AssertionsOk(e.assertions) && AssertionsOk(f.assertions)
    ensures View(e, at).affirm == View(f, at).affirm
    ensures VisibleOf(e.assertions, at) == [] <==> VisibleOf(f.assertions, at) == []
  {
    var s, u := VisibleOf(e.assertions, at), VisibleOf(f.assertions, at);
    VisibleOfElements(e.assertions, at);
    VisibleOfElements(f.assertions, at);
    assert forall a :: a in s <==> a in u;
    EmptyOrInhabited(s);
    EmptyOrInhabited(u);
    VisibleOfOk(e.assertions, at);
    VisibleOfOk(f.assertions, at);
    SameAffirmed(s, u);
  }

  lemma SameAffirmed(s: seq<Assertion>, u: seq<Assertion>)
    requires AssertionsOk(s) && AssertionsOk(u) && forall a :: a in s <==> a in u
    ensures Affirmed(s) == Affirmed(u)
  {
    TimelinePoints(s);
    TimelinePoints(u);
    ClaimedSameElements(s, u, Affirm);
    ClaimedSameElements(s, u, Deny);
    forall t
      ensures Covers(Affirmed(s), t) <==> Covers(Affirmed(u), t)
      ensures Links(Affirmed(s), t) <==> Links(Affirmed(u), t)
    {
      CoversByElements(Claimed(s, Affirm), Claimed(u, Affirm), t);
      CoversByElements(Claimed(s, Deny), Claimed(u, Deny), t);
    }
    CanonicalUnique(Affirmed(s), Affirmed(u));
  }

  lemma TimelinePoints(s: seq<Assertion>)
    requires AssertionsOk(s)
    ensures Canonical(Affirmed(s))
    ensures forall t :: Covers(Affirmed(s), t) <==> Covers(Claimed(s, Affirm), t) && !Covers(Claimed(s, Deny), t)
    ensures forall t :: Links(Affirmed(s), t) <==>
      Links(Claimed(s, Affirm), t) && forall d :: d in Claimed(s, Deny) ==> !d.Touches(t)
  {
    ClaimedValid(s, Affirm);
    ClaimedValid(s, Deny);
    MergeMeaning(Claimed(s, Affirm));
    ClipAllMeaning(Merge(Claimed(s, Affirm)), Claimed(s, Deny));
  }

  lemma ListedViews(g: seq<StatementEntry>, h: seq<StatementEntry>, at: Timestamp, vs: VisibleStmt)
    requires GroupOk(g) && GroupOk(h) && Listed(g, h)
    requires vs in VisibleGroup(g, at)
    ensures exists ws :: ws in VisibleGroup(h, at) && ws.id == vs.id && ws.affirm == vs.affirm
  {
    VisibleGroupElements(g, at);
    VisibleGroupElements(h, at);
    var e :| e in g && VisibleOf(e.assertions, at) != [] && vs == View(e, at);
    var f :| f in h && Alike(e, f);
    AlikeTimelines(e, f, at);
    assert View(f, at) in VisibleGroup(h, at);
  }

  lemma ListedClaims(g: seq<StatementEntry>, h: seq<StatementEntry>, at: Timestamp, c: Claim)
    requires GroupOk(g) && GroupOk(h) && Listed(g, h)
    requires c in ClaimsOf(VisibleGroup(g, at))
    ensures c in ClaimsOf(VisibleGroup(h, at))
  {
    var v, w := VisibleGroup(g, at), VisibleGroup(h, at);
    ClaimsOfElements(v);
    ClaimsOfElements(w);
    var i, j :| 0 <= i < |v| && 0 <= j < |v[i].affirm| && c == Claim(v[i].id, v[i].affirm[j]);
    assert v[i] in v;
    ListedViews(g, h, at, v[i]);
    var ws :| ws in w && ws.id == v[i].id && ws.affirm == v[i].affirm;
    var k :| 0 <= k < |w| && w[k] == ws;
    assert c == Claim(w[k].id, w[k].affirm[j]);
  }

  // ---- Sorted claims ----

  predicate ClaimBefore(a: Claim, b: Claim) {
    a.iv.start < b.iv.start || (a.iv.start == b.iv.start && Below(a.stmt, b.stmt))
  }

  lemma ClaimBeforeAsymmetric()
    ensures forall a, b :: ClaimBefore(a, b) ==> !ClaimBefore(b, a)
  {
    forall a, b | ClaimBefore(a, b) ensures !ClaimBefore(b, a) {
      BelowTrichotomy(a.stmt, b.stmt);
    }
  }

  lemma SortedClaimsStrict(all: seq<Claim>)
    requires ClaimsOk(all) && SortedBy(all, ClaimOrder)
    ensures StrictlySorted(all, ClaimBefore)
  {
    forall i, j | 0 <= i < j < |all| ensures ClaimBefore(all[i], all[j]) {
      assert ClaimOrder(all[i], all[j]);
      assert all[i].stmt == all[j].stmt ==> all[i].iv.end < all[j].iv.start;
    }
  }

  // ---- Sorted slices ----

  predicate SliceBefore(a: Slice, b: Slice) {
    Below(a.statement, b.statement) || (a.statement == b.statement && a.validFrom < b.validFrom)
  }

  lemma SliceBeforeAsymmetric()
    ensures forall a, b :: SliceBefore(a, b) ==> !SliceBefore(b, a)
  {
    forall a, b | SliceBefore(a, b) ensures !SliceBefore(b, a) {
      BelowTrichotomy(a.statement, b.statement);
    }
  }

  /** No two beliefs of the list share statement and start. */
  ghost predicate KeysDistinct(bs: seq<Belief>) {
    forall i, j :: 0 <= i < j < |bs| ==> bs[i].statement != bs[j].statement || bs[i].validFrom != bs[j].validFrom
  }

  lemma BeliefOrderTotal()
    ensures TotalPreorder(BeliefOrder)
  {
    AtMostIsTotalOrder();
    forall a, b ensures BeliefOrder(a, b) || BeliefOrder(b, a) {
      BelowTrichotomy(a.statement, b.statement);
    }
    forall a, b, c | BeliefOrder(a, b) && BeliefOrder(b, c) ensures BeliefOrder(a, c) {
      if a.statement != b.statement && b.statement != c.statement {
        BelowTransitive(a.statement, b.statement, c.statement);
      }
    }
  }

  lemma SortKeysDistinct(bs: seq<Belief>)
    requires KeysDistinct(bs)
    ensures KeysDistinct(Sort(bs, BeliefOrder))
  {
    var out := Sort(bs, BeliefOrder);
    forall i, j | 0 <= i < j < |out|
      ensures out[i].statement != out[j].statement || out[i].validFrom != out[j].validFrom
    {
      TwoOccurrences(out, i, j);
      var p, q := OccursTwice(bs, out[i], out[j]);
    }
  }

  /** The output list is strictly increasing in (statement, valid_from). */
  lemma SortedSlicesStrict(bs: seq<Belief>)
    requires KeysDistinct(bs)
    ensures StrictlySorted(Slices(Sort(bs, BeliefOrder)), SliceBefore)
  {
    var out := Sort(bs, BeliefOrder);
    BeliefOrderTotal();
    SortSorts(bs, BeliefOrder);
    SortKeysDistinct(bs);
    forall i, j | 0 <= i < j < |out| ensures SliceBefore(Slices(out)[i], Slices(out)[j]) {
      assert BeliefOrder(out[i], out[j]);
    }
  }

  lemma SlicesElements(bs: seq<Belief>, x: Slice)
    ensures x in Slices(Sort(bs, BeliefOrder)) <==> x in Slices(bs)
  {
    var out := Sort(bs, BeliefOrder);
    SortElements(bs, BeliefOrder);
    if x in Slices(out) {
      var i :| 0 <= i < |out| && Slices(out)[i] == x;
      assert out[i] in out && out[i] in bs;
      var j :| 0 <= j < |bs| && bs[j] == out[i];
      assert Slices(bs)[j] == x;
    }
    if x in Slices(bs) {
      var i :| 0 <= i < |bs| && Slices(bs)[i] == x;
      assert bs[i] in bs && bs[i] in out;
      var j :| 0 <= j < |out| && out[j] == bs[i];
      assert Slices(out)[j] == x;
    }
  }

  /** Lists with the same slices sort to the same slices. */
  lemma SortedSlicesAgree(a: seq<Belief>, b: seq<Belief>)
    requires KeysDistinct(a) && KeysDistinct(b)
    requires forall x :: x in Slices(a) <==> x in Slices(b)
    ensures Slices(Sort(a, BeliefOrder)) == Slices(Sort(b, BeliefOrder))
  {
    SortedSlicesStrict(a);
    SortedSlicesStrict(b);
    SliceBeforeAsymmetric();
    forall x ensures x in Slices(Sort(a, BeliefOrder)) <==> x in Slices(Sort(b, BeliefOrder)) {
      SlicesElements(a, x);
      SlicesElements(b, x);
    }
    StrictlySortedUnique(Slices(Sort(a, BeliefOrder)), Slices(Sort(b, BeliefOrder)), SliceBefore);
  }

  // ---- The three rules ----

  ghost predicate SameClaims(x: seq<Claim>, y: seq<Claim>) {
    forall c :: c in x <==> c in y
  }

  lemma ClaimKeysDistinct(group: seq<StatementEntry>, at: Timestamp)
    requires GroupOk(group)
    ensures var claims := ClaimsOf(VisibleGroup(group, at));
      forall i, j :: 0 <= i < j < |claims| ==>
        claims[i].stmt != claims[j].stmt || claims[i].iv.start != claims[j].iv.start
  {
    var visible := VisibleGroup(group, at);
    var claims := ClaimsOf(visible);
    VisibleGroupPrepared(group, at);
    ClaimsOfDistinct(visible);
    forall i, j | 0 <= i < j < |claims| ensures claims[i].stmt != claims[j].stmt || claims[i].iv.start != claims[j].iv.start {
      var a, b := claims[i], claims[j];
      ClaimKnown(visible, a);
      if a.stmt == b.stmt && a.iv.start <= b.iv.start { ClaimsDisjoint(visible, a, b); }
    }
  }

  lemma PlainKeys(def: PredicateDef, group: seq<StatementEntry>, at: Timestamp, rows: seq<Belief>)
    requires GroupOk(group)
    requires var claims := ClaimsOf(VisibleGroup(group, at));
      && |rows| == |claims|
      && forall k :: 0 <= k < |rows| ==> SliceOf(rows[k]) == ClaimSlice(claims[k], PlainStatus(def, claims, claims[k]))
    ensures KeysDistinct(rows)
    ensures forall x :: x in Slices(rows) <==>
      exists c :: c in ClaimsOf(VisibleGroup(group, at)) && x == ClaimSlice(c, PlainStatus(def, ClaimsOf(VisibleGroup(group, at)), c))
  {
    var claims := ClaimsOf(VisibleGroup(group, at));
    ClaimKeysDistinct(group, at);
    forall i, j | 0 <= i < j < |rows|
      ensures rows[i].statement != rows[j].statement || rows[i].validFrom != rows[j].validFrom
    {
      assert SliceOf(rows[i]).statement == claims[i].stmt && SliceOf(rows[j]).statement == claims[j].stmt;
      assert SliceOf(rows[i]).validFrom == claims[i].iv.start && SliceOf(rows[j]).validFrom == claims[j].iv.start;
    }
    forall c | c in claims ensures ClaimSlice(c, PlainStatus(def, claims, c)) in Slices(rows) {
      var k :| 0 <= k < |claims| && claims[k] == c;
      assert Slices(rows)[k] == ClaimSlice(c, PlainStatus(def, claims, c));
    }
    forall x | x in Slices(rows) ensures exists c :: c in claims && x == ClaimSlice(c, PlainStatus(def, claims, c)) {
      var k :| 0 <= k < |rows| && Slices(rows)[k] == x;
      assert claims[k] in claims;
    }
  }

  lemma SameStatus(def: PredicateDef, x: seq<Claim>, y: seq<Claim>, c: Claim)
    requires SameClaims(x, y)
    ensures PlainStatus(def, x, c) == PlainStatus(def, y, c)
  {
    assert Rivalled(x, c.stmt) ==> Rivalled(y, c.stmt);
    assert Rivalled(y, c.stmt) ==> Rivalled(x, c.stmt);
  }

  lemma PlainOrderFree(def: PredicateDef, g: seq<StatementEntry>, h: seq<StatementEntry>, at: Timestamp, score: Scorer)
    requires GroupOk(g) && GroupOk(h) && !Supersedes(def)
    requires SameClaims(ClaimsOf(VisibleGroup(g, at)), ClaimsOf(VisibleGroup(h, at)))
    ensures Slices(FoldGroup(def, g, at, score)) == Slices(FoldGroup(def, h, at, score))
  {
    var x, y := ClaimsOf(VisibleGroup(g, at)), ClaimsOf(VisibleGroup(h, at));
    var rows := PlainShape(def, g, at, score);
    var rows' := PlainShape(def, h, at, score);
    PlainKeys(def, g, at, rows);
    PlainKeys(def, h, at, rows');
    forall c ensures PlainStatus(def, x, c) == PlainStatus(def, y, c) { SameStatus(def, x, y, c); }
    SortedSlicesAgree(rows, rows');
  }

  /** Resolution reads statements and bounds only, never support. */
  lemma ResolveSlices(rows: seq<Belief>, rows': seq<Belief>)
    requires RowsOk(rows) && RowsOk(rows') && |rows| == |rows'|
    requires forall k :: 0 <= k < |rows| ==> SliceOf(rows[k]) == SliceOf(rows'[k])
    ensures Slices(Resolve(rows)) == Slices(Resolve(rows'))
  {
    forall k | 0 <= k < |rows| ensures SliceOf(Resolved(rows, k)) == SliceOf(Resolved(rows', k)) {
      SameNeighbours(rows, rows', k);
    }
  }

  lemma SameNeighbours(rows: seq<Belief>, rows': seq<Belief>, k: nat)
    requires k < |rows| == |rows'|
    requires forall i :: 0 <= i < |rows| ==> SliceOf(rows[i]) == SliceOf(rows'[i])
    ensures StatusAt(rows, k) == StatusAt(rows', k)
    ensures forall i :: 0 <= i < |rows| ==> rows[i].validFrom == rows'[i].validFrom && rows[i].validTo == rows'[i].validTo
  {
    assert forall i :: 0 <= i < |rows| ==> rows[i].statement == SliceOf(rows[i]).statement;
    assert forall i :: 0 <= i < |rows| ==> rows[i].validFrom == SliceOf(rows[i]).validFrom;
    assert forall i :: 0 <= i < |rows| ==> rows[i].validTo == SliceOf(rows[i]).validTo;
    assert Clash(rows, k) <==> Clash(rows', k);
    assert Clash(rows, k - 1) <==> Clash(rows', k - 1);
  }

  lemma ResolveKeys(rows: seq<Belief>)
    requires RowsOk(rows)
    ensures KeysDistinct(Resolve(rows))
  {
    forall i, j | 0 <= i < j < |rows|
      ensures Resolve(rows)[i].statement != Resolve(rows)[j].statement ||
              Resolve(rows)[i].validFrom != Resolve(rows)[j].validFrom
    {
      assert rows[i].statement == rows[j].statement ==> rows[i].validTo < rows[j].validFrom;
    }
  }

  lemma RowSlices(all: seq<Claim>, rows: seq<Belief>)
    requires RowsOk(rows) && |rows| == |all|
    requires forall k :: 0 <= k < |rows| ==>
      Claim(rows[k].statement, Interval(rows[k].validFrom, rows[k].validTo)) == all[k]
    ensures forall k :: 0 <= k < |rows| ==> SliceOf(rows[k]) == ClaimSlice(all[k], Active)
  {
    forall k | 0 <= k < |rows| ensures SliceOf(rows[k]) == ClaimSlice(all[k], Active) {
      assert Claim(rows[k].statement, Interval(rows[k].validFrom, rows[k].validTo)) == all[k];
      assert rows[k].status == Active;
    }
  }

  lemma SameSortedClaims(a: seq<Claim>, b: seq<Claim>)
    requires ClaimsOk(a) && SortedBy(a, ClaimOrder) && ClaimsOk(b) && SortedBy(b, ClaimOrder) && SameClaims(a, b)
    ensures a == b
  {
    SortedClaimsStrict(a);
    SortedClaimsStrict(b);
    ClaimBeforeAsymmetric();
    StrictlySortedUnique(a, b, ClaimBefore);
  }

  lemma SupersedeOrderFree(def: PredicateDef, g: seq<StatementEntry>, h: seq<StatementEntry>, at: Timestamp, score: Scorer)
    requires GroupOk(g) && GroupOk(h) && Supersedes(def)
    requires SameClaims(ClaimsOf(VisibleGroup(g, at)), ClaimsOf(VisibleGroup(h, at)))
    ensures Slices(FoldGroup(def, g, at, score)) == Slices(FoldGroup(def, h, at, score))
  {
    var all, rows := SupersedeShape(def, g, at, score);
    var all', rows' := SupersedeShape(def, h, at, score);
    SameSortedClaims(all, all');
    RowSlices(all, rows);
    RowSlices(all', rows');
    ResolveSlices(rows, rows');
    ResolveKeys(rows);
    ResolveKeys(rows');
    SortedSlicesAgree(Resolve(rows), Resolve(rows'));
  }

  /** The (statement, valid_from, valid_to, status) list of the fold is the same for every
      listing of the group's statements and of each statement's assertions. */
  lemma FoldOrderFree(def: PredicateDef, g: seq<StatementEntry>, h: seq<StatementEntry>, at: Timestamp, score: Scorer)
    requires GroupOk(g) && GroupOk(h) && Listed(g, h) && Listed(h, g)
    ensures Slices(FoldGroup(def, g, at, score)) == Slices(FoldGroup(def, h, at, score))
  {
    forall c ensures c in ClaimsOf(VisibleGroup(g, at)) <==> c in ClaimsOf(VisibleGroup(h, at)) {
      if c in ClaimsOf(VisibleGroup(g, at)) { ListedClaims(g, h, at, c); }
      if c in ClaimsOf(VisibleGroup(h, at)) { ListedClaims(h, g, at, c); }
    }
    if Supersedes(def) {
      SupersedeOrderFree(def, g, h, at, score);
    } else {
      PlainOrderFree(def, g, h, at, score);
    }
  }

  /** The output is strictly increasing in (statement, valid_from), for every rule. */
  lemma FoldSorted(def: PredicateDef, group: seq<StatementEntry>, at: Timestamp, score: Scorer)
    requires GroupOk(group)
    ensures StrictlySorted(Slices(FoldGroup(def, group, at, score)), SliceBefore)
  {
    if Supersedes(def) {
      var all, rows := SupersedeShape(def, group, at, score);
      ResolveKeys(rows);
      SortedSlicesStrict(Resolve(rows));
    } else {
      var rows := PlainShape(def, group, at, score);
      PlainKeys(def, group, at, rows);
      SortedSlicesStrict(rows);
    }
  }
}
