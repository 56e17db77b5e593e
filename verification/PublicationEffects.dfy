/** What each publication event does to the tables, row by row, and when it is refused. */
module PublicationEffects {
  import opened Orders
  import opened Closure
  import opened Publication
  import opened PublicationRuns

  // ---- Observations ----

  /** The `k`-th ancestor of `x` copies exactly the revision the source was seen to leave. */
  ghost predicate RetiredAt(views: map<string, Record>, x: string, origin: Identity, previous: string, k: nat) {
    && Ancestor(LineageOf(views), x, k).Some?
    && Ancestor(LineageOf(views), x, k).value in views
    && var r := views[Ancestor(LineageOf(views), x, k).value]; r.source == origin && r.revision == previous
  }

  /** The row or some ancestor copies that revision. */
  ghost predicate Retired(views: map<string, Record>, x: string, origin: Identity, previous: string) {
    exists k: nat :: RetiredAt(views, x, origin, previous, k)
  }

  /** Some row with the id copies the revision. */
  ghost predicate RowCopies(rows: seq<Record>, id: string, origin: Identity, previous: string) {
    exists i :: 0 <= i < |rows| && rows[i].id == id && rows[i].source == origin && rows[i].revision == previous
  }

  lemma {:induction false} AffectedExactly(rows: seq<Record>, origin: Identity, previous: string, observed: Option<string>, id: string)
    ensures id in Affected(rows, origin, previous, observed) <==> observed != Some(previous) && RowCopies(rows, id, origin, previous)
  {
    if rows != [] {
      var front := rows[..|rows| - 1];
      AffectedExactly(front, origin, previous, observed, id);
      assert forall i :: 0 <= i < |front| ==> front[i] == rows[i];
    }
  }

  lemma AffectedViews(views: map<string, Record>, origin: Identity, previous: string, observed: Option<string>, a: string)
    requires Keyed(views) && a in views
    ensures a in Members(Affected(InKeyOrder(views), origin, previous, observed)) <==>
      observed != Some(previous) && views[a].source == origin && views[a].revision == previous
  {
    RowsAreViews(views, a);
    AffectedExactly(InKeyOrder(views), origin, previous, observed, a);
  }

  lemma RetiredListed(d: Digests, t: Tables, origin: Identity, previous: string, observed: Option<string>, ids: seq<string>, x: string)
    requires Valid(d, t) && x in t.views
    requires ClosureOf(LinksOf(InKeyOrder(t.views)), Affected(InKeyOrder(t.views), origin, previous, observed)) == Ok(ids)
    ensures x in ids <==> observed != Some(previous) && Retired(t.views, x, origin, previous)
  {
    var initial := Affected(InKeyOrder(t.views), origin, previous, observed);
    ClosureDownClosed(t.views, initial);
    if x in ids {
      var k: nat :| ReachesAt(LineageOf(t.views), x, Members(initial), k);
      AncestorsAgree(d, t, x, k);
      AffectedViews(t.views, origin, previous, observed, Ancestor(LineageOf(t.views), x, k).value);
      assert RetiredAt(t.views, x, origin, previous, k);
    }
    forall k: nat | observed != Some(previous) && RetiredAt(t.views, x, origin, previous, k) ensures x in ids {
      AffectedViews(t.views, origin, previous, observed, Ancestor(LineageOf(t.views), x, k).value);
      assert ReachesAt(LineageOf(t.views), x, Members(initial), k);
    }
  }

  lemma ObservationPlan(d: Digests, t: Tables, declaration: string, space: string, origin: Option<Identity>, previous: string,
                        observed: Option<string>) returns (ids: seq<string>)
    requires Valid(d, t) && Project(d, t, declaration, space, SourceObserved(origin, previous, observed)).Ok?
    ensures origin.Some? && origin.value.Space() == Some(space)
    ensures ClosureOf(LinksOf(InKeyOrder(t.views)), Affected(InKeyOrder(t.views), origin.value, previous, observed)) == Ok(ids)
    ensures Project(d, t, declaration, space, SourceObserved(origin, previous, observed)).value == Tables(CloseRows(t.views, ids),
      if declaration in t.observations then t.observations
      else t.observations[declaration := Observation(origin.value, previous, observed)])
  {
    FetchAll(d, t);
    ids := PlanProjection(d, SourceObserved(origin, previous, observed), declaration, space, InKeyOrder(t.views), FetchObservations(t)).value.close;
  }

  /** An accepted observation closes exactly the copies of the revision the source has left and
      their descendants, and nothing when the revision is still the current one; it is recorded
      once under its declaration. */
  lemma ObservationCloses(d: Digests, t: Tables, declaration: string, space: string, origin: Option<Identity>, previous: string,
                          observed: Option<string>, x: string)
    requires Valid(d, t) && x in t.views
    requires Project(d, t, declaration, space, SourceObserved(origin, previous, observed)).Ok?
    ensures var t' := Project(d, t, declaration, space, SourceObserved(origin, previous, observed)).value;
      && origin.Some? && t'.views.Keys == t.views.Keys
      && t'.views[x] == (if observed != Some(previous) && Retired(t.views, x, origin.value, previous)
                         then t.views[x].(state := Closed, bytes := []) else t.views[x])
      && t'.observations == (if declaration in t.observations then t.observations
                             else t.observations[declaration := Observation(origin.value, previous, observed)])
  {
    var ids := ObservationPlan(d, t, declaration, space, origin, previous, observed);
    RetiredListed(d, t, origin.value, previous, observed, ids, x);
    CloseRowsMeaning(t.views, ids);
  }

  /** The tables are within the size bounds every projection checks first. */
  ghost predicate Fetchable(d: Digests, t: Tables) {
    && FetchRows(d, t).Ok? && |t.observations| <= 4096 && TotalBytes(InKeyOrder(t.views)) <= 8 * 1024 * 1024
  }

  lemma FetchedPlan(d: Digests, t: Tables, declaration: string, space: string, event: Event)
    returns (rows: seq<Record>, observations: seq<Observation>)
    requires Valid(d, t) && Fetchable(d, t)
    ensures rows == InKeyOrder(t.views) && |rows| <= 4096 && |observations| <= 4096 && observations == InKeyOrder(t.observations)
    ensures observations == FetchObservations(t) && FetchRows(d, t) == Ok(rows) && TotalBytes(rows) <= 8 * 1024 * 1024
  {
    FetchAll(d, t);
    InKeyOrderElements(t.views);
    InKeyOrderElements(t.observations);
    rows, observations := InKeyOrder(t.views), InKeyOrder(t.observations);
  }

  lemma ClosingDone(d: Digests, t: Tables, declaration: string, space: string, event: Event, initial: seq<string>)
    requires Valid(d, t) && FetchRows(d, t) == Ok(InKeyOrder(t.views)) && !event.Publish? && Members(initial) <= t.views.Keys
    requires PlanProjection(d, event, declaration, space, InKeyOrder(t.views), FetchObservations(t)) == Closing(InKeyOrder(t.views), initial)
    ensures Project(d, t, declaration, space, event).Ok?
  {
    ClosureSucceeds(d, t, initial);
  }

  lemma ObservationPlanned(d: Digests, declaration: string, space: string, origin: Option<Identity>, previous: string,
                           observed: Option<string>, rows: seq<Record>, observations: seq<Observation>)
    requires |rows| <= 4096 && |observations| <= 4096 && TotalBytes(rows) <= 8 * 1024 * 1024
    ensures PlanProjection(d, SourceObserved(origin, previous, observed), declaration, space, rows, observations) ==
      if origin.Some? && origin.value.Space() == Some(space) then Closing(rows, Affected(rows, origin.value, previous, observed))
      else Err(Unauthorized)
  {
  }

  /** An observation is refused exactly when its identity is not of the declaring space. */
  lemma ObservationRefused(d: Digests, t: Tables, declaration: string, space: string, origin: Option<Identity>, previous: string,
                           observed: Option<string>)
    requires Valid(d, t) && Fetchable(d, t)
    ensures var r := Project(d, t, declaration, space, SourceObserved(origin, previous, observed));
      if origin.Some? && origin.value.Space() == Some(space) then r.Ok? else r == Err(Unauthorized)
  {
    var event := SourceObserved(origin, previous, observed);
    var rows, observations := FetchedPlan(d, t, declaration, space, event);
    ObservationPlanned(d, declaration, space, origin, previous, observed, rows, observations);
    if origin.Some? && origin.value.Space() == Some(space) {
      AffectedKnown(t.views, origin.value, previous, observed);
      ClosingDone(d, t, declaration, space, event, Affected(rows, origin.value, previous, observed));
    }
  }

  lemma AffectedKnown(views: map<string, Record>, origin: Identity, previous: string, observed: Option<string>)
    requires Keyed(views)
    ensures Members(Affected(InKeyOrder(views), origin, previous, observed)) <= views.Keys
  {
    var rows := InKeyOrder(views);
    InKeyOrderElements(views);
    forall id | id in Members(Affected(rows, origin, previous, observed)) ensures id in views {
      AffectedExactly(rows, origin, previous, observed, id);
      var i :| 0 <= i < |rows| && rows[i].id == id && rows[i].source == origin && rows[i].revision == previous;
      assert rows[i] == views[Ascending(views.Keys)[i]];
    }
  }

  lemma WithdrawPlanned(d: Digests, declaration: string, space: string, destination: string, id: string,
                        rows: seq<Record>, observations: seq<Observation>)
    requires |rows| <= 4096 && |observations| <= 4096 && TotalBytes(rows) <= 8 * 1024 * 1024
    ensures PlanProjection(d, Withdraw(destination, id), declaration, space, rows, observations) ==
      if destination == space && exists i :: 0 <= i < |rows| && rows[i].id == id && rows[i].destination == destination
      then Closing(rows, [id]) else Err(Unauthorized)
  {
  }

  /** A withdrawal is refused exactly when it names no view of its own space. */
  lemma WithdrawRefused(d: Digests, t: Tables, declaration: string, space: string, destination: string, id: string)
    requires Valid(d, t) && Fetchable(d, t)
    ensures var r := Project(d, t, declaration, space, Withdraw(destination, id));
      if destination == space && id in t.views && t.views[id].destination == space then r.Ok? else r == Err(Unauthorized)
  {
    var rows, observations := FetchedPlan(d, t, declaration, space, Withdraw(destination, id));
    WithdrawPlanned(d, declaration, space, destination, id, rows, observations);
    NamedView(t.views, id, destination);
    if destination == space && id in t.views && t.views[id].destination == space {
      MembersOfOne(id);
      ClosingDone(d, t, declaration, space, Withdraw(destination, id), [id]);
    }
  }

  lemma NamedView(views: map<string, Record>, id: string, destination: string)
    requires Keyed(views)
    ensures (exists i :: 0 <= i < |InKeyOrder(views)| && InKeyOrder(views)[i].id == id && InKeyOrder(views)[i].destination == destination)
      <==> id in views && views[id].destination == destination
  {
    var rows := InKeyOrder(views);
    InKeyOrderElements(views);
    if id in views {
      RowsAreViews(views, id);
      var i :| 0 <= i < |rows| && rows[i] == views[id];
    }
    forall i | 0 <= i < |rows| && rows[i].id == id ensures id in views {
      assert rows[i] == views[Ascending(views.Keys)[i]];
    }
  }

  // ---- Publication ----

  /** Some recorded observation says the source has left the revision being published. */
  ghost predicate Outdated(t: Tables, origin: ViewOrigin) {
    exists k :: k in t.observations && t.observations[k].origin == origin.Identity()
      && t.observations[k].previous == origin.revision && t.observations[k].observed != Some(origin.revision)
  }

  /** A republished view must be Current, of the named space and revision. */
  ghost predicate ParentUsable(t: Tables, origin: ViewOrigin) {
    if origin.Published? then
      && origin.publicationId in t.views
      && t.views[origin.publicationId].destination == origin.space
      && t.views[origin.publicationId].viewRevision == origin.revision
      && t.views[origin.publicationId].state == Current
    else true
  }

  ghost predicate Admissible(t: Tables, request: Request, space: string) {
    request.origin.space == space && !Outdated(t, request.origin) && ParentUsable(t, request.origin)
  }

  /** The row a publication adds. */
  ghost function NewRow(d: Digests, t: Tables, request: Request, principal: string, declaration: string): Record
    requires ParentUsable(t, request.origin)
  {
    var origin := request.origin;
    Record(
      d.publicationId(request.destination, principal, request.occurrence), request.destination, principal,
      request.occurrence, d.request(request), origin.Identity(), origin.revision,
      if origin.Published? then Some(origin.publicationId) else None,
      if origin.Published? then t.views[origin.publicationId].family else d.family(origin.Identity()),
      request.digest, request.bytes, Current, declaration)
  }

  lemma OutdatedListed(t: Tables, origin: ViewOrigin)
    requires |t.observations| <= 4096
    ensures RevisionClosed(origin, InKeyOrder(t.observations)) <==> Outdated(t, origin)
  {
    var all := InKeyOrder(t.observations);
    InKeyOrderElements(t.observations);
    if RevisionClosed(origin, all) {
      var i :| 0 <= i < |all| && all[i].origin == origin.Identity() && all[i].previous == origin.revision
        && all[i].observed != Some(origin.revision);
      assert all[i] == t.observations[Ascending(t.observations.Keys)[i]];
    }
    if Outdated(t, origin) {
      var k :| k in t.observations && t.observations[k].origin == origin.Identity()
        && t.observations[k].previous == origin.revision && t.observations[k].observed != Some(origin.revision);
      var i :| 0 <= i < |t.observations| && Ascending(t.observations.Keys)[i] == k;
      assert all[i] == t.observations[k];
    }
  }

  lemma RecordPlanned(d: Digests, t: Tables, request: Request, principal: string, declaration: string, parent: Option<Record>)
    requires Keyed(t.views)
    requires parent == if request.origin.Published? then FindRow(InKeyOrder(t.views), request.origin.publicationId) else None
    ensures PlanRecord(d, request, principal, declaration, parent) ==
      if ParentUsable(t, request.origin) then Ok(NewRow(d, t, request, principal, declaration)) else Err(Unauthorized)
  {
    if request.origin.Published? {
      FindInViews(t.views, request.origin.publicationId);
    }
  }

  /** The new row fits the projection's size, the number of views and the lineage depth. */
  ghost predicate Fits(d: Digests, t: Tables, r: Record) {
    && TotalEncoded(d, InKeyOrder(t.views)) + d.encodedLength(r) <= 8 * 1024 * 1024
    && |t.views| < 4096 && LineageOk(LineageOf(t.views[r.id := r]))
  }

  lemma NothingClosed(links: seq<Link>)
    ensures CloseOver(links, Members([])) == {}
  {
    assert Members([]) == {};
    ClosureLeast(links, {}, {});
  }

  lemma FitsChecked(d: Digests, t: Tables, r: Record)
    requires Valid(d, t) && r.id !in t.views
    ensures Fits(d, t, r) <==> Measured(d, InKeyOrder(t.views), r)
  {
    var rows := InKeyOrder(t.views);
    InsertLineage(t.views, r);
    InKeyOrderElements(t.views);
    NothingClosed(LinksOf(rows + [r]));
    EmptyClosure(LinksOf(rows + [r]));
  }

  lemma EmptyClosure(links: seq<Link>)
    requires CloseOver(links, Members([])) == {}
    ensures ClosureOf(links, []).Ok? <==> |links| <= 4096 && LineageOk(ParentsOf(links))
  {
  }

  /** The two checks planning makes before it inserts. */
  ghost predicate Measured(d: Digests, rows: seq<Record>, r: Record) {
    TotalEncoded(d, rows) + d.encodedLength(r) <= 8 * 1024 * 1024 && ClosureOf(LinksOf(rows + [r]), []).Ok?
  }

  lemma PublishRefused(d: Digests, request: Request, principal: string, declaration: string, space: string,
                       rows: seq<Record>, observations: seq<Observation>)
    requires var parent := if request.origin.Published? then FindRow(rows, request.origin.publicationId) else None;
      request.origin.space != space || RevisionClosed(request.origin, observations)
      || PlanRecord(d, request, principal, declaration, parent) == Err(Unauthorized)
    ensures PlanPublish(d, request, principal, declaration, space, rows, observations) == Err(Unauthorized)
  {
  }

  lemma PublishPlans(d: Digests, request: Request, principal: string, declaration: string, space: string,
                     rows: seq<Record>, observations: seq<Observation>, r: Record, found: Option<Record>)
    requires request.origin.space == space && !RevisionClosed(request.origin, observations) && found == FindRow(rows, r.id)
    requires var parent := if request.origin.Published? then FindRow(rows, request.origin.publicationId) else None;
      PlanRecord(d, request, principal, declaration, parent) == Ok(r)
    ensures var planned := PlanPublish(d, request, principal, declaration, space, rows, observations);
      if found.Some? then planned == (if found.value.requestDigest == r.requestDigest then Ok(Plan(None, [])) else Err(Conflict))
      else if Measured(d, rows, r) then planned == Ok(Plan(Some(r), [])) else planned == Err(Budget) || planned == Err(Corruption)
  {
  }

  lemma PublishPlanned(d: Digests, t: Tables, request: Request, principal: string, declaration: string, space: string)
    returns (planned: Result<Plan>)
    requires Valid(d, t) && Fetchable(d, t)
    ensures planned == PlanPublish(d, request, principal, declaration, space, InKeyOrder(t.views), InKeyOrder(t.observations))
    ensures !Admissible(t, request, space) ==> planned == Err(Unauthorized)
    ensures Admissible(t, request, space) ==>
      var r := NewRow(d, t, request, principal, declaration);
      if r.id in t.views then planned == (if t.views[r.id].requestDigest == r.requestDigest then Ok(Plan(None, [])) else Err(Conflict))
      else if Fits(d, t, r) then planned == Ok(Plan(Some(r), [])) else planned == Err(Budget) || planned == Err(Corruption)
  {
    var rows, observations := InKeyOrder(t.views), InKeyOrder(t.observations);
    planned := PlanPublish(d, request, principal, declaration, space, rows, observations);
    OutdatedListed(t, request.origin);
    var parent := if request.origin.Published? then FindRow(rows, request.origin.publicationId) else None;
    RecordPlanned(d, t, request, principal, declaration, parent);
    if Admissible(t, request, space) {
      var r := NewRow(d, t, request, principal, declaration);
      FindInViews(t.views, r.id);
      if r.id !in t.views { FitsChecked(d, t, r); }
      PublishPlans(d, request, principal, declaration, space, rows, observations, r, FindRow(rows, r.id));
    } else {
      PublishRefused(d, request, principal, declaration, space, rows, observations);
    }
  }

  /** What publishing does: refused when not admissible; a conflict when the occurrence already
      holds another request; nothing when it holds this one; otherwise one new Current row with
      the request's bytes, digest and lineage, every other row and observation untouched, unless
      the row does not fit. */
  lemma PublishDecides(d: Digests, t: Tables, request: Request, principal: string, declaration: string, space: string)
    requires Valid(d, t) && Fetchable(d, t)
    ensures var done := Project(d, t, declaration, space, Publish(request, principal));
      if !Admissible(t, request, space) then done == Err(Unauthorized)
      else
        var r := NewRow(d, t, request, principal, declaration);
        if r.id in t.views then done == (if t.views[r.id].requestDigest == d.request(request) then Ok(t) else Err(Conflict))
        else if Fits(d, t, r) then done == Ok(Tables(t.views[r.id := r], t.observations))
        else done == Err(Budget) || done == Err(Corruption)
  {
    var rows, observations := FetchedPlan(d, t, declaration, space, Publish(request, principal));
    var planned := PublishPlanned(d, t, request, principal, declaration, space);
    if Admissible(t, request, space) {
      var r := NewRow(d, t, request, principal, declaration);
      if r.id !in t.views && Fits(d, t, r) {
        PlannedInsertable(d, t, request, principal, declaration, space);
        NeverCollides(d, t, r);
      }
    }
  }

  // ---- Identities ----

  /** Two origins name one source exactly when they agree on everything but the revision; a
      document with a uuid is named by that uuid alone. */
  lemma IdentityForgetsRevision(a: ViewOrigin, b: ViewOrigin)
    ensures a.Identity() == b.Identity() <==> SameSource(a, b)
  {
  }

  predicate SameSource(a: ViewOrigin, b: ViewOrigin) {
    && a.space == b.space
    && match (a, b)
       case (Episode(_, e, _), Episode(_, f, _)) => e == f
       case (Document(_, r, i, u, _), Document(_, s, j, v, _)) => u == v && (u.Some? || (r == s && i == j))
       case (Published(_, p, _), Published(_, q, _)) => p == q
       case _ => false
  }

  lemma IdentityKeepsSpace(a: ViewOrigin)
    ensures a.Identity().Space() == Some(a.space)
  {
  }

  // ---- Sizes ----

  lemma {:induction false} TotalsAdd(d: Digests, a: seq<Record>, b: seq<Record>)
    ensures TotalBytes(a + b) == TotalBytes(a) + TotalBytes(b)
    ensures TotalEncoded(d, a + b) == TotalEncoded(d, a) + TotalEncoded(d, b)
    decreases |b|
  {
    if b == [] {
      assert a + b == a;
    } else {
      assert (a + b)[..|a + b| - 1] == a + b[..|b| - 1];
      TotalsAdd(d, a, b[..|b| - 1]);
    }
  }

  lemma TotalsOfOne(d: Digests, r: Record)
    ensures TotalBytes([r]) == |r.bytes| && TotalEncoded(d, [r]) == d.encodedLength(r)
  {
    assert [r][..0] == [];
  }
}
