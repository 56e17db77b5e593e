/** What every run of publication events keeps. */
module PublicationRuns {
  import opened Orders
  import opened Closure
  import opened Publication

  // ---- Views as rows ----

  function LineageOf(views: map<string, Record>): Lineage {
    map id | id in views :: views[id].parent
  }

  ghost predicate Keyed(views: map<string, Record>) {
    forall id :: id in views ==> views[id].id == id
  }

  lemma InKeyOrderElements<T>(m: map<string, T>)
    ensures |InKeyOrder(m)| == |m|
    ensures forall i :: 0 <= i < |m| ==> Ascending(m.Keys)[i] in m && InKeyOrder(m)[i] == m[Ascending(m.Keys)[i]]
    ensures forall k :: k in m ==> exists i :: 0 <= i < |m| && Ascending(m.Keys)[i] == k
  {
    var keys := Ascending(m.Keys);
    assert |m| == |m.Keys|;
    forall i | 0 <= i < |m| ensures keys[i] in m { assert keys[i] in keys; }
    forall k | k in m ensures exists i :: 0 <= i < |m| && keys[i] == k { assert k in keys; }
  }

  /** The links of keyed views, by rising id. */
  lemma RowLinks(views: map<string, Record>) returns (links: seq<Link>, keys: seq<string>)
    requires Keyed(views)
    ensures links == LinksOf(InKeyOrder(views)) && |links| == |views| == |keys|
    ensures StrictlySorted(keys, Below) && (forall k :: k in keys <==> k in views)
    ensures forall i :: 0 <= i < |keys| ==> keys[i] in views && links[i] == LinkOf(views[keys[i]]) && links[i].id == keys[i]
  {
    links, keys := LinksOf(InKeyOrder(views)), Ascending(views.Keys);
    InKeyOrderElements(views);
    AscendingStrict(views.Keys);
    assert |views| == |views.Keys|;
  }

  lemma SortedIdsDistinct(links: seq<Link>, keys: seq<string>)
    requires |links| == |keys| && StrictlySorted(keys, Below) && forall i :: 0 <= i < |keys| ==> links[i].id == keys[i]
    ensures DistinctIds(links)
  {
    forall i, j | 0 <= i < j < |links| ensures links[i].id != links[j].id {
      assert Below(keys[i], keys[j]);
      BelowTrichotomy(keys[i], keys[j]);
    }
  }

  /** Each view has its link among the rows, and each row links a view. */
  ghost predicate Links(views: map<string, Record>, links: seq<Link>) {
    && |links| == |views| && DistinctIds(links) && IdsOf(links) == views.Keys && ParentsOf(links) == LineageOf(views)
    && (forall id {:trigger Linked(views, links, id)} :: id in views ==> Linked(views, links, id))
  }

  ghost predicate Linked(views: map<string, Record>, links: seq<Link>, id: string)
    requires id in views
  {
    exists i :: 0 <= i < |links| && links[i] == LinkOf(views[id])
  }

  /** The links carry the ids of the views, one by one. */
  ghost predicate LinksAt(views: map<string, Record>, links: seq<Link>, keys: seq<string>, i: nat)
    requires i < |links| == |keys|
  {
    keys[i] in views && links[i] == LinkOf(views[keys[i]]) && links[i].id == keys[i]
  }

  lemma KeyLinked(views: map<string, Record>, links: seq<Link>, keys: seq<string>, id: string)
    requires |links| == |keys| && id in keys && id in views && forall i :: 0 <= i < |keys| ==> LinksAt(views, links, keys, i)
    ensures Linked(views, links, id) && id in IdsOf(links)
  {
    var i :| 0 <= i < |keys| && keys[i] == id;
    assert LinksAt(views, links, keys, i);
  }

  lemma KeyedIds(views: map<string, Record>, links: seq<Link>, keys: seq<string>)
    requires |links| == |keys| && (forall k :: k in keys <==> k in views)
    requires forall i :: 0 <= i < |keys| ==> LinksAt(views, links, keys, i)
    ensures IdsOf(links) == views.Keys
    ensures forall id {:trigger Linked(views, links, id)} :: id in views ==> Linked(views, links, id)
  {
    forall id | id in views ensures Linked(views, links, id) && id in IdsOf(links) { KeyLinked(views, links, keys, id); }
    forall id | id in IdsOf(links) ensures id in views {
      var i :| 0 <= i < |links| && links[i].id == id;
      assert LinksAt(views, links, keys, i);
    }
  }

  /** The rows fetched from keyed views have distinct ids, and their lineage is the views'. */
  lemma RowsOfViews(views: map<string, Record>)
    requires Keyed(views)
    ensures Links(views, LinksOf(InKeyOrder(views)))
  {
    var links, keys := RowLinks(views);
    SortedIdsDistinct(links, keys);
    assert forall i :: 0 <= i < |keys| ==> LinksAt(views, links, keys, i);
    KeyedIds(views, links, keys);
    ParentsOfRows(links);
    LineageByRows(views, links);
  }

  lemma LineageByRows(views: map<string, Record>, links: seq<Link>)
    requires ParentsOf(links).Keys == views.Keys
    requires forall i :: 0 <= i < |links| ==> links[i].id in ParentsOf(links) && ParentsOf(links)[links[i].id] == links[i].parent
    requires forall id {:trigger Linked(views, links, id)} :: id in views ==> Linked(views, links, id)
    requires Keyed(views)
    ensures ParentsOf(links) == LineageOf(views)
  {
    forall id | id in views ensures ParentsOf(links)[id] == views[id].parent {
      assert Linked(views, links, id);
      var i :| 0 <= i < |links| && links[i] == LinkOf(views[id]);
    }
  }

  lemma {:induction false} FindRowFinds(rows: seq<Record>, id: string)
    ensures FindRow(rows, id).Some? ==> FindRow(rows, id).value in rows && FindRow(rows, id).value.id == id
    ensures FindRow(rows, id).None? ==> forall i :: 0 <= i < |rows| ==> rows[i].id != id
  {
    if rows != [] && rows[0].id != id {
      FindRowFinds(rows[1..], id);
      assert forall i :: 0 < i < |rows| ==> rows[i] == rows[1..][i - 1];
    }
  }

  lemma FindInViews(views: map<string, Record>, id: string)
    requires Keyed(views)
    ensures FindRow(InKeyOrder(views), id) == if id in views then Some(views[id]) else None
  {
    var rows, keys := InKeyOrder(views), Ascending(views.Keys);
    InKeyOrderElements(views);
    FindRowFinds(rows, id);
    var found := FindRow(rows, id);
    if found.Some? {
      var i :| 0 <= i < |rows| && rows[i] == found.value;
      assert keys[i] == id;
    } else {
      assert forall i :: 0 <= i < |rows| ==> keys[i] != id;
    }
  }

  // ---- The invariant ----

  /** A row carries its parent's family; a row without parent, its source's. */
  ghost predicate FamilyAt(d: Digests, views: map<string, Record>, id: string)
    requires id in views
  {
    match views[id].parent
    case None => views[id].family == d.family(views[id].source)
    case Some(p) => p in views && views[id].family == views[p].family
  }

  ghost predicate FamilyOk(d: Digests, views: map<string, Record>) {
    forall id {:trigger FamilyAt(d, views, id)} :: id in views ==> FamilyAt(d, views, id)
  }

  /** The parent of a Current row is Current; any other row has lost its bytes. */
  ghost predicate CurrentAt(views: map<string, Record>, id: string)
    requires id in views
  {
    if views[id].state == Current
    then views[id].parent.Some? ==> views[id].parent.value in views && views[views[id].parent.value].state == Current
    else views[id].bytes == []
  }

  ghost predicate CurrentOk(views: map<string, Record>) {
    forall id {:trigger CurrentAt(views, id)} :: id in views ==> CurrentAt(views, id)
  }

  /** The observation reports that the source left the revision. */
  predicate Changed(o: Observation) { o.observed != Some(o.previous) }

  predicate Retires(o: Observation, r: Record) { Changed(o) && Copies(r, o) }

  predicate Copies(r: Record, o: Observation) { r.source == o.origin && r.revision == o.previous }

  ghost predicate NoStaleCurrent(t: Tables) {
    forall k, id :: k in t.observations && id in t.views && Retires(t.observations[k], t.views[id]) ==>
      t.views[id].state != Current
  }

  /** The id is the digest of the row's destination, principal and occurrence. */
  ghost predicate Named(d: Digests, views: map<string, Record>, id: string)
    requires id in views
  {
    id == d.publicationId(views[id].destination, views[id].principal, views[id].occurrence)
  }

  ghost predicate AllNamed(d: Digests, views: map<string, Record>) {
    forall id {:trigger Named(d, views, id)} :: id in views ==> Named(d, views, id)
  }

  ghost predicate Valid(d: Digests, t: Tables) {
    && Keyed(t.views)
    && AllNamed(d, t.views)
    && |t.views| <= MAX_CLOSURE_VIEWS
    && LineageOk(LineageOf(t.views))
    && FamilyOk(d, t.views) && CurrentOk(t.views) && NoStaleCurrent(t)
  }

  // ---- Consequences of the invariant ----

  /** Every ancestor of a row exists and has the row's family; if the row is Current, so is
      the ancestor. */
  lemma {:induction false} AncestorsAgree(d: Digests, t: Tables, id: string, k: nat)
    requires Valid(d, t) && id in t.views && Ancestor(LineageOf(t.views), id, k).Some?
    ensures var a := Ancestor(LineageOf(t.views), id, k).value;
      && a in t.views && t.views[a].family == t.views[id].family
      && (t.views[id].state == Current ==> t.views[a].state == Current)
    decreases k
  {
    if k > 0 {
      AncestorsAgree(d, t, id, k - 1);
      var b := Ancestor(LineageOf(t.views), id, k - 1).value;
      assert FamilyAt(d, t.views, b) && CurrentAt(t.views, b);
    }
  }

  /** Each row's family is that of the original source at the end of its parent chain,
      which has at most 64 nodes. */
  lemma {:induction false} FamilyOfRoot(d: Digests, t: Tables, id: string, k: nat) returns (depth: nat, root: string)
    requires Valid(d, t) && id in t.views && k <= MAX_LINEAGE_DEPTH && Ancestor(LineageOf(t.views), id, k).Some?
    ensures k <= depth < MAX_LINEAGE_DEPTH && Ancestor(LineageOf(t.views), id, depth) == Some(root)
    ensures root in t.views && t.views[root].parent.None? && t.views[id].family == d.family(t.views[root].source)
    decreases MAX_LINEAGE_DEPTH - k
  {
    var parents := LineageOf(t.views);
    assert id in parents && Bounded(parents, id);
    if k == MAX_LINEAGE_DEPTH { BoundedEnds(parents, id, k); }
    AncestorsAgree(d, t, id, k);
    var a := Ancestor(parents, id, k).value;
    FamilyAtRoot(d, t, a);
    if t.views[a].parent.None? {
      depth, root := k, a;
    } else {
      NextAncestor(t.views, id, k);
      depth, root := FamilyOfRoot(d, t, id, k + 1);
    }
  }

  lemma FamilyAtRoot(d: Digests, t: Tables, a: string)
    requires Valid(d, t) && a in t.views
    ensures t.views[a].parent.None? ==> t.views[a].family == d.family(t.views[a].source)
  {
    assert FamilyAt(d, t.views, a);
  }

  lemma NextAncestor(views: map<string, Record>, id: string, k: nat)
    requires Ancestor(LineageOf(views), id, k).Some? && Ancestor(LineageOf(views), id, k).value in views
    ensures Ancestor(LineageOf(views), id, k + 1) == views[Ancestor(LineageOf(views), id, k).value].parent
  {
  }

  lemma LinksClose(links: seq<Link>, ids: set<string>, initial: seq<string>)
    requires |links| <= MAX_CLOSURE_VIEWS && LineageOk(ParentsOf(links)) && IdsOf(links) == ids
    requires Members(initial) <= ids && |ids| <= MAX_CLOSURE_VIEWS
    ensures ClosureOf(links, initial).Ok?
  {
    var closed := CloseOver(links, Members(initial));
    ClosureLeast(links, Members(initial), closed);
    SizeGrows(closed, ids);
  }

  /** Closing never fails on lineage or size: withdrawal always reaches every copy. */
  lemma ClosureSucceeds(d: Digests, t: Tables, initial: seq<string>)
    requires Valid(d, t) && Members(initial) <= t.views.Keys
    ensures var links := LinksOf(InKeyOrder(t.views)); ClosureOf(links, initial).Ok?
  {
    RowsOfViews(t.views);
    assert |t.views.Keys| == |t.views|;
    LinksClose(LinksOf(InKeyOrder(t.views)), t.views.Keys, initial);
  }

  // ---- Closing rows ----

  lemma {:induction false} CloseRowsMeaning(views: map<string, Record>, ids: seq<string>)
    ensures CloseRows(views, ids).Keys == views.Keys
    ensures forall id :: id in views ==>
      CloseRows(views, ids)[id] == if id in ids then CloseRow(views[id]) else views[id]
  {
    if ids != [] {
      CloseRowsMeaning(views, ids[..|ids| - 1]);
      assert ids == ids[..|ids| - 1] + [ids[|ids| - 1]];
    }
  }

  /** A set of ids that contains the children of its members. */
  ghost predicate DownClosed(views: map<string, Record>, ids: seq<string>) {
    forall id :: id in views && views[id].parent.Some? && views[id].parent.value in ids ==> id in ids
  }

  lemma LinksDownClosed(views: map<string, Record>, links: seq<Link>, selected: set<string>)
    requires Links(views, links) && Keyed(views)
    ensures var closed := CloseOver(links, selected);
      && selected <= closed
      && (forall id :: id in views && views[id].parent.Some? && views[id].parent.value in closed ==> id in closed)
      && (forall x :: x in closed <==> Descends(LineageOf(views), x, selected))
  {
    var closed := CloseOver(links, selected);
    ClosureLeast(links, selected, closed);
    forall id | id in views && views[id].parent.Some? && views[id].parent.value in closed ensures id in closed {
      assert Linked(views, links, id);
      var i :| 0 <= i < |links| && links[i] == LinkOf(views[id]);
    }
    forall x ensures x in closed <==> Descends(LineageOf(views), x, selected) {
      ClosureIsDescendants(links, selected, x);
    }
  }

  lemma ClosureListed(links: seq<Link>, initial: seq<string>) returns (ids: seq<string>)
    requires ClosureOf(links, initial).Ok?
    ensures ids == ClosureOf(links, initial).value
    ensures forall x :: x in ids <==> x in CloseOver(links, Members(initial))
  {
    ids := ClosureOf(links, initial).value;
  }

  lemma ClosureDownClosed(views: map<string, Record>, initial: seq<string>)
    requires Keyed(views)
    requires ClosureOf(LinksOf(InKeyOrder(views)), initial).Ok?
    ensures var ids := ClosureOf(LinksOf(InKeyOrder(views)), initial).value;
      && DownClosed(views, ids)
      && (forall x :: x in initial ==> x in ids)
      && (forall x :: x in ids <==> Descends(LineageOf(views), x, Members(initial)))
  {
    var links := LinksOf(InKeyOrder(views));
    RowsOfViews(views);
    LinksDownClosed(views, links, Members(initial));
    var ids := ClosureListed(links, initial);
    forall x | x in initial ensures x in ids { assert x in Members(initial); }
  }

  lemma CloseKeepsLineage(views: map<string, Record>, ids: seq<string>)
    ensures LineageOf(CloseRows(views, ids)) == LineageOf(views)
  {
    CloseRowsMeaning(views, ids);
  }

  lemma CloseKeepsFamilies(d: Digests, views: map<string, Record>, ids: seq<string>)
    requires FamilyOk(d, views)
    ensures FamilyOk(d, CloseRows(views, ids))
  {
    CloseRowsMeaning(views, ids);
    var after := CloseRows(views, ids);
    forall id | id in after ensures FamilyAt(d, after, id) {
      assert FamilyAt(d, views, id);
      assert after[id].parent == views[id].parent && after[id].family == views[id].family && after[id].source == views[id].source;
      if after[id].parent.Some? {
        var p := after[id].parent.value;
        assert after[p].family == views[p].family;
      }
    }
  }

  lemma CloseKeepsCurrent(views: map<string, Record>, ids: seq<string>)
    requires CurrentOk(views) && DownClosed(views, ids)
    ensures CurrentOk(CloseRows(views, ids))
  {
    CloseRowsMeaning(views, ids);
    forall id | id in views ensures CurrentAt(CloseRows(views, ids), id) {
      assert CurrentAt(views, id);
    }
  }

  lemma CloseKeepsNames(d: Digests, views: map<string, Record>, ids: seq<string>)
    requires AllNamed(d, views)
    ensures AllNamed(d, CloseRows(views, ids))
  {
    CloseRowsMeaning(views, ids);
    var after := CloseRows(views, ids);
    forall id | id in after ensures Named(d, after, id) {
      assert Named(d, views, id);
    }
  }

  lemma CloseKeepsValid(d: Digests, t: Tables, ids: seq<string>)
    requires Valid(d, t) && DownClosed(t.views, ids)
    ensures Valid(d, Tables(CloseRows(t.views, ids), t.observations))
  {
    CloseRowsMeaning(t.views, ids);
    CloseKeepsLineage(t.views, ids);
    CloseKeepsFamilies(d, t.views, ids);
    CloseKeepsCurrent(t.views, ids);
    CloseKeepsNames(d, t.views, ids);
    assert |CloseRows(t.views, ids)| == |CloseRows(t.views, ids).Keys| == |t.views.Keys|;
  }

  /** Recording an observation keeps the invariant once every Current copy of the revision
      it retires is closed. */
  lemma ObserveKeepsValid(d: Digests, t: Tables, key: string, o: Observation)
    requires Valid(d, t) && key !in t.observations
    requires forall id :: id in t.views && Retires(o, t.views[id]) ==> t.views[id].state != Current
    ensures Valid(d, Tables(t.views, t.observations[key := o]))
  {
  }

  // ---- Inserting a row ----

  lemma ParentsAppend(links: seq<Link>, l: Link)
    ensures ParentsOf(links + [l]) == ParentsOf(links)[l.id := l.parent]
  {
    assert (links + [l])[..|links|] == links;
  }

  lemma InsertLineage(views: map<string, Record>, r: Record)
    requires Keyed(views) && r.id !in views
    ensures ParentsOf(LinksOf(InKeyOrder(views) + [r])) == LineageOf(views[r.id := r])
  {
    RowsOfViews(views);
    LinksAppend(InKeyOrder(views), r);
    ParentsAppend(LinksOf(InKeyOrder(views)), LinkOf(r));
    LineageInsert(views, r);
  }

  lemma LinksAppend(rows: seq<Record>, r: Record)
    ensures LinksOf(rows + [r]) == LinksOf(rows) + [LinkOf(r)]
  {
  }

  lemma LineageInsert(views: map<string, Record>, r: Record)
    ensures LineageOf(views)[r.id := r.parent] == LineageOf(views[r.id := r])
  {
  }

  /** What a planned record is known to satisfy. */
  ghost predicate Insertable(d: Digests, t: Tables, r: Record) {
    && r.id !in t.views && r.state == Current
    && r.id == d.publicationId(r.destination, r.principal, r.occurrence)
    && (match r.parent
        case None => r.family == d.family(r.source)
        case Some(p) => p in t.views && t.views[p].state == Current && r.family == t.views[p].family)
    && |t.views| < MAX_CLOSURE_VIEWS
    && LineageOk(LineageOf(t.views[r.id := r]))
    && (forall k :: k in t.observations && Changed(t.observations[k]) ==> !Copies(r, t.observations[k]))
  }

  lemma InsertKeepsRows(d: Digests, t: Tables, r: Record)
    requires Valid(d, t) && Insertable(d, t, r)
    ensures FamilyOk(d, t.views[r.id := r]) && CurrentOk(t.views[r.id := r])
  {
    var after := t.views[r.id := r];
    forall id | id in after ensures FamilyAt(d, after, id) && CurrentAt(after, id) {
      if id != r.id {
        assert FamilyAt(d, t.views, id) && CurrentAt(t.views, id);
      }
    }
  }

  lemma InsertKeepsFresh(d: Digests, t: Tables, r: Record)
    requires NoStaleCurrent(t) && Insertable(d, t, r)
    ensures NoStaleCurrent(Tables(t.views[r.id := r], t.observations))
  {
    var after := t.views[r.id := r];
    forall k, id | k in t.observations && id in after && Retires(t.observations[k], after[id]) ensures after[id].state != Current {
      assert id != r.id ==> after[id] == t.views[id];
    }
  }

  lemma InsertKeepsNames(d: Digests, views: map<string, Record>, r: Record)
    requires Keyed(views) && AllNamed(d, views) && r.id == d.publicationId(r.destination, r.principal, r.occurrence)
    ensures Keyed(views[r.id := r]) && AllNamed(d, views[r.id := r])
  {
    var after := views[r.id := r];
    forall id | id in after ensures Named(d, after, id) {
      assert id != r.id ==> Named(d, views, id);
    }
  }

  lemma InsertKeepsValid(d: Digests, t: Tables, r: Record)
    requires Valid(d, t) && Insertable(d, t, r)
    ensures Valid(d, Tables(t.views[r.id := r], t.observations))
  {
    InsertKeepsRows(d, t, r);
    InsertKeepsFresh(d, t, r);
    InsertSize(t.views, r.id, r);
    InsertKeepsNames(d, t.views, r);
  }

  lemma ObservationListed(t: Tables, k: string)
    requires k in t.observations && |InKeyOrder(t.observations)| <= MAX_CLOSURE_VIEWS
    ensures exists i :: 0 <= i < |FetchObservations(t)| && FetchObservations(t)[i] == t.observations[k]
  {
    InKeyOrderElements(t.observations);
    var i :| 0 <= i < |t.observations| && Ascending(t.observations.Keys)[i] == k;
    assert FetchObservations(t)[i] == t.observations[k];
  }

  lemma PlannedParent(d: Digests, t: Tables, request: Request, principal: string, declaration: string, parent: Option<Record>)
    requires Valid(d, t)
    requires request.origin.Published? ==> parent == FindRow(InKeyOrder(t.views), request.origin.publicationId)
    requires PlanRecord(d, request, principal, declaration, parent).Ok?
    ensures var r := PlanRecord(d, request, principal, declaration, parent).value;
      match r.parent
      case None => r.family == d.family(r.source)
      case Some(p) => p in t.views && t.views[p].state == Current && r.family == t.views[p].family
  {
    if request.origin.Published? {
      FindInViews(t.views, request.origin.publicationId);
    }
  }

  lemma NotRetired(t: Tables, origin: ViewOrigin, k: string)
    requires |FetchObservations(t)| <= MAX_CLOSURE_VIEWS && !RevisionClosed(origin, FetchObservations(t))
    requires k in t.observations && Changed(t.observations[k])
    ensures t.observations[k].origin != origin.Identity() || t.observations[k].previous != origin.revision
  {
    ObservationListed(t, k);
  }

  lemma CheckedInsert(views: map<string, Record>, r: Record)
    requires Keyed(views) && r.id !in views && ClosureOf(LinksOf(InKeyOrder(views) + [r]), []).Ok?
    ensures LineageOk(LineageOf(views[r.id := r])) && |views| < MAX_CLOSURE_VIEWS
  {
    InsertLineage(views, r);
    LinksAppend(InKeyOrder(views), r);
    RowsOfViews(views);
  }

  /** A record accepted for insertion satisfies `Insertable`. */
  lemma PlannedInsertable(d: Digests, t: Tables, request: Request, principal: string, declaration: string, space: string)
    requires Valid(d, t)
    requires |FetchObservations(t)| <= MAX_CLOSURE_VIEWS
    requires var p := PlanPublish(d, request, principal, declaration, space, InKeyOrder(t.views), FetchObservations(t));
      p.Ok? && p.value.insert.Some?
    ensures var r := PlanPublish(d, request, principal, declaration, space, InKeyOrder(t.views), FetchObservations(t)).value.insert.value;
      Insertable(d, t, r) && r.declaration == declaration
  {
    var rows := InKeyOrder(t.views);
    var parent := if request.origin.Published? then FindRow(rows, request.origin.publicationId) else None;
    var r := PlanRecord(d, request, principal, declaration, parent).value;
    PlannedParent(d, t, request, principal, declaration, parent);
    FindInViews(t.views, r.id);
    CheckedInsert(t.views, r);
    forall k | k in t.observations && Changed(t.observations[k]) ensures !Copies(r, t.observations[k]) {
      NotRetired(t, request.origin, k);
    }
  }

  // ---- Steps ----

  lemma {:induction false} AffectedMeaning(rows: seq<Record>, origin: Identity, previous: string, observed: Option<string>)
    ensures forall id :: id in Affected(rows, origin, previous, observed) ==>
      exists i :: 0 <= i < |rows| && rows[i].id == id
    ensures forall i :: 0 <= i < |rows| && rows[i].source == origin && rows[i].revision == previous && observed != Some(previous) ==>
      rows[i].id in Affected(rows, origin, previous, observed)
  {
    if rows != [] {
      var front := rows[..|rows| - 1];
      AffectedMeaning(front, origin, previous, observed);
      assert forall i :: 0 <= i < |front| ==> front[i] == rows[i];
    }
  }

  lemma ObservedClosed(d: Digests, t: Tables, o: Observation)
    requires Valid(d, t)
    requires ClosureOf(LinksOf(InKeyOrder(t.views)), Affected(InKeyOrder(t.views), o.origin, o.previous, o.observed)).Ok?
    ensures var ids := ClosureOf(LinksOf(InKeyOrder(t.views)), Affected(InKeyOrder(t.views), o.origin, o.previous, o.observed)).value;
      && DownClosed(t.views, ids)
      && RetiresAll(t.views, ids, o)
  {
    var rows, keys := InKeyOrder(t.views), Ascending(t.views.Keys);
    var initial := Affected(rows, o.origin, o.previous, o.observed);
    ClosureDownClosed(t.views, initial);
    InKeyOrderElements(t.views);
    AffectedMeaning(rows, o.origin, o.previous, o.observed);
    forall id | id in t.views && Retires(o, t.views[id]) ensures id in initial {
      var i :| 0 <= i < |t.views| && keys[i] == id;
      assert rows[i] == t.views[id];
    }
  }

  lemma FetchAll(d: Digests, t: Tables)
    requires Valid(d, t) && FetchRows(d, t).Ok?
    ensures FetchRows(d, t).value == InKeyOrder(t.views)
  {
    InKeyOrderElements(t.views);
  }

  /** All that later proofs need to know of an accepted plan. */
  ghost predicate PlanOk(d: Digests, t: Tables, plan: Plan, event: Event, declaration: string) {
    && (plan.insert.Some? ==>
          event.Publish? && plan.close == [] && Insertable(d, t, plan.insert.value) && plan.insert.value.declaration == declaration
          && plan.insert.value.id ==
             d.publicationId(event.request.destination, event.principal, event.request.occurrence))
    && DownClosed(t.views, plan.close)
    && (event.SourceObserved? ==> event.origin.Some? && RetiresAll(t.views, plan.close, ObservationOf(event)))
  }

  function ObservationOf(event: Event): Observation
    requires event.SourceObserved? && event.origin.Some?
  {
    Observation(event.origin.value, event.previous, event.observed)
  }

  ghost predicate RetiresAll(views: map<string, Record>, ids: seq<string>, o: Observation) {
    forall id :: id in views && Retires(o, views[id]) ==> id in ids
  }

  lemma PublishPlanOk(d: Digests, t: Tables, request: Request, principal: string, declaration: string, space: string, plan: Plan)
    requires Valid(d, t) && |FetchObservations(t)| <= MAX_CLOSURE_VIEWS
    requires PlanPublish(d, request, principal, declaration, space, InKeyOrder(t.views), FetchObservations(t)) == Ok(plan)
    ensures PlanOk(d, t, plan, Publish(request, principal), declaration)
  {
    PublishPlanShape(d, request, principal, declaration, space, InKeyOrder(t.views), FetchObservations(t));
    if plan.insert.Some? {
      PlannedInsertable(d, t, request, principal, declaration, space);
    }
  }

  lemma PublishPlanShape(d: Digests, request: Request, principal: string, declaration: string, space: string,
                         rows: seq<Record>, observations: seq<Observation>)
    requires PlanPublish(d, request, principal, declaration, space, rows, observations).Ok?
    ensures var plan := PlanPublish(d, request, principal, declaration, space, rows, observations).value;
      && plan.close == []
      && (plan.insert.Some? ==> plan.insert.value.id == d.publicationId(request.destination, principal, request.occurrence))
  {
  }

  lemma ClosingPlanOk(d: Digests, t: Tables, declaration: string, space: string, event: Event, plan: Plan)
    requires Valid(d, t) && !event.Publish?
    requires PlanProjection(d, event, declaration, space, InKeyOrder(t.views), FetchObservations(t)) == Ok(plan)
    ensures PlanOk(d, t, plan, event, declaration)
  {
    match event
    case Withdraw(_, id) => ClosureDownClosed(t.views, [id]);
    case SourceObserved(_, _, _) => ObservedClosed(d, t, ObservationOf(event));
  }

  /** A projected event is an accepted plan, applied. */
  lemma Projected(d: Digests, t: Tables, declaration: string, space: string, event: Event) returns (plan: Plan)
    requires Valid(d, t) && Project(d, t, declaration, space, event).Ok?
    ensures PlanProjection(d, event, declaration, space, InKeyOrder(t.views), FetchObservations(t)) == Ok(plan)
    ensures PlanOk(d, t, plan, event, declaration)
    ensures ApplyPlan(t, plan, event, declaration) == Project(d, t, declaration, space, event)
  {
    FetchAll(d, t);
    plan := PlanProjection(d, event, declaration, space, InKeyOrder(t.views), FetchObservations(t)).value;
    if event.Publish? {
      PublishPlanOk(d, t, event.request, event.principal, declaration, space, plan);
    } else {
      ClosingPlanOk(d, t, declaration, space, event, plan);
    }
  }

  lemma InsertApplied(d: Digests, t: Tables, plan: Plan, event: Event, declaration: string, t': Tables)
    requires Valid(d, t) && PlanOk(d, t, plan, event, declaration) && ApplyPlan(t, plan, event, declaration) == Ok(t')
    requires plan.insert.Some?
    ensures Valid(d, t') && Progress(t, t')
  {
    InsertKeepsValid(d, t, plan.insert.value);
  }

  lemma CloseApplied(d: Digests, t: Tables, plan: Plan, event: Event, declaration: string, t': Tables)
    requires Valid(d, t) && PlanOk(d, t, plan, event, declaration) && ApplyPlan(t, plan, event, declaration) == Ok(t')
    requires plan.insert.None?
    ensures Valid(d, t') && Progress(t, t')
  {
    CloseKeepsValid(d, t, plan.close);
    CloseRowsMeaning(t.views, plan.close);
    if event.SourceObserved? && declaration !in t.observations {
      RetiredClosed(t.views, plan.close, ObservationOf(event));
      ObserveKeepsValid(d, Tables(CloseRows(t.views, plan.close), t.observations), declaration, ObservationOf(event));
    }
  }

  lemma RetiredClosed(views: map<string, Record>, ids: seq<string>, o: Observation)
    requires RetiresAll(views, ids, o)
    ensures forall id :: id in CloseRows(views, ids) && Retires(o, CloseRows(views, ids)[id]) ==> CloseRows(views, ids)[id].state != Current
  {
    CloseRowsMeaning(views, ids);
    forall id | id in CloseRows(views, ids) && Retires(o, CloseRows(views, ids)[id]) ensures CloseRows(views, ids)[id].state != Current {
      assert Retires(o, views[id]);
    }
  }

  /** Rows only ever change by being closed, none disappears, and no observation is lost. */
  ghost predicate Progress(t: Tables, t': Tables) {
    && (forall id :: id in t.views ==> id in t'.views && (t'.views[id] == t.views[id] || t'.views[id] == CloseRow(t.views[id])))
    && (forall k :: k in t.observations ==> k in t'.observations && t'.observations[k] == t.observations[k])
  }

  lemma ProgressTrans(a: Tables, b: Tables, c: Tables)
    requires Progress(a, b) && Progress(b, c)
    ensures Progress(a, c)
  {
  }

  /** The uniqueness constraint of the table never rejects a planned record. */
  lemma NeverCollides(d: Digests, t: Tables, r: Record)
    requires Valid(d, t) && Insertable(d, t, r)
    ensures !Collides(t.views, r)
  {
    forall id | id in t.views ensures id == d.publicationId(t.views[id].destination, t.views[id].principal, t.views[id].occurrence) {
      assert Named(d, t.views, id);
    }
  }

  // ---- Runs ----

  datatype Entry = Entry(declaration: string, space: string, event: Event)

  function Step(d: Digests, t: Tables, e: Entry): Tables {
    match Project(d, t, e.declaration, e.space, e.event)
    case Ok(after) => after
    case Err(_) => t
  }

  function Run(d: Digests, t: Tables, entries: seq<Entry>): Tables {
    if entries == [] then t else Step(d, Run(d, t, entries[..|entries| - 1]), entries[|entries| - 1])
  }

  /** Every projected event keeps the invariant. */
  lemma StepKeeps(d: Digests, t: Tables, e: Entry)
    requires Valid(d, t)
    ensures Valid(d, Step(d, t, e)) && Progress(t, Step(d, t, e))
  {
    if Project(d, t, e.declaration, e.space, e.event).Ok? {
      var plan := Projected(d, t, e.declaration, e.space, e.event);
      if plan.insert.Some? {
        InsertApplied(d, t, plan, e.event, e.declaration, Step(d, t, e));
      } else {
        CloseApplied(d, t, plan, e.event, e.declaration, Step(d, t, e));
      }
    }
  }

  /** The invariant holds after every run, and rows only ever close along the way. */
  lemma {:induction false} RunKeeps(d: Digests, t: Tables, entries: seq<Entry>)
    requires Valid(d, t)
    ensures Valid(d, Run(d, t, entries)) && Progress(t, Run(d, t, entries))
  {
    if entries != [] {
      var before := Run(d, t, entries[..|entries| - 1]);
      RunKeeps(d, t, entries[..|entries| - 1]);
      StepKeeps(d, before, entries[|entries| - 1]);
      ProgressTrans(t, before, Run(d, t, entries));
    }
  }

  lemma EmptyValid(d: Digests)
    ensures Valid(d, Tables(map[], map[]))
  {
  }

  /** A row that is not Current stays so through every later event. */
  lemma ClosedForever(d: Digests, t: Tables, entries: seq<Entry>, id: string)
    requires Valid(d, t) && id in t.views && t.views[id].state != Current
    ensures id in Run(d, t, entries).views && Run(d, t, entries).views[id].state != Current
  {
    RunKeeps(d, t, entries);
  }

  /** The observation table holds nothing else under the entry's declaration. */
  predicate Unrecorded(t: Tables, e: Entry)
    requires e.event.SourceObserved?
  {
    e.declaration !in t.observations
    || (e.event.origin.Some? && t.observations[e.declaration] == ObservationOf(e.event))
  }

  lemma ObservationRecorded(d: Digests, t: Tables, e: Entry)
    requires Valid(d, t) && Project(d, t, e.declaration, e.space, e.event).Ok?
    requires e.event.SourceObserved? && Unrecorded(t, e)
    ensures e.event.origin.Some? && e.declaration in Step(d, t, e).observations
    ensures Step(d, t, e).observations[e.declaration] == ObservationOf(e.event)
  {
    var plan := Projected(d, t, e.declaration, e.space, e.event);
    assert plan.insert.None?;
  }

  /** Once an observation that a source left a revision is recorded, no later state has a
      Current copy of that revision. The first observation under a declaration is the one kept;
      in a ledger there is no other (`StaleInLedger`). */
  lemma StaleForever(d: Digests, t: Tables, e: Entry, later: seq<Entry>, id: string)
    requires Valid(d, t) && Project(d, t, e.declaration, e.space, e.event).Ok?
    requires e.event.SourceObserved? && Unrecorded(t, e) && e.event.observed != Some(e.event.previous)
    requires id in Run(d, Step(d, t, e), later).views
    ensures var r := Run(d, Step(d, t, e), later).views[id];
      e.event.origin.Some? && (r.source == e.event.origin.value && r.revision == e.event.previous ==> r.state != Current)
  {
    var next := Step(d, t, e);
    StepKeeps(d, t, e);
    ObservationRecorded(d, t, e);
    RunKeeps(d, next, later);
    var last := Run(d, next, later);
    assert Retires(last.observations[e.declaration], last.views[id]) <==> Copies(last.views[id], ObservationOf(e.event));
  }

  lemma WithdrawPlan(d: Digests, t: Tables, declaration: string, space: string, id: string) returns (ids: seq<string>)
    requires Valid(d, t) && Project(d, t, declaration, space, Withdraw(space, id)).Ok?
    ensures Project(d, t, declaration, space, Withdraw(space, id)).value == Tables(CloseRows(t.views, ids), t.observations)
    ensures ClosureOf(LinksOf(InKeyOrder(t.views)), [id]) == Ok(ids)
  {
    var plan := Projected(d, t, declaration, space, Withdraw(space, id));
    ids := WithdrawClosing(d, declaration, space, id, InKeyOrder(t.views), FetchObservations(t));
  }

  lemma WithdrawClosing(d: Digests, declaration: string, space: string, id: string,
                        rows: seq<Record>, observations: seq<Observation>) returns (ids: seq<string>)
    requires PlanProjection(d, Withdraw(space, id), declaration, space, rows, observations).Ok?
    ensures PlanProjection(d, Withdraw(space, id), declaration, space, rows, observations) == Ok(Plan(None, ids))
    ensures ClosureOf(LinksOf(rows), [id]) == Ok(ids)
  {
    ids := PlanProjection(d, Withdraw(space, id), declaration, space, rows, observations).value.close;
  }

  /** An accepted withdrawal closes exactly the withdrawn view and its descendants. */
  lemma WithdrawCloses(d: Digests, t: Tables, declaration: string, space: string, id: string, x: string)
    requires Valid(d, t) && x in t.views
    requires Project(d, t, declaration, space, Withdraw(space, id)).Ok?
    ensures var t' := Project(d, t, declaration, space, Withdraw(space, id)).value;
      x in t'.views && t'.views[x] ==
        if Descends(LineageOf(t.views), x, {id}) then t.views[x].(state := Closed, bytes := []) else t.views[x]
  {
    var ids := WithdrawPlan(d, t, declaration, space, id);
    WithdrawnIds(t.views, id, ids, x);
    CloseRowsMeaning(t.views, ids);
  }

  lemma WithdrawnIds(views: map<string, Record>, id: string, ids: seq<string>, x: string)
    requires Keyed(views) && ClosureOf(LinksOf(InKeyOrder(views)), [id]) == Ok(ids)
    ensures x in ids <==> Descends(LineageOf(views), x, {id})
  {
    MembersOfOne(id);
    ClosureDownClosed(views, [id]);
  }

  lemma MembersOfOne(id: string)
    ensures Members([id]) == {id}
  {
    assert [id][0] == id;
  }

  // ---- Redaction ----

  /** Each row comes from its own declaration, the Publish event the ledger holds under it. */
  ghost predicate FromLedger(d: Digests, ledger: string -> Event, views: map<string, Record>) {
    forall id :: id in views ==>
      match ledger(views[id].declaration)
      case Publish(request, principal) => id == d.publicationId(request.destination, principal, request.occurrence)
      case _ => false
  }

  lemma StepFromLedger(d: Digests, ledger: string -> Event, t: Tables, declaration: string, space: string)
    requires Valid(d, t) && FromLedger(d, ledger, t.views)
    requires Project(d, t, declaration, space, ledger(declaration)).Ok?
    ensures FromLedger(d, ledger, Project(d, t, declaration, space, ledger(declaration)).value.views)
  {
    var plan := Projected(d, t, declaration, space, ledger(declaration));
    AppliedFromLedger(d, ledger, t, plan, declaration, Project(d, t, declaration, space, ledger(declaration)).value);
  }

  lemma AppliedFromLedger(d: Digests, ledger: string -> Event, t: Tables, plan: Plan, declaration: string, t': Tables)
    requires FromLedger(d, ledger, t.views) && PlanOk(d, t, plan, ledger(declaration), declaration)
    requires ApplyPlan(t, plan, ledger(declaration), declaration) == Ok(t')
    ensures FromLedger(d, ledger, t'.views)
  {
    CloseRowsMeaning(t.views, plan.close);
  }

  lemma {:induction false} MatchingMeaning(rows: seq<Record>, what: Redaction)
    ensures forall id :: id in Matching(rows, what) <==>
      exists i :: 0 <= i < |rows| && rows[i].id == id && CopiesRedacted(rows[i], what)
  {
    if rows != [] {
      var front := rows[..|rows| - 1];
      MatchingMeaning(front, what);
      assert forall i :: 0 <= i < |front| ==> front[i] == rows[i];
    }
  }

  lemma MatchingKnown(views: map<string, Record>, what: Redaction)
    requires Keyed(views)
    ensures Members(Matching(InKeyOrder(views), what)) <= views.Keys
  {
    InKeyOrderElements(views);
    forall i | 0 <= i < |InKeyOrder(views)| ensures InKeyOrder(views)[i].id in views {
      assert InKeyOrder(views)[i] == views[Ascending(views.Keys)[i]];
    }
    MatchingWithin(InKeyOrder(views), what, views.Keys);
  }

  lemma MatchingWithin(rows: seq<Record>, what: Redaction, ids: set<string>)
    requires forall i :: 0 <= i < |rows| ==> rows[i].id in ids
    ensures Members(Matching(rows, what)) <= ids
  {
    MatchingMeaning(rows, what);
    forall id | id in Members(Matching(rows, what)) ensures id in ids {
      assert id in Matching(rows, what);
    }
  }

  /** In a valid state redaction always finds the declarations to remove. */
  lemma RedactionSucceeds(d: Digests, t: Tables, what: Redaction)
    requires Valid(d, t)
    ensures RedactionDeclarations(InKeyOrder(t.views), what).Ok?
  {
    MatchingKnown(t.views, what);
    ClosureSucceeds(d, t, Matching(InKeyOrder(t.views), what));
  }

  /** A row survives redaction exactly when neither it nor any ancestor copies redacted material. */
  lemma RedactionExact(d: Digests, ledger: string -> Event, t: Tables, what: Redaction, x: string)
    requires Valid(d, t) && FromLedger(d, ledger, t.views) && x in t.views
    ensures RedactionDeclarations(InKeyOrder(t.views), what).Ok?
    ensures var left := RemoveCopies(t.views, RedactionDeclarations(InKeyOrder(t.views), what).value);
      x in left <==> !exists k: nat :: TaintedAt(t.views, x, what, k)
  {
    RedactionSucceeds(d, t, what);
    var ids := ClosureOf(LinksOf(InKeyOrder(t.views)), Matching(InKeyOrder(t.views), what)).value;
    DeclarationsListed(d, ledger, t, ids, x);
    TaintedListed(d, t, what, ids, x);
  }

  lemma TaintedListed(d: Digests, t: Tables, what: Redaction, ids: seq<string>, x: string)
    requires Valid(d, t) && x in t.views
    requires ClosureOf(LinksOf(InKeyOrder(t.views)), Matching(InKeyOrder(t.views), what)) == Ok(ids)
    ensures x in ids <==> exists k: nat :: TaintedAt(t.views, x, what, k)
  {
    var initial := Matching(InKeyOrder(t.views), what);
    ClosureDownClosed(t.views, initial);
    if x in ids {
      var k: nat :| ReachesAt(LineageOf(t.views), x, Members(initial), k);
      AncestorsAgree(d, t, x, k);
      MatchingViews(d, t, what, Ancestor(LineageOf(t.views), x, k).value);
      assert TaintedAt(t.views, x, what, k);
    }
    forall k: nat | TaintedAt(t.views, x, what, k) ensures x in ids {
      MatchingViews(d, t, what, Ancestor(LineageOf(t.views), x, k).value);
      assert ReachesAt(LineageOf(t.views), x, Members(initial), k);
    }
  }

  lemma MatchingViews(d: Digests, t: Tables, what: Redaction, a: string)
    requires Valid(d, t) && a in t.views
    ensures a in Members(Matching(InKeyOrder(t.views), what)) <==> CopiesRedacted(t.views[a], what)
  {
    RowsAreViews(t.views, a);
    MatchingListed(InKeyOrder(t.views), t.views[a], what);
  }

  lemma MatchingListed(rows: seq<Record>, r: Record, what: Redaction)
    requires r in rows && forall i :: 0 <= i < |rows| && rows[i].id == r.id ==> rows[i] == r
    ensures r.id in Matching(rows, what) <==> CopiesRedacted(r, what)
  {
    MatchingMeaning(rows, what);
  }

  lemma RowsAreViews(views: map<string, Record>, id: string)
    requires Keyed(views) && id in views
    ensures views[id] in InKeyOrder(views)
    ensures forall i :: 0 <= i < |InKeyOrder(views)| && InKeyOrder(views)[i].id == id ==> InKeyOrder(views)[i] == views[id]
  {
    InKeyOrderElements(views);
    var i :| 0 <= i < |views| && Ascending(views.Keys)[i] == id;
    assert InKeyOrder(views)[i] == views[id];
  }

  /** The `k`-th ancestor of `x` copies redacted material. */
  ghost predicate TaintedAt(views: map<string, Record>, x: string, what: Redaction, k: nat) {
    && Ancestor(LineageOf(views), x, k).Some?
    && Ancestor(LineageOf(views), x, k).value in views
    && var r := views[Ancestor(LineageOf(views), x, k).value];
       || r.declaration in what.episodes || r.destination in what.spaces
       || (r.source.EpisodeSource? && r.source.episode in what.episodes)
       || exists space :: space in what.spaces && r.source.Space() == Some(space)
  }

  /** Distinct rows have distinct declarations, so deleting by declaration deletes by id. */
  lemma DeclarationsListed(d: Digests, ledger: string -> Event, t: Tables, ids: seq<string>, x: string)
    requires Valid(d, t) && FromLedger(d, ledger, t.views) && x in t.views
    ensures t.views[x].declaration in DeclarationsOf(InKeyOrder(t.views), ids) <==> x in ids
  {
    var rows, keys := InKeyOrder(t.views), Ascending(t.views.Keys);
    InKeyOrderElements(t.views);
    var i :| 0 <= i < |t.views| && keys[i] == x;
    assert rows[i] == t.views[x];
    if t.views[x].declaration in DeclarationsOf(rows, ids) {
      var j :| 0 <= j < |rows| && rows[j].id in ids && rows[j].declaration == t.views[x].declaration;
      assert rows[j] == t.views[keys[j]];
    }
  }

  lemma {:induction false} RestrictedAncestor(whole: Lineage, part: Lineage, id: string, k: nat)
    requires part.Keys <= whole.Keys && forall x :: x in part ==> part[x] == whole[x]
    ensures Ancestor(part, id, k).Some? ==> Ancestor(part, id, k) == Ancestor(whole, id, k)
  {
    if k > 0 { RestrictedAncestor(whole, part, id, k - 1); }
  }

  /** Redaction leaves a state the invariant still describes: no survivor lost its parent. */
  lemma RedactionKeepsValid(d: Digests, ledger: string -> Event, t: Tables, what: Redaction)
    requires Valid(d, t) && FromLedger(d, ledger, t.views)
    ensures RedactionDeclarations(InKeyOrder(t.views), what).Ok?
    ensures var left := RemoveCopies(t.views, RedactionDeclarations(InKeyOrder(t.views), what).value);
      Valid(d, Tables(left, t.observations)) && FromLedger(d, ledger, left)
  {
    RedactionSucceeds(d, t, what);
    var rows := InKeyOrder(t.views);
    var ids := ClosureOf(LinksOf(rows), Matching(rows, what)).value;
    var left := RemoveCopies(t.views, RedactionDeclarations(rows, what).value);
    ClosureDownClosed(t.views, Matching(rows, what));
    forall x | x in t.views ensures x in left <==> x !in ids {
      DeclarationsListed(d, ledger, t, ids, x);
    }
    RemovalKeepsValid(d, t, left, ids);
  }

  lemma RemovalKeepsValid(d: Digests, t: Tables, left: map<string, Record>, ids: seq<string>)
    requires Valid(d, t) && DownClosed(t.views, ids)
    requires left.Keys <= t.views.Keys && forall x :: x in left ==> left[x] == t.views[x]
    requires forall x :: x in t.views ==> (x in left <==> x !in ids)
    ensures Valid(d, Tables(left, t.observations))
  {
    SizeGrows(left.Keys, t.views.Keys);
    assert |left| == |left.Keys| && |t.views| == |t.views.Keys|;
    forall id | id in left ensures Named(d, left, id) { assert Named(d, t.views, id); }
    forall id | id in left ensures FamilyAt(d, left, id) && CurrentAt(left, id) {
      assert FamilyAt(d, t.views, id) && CurrentAt(t.views, id);
    }
    forall id | id in LineageOf(left) ensures Bounded(LineageOf(left), id) {
      assert Bounded(LineageOf(t.views), id);
      var k :| 0 <= k <= MAX_LINEAGE_DEPTH && Ancestor(LineageOf(t.views), id, k).None?;
      RestrictedAncestor(LineageOf(t.views), LineageOf(left), id, k);
    }
  }

  // ---- Runs over a ledger, with redactions ----

  /** Project the ledger's event under a declaration, or remove the copies of redacted material. */
  datatype Act = Projecting(declaration: string, space: string) | Redacting(what: Redaction)

  function Redact(d: Digests, t: Tables, what: Redaction): Tables {
    match FetchRows(d, t)
    case Err(_) => t
    case Ok(rows) =>
      match RedactionDeclarations(rows, what)
      case Err(_) => t
      case Ok(declarations) => Tables(RemoveCopies(t.views, declarations), t.observations)
  }

  function LedgerStep(d: Digests, ledger: string -> Event, t: Tables, act: Act): Tables {
    match act
    case Projecting(declaration, space) => Step(d, t, Entry(declaration, space, ledger(declaration)))
    case Redacting(what) => Redact(d, t, what)
  }

  function LedgerRun(d: Digests, ledger: string -> Event, t: Tables, acts: seq<Act>): Tables {
    if acts == [] then t else LedgerStep(d, ledger, LedgerRun(d, ledger, t, acts[..|acts| - 1]), acts[|acts| - 1])
  }

  /** Each observation is the one the ledger holds under its declaration. */
  ghost predicate ObservedInLedger(ledger: string -> Event, t: Tables) {
    forall k :: k in t.observations ==>
      ledger(k).SourceObserved? && ledger(k).origin.Some? && t.observations[k] == ObservationOf(ledger(k))
  }

  /** The invariant, and every row and observation traced to its own ledger entry. */
  ghost predicate Ledgered(d: Digests, ledger: string -> Event, t: Tables) {
    Valid(d, t) && FromLedger(d, ledger, t.views) && ObservedInLedger(ledger, t)
  }

  /** No observation is lost. */
  ghost predicate Remembers(t: Tables, t': Tables) {
    forall k :: k in t.observations ==> k in t'.observations && t'.observations[k] == t.observations[k]
  }

  lemma ProjectingKeeps(d: Digests, ledger: string -> Event, t: Tables, declaration: string, space: string)
    requires Ledgered(d, ledger, t)
    ensures var t' := LedgerStep(d, ledger, t, Projecting(declaration, space)); Ledgered(d, ledger, t') && Remembers(t, t')
  {
    var e := Entry(declaration, space, ledger(declaration));
    StepKeeps(d, t, e);
    if Project(d, t, declaration, space, e.event).Ok? {
      StepFromLedger(d, ledger, t, declaration, space);
      var plan := Projected(d, t, declaration, space, e.event);
      AppliedObserved(ledger, t, plan, declaration, Step(d, t, e));
    }
  }

  lemma AppliedObserved(ledger: string -> Event, t: Tables, plan: Plan, declaration: string, t': Tables)
    requires ObservedInLedger(ledger, t) && ApplyPlan(t, plan, ledger(declaration), declaration) == Ok(t')
    ensures ObservedInLedger(ledger, t')
  {
  }

  lemma RedactingKeeps(d: Digests, ledger: string -> Event, t: Tables, what: Redaction)
    requires Ledgered(d, ledger, t)
    ensures Ledgered(d, ledger, Redact(d, t, what)) && Remembers(t, Redact(d, t, what))
  {
    if FetchRows(d, t).Ok? {
      FetchAll(d, t);
      RedactionKeepsValid(d, ledger, t, what);
    }
  }

  /** Every run over a ledger, redactions included, keeps the invariant and each row's and each
      observation's tie to its own ledger entry. */
  lemma {:induction false} LedgerRunKeeps(d: Digests, ledger: string -> Event, t: Tables, acts: seq<Act>)
    requires Ledgered(d, ledger, t)
    ensures Ledgered(d, ledger, LedgerRun(d, ledger, t, acts)) && Remembers(t, LedgerRun(d, ledger, t, acts))
  {
    if acts != [] {
      var before := LedgerRun(d, ledger, t, acts[..|acts| - 1]);
      LedgerRunKeeps(d, ledger, t, acts[..|acts| - 1]);
      match acts[|acts| - 1]
      case Projecting(declaration, space) => ProjectingKeeps(d, ledger, before, declaration, space);
      case Redacting(what) => RedactingKeeps(d, ledger, before, what);
    }
  }

  lemma EmptyLedgered(d: Digests, ledger: string -> Event)
    ensures Ledgered(d, ledger, Tables(map[], map[]))
  {
    EmptyValid(d);
  }

  /** In every ledger run from empty tables: once an observation that a source left a revision
      has been projected, no later state has a Current copy of that revision. */
  lemma StaleInLedger(d: Digests, ledger: string -> Event, earlier: seq<Act>, declaration: string, space: string,
                      later: seq<Act>, id: string)
    requires var t := LedgerRun(d, ledger, Tables(map[], map[]), earlier);
      && Project(d, t, declaration, space, ledger(declaration)).Ok?
      && id in LedgerRun(d, ledger, LedgerStep(d, ledger, t, Projecting(declaration, space)), later).views
    requires ledger(declaration).SourceObserved? && ledger(declaration).observed != Some(ledger(declaration).previous)
    ensures ledger(declaration).origin.Some?
    ensures var t := LedgerRun(d, ledger, Tables(map[], map[]), earlier);
      var r := LedgerRun(d, ledger, LedgerStep(d, ledger, t, Projecting(declaration, space)), later).views[id];
      Copies(r, ObservationOf(ledger(declaration))) ==> r.state != Current
  {
    EmptyLedgered(d, ledger);
    LedgerRunKeeps(d, ledger, Tables(map[], map[]), earlier);
    var t := LedgerRun(d, ledger, Tables(map[], map[]), earlier);
    ObservedStale(d, ledger, t, declaration, space, later, id);
  }

  lemma ObservedStale(d: Digests, ledger: string -> Event, t: Tables, declaration: string, space: string, later: seq<Act>, id: string)
    requires Ledgered(d, ledger, t) && Project(d, t, declaration, space, ledger(declaration)).Ok?
    requires ledger(declaration).SourceObserved? && ledger(declaration).observed != Some(ledger(declaration).previous)
    requires id in LedgerRun(d, ledger, LedgerStep(d, ledger, t, Projecting(declaration, space)), later).views
    ensures ledger(declaration).origin.Some?
    ensures var r := LedgerRun(d, ledger, LedgerStep(d, ledger, t, Projecting(declaration, space)), later).views[id];
      Copies(r, ObservationOf(ledger(declaration))) ==> r.state != Current
  {
    var next := LedgerStep(d, ledger, t, Projecting(declaration, space));
    ObservationRecorded(d, t, Entry(declaration, space, ledger(declaration)));
    ProjectingKeeps(d, ledger, t, declaration, space);
    LedgerRunKeeps(d, ledger, next, later);
    RecordedStale(d, LedgerRun(d, ledger, next, later), declaration, ObservationOf(ledger(declaration)), id);
  }

  lemma RecordedStale(d: Digests, t: Tables, k: string, o: Observation, id: string)
    requires Valid(d, t) && k in t.observations && t.observations[k] == o && Changed(o) && id in t.views
    ensures Copies(t.views[id], o) ==> t.views[id].state != Current
  {
    assert Retires(t.observations[k], t.views[id]) <==> Copies(t.views[id], o);
  }
}
