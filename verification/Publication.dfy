/** Publication events, the plan each one produces, and the store that applies it. */
module Publication {
  import opened Orders
  import opened Closure

  const MAX_PROJECTION_BYTES: nat := 8 * 1024 * 1024

  type Bytes = seq<bv8>

  /** A source occurrence without its content revision. The canonical JSON encodings of the
      first four are pairwise different; `Foreign` is any other JSON value an observation may
      carry, with its element 1 when that is a string. */
  datatype Identity =
    | EpisodeSource(space: string, episode: string)
    | PdcSource(space: string, uuid: string)
    | DocumentSource(space: string, root: string, document: string)
    | PublicationSource(space: string, publication: string)
    | Foreign(element: Option<string>, raw: string)
  {
    function Space(): Option<string> {
      match this
      case EpisodeSource(s, _) => Some(s)
      case PdcSource(s, _) => Some(s)
      case DocumentSource(s, _, _) => Some(s)
      case PublicationSource(s, _) => Some(s)
      case Foreign(e, _) => e
    }
  }

  datatype ViewOrigin =
    | Episode(space: string, episodeId: string, revision: string)
    | Document(space: string, root: string, documentId: string, uuid: Option<string>, revision: string)
    | Published(space: string, publicationId: string, revision: string)
  {
    function Identity(): Identity {
      match this
      case Episode(s, e, _) => EpisodeSource(s, e)
      case Document(s, r, d, u, _) => if u.Some? then PdcSource(s, u.value) else DocumentSource(s, r, d)
      case Published(s, p, _) => PublicationSource(s, p)
    }
  }

  datatype Request = Request(origin: ViewOrigin, occurrence: string, destination: string, bytes: Bytes, digest: string)

  datatype ViewState = Current | Closed | Redacted

  datatype Record = Record(
    id: string, destination: string, principal: string, occurrence: string, requestDigest: string,
    source: Identity, revision: string, parent: Option<string>, family: string,
    viewRevision: string, bytes: Bytes, state: ViewState, declaration: string)

  datatype Observation = Observation(origin: Identity, previous: string, observed: Option<string>)

  /** `SourceObserved` carries an identity string from outside: None when it is not JSON. */
  datatype Event =
    | Publish(request: Request, principal: string)
    | Withdraw(destination: string, publicationId: string)
    | SourceObserved(origin: Option<Identity>, previous: string, observed: Option<string>)

  /** Digests and the JSON length of a record: any functions. */
  datatype Digests = Digests(
    publicationId: (string, string, string) -> string,
    family: Identity -> string,
    request: Request -> string,
    encodedLength: Record -> nat)

  datatype Plan = Plan(insert: Option<Record>, close: seq<string>)

  // ---- Planning ----

  function LinkOf(r: Record): Link { Link(r.id, r.parent) }

  function LinksOf(rows: seq<Record>): seq<Link> {
    seq(|rows|, i requires 0 <= i < |rows| => LinkOf(rows[i]))
  }

  function FindRow(rows: seq<Record>, id: string): Option<Record> {
    if rows == [] then None else if rows[0].id == id then Some(rows[0]) else FindRow(rows[1..], id)
  }

  function TotalBytes(rows: seq<Record>): nat {
    if rows == [] then 0 else TotalBytes(rows[..|rows| - 1]) + |rows[|rows| - 1].bytes|
  }

  function TotalEncoded(d: Digests, rows: seq<Record>): nat {
    if rows == [] then 0 else TotalEncoded(d, rows[..|rows| - 1]) + d.encodedLength(rows[|rows| - 1])
  }

  predicate RevisionClosed(origin: ViewOrigin, observations: seq<Observation>) {
    exists i :: 0 <= i < |observations| && observations[i].origin == origin.Identity()
      && observations[i].previous == origin.revision && observations[i].observed != Some(origin.revision)
  }

  function PlanRecord(d: Digests, request: Request, principal: string, declaration: string,
                      parent: Option<Record>): Result<Record>
  {
    var origin := request.origin;
    if origin.Published? && (parent.None? || parent.value.id != origin.publicationId
        || parent.value.destination != origin.space || parent.value.viewRevision != origin.revision
        || parent.value.state != Current) then
      Err(Unauthorized)
    else
      Ok(Record(
        d.publicationId(request.destination, principal, request.occurrence), request.destination, principal,
        request.occurrence, d.request(request), origin.Identity(), origin.revision,
        if origin.Published? then Some(parent.value.id) else None,
        if origin.Published? then parent.value.family else d.family(origin.Identity()),
        request.digest, request.bytes, Current, declaration))
  }

  function PlanPublish(d: Digests, request: Request, principal: string, declaration: string, space: string,
                       rows: seq<Record>, observations: seq<Observation>): Result<Plan>
  {
    if request.origin.space != space || RevisionClosed(request.origin, observations) then Err(Unauthorized) else
      var parent := if request.origin.Published? then FindRow(rows, request.origin.publicationId) else None;
      match PlanRecord(d, request, principal, declaration, parent)
      case Err(e) => Err(e)
      case Ok(record) =>
        match FindRow(rows, record.id)
        case Some(existing) =>
          if existing.requestDigest != record.requestDigest then Err(Conflict) else Ok(Plan(None, []))
        case None =>
          if TotalEncoded(d, rows) + d.encodedLength(record) > MAX_PROJECTION_BYTES then Err(Budget) else
            match ClosureOf(LinksOf(rows + [record]), [])
            case Err(e) => Err(e)
            case Ok(_) => Ok(Plan(Some(record), []))
  }

  function Closing(rows: seq<Record>, initial: seq<string>): Result<Plan> {
    match ClosureOf(LinksOf(rows), initial)
    case Err(e) => Err(e)
    case Ok(ids) => Ok(Plan(None, ids))
  }

  /** The rows an observation invalidates: none when the revision is unchanged. */
  function Affected(rows: seq<Record>, origin: Identity, previous: string, observed: Option<string>): seq<string> {
    if rows == [] then [] else
      var last := rows[|rows| - 1];
      Affected(rows[..|rows| - 1], origin, previous, observed) +
      (if last.source == origin && last.revision == previous && observed != Some(previous) then [last.id] else [])
  }

  function PlanProjection(d: Digests, event: Event, declaration: string, space: string,
                          rows: seq<Record>, observations: seq<Observation>): Result<Plan>
  {
    if |rows| > MAX_CLOSURE_VIEWS || |observations| > MAX_CLOSURE_VIEWS || TotalBytes(rows) > MAX_PROJECTION_BYTES then
      Err(Budget)
    else
      match event
      case Publish(request, principal) => PlanPublish(d, request, principal, declaration, space, rows, observations)
      case Withdraw(destination, id) =>
        if destination != space || !exists i :: 0 <= i < |rows| && rows[i].id == id && rows[i].destination == destination
        then Err(Unauthorized)
        else Closing(rows, [id])
      case SourceObserved(origin, previous, observed) =>
        if origin.None? || origin.value.Space() != Some(space) then Err(Unauthorized)
        else Closing(rows, Affected(rows, origin.value, previous, observed))
  }

  // ---- The store ----

  /** The two projection tables, by primary key. */
  datatype Tables = Tables(views: map<string, Record>, observations: map<string, Observation>)

  function InKeyOrder<T>(m: map<string, T>): seq<T> {
    var keys := Ascending(m.Keys);
    seq(|keys|, i requires 0 <= i < |keys| => assert keys[i] in keys; m[keys[i]])
  }

  /** At most one row more than the bound is fetched; too many stored bytes is an error. */
  function FetchRows(d: Digests, t: Tables): Result<seq<Record>> {
    var all := InKeyOrder(t.views);
    var rows := if |all| > MAX_CLOSURE_VIEWS + 1 then all[..MAX_CLOSURE_VIEWS + 1] else all;
    if TotalEncoded(d, rows) > MAX_PROJECTION_BYTES then Err(Budget) else Ok(rows)
  }

  function FetchObservations(t: Tables): seq<Observation> {
    var all := InKeyOrder(t.observations);
    if |all| > MAX_CLOSURE_VIEWS + 1 then all[..MAX_CLOSURE_VIEWS + 1] else all
  }

  /** A closed row keeps its identity and loses its bytes. */
  function CloseRow(r: Record): Record { r.(state := Closed, bytes := []) }

  function CloseRows(views: map<string, Record>, ids: seq<string>): map<string, Record> {
    if ids == [] then views else
      var id := ids[|ids| - 1];
      var before := CloseRows(views, ids[..|ids| - 1]);
      if id in before then before[id := CloseRow(before[id])] else before
  }

  /** UNIQUE(destination, principal, occurrence_id) of the views table. */
  predicate Collides(views: map<string, Record>, r: Record) {
    exists id :: id in views && id != r.id && views[id].destination == r.destination
      && views[id].principal == r.principal && views[id].occurrence == r.occurrence
  }

  function ApplyPlan(t: Tables, plan: Plan, event: Event, declaration: string): Result<Tables> {
    if plan.insert.Some? && Collides(t.views, plan.insert.value) then Err(Storage) else
      var inserted := if plan.insert.Some? then t.views[plan.insert.value.id := plan.insert.value] else t.views;
      var closed := CloseRows(inserted, plan.close);
      var observations :=
        match event
        case SourceObserved(Some(origin), previous, observed) =>
          if declaration in t.observations then t.observations
          else t.observations[declaration := Observation(origin, previous, observed)]
        case _ => t.observations;
      Ok(Tables(closed, observations))
  }

  /** One projected event; an error leaves the tables as they were. */
  function Project(d: Digests, t: Tables, declaration: string, space: string, event: Event): Result<Tables> {
    match FetchRows(d, t)
    case Err(e) => Err(e)
    case Ok(rows) =>
      match PlanProjection(d, event, declaration, space, rows, FetchObservations(t))
      case Err(e) => Err(e)
      case Ok(plan) => ApplyPlan(t, plan, event, declaration)
  }

  class Store {
    var views: map<string, Record>
    var observations: map<string, Observation>

    function State(): Tables reads this { Tables(views, observations) }

    constructor ()
      ensures State() == Tables(map[], map[])
    {
      views, observations := map[], map[];
    }

    method ProjectEvent(d: Digests, declaration: string, space: string, event: Event) returns (error: Option<Error>)
      modifies this
      ensures match Project(d, old(State()), declaration, space, event)
        case Ok(t) => error.None? && State() == t
        case Err(e) => error == Some(e) && State() == old(State())
    {
      var fetched := FetchRows(d, State());
      if fetched.Err? { return Some(fetched.error); }
      var planned := PlanEvent(d, event, declaration, space, fetched.value, FetchObservations(State()));
      if planned.Err? { return Some(planned.error); }
      error := Apply(planned.value, event, declaration);
    }

    method Apply(plan: Plan, event: Event, declaration: string) returns (error: Option<Error>)
      modifies this
      ensures match ApplyPlan(old(State()), plan, event, declaration)
        case Ok(t) => error.None? && State() == t
        case Err(e) => error == Some(e) && State() == old(State())
    {
      if plan.insert.Some? {
        if Collides(views, plan.insert.value) { return Some(Storage); }
        views := views[plan.insert.value.id := plan.insert.value];
      }
      CloseListed(plan.close);
      if event.SourceObserved? && event.origin.Some? && declaration !in observations {
        observations := observations[declaration := Observation(event.origin.value, event.previous, event.observed)];
      }
      error := None;
    }

    method CloseListed(ids: seq<string>)
      modifies this`views
      ensures views == CloseRows(old(views), ids)
    {
      for i := 0 to |ids|
        invariant views == CloseRows(old(views), ids[..i])
      {
        assert ids[..i + 1][..i] == ids[..i];
        if ids[i] in views {
          views := views[ids[i] := CloseRow(views[ids[i]])];
        }
      }
      assert ids[..|ids|] == ids;
    }
  }

  /** Planning with the closure computed by its loop. */
  method PlanEvent(d: Digests, event: Event, declaration: string, space: string,
                   rows: seq<Record>, observations: seq<Observation>) returns (r: Result<Plan>)
    ensures r == PlanProjection(d, event, declaration, space, rows, observations)
  {
    if |rows| > MAX_CLOSURE_VIEWS || |observations| > MAX_CLOSURE_VIEWS || TotalBytes(rows) > MAX_PROJECTION_BYTES {
      return Err(Budget);
    }
    match event
    case Publish(request, principal) =>
      if request.origin.space != space || RevisionClosed(request.origin, observations) { return Err(Unauthorized); }
      var parent := if request.origin.Published? then FindRow(rows, request.origin.publicationId) else None;
      var record := PlanRecord(d, request, principal, declaration, parent);
      if record.Err? { return Err(record.error); }
      var existing := FindRow(rows, record.value.id);
      if existing.Some? {
        return if existing.value.requestDigest != record.value.requestDigest then Err(Conflict) else Ok(Plan(None, []));
      }
      if TotalEncoded(d, rows) + d.encodedLength(record.value) > MAX_PROJECTION_BYTES { return Err(Budget); }
      var checked := DescendantClosure(LinksOf(rows + [record.value]), []);
      if checked.Err? { return Err(checked.error); }
      return Ok(Plan(Some(record.value), []));
    case Withdraw(destination, id) =>
      if destination != space || !exists i :: 0 <= i < |rows| && rows[i].id == id && rows[i].destination == destination {
        return Err(Unauthorized);
      }
      var closed := DescendantClosure(LinksOf(rows), [id]);
      return if closed.Err? then Err(closed.error) else Ok(Plan(None, closed.value));
    case SourceObserved(origin, previous, observed) =>
      if origin.None? || origin.value.Space() != Some(space) { return Err(Unauthorized); }
      var closed := DescendantClosure(LinksOf(rows), Affected(rows, origin.value, previous, observed));
      return if closed.Err? then Err(closed.error) else Ok(Plan(None, closed.value));
  }

  // ---- Redaction ----

  datatype Redaction = Redaction(episodes: seq<string>, spaces: seq<string>)

  /** The row copies redacted material directly. */
  predicate CopiesRedacted(r: Record, what: Redaction) {
    || r.declaration in what.episodes
    || (r.source.EpisodeSource? && r.source.episode in what.episodes)
    || r.destination in what.spaces
    || (r.source.Space().Some? && r.source.Space().value in what.spaces)
  }

  function Matching(rows: seq<Record>, what: Redaction): seq<string> {
    if rows == [] then [] else
      Matching(rows[..|rows| - 1], what) +
      (if CopiesRedacted(rows[|rows| - 1], what) then [rows[|rows| - 1].id] else [])
  }

  function DeclarationsOf(rows: seq<Record>, ids: seq<string>): set<string> {
    set i | 0 <= i < |rows| && rows[i].id in ids :: rows[i].declaration
  }

  /** The declarations whose copies must go, sorted and without repetition. */
  function RedactionDeclarations(rows: seq<Record>, what: Redaction): Result<seq<string>> {
    match ClosureOf(LinksOf(rows), Matching(rows, what))
    case Err(e) => Err(e)
    case Ok(ids) => Ok(Ascending(DeclarationsOf(rows, ids)))
  }

  method CollectRedactionDeclarations(rows: seq<Record>, what: Redaction) returns (r: Result<seq<string>>)
    ensures r == RedactionDeclarations(rows, what)
  {
    var initial: seq<string> := [];
    for i := 0 to |rows|
      invariant initial == Matching(rows[..i], what)
    {
      assert rows[..i + 1][..i] == rows[..i];
      if CopiesRedacted(rows[i], what) {
        initial := initial + [rows[i].id];
      }
    }
    assert rows[..|rows|] == rows;
    var closed := DescendantClosure(LinksOf(rows), initial);
    return if closed.Err? then Err(closed.error) else Ok(Ascending(DeclarationsOf(rows, closed.value)));
  }

  /** `remove_redacted_copies`: rows whose declaration is listed are deleted. */
  function RemoveCopies(views: map<string, Record>, declarations: seq<string>): map<string, Record> {
    map id | id in views && views[id].declaration !in declarations :: views[id]
  }
}
