/** In which order units are considered, and what one consideration decides, in terms of the
    fields of the units. */
module EvidenceOrder {
  import opened Orders
  import opened Utf8
  import opened EvidenceRender
  import opened EvidencePack
  import opened EvidenceReader

  // ---- Channels ----

  /** `channel` lists exactly the units that `keep` accepts, in input order. */
  ghost predicate Lists(units: seq<Unit>, channel: seq<Unit>, keep: Unit -> bool) {
    if units == [] then channel == [] else
      var front, u := units[..|units| - 1], units[|units| - 1];
      if keep(u) then channel != [] && channel[|channel| - 1] == u && Lists(front, channel[..|channel| - 1], keep)
      else Lists(front, channel, keep)
  }

  lemma {:induction false} WhereLists(units: seq<Unit>, p: Unit -> bool, keep: Unit -> bool)
    requires forall u :: p(u) <==> keep(u)
    ensures Lists(units, Where(units, p), keep)
  {
    if units != [] {
      var front, u := units[..|units| - 1], units[|units| - 1];
      WhereLists(front, p, keep);
      assert Where(units, p) == if keep(u) then Where(front, p) + [u] else Where(front, p);
    }
  }

  // ---- Alternation ----

  predicate StandsAt(o: seq<Unit>, k: nat, u: Unit) { k < |o| && o[k] == u }

  /** Where the `i`-th unit of the first, second and third of three alternating channels stands
      when the others have the given sizes. */
  function FirstPlace(i: nat, b: nat, c: nat): nat { i + Min(i, b) + Min(i, c) }
  function SecondPlace(i: nat, a: nat, c: nat): nat { Min(i + 1, a) + i + Min(i, c) }
  function ThirdPlace(i: nat, a: nat, b: nat): nat { Min(i + 1, a) + Min(i + 1, b) + i }

  lemma {:induction false} AlternateSize(a: seq<Unit>, b: seq<Unit>, c: seq<Unit>, n: nat)
    ensures |Alternate(a, b, c, n)| == Min(n, |a|) + Min(n, |b|) + Min(n, |c|)
    decreases n
  {
    if n > 0 { AlternateSize(a, b, c, n - 1); }
  }

  /** The last round: what stood before it still does. */
  lemma AlternateRound(a: seq<Unit>, b: seq<Unit>, c: seq<Unit>, n: nat) returns (x: seq<Unit>, y: seq<Unit>)
    requires n > 0
    ensures x == Alternate(a, b, c, n - 1) && y == Alternate(a, b, c, n)
    ensures |x| == Min(n - 1, |a|) + Min(n - 1, |b|) + Min(n - 1, |c|) && |x| <= |y| && y[..|x|] == x
    ensures n <= |a| ==> StandsAt(y, FirstPlace(n - 1, |b|, |c|), a[n - 1])
    ensures n <= |b| ==> StandsAt(y, SecondPlace(n - 1, |a|, |c|), b[n - 1])
    ensures n <= |c| ==> StandsAt(y, ThirdPlace(n - 1, |a|, |b|), c[n - 1])
  {
    x, y := LastRound(a, b, c, n);
    RoundPlaces(x, y, a, b, c, n - 1);
  }

  lemma LastRound(a: seq<Unit>, b: seq<Unit>, c: seq<Unit>, n: nat) returns (x: seq<Unit>, y: seq<Unit>)
    requires n > 0
    ensures x == Alternate(a, b, c, n - 1) && |x| == Min(n - 1, |a|) + Min(n - 1, |b|) + Min(n - 1, |c|)
    ensures y == Alternate(a, b, c, n) && y == x + At(a, n - 1) + At(b, n - 1) + At(c, n - 1)
  {
    AlternateSize(a, b, c, n - 1);
    x, y := Alternate(a, b, c, n - 1), Alternate(a, b, c, n);
  }

  lemma RoundPlaces(x: seq<Unit>, y: seq<Unit>, a: seq<Unit>, b: seq<Unit>, c: seq<Unit>, i: nat)
    requires y == x + At(a, i) + At(b, i) + At(c, i) && |x| == Min(i, |a|) + Min(i, |b|) + Min(i, |c|)
    ensures |x| <= |y| && y[..|x|] == x
    ensures i < |a| ==> StandsAt(y, FirstPlace(i, |b|, |c|), a[i])
    ensures i < |b| ==> StandsAt(y, SecondPlace(i, |a|, |c|), b[i])
    ensures i < |c| ==> StandsAt(y, ThirdPlace(i, |a|, |b|), c[i])
  {
  }

  lemma StandsStill(x: seq<Unit>, y: seq<Unit>, k: nat, u: Unit)
    requires |x| <= |y| && y[..|x|] == x && StandsAt(x, k, u)
    ensures StandsAt(y, k, u)
  {
    assert y[..|x|][k] == y[k];
  }

  lemma {:induction false} FirstStands(a: seq<Unit>, b: seq<Unit>, c: seq<Unit>, n: nat, i: nat)
    requires i < n && i < |a|
    ensures StandsAt(Alternate(a, b, c, n), FirstPlace(i, |b|, |c|), a[i])
    decreases n
  {
    var x, y := AlternateRound(a, b, c, n);
    if i < n - 1 {
      FirstStands(a, b, c, n - 1, i);
      StandsStill(x, y, FirstPlace(i, |b|, |c|), a[i]);
    }
  }

  lemma {:induction false} SecondStands(a: seq<Unit>, b: seq<Unit>, c: seq<Unit>, n: nat, i: nat)
    requires i < n && i < |b|
    ensures StandsAt(Alternate(a, b, c, n), SecondPlace(i, |a|, |c|), b[i])
    decreases n
  {
    var x, y := AlternateRound(a, b, c, n);
    if i < n - 1 {
      SecondStands(a, b, c, n - 1, i);
      StandsStill(x, y, SecondPlace(i, |a|, |c|), b[i]);
    }
  }

  lemma {:induction false} ThirdStands(a: seq<Unit>, b: seq<Unit>, c: seq<Unit>, n: nat, i: nat)
    requires i < n && i < |c|
    ensures StandsAt(Alternate(a, b, c, n), ThirdPlace(i, |a|, |b|), c[i])
    decreases n
  {
    var x, y := AlternateRound(a, b, c, n);
    if i < n - 1 {
      ThirdStands(a, b, c, n - 1, i);
      StandsStill(x, y, ThirdPlace(i, |a|, |b|), c[i]);
    }
  }

  /** Every unit of a channel, by its place in the channel, stands at the given place. */
  ghost predicate FirstPlaced(o: seq<Unit>, a: seq<Unit>, b: nat, c: nat) {
    forall i: nat {:trigger a[i]} :: i < |a| ==> StandsAt(o, FirstPlace(i, b, c), a[i])
  }

  ghost predicate SecondPlaced(o: seq<Unit>, b: seq<Unit>, a: nat, c: nat) {
    forall i: nat {:trigger b[i]} :: i < |b| ==> StandsAt(o, SecondPlace(i, a, c), b[i])
  }

  ghost predicate ThirdPlaced(o: seq<Unit>, c: seq<Unit>, a: nat, b: nat) {
    forall i: nat {:trigger c[i]} :: i < |c| ==> StandsAt(o, ThirdPlace(i, a, b), c[i])
  }

  lemma AlternatePlaced(a: seq<Unit>, b: seq<Unit>, c: seq<Unit>, n: nat, o: seq<Unit>)
    requires o == Alternate(a, b, c, n) && n >= |a| && n >= |b| && n >= |c|
    ensures |o| == |a| + |b| + |c|
    ensures FirstPlaced(o, a, |b|, |c|) && SecondPlaced(o, b, |a|, |c|) && ThirdPlaced(o, c, |a|, |b|)
  {
    AlternateSize(a, b, c, n);
    forall i: nat | i < |a| ensures StandsAt(o, FirstPlace(i, |b|, |c|), a[i]) { FirstStands(a, b, c, n, i); }
    forall i: nat | i < |b| ensures StandsAt(o, SecondPlace(i, |a|, |c|), b[i]) { SecondStands(a, b, c, n, i); }
    forall i: nat | i < |c| ensures StandsAt(o, ThirdPlace(i, |a|, |b|), c[i]) { ThirdStands(a, b, c, n, i); }
  }

  /** Profiles first, recency last, and between them memory units and documents in turn; in
      `m` episodes, summaries and claims in turn. Every channel keeps its own order. */
  ghost predicate Alternates(o: seq<Unit>, p: seq<Unit>, e: seq<Unit>, s: seq<Unit>, c: seq<Unit>, d: seq<Unit>, r: seq<Unit>) {
    exists m, x :: o == p + x + r
      && |m| == |e| + |s| + |c| && FirstPlaced(m, e, |s|, |c|) && SecondPlaced(m, s, |e|, |c|) && ThirdPlaced(m, c, |e|, |s|)
      && |x| == |m| + |d| && FirstPlaced(x, m, |d|, 0) && SecondPlaced(x, d, |m|, 0)
  }

  /** The consideration order of any input, channel by channel. */
  lemma ConsiderationOrder(units: seq<Unit>)
    returns (p: seq<Unit>, e: seq<Unit>, s: seq<Unit>, c: seq<Unit>, d: seq<Unit>, r: seq<Unit>)
    ensures Lists(units, p, ProfileUnit) && Lists(units, e, EpisodeUnit) && Lists(units, s, SummaryUnit)
    ensures Lists(units, c, ClaimUnit) && Lists(units, d, DocumentUnit) && Lists(units, r, RecencyUnit)
    ensures Alternates(Ordered(units), p, e, s, c, d, r)
  {
    p, e, s := Where(units, IsProfile), Where(units, IsEpisode), Where(units, IsSummary);
    c, d, r := Where(units, IsClaim), Where(units, IsDocument), Where(units, Recent);
    WhereLists(units, IsProfile, ProfileUnit);
    WhereLists(units, IsEpisode, EpisodeUnit);
    WhereLists(units, IsSummary, SummaryUnit);
    WhereLists(units, IsClaim, ClaimUnit);
    WhereLists(units, IsDocument, DocumentUnit);
    WhereLists(units, Recent, RecencyUnit);
    OrderedAlternates(units, p, e, s, c, d, r);
  }

  lemma OrderedAlternates(units: seq<Unit>, p: seq<Unit>, e: seq<Unit>, s: seq<Unit>, c: seq<Unit>, d: seq<Unit>, r: seq<Unit>)
    requires p == Where(units, IsProfile) && e == Where(units, IsEpisode) && s == Where(units, IsSummary)
    requires c == Where(units, IsClaim) && d == Where(units, IsDocument) && r == Where(units, Recent)
    ensures Alternates(Ordered(units), p, e, s, c, d, r)
  {
    var m := Memory(units);
    var x := Alternate(m, d, [], Max(|m|, |d|));
    AlternatePlaced(e, s, c, Max(|e|, Max(|s|, |c|)), m);
    AlternatePlaced(m, d, [], Max(|m|, |d|), x);
    assert Ordered(units) == p + x + r;
  }

  function RecencyText(): Text { Ascii("recency_observation") }

  predicate ProfileUnit(u: Unit) { u.layer == Profile }
  predicate DocumentUnit(u: Unit) { u.layer == Documents }
  predicate RecencyUnit(u: Unit) { u.role == RecencyText() }
  predicate SummaryUnit(u: Unit) { u.layer == Summaries && u.role != RecencyText() }
  predicate EpisodeUnit(u: Unit) { (u.layer == RecentEpisodes || u.layer == SessionSummaries) && u.role != RecencyText() }
  predicate ClaimUnit(u: Unit) {
    (u.layer == PinnedFacts || u.layer == HighSalienceBeliefs || u.layer == QueryNeighborhood) && u.role != RecencyText()
  }

  /** The places alternate: within a round first, second and third stand in that order, and
      nothing of a later round stands before anything of an earlier one. */
  lemma RoundsInOrder(a: nat, b: nat, c: nat, i: nat, j: nat)
    requires i < j
    ensures i < a ==> FirstPlace(i, b, c) < SecondPlace(i, a, c) && FirstPlace(i, b, c) < ThirdPlace(i, a, b)
    ensures i < b ==> SecondPlace(i, a, c) < ThirdPlace(i, a, b)
    ensures i < a ==> FirstPlace(i, b, c) < FirstPlace(j, b, c)
    ensures i < b ==> SecondPlace(i, a, c) < FirstPlace(j, b, c)
    ensures i < c ==> ThirdPlace(i, a, b) < FirstPlace(j, b, c)
    ensures FirstPlace(j, b, c) <= SecondPlace(j, a, c) || j >= a
  {
  }

  // ---- Candidates of one unit ----

  /** A unit offers its own text first, then each shorter variant in turn. */
  lemma CandidatesListed(u: Unit)
    ensures |Candidates(u)| == 1 + |u.variants| && Candidates(u)[0] == Chosen(u, u.text, u.source)
    ensures forall i :: 0 <= i < |u.variants| ==> Candidates(u)[i + 1] == Chosen(u, u.variants[i].text, u.variants[i].source)
  {
  }

  /** Two coordinates in one decoded view of one revision: they differ at most in their range. */
  predicate SameView(a: Source, b: Source) { a.(start := 0, end := 0) == b.(start := 0, end := 0) }

  /** A coordinate counts as delivered when one delivered range of the same view holds it all. */
  lemma DeliveredMeaning(selected: seq<Chosen>, candidate: Source)
    requires candidate.start < candidate.end
    ensures Delivered(selected, candidate) <==>
      exists i :: 0 <= i < |selected| && SameView(selected[i].source, candidate) && HoldsBytes(selected[i].source, candidate)
  {
    forall i | 0 <= i < |selected|
      ensures Contains(selected[i].source, candidate) <==> SameView(selected[i].source, candidate) && HoldsBytes(selected[i].source, candidate)
    {
      ContainsMeaning(selected[i].source, candidate);
    }
  }

  ghost predicate HoldsBytes(a: Source, b: Source) {
    forall k {:trigger InSource(a, k)} :: InSource(b, k) ==> InSource(a, k)
  }

  predicate InSource(s: Source, k: nat) { s.start <= k < s.end }

  lemma ContainsMeaning(a: Source, b: Source)
    requires b.start < b.end
    ensures Contains(a, b) <==> SameView(a, b) && HoldsBytes(a, b)
  {
    assert InSource(b, b.start) && InSource(b, b.end - 1);
    if HoldsBytes(a, b) { assert InSource(a, b.start) && InSource(a, b.end - 1); }
  }

  /** When a rendering is accepted: within the whole budget and the metadata limit; a profile unit
      only while the whole stays within a quarter of the budget and the profile limit; a recency
      unit only while all recency units together have added at most a tenth of the budget and the
      recency limit. */
  lemma AcceptsExactly(env: Env, u: Unit, before: nat, r: Rendering, spent: nat)
    requires before <= r.context.total
    ensures Accepts(env, u, before, r, spent) <==>
      && r.context.total <= env.budget && env.metadata(r.evidence) <= env.policy.metadataBytes
      && (u.layer == Profile ==> 4 * r.context.total <= env.budget && r.context.total <= env.policy.profileTokens)
      && (u.layer != Profile && u.role == RecencyText() ==>
            10 * (spent + r.context.total - before) <= env.budget
            && spent + r.context.total - before <= env.policy.recencyTokens)
  {
  }

  // ---- Reasons ----

  /** What one failed candidate says about its unit: nothing, or why it was left out. */
  ghost function Says(env: Env, selected: seq<Chosen>, c: Chosen): Option<Reason> {
    if Delivered(selected, c.source) then Some(DuplicateRange)
    else if env.metadata(env.plain(selected + [c]).evidence) > env.policy.metadataBytes then Some(OverMetadata)
    else None
  }

  /** The last candidate that says something gives the reason; when none does, it is the budget. */
  ghost predicate LastSays(env: Env, selected: seq<Chosen>, candidates: seq<Chosen>, otherwise: Reason, reason: Reason) {
    || (reason == otherwise && forall i :: 0 <= i < |candidates| ==> Says(env, selected, candidates[i]).None?)
    || exists i :: 0 <= i < |candidates| && SaysLast(env, selected, candidates, i, reason)
  }

  ghost predicate SaysLast(env: Env, selected: seq<Chosen>, candidates: seq<Chosen>, i: nat, reason: Reason)
    requires i < |candidates|
  {
    && Says(env, selected, candidates[i]) == Some(reason)
    && forall j :: i < j < |candidates| ==> Says(env, selected, candidates[j]).None?
  }

  lemma {:induction false} TryAllReason(env: Env, u: Unit, candidates: seq<Chosen>, selected: seq<Chosen>, spent: nat, reason: Reason)
    requires TryAll(env, u, candidates, selected, spent, reason).selected == selected
    ensures LastSays(env, selected, candidates, reason, TryAll(env, u, candidates, selected, spent, reason).reason)
    decreases |candidates|
  {
    if candidates != [] {
      var rest := candidates[1..];
      var said := Says(env, selected, candidates[0]);
      var next := if said.Some? then said.value else reason;
      TryAllReason(env, u, rest, selected, spent, next);
      LastSaysCons(env, selected, candidates, reason, TryAll(env, u, candidates, selected, spent, reason).reason);
    }
  }

  lemma LastSaysCons(env: Env, selected: seq<Chosen>, candidates: seq<Chosen>, otherwise: Reason, reason: Reason)
    requires candidates != []
    requires var said := Says(env, selected, candidates[0]);
      LastSays(env, selected, candidates[1..], if said.Some? then said.value else otherwise, reason)
    ensures LastSays(env, selected, candidates, otherwise, reason)
  {
    var rest := candidates[1..];
    if i :| 0 <= i < |rest| && SaysLast(env, selected, rest, i, reason) {
      forall j | i + 1 < j < |candidates| ensures Says(env, selected, candidates[j]).None? { assert candidates[j] == rest[j - 1]; }
      assert SaysLast(env, selected, candidates, i + 1, reason);
    } else {
      forall j | 1 <= j < |candidates| ensures Says(env, selected, candidates[j]).None? { assert candidates[j] == rest[j - 1]; }
      if Says(env, selected, candidates[0]).Some? { assert SaysLast(env, selected, candidates, 0, reason); }
    }
  }

  /** The reason recorded for a unit that was not delivered. */
  lemma LeftOutReason(env: Env, p: Packing, u: Unit)
    requires Consider(env, p, u).selected == p.selected
    ensures var q := Consider(env, p, u);
      && q.decisions == p.decisions + [Decision(u.id, q.decisions[|p.decisions|].reason)]
      && var reason := q.decisions[|p.decisions|].reason;
         if u.id in p.seen then reason == DuplicateRange
         else if u.role == Ascii("summary") && u.support == [] then reason == MissingSupport
         else LastSays(env, p.selected, Candidates(u), OverBudget, reason)
  {
    ConsiderOk(env, p, u);
    if u.id !in p.seen && !(u.role == Ascii("summary") && u.support == []) {
      TryAllReason(env, u, Candidates(u), p.selected, p.spent, OverBudget);
    }
  }

  /** A result is truncated exactly when the budget or the metadata limit left a unit out, or a
      unit was delivered shortened. */
  lemma TruncatedExactly(env: Env, units: seq<Unit>)
    ensures Pack(env, units).truncated <==>
      exists i :: 0 <= i < |Pack(env, units).decisions| && Pack(env, units).decisions[i].reason in {OverBudget, OverMetadata, WasShortened}
  {
  }

  // ---- Layers ----

  function Order(k: LayerKind): nat {
    match k
    case Profile => 0
    case PinnedFacts => 1
    case HighSalienceBeliefs => 2
    case QueryNeighborhood => 3
    case Documents => 4
    case Summaries => 5
    case RecentEpisodes => 6
    case SessionSummaries => 7
  }

  /** One layer a kind, in the fixed kind order. */
  ghost predicate KindsRise(layers: seq<Layer>) {
    forall i, j {:trigger KindBefore(layers, i, j)} :: 0 <= i < j < |layers| ==> KindBefore(layers, i, j)
  }

  predicate KindBefore(layers: seq<Layer>, i: nat, j: nat)
    requires i < j < |layers|
  {
    Order(layers[i].kind) < Order(layers[j].kind)
  }

  /** What the entry at `n` contributes to its layer's text. */
  function EntryText(c: Chosen, f: Frame): Text { f.head + c.text + f.tail }

  /** The entries of one kind among the first `n`, in order. */
  function EntriesOf(sorted: seq<Chosen>, framing: Framing, n: nat, kind: LayerKind): seq<Text>
    requires n <= |sorted|
  {
    if n == 0 then [] else
      EntriesOf(sorted, framing, n - 1, kind) +
      (if sorted[n - 1].unit.layer == kind then [EntryText(sorted[n - 1], framing(sorted[n - 1], n))] else [])
  }

  /** The sources of those entries. */
  function ReferencesOf(sorted: seq<Chosen>, n: nat, kind: LayerKind): seq<Text>
    requires n <= |sorted|
  {
    if n == 0 then [] else
      ReferencesOf(sorted, n - 1, kind) + (if sorted[n - 1].unit.layer == kind then [sorted[n - 1].source.reference] else [])
  }

  /** The layer's text is its entries, one a line, and its provenance their sources. */
  ghost predicate LayerWritten(sorted: seq<Chosen>, framing: Framing, n: nat, l: Layer)
    requires n <= |sorted|
  {
    && EntriesOf(sorted, framing, n, l.kind) != []
    && l.text == Join(EntriesOf(sorted, framing, n, l.kind), [10]) && l.provenance == ReferencesOf(sorted, n, l.kind)
  }

  ghost predicate AllWritten(sorted: seq<Chosen>, framing: Framing, n: nat, layers: seq<Layer>)
    requires n <= |sorted|
  {
    forall i {:trigger LayerWritten(sorted, framing, n, layers[i])} :: 0 <= i < |layers| ==> LayerWritten(sorted, framing, n, layers[i])
  }

  /** No frame starts empty, so an entry is never the empty text. */
  ghost predicate Headed(framing: Framing) {
    forall c, n :: framing(c, n).head != []
  }

  lemma FramesHeaded(compact: bool)
    ensures Headed(FramingOf(compact))
  {
    forall c: Chosen, n: nat ensures FramingOf(compact)(c, n).head != [] {
      assert |Ascii("[")| == 1;
      if compact { assert |CompactHead(c, n)| >= |Ascii("[")|; } else { assert |HeadCoordinates(c)| >= |Ascii("[")|; }
    }
  }

  lemma JoinPush(parts: seq<Text>, last: Text, separator: Text)
    ensures Join(parts + [last], separator) == if parts == [] then last else Join(parts, separator) + separator + last
  {
    assert (parts + [last])[..|parts|] == parts;
  }

  lemma {:induction false} JoinNonEmpty(parts: seq<Text>)
    requires parts != [] && parts[0] != []
    ensures Join(parts, [10]) != []
  {
    if |parts| > 1 { assert parts[..|parts| - 1] != []; }
  }

  lemma {:induction false} EntriesNonEmpty(sorted: seq<Chosen>, framing: Framing, n: nat, kind: LayerKind)
    requires n <= |sorted| && Headed(framing)
    ensures forall i :: 0 <= i < |EntriesOf(sorted, framing, n, kind)| ==> EntriesOf(sorted, framing, n, kind)[i] != []
    decreases n
  {
    if n > 0 { EntriesNonEmpty(sorted, framing, n - 1, kind); }
  }

  lemma {:induction false} NoEntries(sorted: seq<Chosen>, framing: Framing, n: nat, kind: LayerKind)
    requires n <= |sorted| && forall i :: 0 <= i < n ==> sorted[i].unit.layer != kind
    ensures EntriesOf(sorted, framing, n, kind) == [] && ReferencesOf(sorted, n, kind) == []
    decreases n
  {
    if n > 0 { NoEntries(sorted, framing, n - 1, kind); }
  }

  /** The text of a layer once entry `n` of its kind has joined it. */
  lemma EntryJoins(sorted: seq<Chosen>, framing: Framing, n: nat, before: Layer, f: Frame)
    requires n < |sorted| && Headed(framing) && f == framing(sorted[n], n + 1) && before.kind == sorted[n].unit.layer
    requires LayerWritten(sorted, framing, n, before)
      || (before.text == [] && before.provenance == []
          && EntriesOf(sorted, framing, n, before.kind) == [] && ReferencesOf(sorted, n, before.kind) == [])
    ensures LayerWritten(sorted, framing, n + 1, Extended(before, sorted[n], f))
  {
    var entries := EntriesOf(sorted, framing, n, before.kind);
    JoinPush(entries, EntryText(sorted[n], f), [10]);
    if entries != [] {
      EntriesNonEmpty(sorted, framing, n, before.kind);
      JoinNonEmpty(entries);
      assert Opened(before.text) + f.head + sorted[n].text + f.tail == before.text + [10] + EntryText(sorted[n], f);
    } else {
      assert [] + f.head + sorted[n].text + f.tail == EntryText(sorted[n], f);
    }
    assert EntriesOf(sorted, framing, n + 1, before.kind) == entries + [EntryText(sorted[n], f)];
  }

  lemma OtherKinds(sorted: seq<Chosen>, framing: Framing, n: nat, l: Layer)
    requires n < |sorted| && l.kind != sorted[n].unit.layer && LayerWritten(sorted, framing, n, l)
    ensures LayerWritten(sorted, framing, n + 1, l)
  {
    assert EntriesOf(sorted, framing, n + 1, l.kind) == EntriesOf(sorted, framing, n, l.kind);
    assert ReferencesOf(sorted, n + 1, l.kind) == ReferencesOf(sorted, n, l.kind);
  }

  predicate KindsApart(s: seq<Chosen>, i: nat, j: nat)
    requires i < j < |s|
  {
    Order(s[i].unit.layer) <= Order(s[j].unit.layer)
  }

  /** The entries come in kind order. */
  ghost predicate RisingKinds(s: seq<Chosen>) {
    forall i, j {:trigger KindsApart(s, i, j)} :: 0 <= i < j < |s| ==> KindsApart(s, i, j)
  }

  /** After `n` entries: kinds rise, each layer is written, and the last layer is the last entry's. */
  ghost predicate Written(sorted: seq<Chosen>, framing: Framing, n: nat, layers: seq<Layer>)
    requires n <= |sorted|
  {
    && KindsRise(layers) && AllWritten(sorted, framing, n, layers)
    && (n == 0 <==> layers == []) && (n > 0 ==> layers[|layers| - 1].kind == sorted[n - 1].unit.layer)
  }

  /** Placing an entry keeps every layer but the last, which has the entry's kind. */
  lemma PlacedKinds(layers: seq<Layer>, c: Chosen, f: Frame) returns (before: Layer, after: seq<Layer>)
    ensures after == Placed(layers, c, f) && after != [] && |after| - 1 <= |layers| <= |after|
    ensures forall i :: 0 <= i < |after| - 1 ==> after[i] == layers[i]
    ensures before.kind == c.unit.layer && after[|after| - 1] == Extended(before, c, f)
    ensures if |after| == |layers| then before == layers[|layers| - 1] else before == Layer(c.unit.layer, [], 0, [])
    ensures |after| > |layers| ==> layers == [] || layers[|layers| - 1].kind != c.unit.layer
  {
    var open := WithLayer(layers, c.unit.layer);
    before, after := open[|open| - 1], Placed(layers, c, f);
  }

  lemma RiseNext(layers: seq<Layer>, after: seq<Layer>)
    requires KindsRise(layers) && after != [] && |after| - 1 <= |layers| <= |after|
    requires forall i :: 0 <= i < |after| - 1 ==> after[i] == layers[i]
    requires |after| == |layers| ==> after[|after| - 1].kind == layers[|layers| - 1].kind
    requires |after| > |layers| ==> forall i :: 0 <= i < |layers| ==> Order(layers[i].kind) < Order(after[|layers|].kind)
    ensures KindsRise(after)
  {
    forall i, j | 0 <= i < j < |after| ensures KindBefore(after, i, j) {
      assert j < |layers| ==> KindBefore(layers, i, j);
    }
  }

  lemma WrittenNext(sorted: seq<Chosen>, framing: Framing, n: nat, layers: seq<Layer>, f: Frame) returns (after: seq<Layer>)
    requires n < |sorted| && Headed(framing) && RisingKinds(sorted) && Written(sorted, framing, n, layers)
    requires f == framing(sorted[n], n + 1)
    ensures after == Placed(layers, sorted[n], f) && Written(sorted, framing, n + 1, after)
  {
    var before: Layer;
    before, after := PlacedKinds(layers, sorted[n], f);
    var last := |after| - 1;
    if |after| > |layers| {
      NewKind(sorted, framing, n, layers);
    } else {
      assert LayerWritten(sorted, framing, n, layers[last]);
    }
    RiseNext(layers, after);
    EntryJoins(sorted, framing, n, before, f);
    forall i | 0 <= i < |after| ensures LayerWritten(sorted, framing, n + 1, after[i]) {
      if i < last {
        assert KindBefore(after, i, last);
        assert LayerWritten(sorted, framing, n, layers[i]);
        OtherKinds(sorted, framing, n, layers[i]);
      }
    }
  }

  lemma RanksAgree(k: LayerKind)
    ensures Rank(k) == Order(k)
  {
  }

  /** A kind that opens a layer has not occurred before. */
  lemma NewKind(sorted: seq<Chosen>, framing: Framing, n: nat, layers: seq<Layer>)
    requires n < |sorted| && RisingKinds(sorted) && Written(sorted, framing, n, layers)
    requires layers == [] || layers[|layers| - 1].kind != sorted[n].unit.layer
    ensures EntriesOf(sorted, framing, n, sorted[n].unit.layer) == [] && ReferencesOf(sorted, n, sorted[n].unit.layer) == []
    ensures forall i :: 0 <= i < |layers| ==> Order(layers[i].kind) < Order(sorted[n].unit.layer)
  {
    if n > 0 { KindIsNew(sorted, n); }
    NoEntries(sorted, framing, n, sorted[n].unit.layer);
    forall i | 0 <= i < |layers| ensures Order(layers[i].kind) < Order(sorted[n].unit.layer) {
      assert i < |layers| - 1 ==> KindBefore(layers, i, |layers| - 1);
    }
  }

  lemma KindIsNew(sorted: seq<Chosen>, n: nat)
    requires 0 < n < |sorted| && RisingKinds(sorted) && sorted[n - 1].unit.layer != sorted[n].unit.layer
    ensures Order(sorted[n - 1].unit.layer) < Order(sorted[n].unit.layer)
    ensures forall i :: 0 <= i < n ==> sorted[i].unit.layer != sorted[n].unit.layer
  {
    KindsBefore(sorted, n - 1, n);
    OrderInjective(sorted[n - 1].unit.layer, sorted[n].unit.layer);
    forall i | 0 <= i < n ensures sorted[i].unit.layer != sorted[n].unit.layer {
      if i < n - 1 { KindsBefore(sorted, i, n - 1); }
    }
  }

  lemma KindsBefore(sorted: seq<Chosen>, i: nat, j: nat)
    requires i < j < |sorted| && RisingKinds(sorted)
    ensures Order(sorted[i].unit.layer) <= Order(sorted[j].unit.layer)
  {
    assert KindsApart(sorted, i, j);
  }

  lemma SortedRises(sorted: seq<Chosen>)
    requires SortedBy(sorted, LayerOrder)
    ensures RisingKinds(sorted)
  {
    forall i, j | 0 <= i < j < |sorted| ensures KindsApart(sorted, i, j) {
      assert LayerOrder(sorted[i], sorted[j]);
      RanksAgree(sorted[i].unit.layer);
      RanksAgree(sorted[j].unit.layer);
    }
  }

  lemma OrderInjective(a: LayerKind, b: LayerKind)
    ensures Order(a) == Order(b) ==> a == b
  {
  }

  /** The layers once one more entry is placed. */
  function Placed(layers: seq<Layer>, c: Chosen, f: Frame): seq<Layer> {
    var open := WithLayer(layers, c.unit.layer);
    open[|open| - 1 := Extended(open[|open| - 1], c, f)]
  }

  /** The layers of the first `n` entries. */
  function LayersOf(sorted: seq<Chosen>, framing: Framing, n: nat): seq<Layer>
    requires n <= |sorted|
  {
    if n == 0 then [] else Placed(LayersOf(sorted, framing, n - 1), sorted[n - 1], framing(sorted[n - 1], n))
  }

  lemma PlacedLayers(before: Layout, c: Chosen, f: Frame)
    ensures Place(before, c, f).layers == Placed(before.layers, c, f)
  {
  }

  lemma LayersOfNext(sorted: seq<Chosen>, framing: Framing, n: nat, before: seq<Layer>)
    requires n < |sorted| && before == LayersOf(sorted, framing, n)
    ensures LayersOf(sorted, framing, n + 1) == Placed(before, sorted[n], framing(sorted[n], n + 1))
  {
  }

  predicate Entries(n: nat) { true }

  /** The rendered layers of the first `n` entries are those placed one by one. (The definition is
      looked up only where `Entries(n)` is mentioned.) */
  ghost predicate AgreeAfter(sorted: seq<Chosen>, framing: Framing, n: nat) {
    forall i: nat {:trigger Entries(i)} :: i == n && Entries(i) ==>
      i <= |sorted| && LayOut(sorted[..i], framing).layers == LayersOf(sorted, framing, i)
  }

  lemma AgreeNext(sorted: seq<Chosen>, framing: Framing, n: nat)
    requires n < |sorted| && AgreeAfter(sorted, framing, n)
    ensures AgreeAfter(sorted, framing, n + 1)
  {
    assert Entries(n);
    LayOutNext(sorted, n, framing);
    PlacedLayers(LayOut(sorted[..n], framing), sorted[n], framing(sorted[n], n + 1));
    LayersOfNext(sorted, framing, n, LayersOf(sorted, framing, n));
  }

  lemma AgreeNone(sorted: seq<Chosen>, framing: Framing)
    ensures AgreeAfter(sorted, framing, 0)
  {
    assert sorted[..0] == [];
  }

  lemma {:induction false} LayersAgree(sorted: seq<Chosen>, framing: Framing, n: nat)
    requires n <= |sorted|
    ensures AgreeAfter(sorted, framing, n)
    decreases n
  {
    if n > 0 {
      LayersAgree(sorted, framing, n - 1);
      AgreeNext(sorted, framing, n - 1);
    } else {
      AgreeNone(sorted, framing);
    }
  }

  /** The layers of the first `n` entries are written. (The definition is looked up only where
      `Entries(n)` is mentioned.) */
  ghost predicate WrittenAfter(sorted: seq<Chosen>, framing: Framing, n: nat) {
    forall i: nat {:trigger Entries(i)} :: i == n && Entries(i) ==> i <= |sorted| && Written(sorted, framing, i, LayersOf(sorted, framing, i))
  }

  lemma WrittenOpen(sorted: seq<Chosen>, framing: Framing, n: nat) returns (layers: seq<Layer>)
    requires n <= |sorted| && WrittenAfter(sorted, framing, n)
    ensures layers == LayersOf(sorted, framing, n) && Written(sorted, framing, n, layers)
  {
    assert Entries(n);
    layers := LayersOf(sorted, framing, n);
  }

  lemma WrittenClose(sorted: seq<Chosen>, framing: Framing, n: nat, before: seq<Layer>, after: seq<Layer>)
    requires n < |sorted| && before == LayersOf(sorted, framing, n) && after == Placed(before, sorted[n], framing(sorted[n], n + 1))
    requires Written(sorted, framing, n + 1, after)
    ensures WrittenAfter(sorted, framing, n + 1)
  {
    LayersOfNext(sorted, framing, n, before);
  }

  lemma LayersNext(sorted: seq<Chosen>, framing: Framing, n: nat)
    requires n < |sorted| && Headed(framing) && RisingKinds(sorted) && WrittenAfter(sorted, framing, n)
    ensures WrittenAfter(sorted, framing, n + 1)
  {
    var before := WrittenOpen(sorted, framing, n);
    var after := WrittenNext(sorted, framing, n, before, framing(sorted[n], n + 1));
    WrittenClose(sorted, framing, n, before, after);
  }

  lemma LayersNone(sorted: seq<Chosen>, framing: Framing)
    ensures WrittenAfter(sorted, framing, 0)
  {
    assert Written(sorted, framing, 0, []);
  }

  lemma {:induction false} LayersWritten(sorted: seq<Chosen>, framing: Framing, n: nat)
    requires n <= |sorted| && Headed(framing) && RisingKinds(sorted)
    ensures WrittenAfter(sorted, framing, n)
    decreases n
  {
    if n > 0 {
      LayersWritten(sorted, framing, n - 1);
      LayersNext(sorted, framing, n - 1);
    } else {
      LayersNone(sorted, framing);
    }
  }

  /** The rendered context: one layer a kind, in the fixed kind order; each layer's text is its
      entries one a line, in selection order, its provenance their sources, and its count the
      tokenizer's. */
  lemma RenderedLayers(selected: seq<Chosen>, budget: nat, tok: Text -> nat, compact: bool) returns (sorted: seq<Chosen>)
    ensures LayersHold(sorted, Rendered(selected, budget, tok, FramingOf(compact)).context.layers, FramingOf(compact), tok)
    ensures multiset(sorted) == multiset(selected)
    ensures forall kind :: Keep(sorted, KindIs(kind)) == Keep(selected, KindIs(kind))
  {
    sorted := Sort(selected, LayerOrder);
    LayerOrderTotal();
    SortSorts(selected, LayerOrder);
    LayOutLayers(sorted, FramingOf(compact), compact);
    RenderedCounted(selected, sorted, budget, tok, FramingOf(compact));
    CountedWritten(sorted, FramingOf(compact), LayersOf(sorted, FramingOf(compact), |sorted|), tok);
    forall kind ensures Keep(sorted, KindIs(kind)) == Keep(selected, KindIs(kind)) {
      SortKeeps(selected, LayerOrder, KindIs(kind));
    }
  }

  ghost predicate LayersHold(sorted: seq<Chosen>, layers: seq<Layer>, framing: Framing, tok: Text -> nat) {
    && KindsRise(layers) && AllWritten(sorted, framing, |sorted|, layers)
    && forall i :: 0 <= i < |layers| ==> layers[i].tokens == tok(layers[i].text)
  }

  lemma RenderedCounted(selected: seq<Chosen>, sorted: seq<Chosen>, budget: nat, tok: Text -> nat, framing: Framing)
    requires sorted == Sort(selected, LayerOrder)
    ensures Rendered(selected, budget, tok, framing).context.layers == Counted(LayersOf(sorted, framing, |sorted|), tok)
  {
    LayersAgree(sorted, framing, |sorted|);
    assert Entries(|sorted|);
    assert sorted[..|sorted|] == sorted;
  }

  lemma LayOutLayers(sorted: seq<Chosen>, framing: Framing, compact: bool)
    requires framing == FramingOf(compact) && SortedBy(sorted, LayerOrder)
    ensures Written(sorted, framing, |sorted|, LayersOf(sorted, framing, |sorted|))
  {
    SortedRises(sorted);
    FramesHeaded(compact);
    LayersWritten(sorted, framing, |sorted|);
    assert Entries(|sorted|);
  }

  lemma CountedWritten(sorted: seq<Chosen>, framing: Framing, layers: seq<Layer>, tok: Text -> nat)
    requires Written(sorted, framing, |sorted|, layers)
    ensures LayersHold(sorted, Counted(layers, tok), framing, tok)
  {
    var counted := Counted(layers, tok);
    forall i, j | 0 <= i < j < |counted| ensures KindBefore(counted, i, j) { assert KindBefore(layers, i, j); }
    forall i | 0 <= i < |counted| ensures LayerWritten(sorted, framing, |sorted|, counted[i]) {
      assert LayerWritten(sorted, framing, |sorted|, layers[i]);
    }
  }

  lemma LayerOrderTotal()
    ensures TotalPreorder(LayerOrder)
  {
  }

  function KindIs(kind: LayerKind): Chosen -> bool { (c: Chosen) => c.unit.layer == kind }

  // ---- Citation numbers ----

  /** The number a run of decimal digits spells. */
  function Spelled(digits: Text): nat
    requires forall i :: 0 <= i < |digits| ==> 48 <= digits[i] < 58
  {
    if digits == [] then 0 else 10 * Spelled(digits[..|digits| - 1]) + (digits[|digits| - 1] as int - 48)
  }

  lemma {:induction false} DecimalSpells(n: nat)
    ensures Spelled(Decimal(n)) == n
  {
    if n >= 10 {
      DecimalSpells(n / 10);
      assert Decimal(n)[..|Decimal(n)| - 1] == Decimal(n / 10);
    } else {
      assert Decimal(n)[..0] == [];
    }
  }

  /** The last field of a head: whether part of the window is left out. */
  function ExcerptField(c: Chosen): Text {
    Ascii("; excerpt=") + Ascii(if c.source.start == c.unit.source.start && c.source.end == c.unit.source.end then "false" else "true")
  }

  function BytesOf(s: Source): Text { Decimal(s.start) + Ascii("..") + Decimal(s.end) }

  /** In the compact form a text stands behind its number, its role and whether it is an excerpt. */
  lemma CompactSpelled(c: Chosen, n: nat)
    ensures CompactFrame(c, n).id == Ascii("E") + Decimal(n) && CompactFrame(c, n).tail == []
    ensures CompactFrame(c, n).head
      == (Ascii("[") + CompactFrame(c, n).id) + (Ascii("; role=") + c.unit.role) + ExcerptField(c) + Ascii("] ")
  {
  }

  /** In the full form it stands behind its coordinate: reference, role, view, bytes delivered, whole
      window and uuid; and before its supporting sources. */
  lemma FullSpelled(c: Chosen, n: nat)
    ensures FullFrame(c, n).id == []
    ensures var place := (Ascii("[") + c.source.reference) + (Ascii("; role=") + c.unit.role) + (Ascii("; view=") + c.source.view)
        + (Ascii("; bytes=") + BytesOf(c.source));
      var window := (Ascii("; window=") + BytesOf(c.unit.source))
        + (Ascii("; uuid=") + if c.source.uuid.Some? then c.source.uuid.value else []);
      FullFrame(c, n).head == place + (window + ExcerptField(c) + Ascii("] "))
    ensures FullFrame(c, n).tail == if c.unit.support == [] then [] else [10] + Ascii("  sources: ") + Join(c.unit.support, Ascii(", "))
  {
  }

  /** An entry is marked an excerpt exactly when some of its unit's window is left out. */
  lemma ExcerptMeaning(c: Chosen)
    requires c.unit.source.start <= c.source.start && c.source.end <= c.unit.source.end
    ensures Excerpt(c) <==> OmittedRanges(c) != []
  {
  }
}
