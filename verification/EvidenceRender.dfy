/** Rendering selected evidence: framing, layers, byte-exact citations and token totals.
    `Rendered` is the plain form that counts every layer and the joined context afresh;
    the method `Render` takes counts from the previous result and skips the join for a
    single layer, and is proved to return the same value. */
module EvidenceRender {
  import opened Orders
  import opened Utf8

  datatype LayerKind =
    | Profile | PinnedFacts | HighSalienceBeliefs | QueryNeighborhood
    | Documents | Summaries | RecentEpisodes | SessionSummaries

  function Rank(k: LayerKind): nat {
    match k
    case Profile => 0
    case PinnedFacts => 1
    case HighSalienceBeliefs => 2
    case QueryNeighborhood => 3
    case Documents => 4
    case Summaries => 5
    case RecentEpisodes => 6
    case SessionSummaries => 7
  }

  datatype Source = Source(
    reference: Text, revision: Text, view: Text, viewDigest: Option<Text>, decoder: Option<Text>,
    start: nat, end: nat, uuid: Option<Text>)

  datatype Variant = Variant(text: Text, source: Source)

  datatype Unit = Unit(
    id: Text, layer: LayerKind, text: Text, source: Source, role: Text, support: seq<Text>, variants: seq<Variant>)

  /** A unit together with the text and coordinate it is delivered with. */
  datatype Chosen = Chosen(unit: Unit, text: Text, source: Source)

  datatype Layer = Layer(kind: LayerKind, text: Text, tokens: nat, provenance: seq<Text>)

  datatype Citation = Citation(
    id: Text, unitId: Text, layer: nat, start: nat, end: nat, textStart: nat, textEnd: nat,
    source: Source, role: Text, support: seq<Text>, shortened: bool, omitted: seq<(nat, nat)>)

  datatype Context = Context(layers: seq<Layer>, total: nat, budget: nat)

  datatype Rendering = Rendering(context: Context, evidence: seq<Citation>)

  // ---- Framing ----

  function Decimal(n: nat): (r: Text)
    ensures |r| > 0 && forall i :: 0 <= i < |r| ==> 48 <= r[i] < 58
  {
    if n < 10 then [(48 + n) as Byte] else Decimal(n / 10) + [(48 + n % 10) as Byte]
  }

  function Flag(b: bool): Text { if b then Ascii("true") else Ascii("false") }

  function Join(parts: seq<Text>, separator: Text): Text {
    if parts == [] then []
    else if |parts| == 1 then parts[0]
    else Join(parts[..|parts| - 1], separator) + separator + parts[|parts| - 1]
  }

  predicate Excerpt(c: Chosen) { c.source.start != c.unit.source.start || c.source.end != c.unit.source.end }

  function CitationId(n: nat): Text { Ascii("E") + Decimal(n) }

  function Field(name: string, value: Text): Text
    requires forall i :: 0 <= i < |name| ==> name[i] < '\U{80}'
  {
    Ascii(name) + value
  }

  function Range(start: nat, end: nat): Text { Decimal(start) + Ascii("..") + Decimal(end) }

  function CompactHead(c: Chosen, n: nat): Text {
    Field("[", CitationId(n)) + Field("; role=", c.unit.role) + Field("; excerpt=", Flag(Excerpt(c))) + Ascii("] ")
  }

  function HeadCoordinates(c: Chosen): Text {
    Field("[", c.source.reference) + Field("; role=", c.unit.role) + Field("; view=", c.source.view)
    + Field("; bytes=", Range(c.source.start, c.source.end))
  }

  function HeadWindow(c: Chosen): Text {
    Field("; window=", Range(c.unit.source.start, c.unit.source.end))
    + Field("; uuid=", if c.source.uuid.Some? then c.source.uuid.value else [])
    + Field("; excerpt=", Flag(Excerpt(c))) + Ascii("] ")
  }

  function FullHead(c: Chosen): Text { HeadCoordinates(c) + HeadWindow(c) }

  function SourcesLabel(): Text { [10] + Ascii("  sources: ") }

  function SupportTail(c: Chosen): Text {
    if c.unit.support == [] then [] else SourcesLabel() + Join(c.unit.support, Ascii(", "))
  }

  function TotalLength(parts: seq<Text>): nat {
    if parts == [] then 0 else TotalLength(parts[..|parts| - 1]) + |parts[|parts| - 1]|
  }

  /** The tail's length, computed without building it. */
  function SupportTailLength(c: Chosen): nat {
    if c.unit.support == [] then 0
    else |SourcesLabel()| + TotalLength(c.unit.support) + 2 * (|c.unit.support| - 1)
  }

  lemma {:induction false} JoinLength(parts: seq<Text>, separator: Text)
    ensures |Join(parts, separator)| == TotalLength(parts) + |separator| * (if parts == [] then 0 else |parts| - 1)
  {
    if |parts| == 1 {
      assert TotalLength(parts[..0]) == 0;
    } else if |parts| > 1 {
      JoinLength(parts[..|parts| - 1], separator);
      assert |separator| * (|parts| - 2) + |separator| == |separator| * (|parts| - 1);
    }
  }

  /** What surrounds the delivered text of one entry. */
  datatype Frame = Frame(id: Text, head: Text, tail: Text, tailLength: nat)

  /** A framing gives the frame of the n-th entry, n counted from 1. */
  type Framing = (Chosen, nat) -> Frame

  function CompactFrame(c: Chosen, n: nat): Frame { Frame(CitationId(n), CompactHead(c, n), [], 0) }

  function FullFrame(c: Chosen, n: nat): Frame { Frame([], FullHead(c), SupportTail(c), SupportTailLength(c)) }

  function FramingOf(compact: bool): Framing { if compact then CompactFrame else FullFrame }

  ghost predicate FramesExact(framing: Framing) {
    forall c, n :: framing(c, n).tailLength == |framing(c, n).tail|
  }

  lemma FramingExact(compact: bool)
    ensures FramesExact(FramingOf(compact))
  {
    forall c, n: nat ensures FullFrame(c, n).tailLength == |FullFrame(c, n).tail| {
      JoinLength(c.unit.support, Ascii(", "));
      assert |Ascii(", ")| == 2;
    }
  }

  // ---- Laying out ----

  /** The text a layer already holds, ready for another entry. */
  function Opened(text: Text): Text { if text == [] then text else text + [10] }

  function OmittedRanges(c: Chosen): seq<(nat, nat)> {
    (if c.unit.source.start < c.source.start then [(c.unit.source.start, c.source.start)] else []) +
    (if c.source.end < c.unit.source.end then [(c.source.end, c.unit.source.end)] else [])
  }

  /** The layers with room for one more entry of kind `k`: the last one, or a new one. */
  function WithLayer(layers: seq<Layer>, k: LayerKind): (r: seq<Layer>)
    ensures r != [] && r[|r| - 1].kind == k
  {
    if layers == [] || layers[|layers| - 1].kind != k then layers + [Layer(k, [], 0, [])] else layers
  }

  function Extended(l: Layer, c: Chosen, f: Frame): Layer {
    Layer(l.kind, Opened(l.text) + f.head + c.text + f.tail, 0, l.provenance + [c.source.reference])
  }

  function Cite(l: Layer, index: nat, c: Chosen, f: Frame): Citation {
    var start := |Opened(l.text)|;
    var textStart := start + |f.head|;
    var textEnd := textStart + |c.text|;
    Citation(f.id, c.unit.id, index, start, textEnd + |f.tail|, textStart, textEnd,
             c.source, c.unit.role, c.unit.support, c.text != c.unit.text, OmittedRanges(c))
  }

  datatype Layout = Layout(layers: seq<Layer>, evidence: seq<Citation>)

  /** One more entry: appended to the last layer when the kind matches, else to a new one. */
  function Place(before: Layout, c: Chosen, f: Frame): Layout {
    var layers := WithLayer(before.layers, c.unit.layer);
    var last := |layers| - 1;
    Layout(layers[last := Extended(layers[last], c, f)], before.evidence + [Cite(layers[last], last, c, f)])
  }

  /** Layers and citations of the entries in order; tokens are counted afterwards. */
  function LayOut(sorted: seq<Chosen>, framing: Framing): (r: Layout)
    ensures |r.evidence| == |sorted|
  {
    if sorted == [] then Layout([], []) else
      Place(LayOut(sorted[..|sorted| - 1], framing), sorted[|sorted| - 1], framing(sorted[|sorted| - 1], |sorted|))
  }

  lemma LayOutPush(front: seq<Chosen>, c: Chosen, framing: Framing)
    ensures LayOut(front + [c], framing) == Place(LayOut(front, framing), c, framing(c, |front| + 1))
  {
    assert (front + [c])[..|front|] == front;
  }

  lemma LayOutNext(sorted: seq<Chosen>, i: nat, framing: Framing)
    requires i < |sorted|
    ensures LayOut(sorted[..i + 1], framing) == Place(LayOut(sorted[..i], framing), sorted[i], framing(sorted[i], i + 1))
  {
    assert sorted[..i + 1] == sorted[..i] + [sorted[i]];
    LayOutPush(sorted[..i], sorted[i], framing);
  }

  predicate LayerOrder(a: Chosen, b: Chosen) { Rank(a.unit.layer) <= Rank(b.unit.layer) }

  function Texts(layers: seq<Layer>): seq<Text> {
    seq(|layers|, i requires 0 <= i < |layers| => layers[i].text)
  }

  /** The canonical consumer text: layer texts joined by blank lines. */
  function ContextText(layers: seq<Layer>): Text { Join(Texts(layers), [10, 10]) }

  function Counted(layers: seq<Layer>, tok: Text -> nat): seq<Layer> {
    seq(|layers|, i requires 0 <= i < |layers| => layers[i].(tokens := tok(layers[i].text)))
  }

  function Total(layers: seq<Layer>, tok: Text -> nat): nat {
    if layers == [] then 0 else tok(ContextText(layers))
  }

  /** Rendering from scratch. */
  function Rendered(selected: seq<Chosen>, budget: nat, tok: Text -> nat, framing: Framing): Rendering {
    var l := LayOut(Sort(selected, LayerOrder), framing);
    Rendering(Context(Counted(l.layers, tok), Total(l.layers, tok), budget), l.evidence)
  }

  /** A result whose layer counts can be reused. */
  ghost predicate CountsSound(r: Rendering, tok: Text -> nat) {
    forall i :: 0 <= i < |r.context.layers| ==> r.context.layers[i].tokens == tok(r.context.layers[i].text)
  }

  lemma RenderedSound(selected: seq<Chosen>, budget: nat, tok: Text -> nat, framing: Framing)
    ensures CountsSound(Rendered(selected, budget, tok, framing), tok)
  {
  }

  /** The count the previous result holds for a layer of this kind and text. */
  function Cached(held: seq<Layer>, l: Layer): Option<nat> {
    if held == [] then None
    else if held[0].kind == l.kind && held[0].text == l.text then Some(held[0].tokens)
    else Cached(held[1..], l)
  }

  lemma {:induction false} CachedCorrect(held: seq<Layer>, l: Layer, tok: Text -> nat)
    requires forall i :: 0 <= i < |held| ==> held[i].tokens == tok(held[i].text)
    ensures Cached(held, l).Some? ==> Cached(held, l).value == tok(l.text)
  {
    if held != [] { CachedCorrect(held[1..], l, tok); }
  }

  method CountLayers(layers: seq<Layer>, tok: Text -> nat, previous: Option<Rendering>) returns (counted: seq<Layer>)
    requires previous.Some? ==> CountsSound(previous.value, tok)
    ensures counted == Counted(layers, tok)
  {
    counted := [];
    for i := 0 to |layers|
      invariant |counted| == i
      invariant forall k :: 0 <= k < i ==> counted[k] == layers[k].(tokens := tok(layers[k].text))
    {
      var hit := None;
      if previous.Some? {
        hit := Cached(previous.value.context.layers, layers[i]);
        CachedCorrect(previous.value.context.layers, layers[i], tok);
      }
      counted := counted + [layers[i].(tokens := if hit.Some? then hit.value else tok(layers[i].text))];
    }
  }

  /** The loop of `render`: entries appended to the last layer, citations collected. */
  method LayOutLoop(sorted: seq<Chosen>, framing: Framing) returns (l: Layout)
    requires FramesExact(framing)
    ensures l == LayOut(sorted, framing)
  {
    l := Layout([], []);
    for i := 0 to |sorted|
      invariant l == LayOut(sorted[..i], framing)
    {
      l := AppendNext(sorted, i, framing, l);
    }
    assert sorted[..|sorted|] == sorted;
  }

  method AppendNext(sorted: seq<Chosen>, i: nat, framing: Framing, before: Layout) returns (l: Layout)
    requires FramesExact(framing) && i < |sorted| && before == LayOut(sorted[..i], framing)
    ensures l == LayOut(sorted[..i + 1], framing)
  {
    LayOutNext(sorted, i, framing);
    l := AppendEntry(before, sorted[i], framing(sorted[i], i + 1));
  }

  method AppendEntry(before: Layout, c: Chosen, f: Frame) returns (l: Layout)
    requires f.tailLength == |f.tail|
    ensures l == Place(before, c, f)
  {
    var layers := before.layers;
    if layers == [] || layers[|layers| - 1].kind != c.unit.layer {
      layers := layers + [Layer(c.unit.layer, [], 0, [])];
    }
    var index := |layers| - 1;
    var text := layers[index].text;
    if text != [] { text := text + [10]; }
    var start := |text|;
    text := text + f.head + c.text + f.tail;
    var textEnd := |text| - f.tailLength;
    var citation := Citation(f.id, c.unit.id, index, start, |text|, textEnd - |c.text|, textEnd,
      c.source, c.unit.role, c.unit.support, c.text != c.unit.text, OmittedRanges(c));
    layers := layers[index := Layer(layers[index].kind, text, 0, layers[index].provenance + [c.source.reference])];
    l := Layout(layers, before.evidence + [citation]);
  }

  /** Rendering with the token cache and the single-layer shortcut. */
  method Render(selected: seq<Chosen>, budget: nat, tok: Text -> nat, previous: Option<Rendering>, framing: Framing)
    returns (r: Rendering)
    requires FramesExact(framing)
    requires previous.Some? ==> CountsSound(previous.value, tok)
    ensures r == Rendered(selected, budget, tok, framing)
  {
    var sorted := Sort(selected, LayerOrder);
    var l := LayOutLoop(sorted, framing);
    var counted := CountLayers(l.layers, tok, previous);
    var total := SumTokens(counted, l.layers, tok);
    r := Rendering(Context(counted, total, budget), l.evidence);
  }

  method SumTokens(counted: seq<Layer>, layers: seq<Layer>, tok: Text -> nat) returns (total: nat)
    requires counted == Counted(layers, tok)
    ensures total == Total(layers, tok)
  {
    total := 0;
    if |counted| == 1 {
      SingleLayerText(layers);
      total := counted[0].tokens;
    } else if |counted| > 1 {
      assert Texts(counted) == Texts(layers);
      total := tok(ContextText(counted));
    }
  }

  /** The canonical context of one layer is that layer's text. */
  lemma SingleLayerText(layers: seq<Layer>)
    requires |layers| == 1
    ensures ContextText(layers) == layers[0].text
  {
    assert |Texts(layers)| == 1;
  }

  // ---- Validity ----

  ghost predicate ChosenOk(c: Chosen) {
    && Valid(c.text) && Valid(c.unit.role) && Valid(c.source.reference) && Valid(c.source.view)
    && (c.source.uuid.Some? ==> Valid(c.source.uuid.value))
    && forall i :: 0 <= i < |c.unit.support| ==> Valid(c.unit.support[i])
  }

  lemma {:induction false} JoinValid(parts: seq<Text>, separator: Text)
    requires Valid(separator) && forall i :: 0 <= i < |parts| ==> Valid(parts[i])
    ensures Valid(Join(parts, separator))
  {
    if |parts| > 1 {
      JoinValid(parts[..|parts| - 1], separator);
      ConcatValid(Join(parts[..|parts| - 1], separator), separator);
      ConcatValid(Join(parts[..|parts| - 1], separator) + separator, parts[|parts| - 1]);
    }
  }

  lemma FieldValid(name: string, value: Text)
    requires Valid(value) && forall i :: 0 <= i < |name| ==> name[i] < '\U{80}'
    ensures Valid(Field(name, value))
  {
    AsciiValid(Ascii(name));
    ConcatValid(Ascii(name), value);
  }

  lemma RangeValid(start: nat, end: nat)
    ensures Valid(Range(start, end))
  {
    AsciiValid(Range(start, end));
  }

  lemma Valid4(a: Text, b: Text, c: Text, d: Text)
    requires Valid(a) && Valid(b) && Valid(c) && Valid(d)
    ensures Valid(a + b + c + d)
  {
    ConcatValid(a, b);
    ConcatValid(a + b, c);
    ConcatValid(a + b + c, d);
  }

  lemma FlagValid(b: bool)
    ensures Valid(Flag(b)) && Valid(Ascii("] "))
  {
    AsciiValid(Flag(b));
    AsciiValid(Ascii("] "));
  }

  lemma CompactHeadValid(c: Chosen, n: nat)
    requires ChosenOk(c)
    ensures Valid(CompactHead(c, n))
  {
    AsciiValid(CitationId(n));
    FieldValid("[", CitationId(n));
    FieldValid("; role=", c.unit.role);
    FlagValid(Excerpt(c));
    FieldValid("; excerpt=", Flag(Excerpt(c)));
    Valid4(Field("[", CitationId(n)), Field("; role=", c.unit.role), Field("; excerpt=", Flag(Excerpt(c))), Ascii("] "));
  }

  lemma HeadCoordinatesValid(c: Chosen)
    requires ChosenOk(c)
    ensures Valid(HeadCoordinates(c))
  {
    FieldValid("[", c.source.reference);
    FieldValid("; role=", c.unit.role);
    FieldValid("; view=", c.source.view);
    RangeValid(c.source.start, c.source.end);
    FieldValid("; bytes=", Range(c.source.start, c.source.end));
    Valid4(Field("[", c.source.reference), Field("; role=", c.unit.role), Field("; view=", c.source.view),
           Field("; bytes=", Range(c.source.start, c.source.end)));
  }

  lemma HeadWindowValid(c: Chosen)
    requires ChosenOk(c)
    ensures Valid(HeadWindow(c))
  {
    AsciiValid([]);
    var uuid := if c.source.uuid.Some? then c.source.uuid.value else [];
    RangeValid(c.unit.source.start, c.unit.source.end);
    FieldValid("; window=", Range(c.unit.source.start, c.unit.source.end));
    FieldValid("; uuid=", uuid);
    FlagValid(Excerpt(c));
    FieldValid("; excerpt=", Flag(Excerpt(c)));
    Valid4(Field("; window=", Range(c.unit.source.start, c.unit.source.end)), Field("; uuid=", uuid),
           Field("; excerpt=", Flag(Excerpt(c))), Ascii("] "));
  }

  lemma FullHeadValid(c: Chosen)
    requires ChosenOk(c)
    ensures Valid(FullHead(c))
  {
    HeadCoordinatesValid(c);
    HeadWindowValid(c);
    ConcatValid(HeadCoordinates(c), HeadWindow(c));
  }

  lemma TailValid(c: Chosen)
    requires ChosenOk(c)
    ensures Valid(SupportTail(c))
  {
    AsciiValid([]);
    AsciiValid(SourcesLabel());
    AsciiValid(Ascii(", "));
    JoinValid(c.unit.support, Ascii(", "));
    ConcatValid(SourcesLabel(), Join(c.unit.support, Ascii(", ")));
  }

  /** Frames of well-formed entries are themselves UTF-8. */
  ghost predicate FramesValid(framing: Framing) {
    forall c, n :: ChosenOk(c) ==> Valid(framing(c, n).head) && Valid(framing(c, n).tail)
  }

  lemma FrameValid(compact: bool, c: Chosen, n: nat)
    requires ChosenOk(c)
    ensures Valid(FramingOf(compact)(c, n).head) && Valid(FramingOf(compact)(c, n).tail)
  {
    if compact {
      CompactHeadValid(c, n);
      AsciiValid([]);
    } else {
      FullHeadValid(c);
      TailValid(c);
    }
  }

  lemma FramingValid(compact: bool)
    ensures FramesValid(FramingOf(compact))
  {
    forall c, n: nat | ChosenOk(c) ensures Valid(FramingOf(compact)(c, n).head) && Valid(FramingOf(compact)(c, n).tail) {
      FrameValid(compact, c, n);
    }
  }

  // ---- Citations point at what was delivered ----

  lemma SliceExtends(s: Text, more: Text, start: nat, end: nat)
    requires Slice(s, start, end).Some? && Valid(more)
    ensures Slice(s + more, start, end) == Slice(s, start, end)
  {
    SeamBoundary(s, more);
    assert (s + more)[start..end] == s[start..end];
    assert forall k :: 0 <= k < |s| ==> (s + more)[k] == s[k];
  }

  ghost predicate Points(layers: seq<Layer>, cit: Citation, text: Text) {
    cit.layer < |layers| && Slice(layers[cit.layer].text, cit.textStart, cit.textEnd) == Some(text)
    && cit.textEnd == cit.textStart + |text|
  }

  ghost predicate LaidOut(l: Layout, sorted: seq<Chosen>) {
    && |l.evidence| == |sorted|
    && LayersValid(l.layers)
    && (forall k {:trigger PointsAt(l, sorted, k)} :: 0 <= k < |sorted| ==> PointsAt(l, sorted, k))
  }

  ghost predicate PointsAt(l: Layout, sorted: seq<Chosen>, k: nat)
    requires k < |sorted| == |l.evidence|
  {
    Points(l.layers, l.evidence[k], sorted[k].text)
  }

  lemma LastSlice(front: Text, text: Text)
    requires Valid(text)
    ensures Slice(front + text, |front|, |front| + |text|) == Some(text)
  {
    SeamBoundary(front, text);
    assert (front + text)[|front|..|front| + |text|] == text;
  }

  lemma EntrySlice(open: Text, head: Text, text: Text, tail: Text)
    requires Valid(open) && Valid(head) && Valid(text) && Valid(tail)
    ensures Valid(open + head + text + tail)
    ensures Slice(open + head + text + tail, |open| + |head|, |open| + |head| + |text|) == Some(text)
  {
    Valid4(open, head, text, tail);
    LastSlice(open + head, text);
    SliceExtends(open + head + text, tail, |open| + |head|, |open| + |head| + |text|);
  }

  /** Every slice taken of `a` can be taken, unchanged, of `b`. */
  ghost predicate SlicesKept(a: Text, b: Text) {
    forall start: nat, end: nat :: Slice(a, start, end).Some? ==> Slice(b, start, end) == Slice(a, start, end)
  }

  lemma KeptTrans(a: Text, b: Text, c: Text)
    requires SlicesKept(a, b) && SlicesKept(b, c)
    ensures SlicesKept(a, c)
  {
  }

  lemma PrefixKept(a: Text, more: Text)
    requires Valid(more)
    ensures SlicesKept(a, a + more)
  {
    forall start: nat, end: nat | Slice(a, start, end).Some? ensures Slice(a + more, start, end) == Slice(a, start, end) {
      SliceExtends(a, more, start, end);
    }
  }

  lemma OpenedKept(a: Text)
    requires Valid(a)
    ensures SlicesKept(a, Opened(a)) && Valid(Opened(a))
  {
    AsciiValid([10]);
    PrefixKept(a, [10]);
    ConcatValid(a, [10]);
  }

  /** Extending a layer keeps every earlier citation into it and adds an exact new one. */
  lemma ExtendPoints(l: Layer, index: nat, c: Chosen, f: Frame)
    requires Valid(l.text) && Valid(c.text) && Valid(f.head) && Valid(f.tail)
    ensures var e := Extended(l, c, f); var cit := Cite(l, index, c, f);
      Valid(e.text) && Slice(e.text, cit.textStart, cit.textEnd) == Some(c.text) && SlicesKept(l.text, e.text)
  {
    var open := Opened(l.text);
    OpenedKept(l.text);
    EntrySlice(open, f.head, c.text, f.tail);
    EntryKept(open, f.head, c.text, f.tail);
    KeptTrans(l.text, open, open + f.head + c.text + f.tail);
  }

  lemma EntryKept(open: Text, head: Text, text: Text, tail: Text)
    requires Valid(head) && Valid(text) && Valid(tail)
    ensures SlicesKept(open, open + head + text + tail)
  {
    PrefixKept(open, head);
    PrefixKept(open + head, text);
    PrefixKept(open + head + text, tail);
    KeptTrans(open, open + head, open + head + text);
    KeptTrans(open, open + head + text, open + head + text + tail);
  }

  /** Every layer of `a` is still there in `b`, with every slice of it. */
  ghost predicate LayersKept(a: seq<Layer>, b: seq<Layer>) {
    |a| <= |b| && forall i {:trigger LayerKept(a, b, i)} :: 0 <= i < |a| ==> LayerKept(a, b, i)
  }

  ghost predicate LayerKept(a: seq<Layer>, b: seq<Layer>, i: nat)
    requires i < |a| <= |b|
  {
    SlicesKept(a[i].text, b[i].text)
  }

  lemma PointsKept(a: seq<Layer>, b: seq<Layer>, cit: Citation, text: Text)
    requires LayersKept(a, b) && Points(a, cit, text)
    ensures Points(b, cit, text)
  {
    assert LayerKept(a, b, cit.layer);
  }

  ghost predicate LayersValid(layers: seq<Layer>) {
    forall i :: 0 <= i < |layers| ==> Valid(layers[i].text)
  }

  lemma WithLayerKept(before: seq<Layer>, k: LayerKind)
    requires LayersValid(before)
    ensures LayersValid(WithLayer(before, k)) && LayersKept(before, WithLayer(before, k))
  {
    AsciiValid([]);
  }

  lemma UpdateKept(before: seq<Layer>, open: seq<Layer>, last: nat, e: Layer)
    requires last < |open| && LayersValid(open) && LayersKept(before, open)
    requires Valid(e.text) && SlicesKept(open[last].text, e.text)
    ensures LayersValid(open[last := e]) && LayersKept(before, open[last := e])
  {
    var after := open[last := e];
    forall i | 0 <= i < |before| ensures LayerKept(before, after, i) {
      assert LayerKept(before, open, i);
      KeptTrans(before[i].text, open[i].text, after[i].text);
    }
  }

  lemma PlaceLayers(before: seq<Layer>, c: Chosen, f: Frame)
    requires Valid(c.text) && Valid(f.head) && Valid(f.tail) && LayersValid(before)
    ensures var open := WithLayer(before, c.unit.layer); var last := |open| - 1;
      var after := open[last := Extended(open[last], c, f)];
      && LayersKept(before, after) && LayersValid(after)
      && Points(after, Cite(open[last], last, c, f), c.text)
  {
    var open := WithLayer(before, c.unit.layer);
    var last := |open| - 1;
    WithLayerKept(before, c.unit.layer);
    ExtendPoints(open[last], last, c, f);
    UpdateKept(before, open, last, Extended(open[last], c, f));
  }

  /** One placed entry, taken apart: the new layers and the new citation. */
  lemma PlaceParts(before: Layout, c: Chosen, f: Frame) returns (layers: seq<Layer>, cit: Citation)
    requires Valid(c.text) && Valid(f.head) && Valid(f.tail) && LayersValid(before.layers)
    ensures Place(before, c, f) == Layout(layers, before.evidence + [cit])
    ensures LayersKept(before.layers, layers) && LayersValid(layers) && Points(layers, cit, c.text)
  {
    var open := WithLayer(before.layers, c.unit.layer);
    var last := |open| - 1;
    layers, cit := open[last := Extended(open[last], c, f)], Cite(open[last], last, c, f);
    PlaceLayers(before.layers, c, f);
  }

  lemma LaidOutPush(before: Layout, layers: seq<Layer>, cit: Citation, front: seq<Chosen>, c: Chosen)
    requires LaidOut(before, front) && LayersKept(before.layers, layers) && LayersValid(layers)
    requires Points(layers, cit, c.text)
    ensures LaidOut(Layout(layers, before.evidence + [cit]), front + [c])
  {
    var after, all := Layout(layers, before.evidence + [cit]), front + [c];
    forall k | 0 <= k < |all| ensures PointsAt(after, all, k) {
      if k < |front| {
        assert PointsAt(before, front, k);
        PointsKept(before.layers, layers, before.evidence[k], front[k].text);
      }
    }
  }

  lemma PlaceExact(before: Layout, front: seq<Chosen>, c: Chosen, f: Frame)
    requires LaidOut(before, front) && Valid(c.text) && Valid(f.head) && Valid(f.tail)
    ensures LaidOut(Place(before, c, f), front + [c])
  {
    var layers, cit := PlaceParts(before, c, f);
    LaidOutPush(before, layers, cit, front, c);
  }

  lemma FrameOk(framing: Framing, c: Chosen, n: nat)
    requires FramesValid(framing) && ChosenOk(c)
    ensures Valid(framing(c, n).head) && Valid(framing(c, n).tail)
  {
  }

  lemma {:induction false} LayOutExact(sorted: seq<Chosen>, framing: Framing)
    requires FramesValid(framing) && forall i :: 0 <= i < |sorted| ==> ChosenOk(sorted[i])
    ensures LaidOut(LayOut(sorted, framing), sorted)
  {
    if sorted != [] {
      var front, c := sorted[..|sorted| - 1], sorted[|sorted| - 1];
      assert sorted == front + [c];
      LayOutExact(front, framing);
      LayOutPush(front, c, framing);
      FrameOk(framing, c, |sorted|);
      PlaceExact(LayOut(front, framing), front, c, framing(c, |sorted|));
    }
  }

  ghost predicate InRanges(ranges: seq<(nat, nat)>, b: nat) {
    exists i :: 0 <= i < |ranges| && ranges[i].0 <= b < ranges[i].1
  }

  /** Non-empty ranges that hold exactly the bytes of the unit's window outside the delivered ones. */
  ghost predicate LeavesOut(ranges: seq<(nat, nat)>, whole: Source, part: Source) {
    && (forall i :: 0 <= i < |ranges| ==> ranges[i].0 < ranges[i].1)
    && (forall b: nat :: InRanges(ranges, b) <==> whole.start <= b < part.start || part.end <= b < whole.end)
  }

  lemma OmittedMeaning(c: Chosen)
    ensures LeavesOut(OmittedRanges(c), c.unit.source, c.source)
  {
    var ranges, whole, part := OmittedRanges(c), c.unit.source, c.source;
    forall b: nat | whole.start <= b < part.start ensures InRanges(ranges, b) {
      assert ranges[0] == (whole.start, part.start);
    }
    forall b: nat | part.end <= b < whole.end ensures InRanges(ranges, b) {
      assert ranges[|ranges| - 1] == (part.end, whole.end);
    }
  }

  /** The citation names the entry's unit, role, support and delivered coordinate, says whether
      the text is the unit's own, and lists what of the unit's window is missing. */
  ghost predicate DescribesEntry(e: Citation, c: Chosen) {
    && e.unitId == c.unit.id && e.role == c.unit.role && e.support == c.unit.support && e.source == c.source
    && (e.shortened <==> c.text != c.unit.text) && LeavesOut(e.omitted, c.unit.source, c.source)
  }

  lemma PlaceCites(before: Layout, c: Chosen, f: Frame)
    ensures var after := Place(before, c, f).evidence;
      && |after| == |before.evidence| + 1 && after[..|before.evidence|] == before.evidence
      && after[|before.evidence|].id == f.id && DescribesEntry(after[|before.evidence|], c)
  {
    OmittedMeaning(c);
  }

  /** Citation `k` describes entry `k`, under the id its frame gives entry `k + 1`. */
  ghost predicate Describes(evidence: seq<Citation>, sorted: seq<Chosen>, framing: Framing, k: nat)
    requires k < |sorted| == |evidence|
  {
    evidence[k].id == framing(sorted[k], k + 1).id && DescribesEntry(evidence[k], sorted[k])
  }

  lemma DescribesPush(before: Layout, front: seq<Chosen>, c: Chosen, framing: Framing, k: nat)
    requires k <= |front| == |before.evidence|
    requires k < |front| ==> Describes(before.evidence, front, framing, k)
    ensures Describes(Place(before, c, framing(c, |front| + 1)).evidence, front + [c], framing, k)
  {
    PlaceCites(before, c, framing(c, |front| + 1));
    var after := Place(before, c, framing(c, |front| + 1)).evidence;
    assert k < |front| ==> after[..|front|][k] == before.evidence[k];
  }

  lemma {:induction false} CitationFields(sorted: seq<Chosen>, framing: Framing, k: nat)
    requires k < |sorted|
    ensures Describes(LayOut(sorted, framing).evidence, sorted, framing, k)
    decreases |sorted|
  {
    var front, c := sorted[..|sorted| - 1], sorted[|sorted| - 1];
    assert sorted == front + [c];
    LayOutPush(front, c, framing);
    if k < |front| { CitationFields(front, framing, k); }
    DescribesPush(LayOut(front, framing), front, c, framing, k);
  }

  lemma {:induction false} DecimalInjective(a: nat, b: nat)
    requires Decimal(a) == Decimal(b)
    ensures a == b
    decreases a + b
  {
    var x, y := Decimal(a), Decimal(b);
    assert a >= 10 ==> |x| > 1;
    assert b >= 10 ==> |y| > 1;
    if a >= 10 && b >= 10 {
      assert x[..|x| - 1] == Decimal(a / 10) && y[..|y| - 1] == Decimal(b / 10);
      assert x[|x| - 1] == y[|y| - 1];
      DecimalInjective(a / 10, b / 10);
    } else {
      assert x[0] == y[0];
    }
  }
}
