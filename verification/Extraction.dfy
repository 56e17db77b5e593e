/** Validation of extracted claims: surfaces located in the episode, then accepted or refused. */
module Extraction {
  import opened Orders
  import opened Utf8

  import Intervals
  import TemporalFold

  datatype Span = Span(start: nat, end: nat)

  datatype Mention = Mention(surface: Text, entityType: string, quote: Option<Text>, span: Span)

  datatype ClaimObject =
    | EntityObject(mention: Mention)
    | LiteralObject(literalType: string, value: Text, quote: Option<Text>, span: Span)

  datatype LiteralType = TextType | DateType | DateTimeType | NumberType | BoolType | QuantityType

  datatype ObjectKind = EntityKind(types: seq<string>) | LiteralKind(expected: LiteralType) | EnumKind(variants: seq<Text>)

  /** The typing part of a predicate definition. */
  datatype Signature = Signature(name: string, subjectTypes: seq<string>, objectKind: ObjectKind)

  datatype Claim = Claim(relation: string, subject: Mention, target: ClaimObject, polarity: TemporalFold.Polarity,
                         validFrom: Option<Intervals.Timestamp>, validTo: Option<Intervals.Timestamp>, confidence: real)

  datatype Error =
    | UnknownPredicate(relation: string)
    | SubjectTypeMismatch(got: string)
    | ObjectTypeMismatch
    | SpanOutOfBounds(span: Span, length: nat)
    | SurfaceNotVerbatim(surface: Text)
    | ConfidenceOutOfRange

  // ---- Searching ----

  predicate OccursAt(hay: Text, needle: Text, i: nat) {
    i + |needle| <= |hay| && hay[i..i + |needle|] == needle
  }

  /** `str::find`: the first offset, from `i` on. */
  function FindFrom(hay: Text, needle: Text, i: nat): (r: Option<nat>)
    requires i <= |hay|
    ensures r.Some? ==> i <= r.value && OccursAt(hay, needle, r.value)
    decreases |hay| - i
  {
    if OccursAt(hay, needle, i) then Some(i)
    else if i == |hay| then None
    else FindFrom(hay, needle, i + 1)
  }

  /** Nothing is missed: an occurrence at `j` is found, there or before. */
  lemma {:induction false} FindMisses(hay: Text, needle: Text, i: nat, j: nat)
    requires i <= j && i <= |hay| && OccursAt(hay, needle, j)
    ensures FindFrom(hay, needle, i).Some? && FindFrom(hay, needle, i).value <= j
    decreases |hay| - i
  {
    if i < j { FindMisses(hay, needle, i + 1, j); }
  }

  function Lower(b: Byte): Byte { if 65 <= b <= 90 then b + 32 else b }

  function Folded(s: Text): (r: Text)
    ensures |r| == |s|
  {
    seq(|s|, i requires 0 <= i < |s| => Lower(s[i]))
  }

  /** At this character offset the window reads as the needle but for ASCII case. */
  predicate FoldsAt(window: Text, needle: Text, off: nat) {
    var head := Slice(window, off, off + |needle|);
    head.Some? && Folded(head.value) == Folded(needle)
  }

  /** The first character offset from `off` on where the window folds to the needle. */
  function FindFolded(window: Text, needle: Text, off: nat): (r: Option<nat>)
    requires ValidFrom(window, off) && off <= |window|
    ensures r.Some? ==> off <= r.value < |window| && FoldsAt(window, needle, r.value)
    decreases |window| - off
  {
    if off == |window| || |window| - off < |needle| then None
    else if FoldsAt(window, needle, off) then Some(off)
    else FindFolded(window, needle, off + Width(window[off]))
  }

  /** First occurrence of the quote, then of the needle inside it: exact first, else but for
      case, in which event the episode's own spelling is returned. */
  function Locate(content: Text, quote: Text, needle: Text): Option<(Span, Text)>
    requires Valid(quote)
  {
    if needle == [] then None else
      match FindFrom(content, quote, 0)
      case None => None
      case Some(q) =>
        match FindFrom(quote, needle, 0)
        case Some(off) => Some((Span(q + off, q + off + |needle|), needle))
        case None =>
          match FindFolded(quote, needle, 0)
          case Some(off) => Some((Span(q + off, q + off + |needle|), quote[off..off + |needle|]))
          case None => None
  }

  /** The quote's window is searched with `find`, then character by character. */
  method LocateInQuote(content: Text, quote: Text, needle: Text) returns (r: Option<(Span, Text)>)
    requires Valid(quote)
    ensures r == Locate(content, quote, needle)
  {
    if needle == [] {
      return None;
    }
    var q := FindFrom(content, quote, 0);
    if q.None? {
      return None;
    }
    var window := content[q.value..q.value + |quote|];
    assert window == quote;
    var exact := FindFrom(window, needle, 0);
    if exact.Some? {
      return Some((Span(q.value + exact.value, q.value + exact.value + |needle|), needle));
    }
    var off := FoldedLoop(window, needle);
    r := if off.Some? then Some((Span(q.value + off.value, q.value + off.value + |needle|), window[off.value..off.value + |needle|]))
         else None;
  }

  method FoldedLoop(window: Text, needle: Text) returns (r: Option<nat>)
    requires Valid(window)
    ensures r == FindFolded(window, needle, 0)
  {
    var off: nat := 0;
    while off < |window|
      invariant off <= |window| && ValidFrom(window, off)
      invariant FindFolded(window, needle, 0) == FindFolded(window, needle, off)
      decreases |window| - off
    {
      if |window| - off < |needle| {
        break;
      }
      if FoldsAt(window, needle, off) {
        return Some(off);
      }
      off := off + Width(window[off]);
    }
    r := None;
  }

  // ---- Character offsets ----

  /** Byte offset of the character `n` places after `at`; the end counts as one more place. */
  function NthFrom(content: Text, at: nat, n: nat): Option<nat>
    requires ValidFrom(content, at) && at <= |content|
    decreases |content| - at
  {
    if n == 0 then Some(at)
    else if at == |content| then None
    else NthFrom(content, at + Width(content[at]), n - 1)
  }

  /** A character span as a byte range; a span that starts past the last character is refused. */
  function CharSpan(content: Text, a: nat, b: nat): Option<Span>
    requires Valid(content)
  {
    if b < a then None else
      match (NthFrom(content, 0, a), NthFrom(content, 0, b))
      case (Some(s), Some(e)) => if s < |content| then Some(Span(s, e)) else None
      case _ => None
  }

  /** How many characters start before byte `k`. */
  function Leads(s: Text, k: nat): nat
    requires k <= |s|
  {
    if k == 0 then 0 else Leads(s, k - 1) + (if Continuation(s[k - 1]) then 0 else 1)
  }

  lemma {:induction false} LeadsWithin(s: Text, at: nat, k: nat)
    requires at < k <= |s| && ScalarAt(s, at) && k <= at + Width(s[at])
    ensures Leads(s, k) == Leads(s, at) + 1
    decreases k
  {
    if k > at + 1 {
      assert Inner(s, k - 1);
      LeadsWithin(s, at, k - 1);
    } else {
      assert !Continuation(s[at]);
    }
  }

  /** The byte offset found has exactly the asked number of characters before it. */
  lemma {:induction false} NthCounts(content: Text, at: nat, n: nat)
    requires ValidFrom(content, at) && at <= |content|
    ensures NthFrom(content, at, n).Some? ==>
      var k := NthFrom(content, at, n).value;
      at <= k <= |content| && ValidFrom(content, k) && Leads(content, k) == Leads(content, at) + n
    decreases |content| - at
  {
    if n > 0 && at < |content| {
      var next := at + Width(content[at]);
      LeadsWithin(content, at, next);
      NthCounts(content, next, n - 1);
    }
  }

  /** The loop over `char_indices` with its running index. */
  method CharSpanToBytes(content: Text, a: nat, b: nat) returns (r: Option<Span>)
    requires Valid(content)
    ensures r == CharSpan(content, a, b)
  {
    if b < a {
      return None;
    }
    var start: Option<nat>, end: Option<nat> := None, None;
    var idx: nat, at: nat := 0, 0;
    while at < |content|
      invariant at <= |content| && ValidFrom(content, at) && idx <= b
      invariant end.None? && NthFrom(content, 0, b) == NthFrom(content, at, b - idx)
      invariant if idx <= a then start.None? && NthFrom(content, 0, a) == NthFrom(content, at, a - idx)
                else start == NthFrom(content, 0, a) && start.Some? && start.value < |content|
      decreases |content| - at
    {
      if idx == a { start := Some(at); }
      if idx == b {
        end := Some(at);
        break;
      }
      idx := idx + 1;
      at := at + Width(content[at]);
    }
    if end.None? && idx == b { end := Some(|content|); }
    r := if start.Some? && end.Some? then Some(Span(start.value, end.value)) else None;
  }

  // ---- Mentions ----

  function FoldEqual(a: Text, b: Text): bool { Folded(a) == Folded(b) }

  /** The mention with the span and spelling the episode supports, or nothing. */
  function Resolve(content: Text, m: Mention): Option<Mention>
    requires Valid(content) && (m.quote.Some? ==> Valid(m.quote.value))
  {
    match m.quote
    case Some(quote) =>
      (match Locate(content, quote, m.surface)
       case Some((span, canonical)) => Some(m.(surface := canonical, span := span))
       case None => None)
    case None =>
      var found := Slice(content, m.span.start, m.span.end);
      if found == Some(m.surface) then Some(m) else
        var range := CharSpan(content, m.span.start, m.span.end);
        if range.Some? && Slice(content, range.value.start, range.value.end) == Some(m.surface) then
          Some(m.(span := range.value))
        else if found.Some? && FoldEqual(found.value, m.surface) then Some(m.(surface := found.value))
        else None
  }

  method ResolveMention(content: Text, m: Mention) returns (ok: bool, out: Mention)
    requires Valid(content) && (m.quote.Some? ==> Valid(m.quote.value))
    ensures ok <==> Resolve(content, m).Some?
    ensures ok ==> out == Resolve(content, m).value
    ensures !ok ==> out == m
  {
    out := m;
    if m.quote.Some? {
      var located := LocateInQuote(content, m.quote.value, m.surface);
      if located.Some? {
        return true, m.(surface := located.value.1, span := located.value.0);
      }
      return false, m;
    }
    var found := Slice(content, m.span.start, m.span.end);
    if found == Some(m.surface) {
      return true, m;
    }
    var range := CharSpanToBytes(content, m.span.start, m.span.end);
    if range.Some? && Slice(content, range.value.start, range.value.end) == Some(m.surface) {
      return true, m.(span := range.value);
    }
    if found.Some? && FoldEqual(found.value, m.surface) {
      return true, m.(surface := found.value);
    }
    ok := false;
  }

  // ---- A located needle is verbatim, and is located again ----

  /** An occurrence of whole characters starts and ends on character boundaries. */
  lemma {:induction false} OccurrenceAligned(hay: Text, needle: Text, o: nat, j: nat)
    requires OccursAt(hay, needle, o) && j <= |needle| && ValidFrom(hay, o + j) && ValidFrom(needle, j)
    ensures ValidFrom(hay, o + |needle|)
    decreases |needle| - j
  {
    if j < |needle| {
      assert needle[j] == hay[o + j];
      OccurrenceAligned(hay, needle, o, j + Width(needle[j]));
    }
  }

  lemma OccurrenceSlices(hay: Text, needle: Text, o: nat)
    requires Valid(hay) && Valid(needle) && needle != [] && OccursAt(hay, needle, o)
    ensures Slice(hay, o, o + |needle|) == Some(needle)
  {
    assert hay[o..o + |needle|] == needle;
    assert needle[0] == hay[o];
    assert ScalarAt(needle, 0);
    ValidOnwards(hay, 0, o);
    OccurrenceAligned(hay, needle, o, 0);
    ValidBoundary(hay, o + |needle|);
  }

  lemma ValidBoundary(s: Text, i: nat)
    requires ValidFrom(s, i) && i <= |s|
    ensures Boundary(s, i)
  {
  }

  /** A slice of a located window is the same slice of the whole. */
  lemma WindowSlice(content: Text, window: Text, q: nat, a: nat, b: nat)
    requires OccursAt(content, window, q) && Boundary(content, q) && Boundary(content, q + |window|)
    requires Slice(window, a, b).Some?
    ensures Slice(content, q + a, q + b) == Slice(window, a, b)
  {
    var whole := content[q..q + |window|];
    assert whole == window;
    SliceBoundary(content, q, q + |window|, a);
    SliceBoundary(content, q, q + |window|, b);
    SliceOfSlice(content, q, q + |window|, a, b);
  }

  lemma SliceOfSlice(s: Text, lo: nat, hi: nat, a: nat, b: nat)
    requires lo <= hi <= |s| && a <= b <= hi - lo
    ensures s[lo..hi][a..b] == s[lo + a..lo + b]
  {
    var w := s[lo..hi];
    forall k | 0 <= k < b - a ensures w[a..b][k] == s[lo + a..lo + b][k] {
      assert w[a..b][k] == w[a + k] == s[lo + a + k];
    }
    assert w[a..b] == s[lo + a..lo + b];
  }

  /** A slice of a quote found at `q` is a valid slice of the episode. */
  lemma QuotedSlice(content: Text, quote: Text, q: nat, a: nat, b: nat)
    requires Valid(content) && Valid(quote) && quote != [] && OccursAt(content, quote, q) && Slice(quote, a, b).Some?
    ensures Slice(content, q + a, q + b) == Some(quote[a..b]) && Valid(quote[a..b])
  {
    OccurrenceSlices(content, quote, q);
    WindowSlice(content, quote, q, a, b);
    SliceValid(quote, a, b);
  }

  lemma {:induction false} FoldedFirst(window: Text, needle: Text, off: nat, o: nat)
    requires ValidFrom(window, off) && off <= o < |window| && needle != []
    requires FoldsAt(window, needle, o)
    ensures FindFolded(window, needle, off).Some? && FindFolded(window, needle, off).value <= o
    decreases |window| - off
  {
    if off < o {
      assert Inner(window, o) || o >= off + Width(window[off]);
      FoldedFirst(window, needle, off + Width(window[off]), o);
    }
  }

  lemma FoldedSlice(s: Text, a: nat, b: nat)
    requires Slice(s, a, b).Some?
    ensures Slice(s, a, b) == Some(s[a..b])
  {
  }

  ghost predicate LocatedAt(content: Text, quote: Text, needle: Text, span: Span, text: Text) {
    && Slice(content, span.start, span.end) == Some(text) && |text| == |needle| && FoldEqual(text, needle)
    && Valid(text) && text != []
  }

  /** A located needle is spelled, byte for byte, by the episode at the span, and differs from
      what was asked at most in ASCII case. */
  lemma {:induction false} LocateVerbatim(content: Text, quote: Text, needle: Text)
    requires Valid(content) && Valid(quote) && Valid(needle) && Locate(content, quote, needle).Some?
    ensures var (span, text) := Locate(content, quote, needle).value; LocatedAt(content, quote, needle, span, text)
  {
    var q, exact := FindFrom(content, quote, 0).value, FindFrom(quote, needle, 0);
    if exact.Some? {
      OccurrenceSlices(quote, needle, exact.value);
      SpelledAt(content, quote, needle, q, exact.value, needle);
    } else {
      var off := FindFolded(quote, needle, 0).value;
      SpelledAt(content, quote, needle, q, off, quote[off..off + |needle|]);
    }
  }

  /** What the quote spells at `off`, the episode spells where the quote was found. */
  lemma SpelledAt(content: Text, quote: Text, needle: Text, q: nat, off: nat, text: Text)
    requires Valid(content) && Valid(quote) && needle != [] && OccursAt(content, quote, q)
    requires Slice(quote, off, off + |needle|) == Some(text) && FoldEqual(text, needle)
    ensures LocatedAt(content, quote, needle, Span(q + off, q + off + |needle|), text)
  {
    FoldedSlice(quote, off, off + |needle|);
    QuotedSlice(content, quote, q, off, off + |needle|);
  }

  /** Looking for the returned spelling finds the same place. */
  lemma {:induction false} LocateAgain(content: Text, quote: Text, needle: Text)
    requires Valid(content) && Valid(quote) && Valid(needle) && Locate(content, quote, needle).Some?
    ensures Locate(content, quote, Locate(content, quote, needle).value.1) == Locate(content, quote, needle)
  {
    if FindFrom(quote, needle, 0).None? { FoldedAgain(quote, needle); }
  }

  /** The spelling found but for case is found exactly, at the same place. */
  lemma {:induction false} FoldedAgain(quote: Text, needle: Text)
    requires Valid(quote) && needle != [] && FindFolded(quote, needle, 0).Some?
    ensures var off := FindFolded(quote, needle, 0).value;
      off + |needle| <= |quote| && FindFrom(quote, quote[off..off + |needle|], 0) == Some(off)
  {
    var off := FindFolded(quote, needle, 0).value;
    SliceValid(quote, off, off + |needle|);
    FoldedTwice(quote, needle, off, quote[off..off + |needle|]);
  }

  lemma FoldedTwice(quote: Text, needle: Text, off: nat, text: Text)
    requires Valid(quote) && Valid(text) && text != [] && |text| == |needle| && Folded(text) == Folded(needle)
    requires OccursAt(quote, text, off) && FindFolded(quote, needle, 0) == Some(off)
    ensures FindFrom(quote, text, 0) == Some(off)
  {
    FindMisses(quote, text, 0, off);
    var first := FindFrom(quote, text, 0).value;
    OccurrenceSlices(quote, text, first);
    FoldedFirst(quote, needle, 0, first);
  }

  ghost predicate TextOk(m: Mention) { Valid(m.surface) && (m.quote.Some? ==> Valid(m.quote.value)) }

  /** A resolved mention is spelled by the episode at its final span; only surface and span moved. */
  lemma ResolveVerbatim(content: Text, m: Mention)
    requires Valid(content) && TextOk(m) && Resolve(content, m).Some?
    ensures var r := Resolve(content, m).value;
      && Slice(content, r.span.start, r.span.end) == Some(r.surface)
      && r.entityType == m.entityType && r.quote == m.quote && TextOk(r)
  {
    if m.quote.Some? {
      LocateVerbatim(content, m.quote.value, m.surface);
    } else if Slice(content, m.span.start, m.span.end).Some? {
      SliceValid(content, m.span.start, m.span.end);
    }
  }

  /** Resolving a resolved mention leaves it alone. */
  lemma ResolveAgain(content: Text, m: Mention)
    requires Valid(content) && TextOk(m) && Resolve(content, m).Some?
    ensures Resolve(content, Resolve(content, m).value) == Resolve(content, m)
  {
    ResolveVerbatim(content, m);
    if m.quote.Some? {
      LocateAgain(content, m.quote.value, m.surface);
    }
  }

  // ---- One claim ----

  function TypeName(t: LiteralType): string {
    match t
    case TextType => "text"
    case DateType => "date"
    case DateTimeType => "datetime"
    case NumberType => "number"
    case BoolType => "bool"
    case QuantityType => "quantity"
  }

  function FindPredicate(defs: seq<Signature>, name: string): Option<Signature> {
    if defs == [] then None else if defs[0].name == name then Some(defs[0]) else FindPredicate(defs[1..], name)
  }

  predicate ObjectFits(o: ClaimObject, kind: ObjectKind) {
    match (o, kind)
    case (EntityObject(m), EntityKind(types)) => m.entityType in types
    case (LiteralObject(t, _, _, _), LiteralKind(expected)) => t == TypeName(expected)
    case (LiteralObject(_, v, _, _), EnumKind(variants)) => v in variants
    case _ => false
  }

  function ConfidenceErrors(confidence: real): seq<Error> {
    if 0.0 <= confidence <= 1.0 then [] else [ConfidenceOutOfRange]
  }

  function TypeErrors(c: Claim, def: Signature): seq<Error> {
    (if c.subject.entityType in def.subjectTypes then [] else [SubjectTypeMismatch(c.subject.entityType)])
    + (if ObjectFits(c.target, def.objectKind) then [] else [ObjectTypeMismatch])
  }

  predicate SpanInBounds(s: Span, length: nat) { s.start < length && s.end <= length && s.start < s.end }

  ghost predicate ObjectTextOk(o: ClaimObject) {
    match o
    case EntityObject(m) => TextOk(m)
    case LiteralObject(_, v, q, _) => Valid(v) && (q.Some? ==> Valid(q.value))
  }

  ghost predicate ClaimTextOk(c: Claim) { TextOk(c.subject) && ObjectTextOk(c.target) }

  /** The object with its location repaired, and what is wrong with it. */
  function LocateObject(content: Text, o: ClaimObject): (ClaimObject, seq<Error>)
    requires Valid(content) && ObjectTextOk(o)
  {
    match o
    case EntityObject(m) =>
      (match Resolve(content, m)
       case Some(r) => (EntityObject(r), [])
       case None => (o, [SurfaceNotVerbatim(m.surface)]))
    case LiteralObject(t, v, q, span) =>
      match q
      case Some(quote) =>
        (match Locate(content, quote, v)
         case Some((at, canonical)) => (LiteralObject(t, canonical, q, at), [])
         case None => (o, [SurfaceNotVerbatim(v)]))
      case None => (o, if SpanInBounds(span, |content|) then [] else [SpanOutOfBounds(span, |content|)])
  }

  /** The repaired claim and every error found, in the order the checks run. */
  function Checked(c: Claim, content: Text, defs: seq<Signature>): (Claim, seq<Error>)
    requires Valid(content) && ClaimTextOk(c)
  {
    var early := ConfidenceErrors(c.confidence);
    match FindPredicate(defs, c.relation)
    case None => (c, early + [UnknownPredicate(c.relation)])
    case Some(def) =>
      var subject := Resolve(content, c.subject);
      var (target, late) := LocateObject(content, c.target);
      (c.(subject := if subject.Some? then subject.value else c.subject, target := target),
       early + TypeErrors(c, def) + (if subject.Some? then [] else [SurfaceNotVerbatim(c.subject.surface)]) + late)
  }

  method CheckClaim(c: Claim, content: Text, defs: seq<Signature>) returns (repaired: Claim, errors: seq<Error>)
    requires Valid(content) && ClaimTextOk(c)
    ensures (repaired, errors) == Checked(c, content, defs)
  {
    repaired, errors := c, [];
    if !(0.0 <= c.confidence <= 1.0) { errors := errors + [ConfidenceOutOfRange]; }
    assert errors == ConfidenceErrors(c.confidence);
    var def := FindPredicate(defs, c.relation);
    if def.None? {
      errors := errors + [UnknownPredicate(c.relation)];
      return;
    }
    if c.subject.entityType !in def.value.subjectTypes {
      errors := errors + [SubjectTypeMismatch(c.subject.entityType)];
    }
    if !ObjectFits(c.target, def.value.objectKind) { errors := errors + [ObjectTypeMismatch]; }
    ghost var typed := errors;
    assert typed == ConfidenceErrors(c.confidence) + TypeErrors(c, def.value);
    var ok, subject := ResolveMention(content, c.subject);
    repaired := repaired.(subject := subject);
    if !ok { errors := errors + [SurfaceNotVerbatim(c.subject.surface)]; }
    assert errors == typed + (if ok then [] else [SurfaceNotVerbatim(c.subject.surface)]);
    var target, late := RepairObject(content, c.target);
    repaired := repaired.(target := target);
    errors := errors + late;
  }

  method RepairObject(content: Text, o: ClaimObject) returns (out: ClaimObject, errors: seq<Error>)
    requires Valid(content) && ObjectTextOk(o)
    ensures (out, errors) == LocateObject(content, o)
  {
    out, errors := o, [];
    match o
    case EntityObject(m) =>
      var ok, mention := ResolveMention(content, m);
      if ok { out := EntityObject(mention); } else { errors := [SurfaceNotVerbatim(m.surface)]; }
    case LiteralObject(t, v, q, span) =>
      if q.Some? {
        var located := LocateInQuote(content, q.value, v);
        if located.Some? {
          out := LiteralObject(t, located.value.1, q, located.value.0);
        } else {
          errors := [SurfaceNotVerbatim(v)];
        }
      } else if !SpanInBounds(span, |content|) {
        errors := [SpanOutOfBounds(span, |content|)];
      }
  }

  // ---- Accepted claims ----

  predicate Accepted(c: Claim, content: Text, defs: seq<Signature>)
    requires Valid(content) && ClaimTextOk(c)
  {
    Checked(c, content, defs).1 == []
  }

  /** The object's text is the episode's, byte for byte, at its span; an unquoted literal has a
      span inside the episode. */
  ghost predicate ObjectVerbatim(content: Text, o: ClaimObject) {
    match o
    case EntityObject(m) => Slice(content, m.span.start, m.span.end) == Some(m.surface)
    case LiteralObject(_, v, q, span) =>
      if q.Some? then Slice(content, span.start, span.end) == Some(v) else SpanInBounds(span, |content|)
  }

  lemma ObjectLocated(content: Text, o: ClaimObject)
    requires Valid(content) && ObjectTextOk(o) && LocateObject(content, o).1 == []
    ensures var r := LocateObject(content, o).0;
      && ObjectVerbatim(content, r) && ObjectTextOk(r) && LocateObject(content, r) == (r, [])
      && (o.EntityObject? ==> r.EntityObject? && r.mention.entityType == o.mention.entityType)
      && (o.LiteralObject? ==> r.LiteralObject? && r.literalType == o.literalType)
  {
    match o
    case EntityObject(m) =>
      ResolveVerbatim(content, m);
      ResolveAgain(content, m);
    case LiteralObject(_, v, q, _) =>
      if q.Some? {
        LocateVerbatim(content, q.value, v);
        LocateAgain(content, q.value, v);
      }
  }

  lemma NoErrors(a: seq<Error>, b: seq<Error>, c: seq<Error>, d: seq<Error>)
    ensures a + b + c + d == [] <==> a == [] && b == [] && c == [] && d == []
  {
    assert |a + b + c + d| == |a| + |b| + |c| + |d|;
  }

  /** What acceptance means: known predicate, confidence in range, fitting types, and both ends
      of the claim located in the episode. */
  lemma AcceptedMeaning(c: Claim, content: Text, defs: seq<Signature>)
    requires Valid(content) && ClaimTextOk(c)
    ensures Accepted(c, content, defs) <==>
      && 0.0 <= c.confidence <= 1.0 && FindPredicate(defs, c.relation).Some?
      && c.subject.entityType in FindPredicate(defs, c.relation).value.subjectTypes
      && ObjectFits(c.target, FindPredicate(defs, c.relation).value.objectKind)
      && Resolve(content, c.subject).Some? && LocateObject(content, c.target).1 == []
  {
    var def := FindPredicate(defs, c.relation);
    if def.Some? {
      var subject := Resolve(content, c.subject);
      NoErrors(ConfidenceErrors(c.confidence), TypeErrors(c, def.value),
               if subject.Some? then [] else [SurfaceNotVerbatim(c.subject.surface)], LocateObject(content, c.target).1);
    }
  }

  /** An accepted claim's subject, entity object and quoted literal are byte for byte the episode
      at the final spans. */
  lemma AcceptedVerbatim(c: Claim, content: Text, defs: seq<Signature>)
    requires Valid(content) && ClaimTextOk(c) && Accepted(c, content, defs)
    ensures var r := Checked(c, content, defs).0;
      && Slice(content, r.subject.span.start, r.subject.span.end) == Some(r.subject.surface)
      && ObjectVerbatim(content, r.target) && ClaimTextOk(r)
      && r == c.(subject := r.subject, target := r.target)
  {
    AcceptedMeaning(c, content, defs);
    ResolveVerbatim(content, c.subject);
    ObjectLocated(content, c.target);
  }

  /** Validating an accepted claim again returns it unchanged, except when its predicate is an
      enumeration and the episode's spelling of the value is not one of the variants. */
  lemma RevalidatesExactly(c: Claim, content: Text, defs: seq<Signature>)
    requires Valid(content) && ClaimTextOk(c) && Accepted(c, content, defs)
    ensures var r := Checked(c, content, defs).0; var kind := FindPredicate(defs, c.relation).value.objectKind;
      && FindPredicate(defs, c.relation).Some? && ClaimTextOk(r)
      && Checked(r, content, defs).0 == r
      && (Accepted(r, content, defs) <==> (kind.EnumKind? ==> r.target.LiteralObject? && r.target.value in kind.variants))
  {
    var r := Checked(c, content, defs).0;
    AcceptedMeaning(c, content, defs);
    AcceptedVerbatim(c, content, defs);
    ResolveAgain(content, c.subject);
    ResolveVerbatim(content, c.subject);
    ObjectLocated(content, c.target);
    AcceptedMeaning(r, content, defs);
  }

  /** A claim accepted once and refused the second time: the variant is written in lower case,
      the episode has it capitalised. */
  lemma EnumRefusedAgain()
    ensures exists c: Claim, content, defs ::
      && Valid(content) && ClaimTextOk(c) && Accepted(c, content, defs)
      && ClaimTextOk(Checked(c, content, defs).0) && !Accepted(Checked(c, content, defs).0, content, defs)
  {
    var a: Text, upper: Text := [97], [65];
    AsciiValid(a);
    AsciiValid(upper);
    var defs := [Signature("status", ["person"], EnumKind([a]))];
    var c := Claim("status", Mention(upper, "person", None, Span(0, 1)), LiteralObject("text", a, Some(upper), Span(0, 0)),
                   TemporalFold.Affirm, None, None, 1.0);
    assert Slice(upper, 0, 1) == Some(upper) by { assert upper[0..1] == upper; }
    assert Resolve(upper, c.subject) == Some(c.subject);
    FoundFolded(upper, a);
    assert LocateObject(upper, c.target) == (LiteralObject("text", upper, Some(upper), Span(0, 1)), []);
    assert FindPredicate(defs, "status") == Some(defs[0]);
    AcceptedMeaning(c, upper, defs);
    RevalidatesExactly(c, upper, defs);
  }

  lemma FoundFolded(upper: Text, a: Text)
    requires upper == [65] && a == [97] && Valid(upper)
    ensures Locate(upper, upper, a) == Some((Span(0, 1), upper))
  {
    assert OccursAt(upper, upper, 0);
    assert !OccursAt(upper, a, 0) by { assert a[0] != upper[0 + 0]; }
    assert !OccursAt(upper, a, 1);
    assert Folded(upper) == Folded(a) by { assert Folded(upper)[0] == Folded(a)[0]; }
    assert Slice(upper, 0, 1) == Some(upper) by { assert upper[0..1] == upper; }
    assert FoldsAt(upper, a, 0);
    FoldedFirst(upper, a, 0, 0);
  }

  // ---- All claims ----

  /** The first `n` claims repaired, each with its errors. */
  function Verdicts(claims: seq<Claim>, content: Text, defs: seq<Signature>, n: nat): (r: seq<(Claim, seq<Error>)>)
    requires n <= |claims| && Valid(content) && forall c :: c in claims ==> ClaimTextOk(c)
    ensures |r| == n
  {
    if n == 0 then [] else
      assert claims[n - 1] in claims;
      Verdicts(claims, content, defs, n - 1) + [Checked(claims[n - 1], content, defs)]
  }

  ghost predicate VerdictAt(claims: seq<Claim>, content: Text, defs: seq<Signature>, verdicts: seq<(Claim, seq<Error>)>, i: nat)
    requires i < |verdicts| <= |claims| && Valid(content) && ClaimTextOk(claims[i])
  {
    verdicts[i] == Checked(claims[i], content, defs)
  }

  /** The verdict at each place is the check of the claim there. */
  lemma {:induction false} VerdictList(claims: seq<Claim>, content: Text, defs: seq<Signature>, n: nat)
    returns (verdicts: seq<(Claim, seq<Error>)>)
    requires n <= |claims| && Valid(content) && forall c :: c in claims ==> ClaimTextOk(c)
    ensures verdicts == Verdicts(claims, content, defs, n) && forall i :: 0 <= i < |claims| ==> ClaimTextOk(claims[i])
    ensures forall i {:trigger VerdictAt(claims, content, defs, verdicts, i)} :: 0 <= i < n ==> VerdictAt(claims, content, defs, verdicts, i)
    decreases n
  {
    verdicts := Verdicts(claims, content, defs, n);
    if n > 0 {
      var front := VerdictList(claims, content, defs, n - 1);
      VerdictsJoin(claims, content, defs, front, verdicts);
    }
  }

  lemma VerdictsJoin(claims: seq<Claim>, content: Text, defs: seq<Signature>, front: seq<(Claim, seq<Error>)>,
                     verdicts: seq<(Claim, seq<Error>)>)
    requires |front| < |claims| && Valid(content) && forall i :: 0 <= i < |claims| ==> ClaimTextOk(claims[i])
    requires forall i {:trigger VerdictAt(claims, content, defs, front, i)} :: 0 <= i < |front| ==> VerdictAt(claims, content, defs, front, i)
    requires verdicts == front + [Checked(claims[|front|], content, defs)]
    ensures forall i {:trigger VerdictAt(claims, content, defs, verdicts, i)} :: 0 <= i < |verdicts| ==> VerdictAt(claims, content, defs, verdicts, i)
  {
    forall i | 0 <= i < |verdicts| ensures VerdictAt(claims, content, defs, verdicts, i) {
      if i < |front| { assert VerdictAt(claims, content, defs, front, i); }
    }
  }

  /** The repaired claims without errors among the first `n`. */
  function Valids<C, E(==)>(verdicts: seq<(C, seq<E>)>, n: nat): seq<C>
    requires n <= |verdicts|
  {
    if n == 0 then [] else
      Valids(verdicts, n - 1) + (if verdicts[n - 1].1 == [] then [verdicts[n - 1].0] else [])
  }

  /** The refused claims among the first `n`, as given, with their errors. */
  function Invalids<C, E(==)>(claims: seq<C>, verdicts: seq<(C, seq<E>)>, n: nat): seq<(C, seq<E>)>
    requires n <= |verdicts| == |claims|
  {
    if n == 0 then [] else
      Invalids(claims, verdicts, n - 1) + (if verdicts[n - 1].1 == [] then [] else [(claims[n - 1], verdicts[n - 1].1)])
  }

  method ValidateClaims(claims: seq<Claim>, content: Text, defs: seq<Signature>)
    returns (valid: seq<Claim>, invalid: seq<(Claim, seq<Error>)>)
    requires Valid(content) && forall c :: c in claims ==> ClaimTextOk(c)
    ensures valid == Valids(Verdicts(claims, content, defs, |claims|), |claims|)
    ensures invalid == Invalids(claims, Verdicts(claims, content, defs, |claims|), |claims|)
  {
    valid, invalid := [], [];
    ghost var verdicts := VerdictList(claims, content, defs, |claims|);
    for i := 0 to |claims|
      invariant valid == Valids(verdicts, i) && invalid == Invalids(claims, verdicts, i)
    {
      assert claims[i] in claims;
      valid, invalid := PlaceClaim(claims[i], content, defs, claims, verdicts, i, valid, invalid);
    }
  }

  /** One claim joins the list its verdict names. */
  method PlaceClaim(c: Claim, content: Text, defs: seq<Signature>, ghost claims: seq<Claim>,
                    ghost verdicts: seq<(Claim, seq<Error>)>, ghost i: nat,
                    before: seq<Claim>, refused: seq<(Claim, seq<Error>)>)
    returns (valid: seq<Claim>, invalid: seq<(Claim, seq<Error>)>)
    requires Valid(content) && ClaimTextOk(c) && i < |claims| == |verdicts| && c == claims[i]
    requires VerdictAt(claims, content, defs, verdicts, i)
    requires before == Valids(verdicts, i) && refused == Invalids(claims, verdicts, i)
    ensures valid == Valids(verdicts, i + 1) && invalid == Invalids(claims, verdicts, i + 1)
  {
    var repaired, errors := CheckClaim(c, content, defs);
    assert verdicts[i] == (repaired, errors);
    valid, invalid := before, refused;
    if errors == [] {
      valid := valid + [repaired];
    } else {
      invalid := invalid + [(c, errors)];
    }
  }

  lemma {:induction false} PartitionSizes<C, E>(claims: seq<C>, verdicts: seq<(C, seq<E>)>, n: nat)
    requires n <= |verdicts| == |claims|
    ensures |Valids(verdicts, n)| + |Invalids(claims, verdicts, n)| == n
    decreases n
  {
    if n > 0 { PartitionSizes(claims, verdicts, n - 1); }
  }

  /** Every claim lands in exactly one of the two lists, both in input order: claim `i` takes the
      next place of its list after the claims before it. */
  lemma {:induction false} PartitionedInOrder<C, E>(claims: seq<C>, verdicts: seq<(C, seq<E>)>, n: nat, i: nat)
    requires i < n <= |verdicts| == |claims|
    ensures var v, w := |Valids(verdicts, i)|, |Invalids(claims, verdicts, i)|;
      && v + w == i && |Valids(verdicts, n)| + |Invalids(claims, verdicts, n)| == n
      && (if verdicts[i].1 == [] then v < |Valids(verdicts, n)| && Valids(verdicts, n)[v] == verdicts[i].0
          else w < |Invalids(claims, verdicts, n)| && Invalids(claims, verdicts, n)[w] == (claims[i], verdicts[i].1))
    decreases n
  {
    PartitionSizes(claims, verdicts, i);
    PartitionSizes(claims, verdicts, n);
    if i < n - 1 { PartitionedInOrder(claims, verdicts, n - 1, i); }
  }
}
