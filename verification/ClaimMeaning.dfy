/** What validation decides about a claim, in terms of the bytes of the episode and the fields of
    the claim and of the registry. */
module ClaimMeaning {
  import opened Orders
  import opened Utf8
  import opened Extraction

  // ---- Bytes ----

  predicate SameLetter(a: Byte, b: Byte) {
    a == b || (65 <= a <= 90 && b as int == a as int + 32) || (65 <= b <= 90 && a as int == b as int + 32)
  }

  /** Equal but for the case of ASCII letters. */
  predicate SameLetters(a: Text, b: Text) {
    |a| == |b| && forall i :: 0 <= i < |a| ==> SameLetter(a[i], b[i])
  }

  /** Whole characters from `a` to `b` spell the text. */
  predicate Spells(s: Text, a: nat, b: nat, text: Text) { a <= b && Edge(s, a) && Edge(s, b) && s[a..b] == text }

  /** Whole characters from `a` to `b` spell the text but for case. */
  predicate SpellsFolded(s: Text, a: nat, b: nat, text: Text) { a <= b && Edge(s, a) && Edge(s, b) && SameLetters(s[a..b], text) }

  predicate StartsAt(hay: Text, needle: Text, i: nat) { i + |needle| <= |hay| && hay[i..i + |needle|] == needle }

  ghost predicate FirstAt(hay: Text, needle: Text, i: nat) {
    StartsAt(hay, needle, i) && forall j: nat :: j < i ==> !StartsAt(hay, needle, j)
  }

  /** The text, but for case, in whole characters from `i` on. */
  predicate FoldedStart(hay: Text, needle: Text, i: nat) { SpellsFolded(hay, i, i + |needle|, needle) }

  ghost predicate FirstFolded(hay: Text, needle: Text, i: nat) {
    FoldedStart(hay, needle, i) && forall j: nat :: j < i ==> !FoldedStart(hay, needle, j)
  }

  lemma LowerMeaning(a: Byte, b: Byte)
    ensures Lower(a) == Lower(b) <==> SameLetter(a, b)
  {
  }

  lemma FoldedMeaning(a: Text, b: Text)
    ensures Folded(a) == Folded(b) <==> SameLetters(a, b)
  {
    if |a| == |b| {
      forall i | 0 <= i < |a| ensures Folded(a)[i] == Folded(b)[i] <==> SameLetter(a[i], b[i]) { LowerMeaning(a[i], b[i]); }
      assert (forall i :: 0 <= i < |a| ==> Folded(a)[i] == Folded(b)[i]) ==> Folded(a) == Folded(b);
    } else {
      assert |Folded(a)| != |Folded(b)|;
    }
  }

  lemma SliceMeaning(s: Text, a: nat, b: nat, text: Text)
    ensures Slice(s, a, b) == Some(text) <==> Spells(s, a, b, text)
  {
  }

  lemma FoldsMeaning(s: Text, needle: Text, off: nat)
    ensures FoldsAt(s, needle, off) <==> FoldedStart(s, needle, off)
  {
    if Slice(s, off, off + |needle|).Some? { FoldedMeaning(s[off..off + |needle|], needle); }
  }

  lemma {:induction false} FoundFirst(hay: Text, needle: Text, i: nat)
    ensures FindFrom(hay, needle, 0) == Some(i) <==> FirstAt(hay, needle, i)
    ensures FindFrom(hay, needle, 0).None? ==> !StartsAt(hay, needle, i)
  {
    forall j: nat | StartsAt(hay, needle, j) ensures FindFrom(hay, needle, 0).Some? && FindFrom(hay, needle, 0).value <= j {
      FindMisses(hay, needle, 0, j);
    }
    if FindFrom(hay, needle, 0).Some? { assert StartsAt(hay, needle, FindFrom(hay, needle, 0).value); }
  }

  lemma FoldedFound(window: Text, needle: Text, i: nat)
    requires Valid(window) && needle != []
    ensures FindFolded(window, needle, 0) == Some(i) <==> FirstFolded(window, needle, i)
    ensures FindFolded(window, needle, 0).None? ==> !FoldedStart(window, needle, i)
  {
    var found := FindFolded(window, needle, 0);
    forall j: nat | FoldedStart(window, needle, j) ensures found.Some? && found.value <= j {
      FoldsMeaning(window, needle, j);
      FoldedFirst(window, needle, 0, j);
    }
    if found.Some? {
      FoldsMeaning(window, needle, found.value);
      assert FoldedStart(window, needle, found.value);
    }
  }

  // ---- Text located in a quote ----

  /** Found in the first occurrence of the quote: at the first exact occurrence of the needle in
      it, or, when there is none, at the first one but for case, as the episode spells it. */
  ghost predicate LocatedBy(content: Text, quote: Text, needle: Text, span: Span, text: Text, q: nat, off: nat) {
    && needle != [] && FirstAt(content, quote, q) && span == Span(q + off, q + off + |needle|) && off + |needle| <= |quote|
    && (if exists j: nat :: StartsAt(quote, needle, j) then FirstAt(quote, needle, off) && text == needle
        else FirstFolded(quote, needle, off) && text == quote[off..off + |needle|])
  }

  ghost predicate IsLocated(content: Text, quote: Text, needle: Text, span: Span, text: Text) {
    exists q, off :: LocatedBy(content, quote, needle, span, text, q, off)
  }

  lemma LocatedExactly(content: Text, quote: Text, needle: Text, span: Span, text: Text)
    requires Valid(quote)
    ensures Locate(content, quote, needle) == Some((span, text)) <==> IsLocated(content, quote, needle, span, text)
  {
    if Locate(content, quote, needle) == Some((span, text)) {
      LocatedFound(content, quote, needle, span, text);
    }
    if IsLocated(content, quote, needle, span, text) {
      var q: nat, off: nat :| LocatedBy(content, quote, needle, span, text, q, off);
      LocatedThere(content, quote, needle, span, text, q, off);
    }
  }

  lemma LocatedFound(content: Text, quote: Text, needle: Text, span: Span, text: Text)
    requires Valid(quote) && Locate(content, quote, needle) == Some((span, text))
    ensures IsLocated(content, quote, needle, span, text)
  {
    var q := FindFrom(content, quote, 0).value;
    FoundFirst(content, quote, q);
    var exact := FindFrom(quote, needle, 0);
    if exact.Some? {
      FoundFirst(quote, needle, exact.value);
      assert LocatedBy(content, quote, needle, span, text, q, exact.value);
    } else {
      NeverStarts(quote, needle);
      var off := FindFolded(quote, needle, 0).value;
      FoldedFound(quote, needle, off);
      assert LocatedBy(content, quote, needle, span, text, q, off);
    }
  }

  lemma NeverStarts(hay: Text, needle: Text)
    ensures FindFrom(hay, needle, 0).None? <==> forall j: nat :: !StartsAt(hay, needle, j)
  {
    forall j: nat ensures FindFrom(hay, needle, 0).None? ==> !StartsAt(hay, needle, j) { FoundFirst(hay, needle, j); }
    if FindFrom(hay, needle, 0).Some? { assert StartsAt(hay, needle, FindFrom(hay, needle, 0).value); }
  }

  lemma LocatedThere(content: Text, quote: Text, needle: Text, span: Span, text: Text, q: nat, off: nat)
    requires Valid(quote) && LocatedBy(content, quote, needle, span, text, q, off)
    ensures Locate(content, quote, needle) == Some((span, text))
  {
    FoundFirst(content, quote, q);
    FoundInQuote(quote, needle, text, off);
    LocateUnfolds(content, quote, needle, q, off, text);
  }

  /** Where and how the quote holds the needle. */
  ghost predicate HeldAt(quote: Text, needle: Text, off: nat, text: Text)
    requires Valid(quote) && off + |needle| <= |quote|
  {
    || (FindFrom(quote, needle, 0) == Some(off) && text == needle)
    || (FindFrom(quote, needle, 0).None? && FindFolded(quote, needle, 0) == Some(off) && text == quote[off..off + |needle|])
  }

  lemma FoundInQuote(quote: Text, needle: Text, text: Text, off: nat)
    requires Valid(quote) && needle != [] && off + |needle| <= |quote|
    requires if exists j: nat :: StartsAt(quote, needle, j) then FirstAt(quote, needle, off) && text == needle
             else FirstFolded(quote, needle, off) && text == quote[off..off + |needle|]
    ensures HeldAt(quote, needle, off, text)
  {
    NeverStarts(quote, needle);
    if FindFrom(quote, needle, 0).Some? {
      FoundFirst(quote, needle, off);
    } else {
      FoldedFound(quote, needle, off);
    }
  }

  lemma LocateUnfolds(content: Text, quote: Text, needle: Text, q: nat, off: nat, text: Text)
    requires Valid(quote) && needle != [] && off + |needle| <= |quote|
    requires FindFrom(content, quote, 0) == Some(q) && HeldAt(quote, needle, off, text)
    ensures Locate(content, quote, needle) == Some((Span(q + off, q + off + |needle|), text))
  {
  }

  // ---- Character spans ----

  /** The character that starts at byte `k`, or the end, is number `n`. */
  predicate CharacterAt(s: Text, k: nat, n: nat) { Edge(s, k) && Leads(s, k) == n }

  /** The bytes from `s` to `e` are the characters from `a` to `b`, the first of which exists. */
  predicate CharRange(content: Text, a: nat, b: nat, s: nat, e: nat) {
    a <= b && CharacterAt(content, s, a) && CharacterAt(content, e, b) && s < |content|
  }

  lemma {:induction false} NthFound(content: Text, at: nat, k: nat)
    requires ValidFrom(content, at) && at <= k <= |content| && Boundary(content, k)
    ensures Leads(content, at) <= Leads(content, k)
    ensures NthFrom(content, at, Leads(content, k) - Leads(content, at)) == Some(k)
    decreases |content| - at
  {
    if at < k {
      var next := at + Width(content[at]);
      assert Inner(content, k) || k >= next;
      LeadsWithin(content, at, next);
      NthFound(content, next, k);
    }
  }

  lemma CharSpanExactly(content: Text, a: nat, b: nat, s: nat, e: nat)
    requires Valid(content)
    ensures CharSpan(content, a, b) == Some(Span(s, e)) <==> CharRange(content, a, b, s, e)
  {
    NthCounts(content, 0, a);
    NthCounts(content, 0, b);
    if s <= |content| && Boundary(content, s) { NthFound(content, 0, s); }
    if e <= |content| && Boundary(content, e) { NthFound(content, 0, e); }
  }

  // ---- Mentions ----

  ghost predicate SpellsAtCharacters(content: Text, m: Mention, s: nat, e: nat) {
    CharRange(content, m.span.start, m.span.end, s, e) && Spells(content, s, e, m.surface)
  }

  ghost predicate CharactersSpell(content: Text, m: Mention) { exists s, e :: SpellsAtCharacters(content, m, s, e) }

  predicate BytesSpell(content: Text, m: Mention) { Spells(content, m.span.start, m.span.end, m.surface) }

  predicate BytesFold(content: Text, m: Mention) { SpellsFolded(content, m.span.start, m.span.end, m.surface) }

  /** `r` is the mention as the episode supports it. A quoted mention is located in its quote. An
      unquoted one keeps its place when the bytes of its span spell it; else it takes the bytes of
      its characters when those spell it; else it takes the spelling found but for case. */
  ghost predicate ResolvesTo(content: Text, m: Mention, r: Mention) {
    if m.quote.Some? then
      IsLocated(content, m.quote.value, m.surface, r.span, r.surface) && r == m.(span := r.span, surface := r.surface)
    else if BytesSpell(content, m) then r == m
    else if CharactersSpell(content, m) then
      SpellsAtCharacters(content, m, r.span.start, r.span.end) && r == m.(span := r.span)
    else BytesFold(content, m) && r == m.(surface := content[m.span.start..m.span.end])
  }

  lemma ResolvesExactly(content: Text, m: Mention, r: Mention)
    requires Valid(content) && (m.quote.Some? ==> Valid(m.quote.value))
    ensures Resolve(content, m) == Some(r) <==> ResolvesTo(content, m, r)
  {
    if m.quote.Some? {
      LocatedExactly(content, m.quote.value, m.surface, r.span, r.surface);
    } else {
      SliceMeaning(content, m.span.start, m.span.end, m.surface);
      if !BytesSpell(content, m) { ResolvesElsewhere(content, m, r); }
    }
  }

  lemma ResolvesElsewhere(content: Text, m: Mention, r: Mention)
    requires Valid(content) && m.quote.None? && !BytesSpell(content, m)
    ensures Resolve(content, m) == Some(r) <==> ResolvesTo(content, m, r)
  {
    var range := CharSpan(content, m.span.start, m.span.end);
    SliceMeaning(content, m.span.start, m.span.end, m.surface);
    CharactersExactly(content, m);
    if CharactersSpell(content, m) {
      CharSpanExactly(content, m.span.start, m.span.end, r.span.start, r.span.end);
      SliceMeaning(content, range.value.start, range.value.end, m.surface);
    } else if Slice(content, m.span.start, m.span.end).Some? {
      FoldedMeaning(content[m.span.start..m.span.end], m.surface);
    }
  }

  lemma CharactersExactly(content: Text, m: Mention)
    requires Valid(content)
    ensures var range := CharSpan(content, m.span.start, m.span.end);
      CharactersSpell(content, m) <==> range.Some? && Slice(content, range.value.start, range.value.end) == Some(m.surface)
  {
    var range := CharSpan(content, m.span.start, m.span.end);
    if range.Some? {
      CharSpanExactly(content, m.span.start, m.span.end, range.value.start, range.value.end);
      SliceMeaning(content, range.value.start, range.value.end, m.surface);
      if Slice(content, range.value.start, range.value.end) == Some(m.surface) {
        assert SpellsAtCharacters(content, m, range.value.start, range.value.end);
      }
    }
    if s, e :| SpellsAtCharacters(content, m, s, e) {
      CharSpanExactly(content, m.span.start, m.span.end, s, e);
      SliceMeaning(content, s, e, m.surface);
    }
  }

  // ---- Claims ----

  /** The registry's first definition of the name is number `i`. */
  ghost predicate Defines(defs: seq<Signature>, i: nat, name: string) {
    i < |defs| && defs[i].name == name && forall j :: 0 <= j < i ==> defs[j].name != name
  }

  predicate Named(given: string, expected: LiteralType) {
    || (expected == TextType && given == "text")
    || (expected == DateType && given == "date")
    || (expected == DateTimeType && given == "datetime")
    || (expected == NumberType && given == "number")
    || (expected == BoolType && given == "bool")
    || (expected == QuantityType && given == "quantity")
  }

  /** An entity of a listed type, a literal of the expected type, or a literal that is one of the
      variants. */
  predicate Fits(o: ClaimObject, kind: ObjectKind) {
    || (o.EntityObject? && kind.EntityKind? && o.mention.entityType in kind.types)
    || (o.LiteralObject? && kind.LiteralKind? && Named(o.literalType, kind.expected))
    || (o.LiteralObject? && kind.EnumKind? && o.value in kind.variants)
  }

  lemma FitsExactly(o: ClaimObject, kind: ObjectKind)
    ensures ObjectFits(o, kind) <==> Fits(o, kind)
  {
  }

  lemma {:induction false} DefinitionExactly(defs: seq<Signature>, name: string, i: nat)
    ensures Defines(defs, i, name) ==> FindPredicate(defs, name) == Some(defs[i])
    ensures FindPredicate(defs, name).None? ==> !Defines(defs, i, name)
    decreases |defs|
  {
    if defs != [] && defs[0].name != name && i > 0 {
      DefinitionExactly(defs[1..], name, i - 1);
      assert forall j :: 0 <= j < |defs| - 1 ==> defs[1..][j] == defs[j + 1];
      if Defines(defs, i, name) {
        assert forall j :: 0 <= j < i - 1 ==> defs[1..][j] == defs[j + 1];
        assert Defines(defs[1..], i - 1, name);
      }
    }
  }

  lemma {:induction false} DefinitionFound(defs: seq<Signature>, name: string) returns (i: nat)
    requires FindPredicate(defs, name).Some?
    ensures Defines(defs, i, name) && FindPredicate(defs, name) == Some(defs[i])
    decreases |defs|
  {
    if defs[0].name == name {
      i := 0;
    } else {
      var k := DefinitionFound(defs[1..], name);
      i := k + 1;
      assert forall j :: 0 < j < i ==> defs[j] == defs[1..][j - 1];
    }
  }

  lemma {:induction false} NoDefinition(defs: seq<Signature>, name: string)
    ensures FindPredicate(defs, name).None? <==> forall i :: 0 <= i < |defs| ==> defs[i].name != name
    decreases |defs|
  {
    if defs != [] {
      NoDefinition(defs[1..], name);
      assert forall j :: 0 <= j < |defs| - 1 ==> defs[1..][j] == defs[j + 1];
      assert forall i :: 0 < i < |defs| ==> defs[i] == defs[1..][i - 1];
    }
  }

  ghost predicate Locatable(content: Text, m: Mention) { exists r :: ResolvesTo(content, m, r) }

  /** `r` is the object as the episode supports it; an unquoted literal only needs a span inside it. */
  ghost predicate ObjectResolvesTo(content: Text, o: ClaimObject, r: ClaimObject) {
    match o
    case EntityObject(m) => r.EntityObject? && ResolvesTo(content, m, r.mention)
    case LiteralObject(t, v, q, span) =>
      if q.Some? then
        && r.LiteralObject? && IsLocated(content, q.value, v, r.span, r.value)
        && r == o.(value := r.value, span := r.span)
      else r == o && span.start < span.end <= |content|
  }

  ghost predicate ObjectLocatable(content: Text, o: ClaimObject) { exists r :: ObjectResolvesTo(content, o, r) }

  lemma LocatableExactly(content: Text, m: Mention)
    requires Valid(content) && TextOk(m)
    ensures Resolve(content, m).Some? <==> Locatable(content, m)
    ensures Resolve(content, m).Some? ==> ResolvesTo(content, m, Resolve(content, m).value)
  {
    if Resolve(content, m).Some? { ResolvesExactly(content, m, Resolve(content, m).value); }
    if r :| ResolvesTo(content, m, r) { ResolvesExactly(content, m, r); }
  }

  lemma ObjectExactly(content: Text, o: ClaimObject, r: ClaimObject)
    requires Valid(content) && ObjectTextOk(o)
    ensures LocateObject(content, o) == (r, []) <==> ObjectResolvesTo(content, o, r)
  {
    match o
    case EntityObject(m) =>
      if r.EntityObject? { ResolvesExactly(content, m, r.mention); }
    case LiteralObject(_, v, q, _) =>
      if q.Some? && r.LiteralObject? { LocatedExactly(content, q.value, v, r.span, r.value); }
  }

  lemma ObjectLocatableExactly(content: Text, o: ClaimObject)
    requires Valid(content) && ObjectTextOk(o)
    ensures LocateObject(content, o).1 == [] <==> ObjectLocatable(content, o)
    ensures LocateObject(content, o).1 == [] ==> ObjectResolvesTo(content, o, LocateObject(content, o).0)
  {
    ObjectExactly(content, o, LocateObject(content, o).0);
    if r :| ObjectResolvesTo(content, o, r) { ObjectExactly(content, o, r); }
  }

  /** What a definition and the episode must say for a claim to pass. */
  ghost predicate Supported(c: Claim, content: Text, def: Signature) {
    && 0.0 <= c.confidence <= 1.0 && c.subject.entityType in def.subjectTypes && Fits(c.target, def.objectKind)
    && Locatable(content, c.subject) && ObjectLocatable(content, c.target)
  }

  /** A claim is accepted exactly when the registry's first definition of its predicate and the
      episode support it. */
  lemma AcceptedExactly(c: Claim, content: Text, defs: seq<Signature>)
    requires Valid(content) && ClaimTextOk(c)
    ensures Accepted(c, content, defs) <==> exists i: nat :: Defines(defs, i, c.relation) && Supported(c, content, defs[i])
  {
    AcceptedMeaning(c, content, defs);
    LocatableExactly(content, c.subject);
    ObjectLocatableExactly(content, c.target);
    if FindPredicate(defs, c.relation).Some? {
      var i := DefinitionFound(defs, c.relation);
      FitsExactly(c.target, defs[i].objectKind);
      forall j: nat | Defines(defs, j, c.relation) ensures defs[j] == defs[i] { DefinitionExactly(defs, c.relation, j); }
    } else {
      forall i: nat ensures !Defines(defs, i, c.relation) { DefinitionExactly(defs, c.relation, i); }
    }
  }

  /** An accepted claim is returned with its subject and object as the episode supports them, and
      is otherwise unchanged. */
  lemma AcceptedRepair(c: Claim, content: Text, defs: seq<Signature>)
    requires Valid(content) && ClaimTextOk(c) && Accepted(c, content, defs)
    ensures var r := Checked(c, content, defs).0;
      && ResolvesTo(content, c.subject, r.subject) && ObjectResolvesTo(content, c.target, r.target)
      && r == c.(subject := r.subject, target := r.target)
  {
    AcceptedMeaning(c, content, defs);
    LocatableExactly(content, c.subject);
    ObjectLocatableExactly(content, c.target);
  }

  // ---- Errors ----

  ghost predicate NoneDefines(defs: seq<Signature>, name: string) { forall i :: 0 <= i < |defs| ==> defs[i].name != name }

  /** When the error belongs in a claim's list. */
  ghost predicate ErrorDue(c: Claim, content: Text, defs: seq<Signature>, e: Error) {
    match e
    case ConfidenceOutOfRange => c.confidence < 0.0 || c.confidence > 1.0
    case UnknownPredicate(name) => name == c.relation && NoneDefines(defs, name)
    case SubjectTypeMismatch(got) =>
      got == c.subject.entityType && exists i: nat :: Defines(defs, i, c.relation) && got !in defs[i].subjectTypes
    case ObjectTypeMismatch =>
      exists i: nat :: Defines(defs, i, c.relation) && !Fits(c.target, defs[i].objectKind)
    case SurfaceNotVerbatim(surface) =>
      !NoneDefines(defs, c.relation) && (SubjectMissing(c, content, surface) || ObjectMissing(c, content, surface))
    case SpanOutOfBounds(span, length) =>
      && !NoneDefines(defs, c.relation) && length == |content|
      && c.target.LiteralObject? && c.target.quote.None? && span == c.target.span && !(span.start < span.end <= length)
  }

  ghost predicate SubjectMissing(c: Claim, content: Text, surface: Text) {
    surface == c.subject.surface && !Locatable(content, c.subject)
  }

  ghost predicate ObjectMissing(c: Claim, content: Text, surface: Text) {
    && !ObjectLocatable(content, c.target)
    && (c.target.EntityObject? ==> surface == c.target.mention.surface)
    && (c.target.LiteralObject? ==> c.target.quote.Some? && surface == c.target.value)
  }

  lemma InSum(a: seq<Error>, b: seq<Error>, c: seq<Error>, d: seq<Error>, e: Error)
    ensures e in a + b + c + d <==> e in a || e in b || e in c || e in d
  {
  }

  /** The errors reported are exactly those due. */
  lemma ErrorsExactly(c: Claim, content: Text, defs: seq<Signature>, e: Error)
    requires Valid(content) && ClaimTextOk(c)
    ensures e in Checked(c, content, defs).1 <==> ErrorDue(c, content, defs, e)
  {
    NoDefinition(defs, c.relation);
    if FindPredicate(defs, c.relation).Some? {
      var i := DefinitionFound(defs, c.relation);
      KnownErrors(c, content, defs, i, e);
    } else {
      forall i: nat ensures !Defines(defs, i, c.relation) { DefinitionExactly(defs, c.relation, i); }
    }
  }

  lemma KnownErrors(c: Claim, content: Text, defs: seq<Signature>, i: nat, e: Error)
    requires Valid(content) && ClaimTextOk(c)
    requires Defines(defs, i, c.relation) && FindPredicate(defs, c.relation) == Some(defs[i])
    ensures e in Checked(c, content, defs).1 <==> ErrorDue(c, content, defs, e)
  {
    var subject := Resolve(content, c.subject);
    var missing := if subject.Some? then [] else [SurfaceNotVerbatim(c.subject.surface)];
    InSum(ConfidenceErrors(c.confidence), TypeErrors(c, defs[i]), missing, LocateObject(content, c.target).1, e);
    LocatableExactly(content, c.subject);
    ObjectLocatableExactly(content, c.target);
    FitsExactly(c.target, defs[i].objectKind);
    forall j: nat | Defines(defs, j, c.relation) ensures defs[j] == defs[i] { DefinitionExactly(defs, c.relation, j); }
    assert !NoneDefines(defs, c.relation);
    ObjectErrors(c, content, e);
  }

  lemma ObjectErrors(c: Claim, content: Text, e: Error)
    requires Valid(content) && ClaimTextOk(c)
    ensures e in LocateObject(content, c.target).1 <==>
      || (e.SurfaceNotVerbatim? && ObjectMissing(c, content, e.surface))
      || (e.SpanOutOfBounds? && e.length == |content| && c.target.LiteralObject? && c.target.quote.None?
          && e.span == c.target.span && !(e.span.start < e.span.end <= e.length))
  {
    ObjectLocatableExactly(content, c.target);
  }
}
