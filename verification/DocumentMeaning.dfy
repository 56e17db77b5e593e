/** What is recalled for a hit, in terms of the bytes of the text and the fields of the headings. */
module DocumentMeaning {
  import opened Orders
  import opened Utf8
  import opened Documents

  /** The range is in the text and cuts no character. */
  predicate InText(text: Text, r: Range) { r.start <= r.end <= |text| && Edge(text, r.start) && Edge(text, r.end) }

  /** A heading that opens a section: it has a level, and it is not empty. */
  predicate Opens(text: Text, h: Heading) { h.level >= 1 && h.start < h.end && InText(text, Range(h.start, h.end)) }

  /** Heading `k` follows heading `i` and is its peer or ancestor. */
  predicate Ends(text: Text, headings: seq<Heading>, i: nat, k: nat) {
    && i < k < |headings| && 1 <= headings[k].level <= headings[i].level
    && headings[i].end <= headings[k].start <= |text| && Edge(text, headings[k].start)
  }

  /** Section `x` is opened by heading `i` and reaches to the first heading that ends it, or to the
      end of the text. */
  ghost predicate OpenedBy(text: Text, headings: seq<Heading>, i: nat, x: Section) {
    && i < |headings| && Opens(text, headings[i]) && x.level == headings[i].level && x.range.start == headings[i].start
    && ((exists k: nat :: EndsFirst(text, headings, i, k) && x.range.end == headings[k].start)
        || (x.range.end == |text| && forall k: nat :: !Ends(text, headings, i, k)))
  }

  ghost predicate EndsFirst(text: Text, headings: seq<Heading>, i: nat, k: nat) {
    Ends(text, headings, i, k) && forall j: nat :: j < k ==> !Ends(text, headings, i, j)
  }

  ghost predicate IsSection(text: Text, headings: seq<Heading>, x: Section) {
    exists i: nat :: OpenedBy(text, headings, i, x)
  }

  /** The hit and the section have a byte in common. */
  ghost predicate Meet(hit: Range, r: Range) { exists k: nat :: HasByte(hit, k) && HasByte(r, k) }

  predicate HasByte(r: Range, k: nat) { r.start <= k < r.end }

  /** The section shares a byte with the hit and its text has the query's signal. */
  ghost predicate Signalled(text: Text, headings: seq<Heading>, hit: Range, matches: Text -> bool, r: Range) {
    exists x :: IsSection(text, headings, x) && x.range == r && Meet(hit, r) && InText(text, r) && matches(text[r.start..r.end])
  }

  predicate Within(inner: Range, outer: Range) { outer.start <= inner.start && inner.end <= outer.end }

  /** The section contains the hit, and of those that do none has a lower level, nor the same level
      and more bytes. */
  ghost predicate Best(text: Text, headings: seq<Heading>, hit: Range, x: Section) {
    && IsSection(text, headings, x) && Within(hit, x.range)
    && forall y :: IsSection(text, headings, y) && Within(hit, y.range) ==>
         x.level < y.level || (x.level == y.level && y.range.end - y.range.start <= x.range.end - x.range.start)
  }

  ghost predicate Holds(text: Text, headings: seq<Heading>, hit: Range, x: Section) {
    IsSection(text, headings, x) && Within(hit, x.range)
  }

  /** The answer for a hit: none for a range that is not in the text; without headings a short text
      whole, else the hit; the best section that contains the hit; else the sections with a signal
      that lie in no other such section; else the hit when it is the whole text. */
  ghost predicate IsAnswer(text: Text, headings: seq<Heading>, hit: Range, matches: Text -> bool, shortBytes: nat, r: Option<seq<Range>>) {
    if !InText(text, hit) then r == None
    else if |headings| == 0 then r == Some([if |text| <= shortBytes then Range(0, |text|) else hit])
    else if exists x :: Holds(text, headings, hit, x) then
      r.Some? && |r.value| == 1 && exists x :: Best(text, headings, hit, x) && r.value[0] == x.range
    else if exists x :: Signalled(text, headings, hit, matches, x) then
      r.Some? && |r.value| > 0 && forall x :: x in r.value <==> OuterSignal(text, headings, hit, matches, x)
    else if hit == Range(0, |text|) then r == Some([hit])
    else r == None
  }

  ghost predicate OuterSignal(text: Text, headings: seq<Heading>, hit: Range, matches: Text -> bool, r: Range) {
    && Signalled(text, headings, hit, matches, r)
    && forall o :: Signalled(text, headings, hit, matches, o) && Within(r, o) ==> o == r
  }

  // ---- Sections ----

  lemma InTextIs(text: Text, r: Range)
    ensures InText(text, r) <==> Sliceable(text, r)
  {
  }

  lemma EndsIs(text: Text, headings: seq<Heading>, i: nat, k: nat)
    requires i < k < |headings|
    ensures Ends(text, headings, i, k) <==> Closes(text, headings[i], headings[k])
  {
  }

  lemma SectionIs(text: Text, headings: seq<Heading>, i: nat, x: Section)
    ensures OpenedBy(text, headings, i, x) <==> SectionAt(text, headings, i, x)
  {
    if i < |headings| {
      InTextIs(text, Range(headings[i].start, headings[i].end));
      var k := EndFound(text, headings, headings[i], i + 1);
      forall j: nat | i < j < |headings| ensures Ends(text, headings, i, j) <==> Closes(text, headings[i], headings[j]) {
        EndsIs(text, headings, i, j);
      }
      if k < |headings| {
        assert EndsFirst(text, headings, i, k);
        forall j: nat | EndsFirst(text, headings, i, j) ensures j == k {}
      }
    }
  }

  /** The sections computed are exactly those the headings open. */
  lemma SectionsExactly(text: Text, headings: seq<Heading>, x: Section)
    ensures x in SectionsOf(text, headings, |headings|) <==> IsSection(text, headings, x)
  {
    SectionsMeaning(text, headings, |headings|, x);
    forall i: nat ensures OpenedBy(text, headings, i, x) <==> SectionAt(text, headings, i, x) { SectionIs(text, headings, i, x); }
  }

  // ---- Answers ----

  lemma SignalsIs(text: Text, hit: Range, matches: Text -> bool, x: Section)
    ensures Signals(text, hit, matches, x) <==> Meet(hit, x.range) && InText(text, x.range) && matches(text[x.range.start..x.range.end])
  {
    InTextIs(text, x.range);
    var lo := if hit.start >= x.range.start then hit.start else x.range.start;
    assert lo < (if hit.end <= x.range.end then hit.end else x.range.end) <==> HasByte(hit, lo) && HasByte(x.range, lo);
    assert forall k: nat :: HasByte(hit, k) && HasByte(x.range, k) ==> HasByte(hit, lo) && HasByte(x.range, lo);
  }

  lemma MatchedIs(text: Text, headings: seq<Heading>, hit: Range, matches: Text -> bool, r: Range)
    ensures Matched(text, hit, matches, SectionsOf(text, headings, |headings|), r) <==> Signalled(text, headings, hit, matches, r)
  {
    var sections := SectionsOf(text, headings, |headings|);
    if Matched(text, hit, matches, sections, r) {
      var i :| 0 <= i < |sections| && sections[i].range == r && Signals(text, hit, matches, sections[i]);
      assert sections[i] in sections;
      SectionsExactly(text, headings, sections[i]);
      SignalsIs(text, hit, matches, sections[i]);
    }
    if x :| IsSection(text, headings, x) && x.range == r && Meet(hit, r) && InText(text, r) && matches(text[r.start..r.end]) {
      SectionsExactly(text, headings, x);
      SignalsIs(text, hit, matches, x);
      var i :| 0 <= i < |sections| && sections[i] == x;
    }
  }

  lemma ContainedIs(text: Text, headings: seq<Heading>, hit: Range)
    ensures Contained(SectionsOf(text, headings, |headings|), hit) <==> exists x :: Holds(text, headings, hit, x)
  {
    forall x ensures x in SectionsOf(text, headings, |headings|) <==> IsSection(text, headings, x) { SectionsExactly(text, headings, x); }
    if x :| Holds(text, headings, hit, x) { assert Covers(x.range, hit); }
    if Contained(SectionsOf(text, headings, |headings|), hit) {
      var s :| s in SectionsOf(text, headings, |headings|) && Covers(s.range, hit);
      assert Holds(text, headings, hit, s);
    }
  }

  lemma BestIs(text: Text, headings: seq<Heading>, hit: Range, r: Range)
    ensures BestSection(SectionsOf(text, headings, |headings|), hit, r) <==> exists x :: Best(text, headings, hit, x) && r == x.range
  {
    var sections := SectionsOf(text, headings, |headings|);
    forall x ensures x in sections <==> IsSection(text, headings, x) { SectionsExactly(text, headings, x); }
    if BestSection(sections, hit, r) {
      var s :| s in sections && r == s.range && Covers(r, hit) && forall t :: t in sections && Covers(t.range, hit) ==> !Beats(t, s);
      forall y | IsSection(text, headings, y) && Within(hit, y.range)
        ensures s.level < y.level || (s.level == y.level && y.range.end - y.range.start <= s.range.end - s.range.start)
      {
        assert y in sections && Covers(y.range, hit) && !Beats(y, s);
      }
      assert Best(text, headings, hit, s);
    }
    if x :| Best(text, headings, hit, x) && r == x.range {
      forall t | t in sections && Covers(t.range, hit) ensures !Beats(t, x) { assert Within(hit, t.range); }
      assert x in sections && Covers(r, hit);
    }
  }

  lemma OuterIs(text: Text, headings: seq<Heading>, hit: Range, matches: Text -> bool, r: Range)
    ensures OuterSignal(text, headings, hit, matches, r) <==>
      && Matched(text, hit, matches, SectionsOf(text, headings, |headings|), r)
      && forall o :: Matched(text, hit, matches, SectionsOf(text, headings, |headings|), o) ==> !StrictlyCovers(o, r)
  {
    forall o ensures Matched(text, hit, matches, SectionsOf(text, headings, |headings|), o) <==> Signalled(text, headings, hit, matches, o) {
      MatchedIs(text, headings, hit, matches, o);
    }
    forall o ensures StrictlyCovers(o, r) <==> Within(r, o) && o != r {}
  }

  lemma OuterAnswers(text: Text, headings: seq<Heading>, hit: Range, matches: Text -> bool, rs: seq<Range>)
    ensures OuterMatches(text, hit, matches, SectionsOf(text, headings, |headings|), rs) <==>
      forall x :: x in rs <==> OuterSignal(text, headings, hit, matches, x)
  {
    forall x { OuterIs(text, headings, hit, matches, x); }
  }

  /** What is recalled is the answer, and nothing else is. */
  lemma RecalledExactly(text: Text, headings: seq<Heading>, hit: Range, matches: Text -> bool, shortBytes: nat, r: Option<seq<Range>>)
    ensures Recalled(text, headings, hit, matches, shortBytes, r) <==> IsAnswer(text, headings, hit, matches, shortBytes, r)
  {
    InTextIs(text, hit);
    if headings != [] {
      ContainedIs(text, headings, hit);
      if Contained(SectionsOf(text, headings, |headings|), hit) {
        if r.Some? && |r.value| == 1 { BestIs(text, headings, hit, r.value[0]); }
      } else {
        forall x ensures Matched(text, hit, matches, SectionsOf(text, headings, |headings|), x) <==> Signalled(text, headings, hit, matches, x) {
          MatchedIs(text, headings, hit, matches, x);
        }
        if r.Some? { OuterAnswers(text, headings, hit, matches, r.value); }
      }
    }
  }
}
