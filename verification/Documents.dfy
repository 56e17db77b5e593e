/** Complete sections of a document for a search hit. */
module Documents {
  import opened Orders
  import opened Utf8

  datatype Heading = Heading(start: nat, end: nat, level: nat)

  datatype Range = Range(start: nat, end: nat)

  datatype Section = Section(level: nat, range: Range)

  /** `str::get` succeeds on the range. */
  predicate Sliceable(text: Text, r: Range) {
    Slice(text, r.start, r.end).Some?
  }

  predicate Usable(text: Text, h: Heading) {
    h.level > 0 && h.start < h.end && Sliceable(text, Range(h.start, h.end))
  }

  /** The later heading is a peer or ancestor that ends the section of `h`. */
  predicate Closes(text: Text, h: Heading, next: Heading) {
    && next.level > 0 && next.start >= h.end && next.start <= |text| && Boundary(text, next.start)
    && next.level <= h.level
  }

  /** The start of the first closing heading from `j` on, or the end of the text. */
  function SectionEnd(text: Text, headings: seq<Heading>, h: Heading, j: nat): nat
    requires j <= |headings|
    decreases |headings| - j
  {
    if j == |headings| then |text|
    else if Closes(text, h, headings[j]) then headings[j].start
    else SectionEnd(text, headings, h, j + 1)
  }

  function SectionOf(text: Text, headings: seq<Heading>, i: nat): Section
    requires i < |headings|
  {
    Section(headings[i].level, Range(headings[i].start, SectionEnd(text, headings, headings[i], i + 1)))
  }

  /** The sections of the usable headings among the first `n`. */
  function SectionsOf(text: Text, headings: seq<Heading>, n: nat): seq<Section>
    requires n <= |headings|
  {
    if n == 0 then [] else
      SectionsOf(text, headings, n - 1) +
      (if Usable(text, headings[n - 1]) then [SectionOf(text, headings, n - 1)] else [])
  }

  predicate Covers(a: Range, b: Range) { a.start <= b.start && b.end <= a.end }

  predicate StrictlyCovers(a: Range, b: Range) { Covers(a, b) && a != b }

  // ---- The section family ----

  /** Headings come in document order and do not overlap. */
  ghost predicate InOrder(headings: seq<Heading>) {
    && (forall i :: 0 <= i < |headings| ==> headings[i].start <= headings[i].end)
    && (forall i, j :: 0 <= i < j < |headings| ==> headings[i].end <= headings[j].start)
  }

  predicate SectionAt(text: Text, headings: seq<Heading>, i: nat, x: Section) {
    i < |headings| && Usable(text, headings[i]) && x == SectionOf(text, headings, i)
  }

  lemma {:induction false} SectionsMeaning(text: Text, headings: seq<Heading>, n: nat, x: Section)
    requires n <= |headings|
    ensures x in SectionsOf(text, headings, n) <==> exists i :: 0 <= i < n && SectionAt(text, headings, i, x)
    decreases n
  {
    if n > 0 {
      SectionsMeaning(text, headings, n - 1, x);
      assert SectionAt(text, headings, n - 1, x) <==> Usable(text, headings[n - 1]) && x == SectionOf(text, headings, n - 1);
    }
  }

  lemma {:induction false} EndFound(text: Text, headings: seq<Heading>, h: Heading, j: nat) returns (k: nat)
    requires j <= |headings|
    ensures j <= k <= |headings|
    ensures forall m :: j <= m < k ==> !Closes(text, h, headings[m])
    ensures k < |headings| ==> Closes(text, h, headings[k]) && SectionEnd(text, headings, h, j) == headings[k].start
    ensures k == |headings| ==> SectionEnd(text, headings, h, j) == |text|
    decreases |headings| - j
  {
    if j == |headings| || Closes(text, h, headings[j]) {
      k := j;
    } else {
      k := EndFound(text, headings, h, j + 1);
    }
  }

  /** A section starts and ends on character boundaries and holds its own heading. */
  lemma SectionSliceable(text: Text, headings: seq<Heading>, i: nat)
    requires i < |headings| && Usable(text, headings[i])
    ensures var r := SectionOf(text, headings, i).range;
      Sliceable(text, r) && r.start < headings[i].end <= r.end
  {
    var k := EndFound(text, headings, headings[i], i + 1);
  }

  /** Any two sections are nested or disjoint, and the inner one has the deeper heading. */
  lemma Laminar(text: Text, headings: seq<Heading>, i: nat, j: nat)
    requires InOrder(headings) && i < j < |headings| && Usable(text, headings[i]) && Usable(text, headings[j])
    ensures var a, b := SectionOf(text, headings, i), SectionOf(text, headings, j);
      && a.range.start < b.range.start
      && (a.range.end <= b.range.start || (StrictlyCovers(a.range, b.range) && a.level < b.level))
  {
    var k := EndFound(text, headings, headings[i], i + 1);
    var m := EndFound(text, headings, headings[j], j + 1);
    assert headings[i].end <= headings[j].start;
    if k < j {
      assert headings[k].end <= headings[j].start;
    } else if k > j {
      InnerEnds(text, headings, i, j, k, m);
    }
  }

  lemma InnerEnds(text: Text, headings: seq<Heading>, i: nat, j: nat, k: nat, m: nat)
    requires InOrder(headings) && i < j < k <= |headings| && j < m <= |headings|
    requires Usable(text, headings[j]) && !Closes(text, headings[i], headings[j])
    requires k < |headings| ==> Closes(text, headings[i], headings[k])
    requires forall n :: j < n < m ==> !Closes(text, headings[j], headings[n])
    requires m < |headings| ==> Closes(text, headings[j], headings[m])
    ensures headings[i].level < headings[j].level
    ensures (if m < |headings| then headings[m].start else |text|) <= (if k < |headings| then headings[k].start else |text|)
  {
    assert headings[i].end <= headings[j].start;
    if k < |headings| {
      assert headings[j].end <= headings[k].start;
      assert Closes(text, headings[j], headings[k]);
      assert m <= k;
      if m < k { assert headings[m].end <= headings[k].start; }
    }
  }

  /** Sections are nested or disjoint, the outer one with the shallower heading. */
  ghost predicate Nested(a: Section, b: Section) {
    || a == b
    || a.range.end <= b.range.start || b.range.end <= a.range.start
    || (StrictlyCovers(a.range, b.range) && a.level < b.level)
    || (StrictlyCovers(b.range, a.range) && b.level < a.level)
  }

  ghost predicate Family(text: Text, sections: seq<Section>) {
    && (forall i :: 0 <= i < |sections| ==> Sliceable(text, sections[i].range) && sections[i].range.start < sections[i].range.end)
    && (forall x, y :: x in sections && y in sections ==> Nested(x, y))
  }

  /** Sections are listed by rising start. */
  ghost predicate RisingSections(sections: seq<Section>) {
    forall i, j :: 0 <= i < j < |sections| ==> sections[i].range.start < sections[j].range.start
  }

  lemma {:induction false} SectionsRise(text: Text, headings: seq<Heading>, n: nat)
    requires InOrder(headings) && n <= |headings|
    ensures RisingSections(SectionsOf(text, headings, n))
    decreases n
  {
    if n > 0 {
      var before := SectionsOf(text, headings, n - 1);
      SectionsRise(text, headings, n - 1);
      forall k | 0 <= k < |before| ensures before[k].range.start < headings[n - 1].start {
        SectionsMeaning(text, headings, n - 1, before[k]);
        var i :| 0 <= i < n - 1 && SectionAt(text, headings, i, before[k]);
        assert headings[i].end <= headings[n - 1].start;
      }
    }
  }

  lemma SectionsFamily(text: Text, headings: seq<Heading>)
    requires InOrder(headings)
    ensures Family(text, SectionsOf(text, headings, |headings|))
  {
    var sections := SectionsOf(text, headings, |headings|);
    forall k | 0 <= k < |sections|
      ensures Sliceable(text, sections[k].range) && sections[k].range.start < sections[k].range.end
    {
      SectionsMeaning(text, headings, |headings|, sections[k]);
      var i :| 0 <= i < |headings| && SectionAt(text, headings, i, sections[k]);
      SectionSliceable(text, headings, i);
    }
    forall x, y | x in sections && y in sections ensures Nested(x, y) {
      SectionsMeaning(text, headings, |headings|, x);
      SectionsMeaning(text, headings, |headings|, y);
      var i :| 0 <= i < |headings| && SectionAt(text, headings, i, x);
      var j :| 0 <= j < |headings| && SectionAt(text, headings, j, y);
      if i < j { Laminar(text, headings, i, j); }
      if j < i { Laminar(text, headings, j, i); }
    }
  }

  // ---- Selection ----

  /** The candidate beats the best so far: a shallower heading, or as shallow and longer. */
  predicate Beats(s: Section, best: Section) {
    s.level < best.level || (s.level == best.level && s.range.end - s.range.start > best.range.end - best.range.start)
  }

  method CollectSections(text: Text, headings: seq<Heading>) returns (sections: seq<Section>)
    ensures sections == SectionsOf(text, headings, |headings|)
  {
    sections := [];
    for i := 0 to |headings|
      invariant sections == SectionsOf(text, headings, i)
    {
      if !Usable(text, headings[i]) {
        continue;
      }
      var end := FindEnd(text, headings, headings[i], i + 1);
      sections := sections + [Section(headings[i].level, Range(headings[i].start, end))];
    }
  }

  method FindEnd(text: Text, headings: seq<Heading>, h: Heading, from: nat) returns (end: nat)
    requires from <= |headings|
    ensures end == SectionEnd(text, headings, h, from)
  {
    for j := from to |headings|
      invariant SectionEnd(text, headings, h, from) == SectionEnd(text, headings, h, j)
    {
      if Closes(text, h, headings[j]) {
        return headings[j].start;
      }
    }
    end := |text|;
  }

  method Outermost(sections: seq<Section>, hit: Range) returns (best: Option<Section>)
    ensures best.None? <==> forall s :: s in sections ==> !Covers(s.range, hit)
    ensures best.Some? ==> best.value in sections && Covers(best.value.range, hit)
    ensures best.Some? ==> forall s :: s in sections && Covers(s.range, hit) ==> !Beats(s, best.value)
  {
    best := None;
    for i := 0 to |sections|
      invariant best.None? <==> forall j :: 0 <= j < i ==> !Covers(sections[j].range, hit)
      invariant best.Some? ==> best.value in sections && Covers(best.value.range, hit)
      invariant best.Some? ==> forall j :: 0 <= j < i && Covers(sections[j].range, hit) ==> !Beats(sections[j], best.value)
    {
      if Covers(sections[i].range, hit) && (best.None? || Beats(sections[i], best.value)) {
        best := Some(sections[i]);
      }
    }
  }

  /** The section touches the hit and its text matches the query. */
  predicate Signals(text: Text, hit: Range, matches: Text -> bool, s: Section) {
    && (if hit.start >= s.range.start then hit.start else s.range.start) < (if hit.end <= s.range.end then hit.end else s.range.end)
    && Sliceable(text, s.range) && matches(text[s.range.start..s.range.end])
  }

  ghost predicate Matched(text: Text, hit: Range, matches: Text -> bool, sections: seq<Section>, r: Range) {
    exists i :: 0 <= i < |sections| && sections[i].range == r && Signals(text, hit, matches, sections[i])
  }

  method MatchingSections(text: Text, hit: Range, matches: Text -> bool, sections: seq<Section>) returns (rs: seq<Range>)
    ensures forall r :: r in rs <==> Matched(text, hit, matches, sections, r)
    ensures RisingSections(sections) ==> Rising(rs)
  {
    rs := [];
    for i := 0 to |sections|
      invariant forall r :: r in rs <==> Matched(text, hit, matches, sections[..i], r)
      invariant RisingSections(sections) ==> Rising(rs)
    {
      if RisingSections(sections) { MatchedBefore(text, hit, matches, sections, i, rs); }
      assert sections[..i + 1] == sections[..i] + [sections[i]];
      MatchedPush(text, hit, matches, sections[..i], sections[i]);
      if Signals(text, hit, matches, sections[i]) {
        rs := rs + [sections[i].range];
      }
    }
    assert sections[..|sections|] == sections;
  }

  ghost predicate Rising(rs: seq<Range>) {
    forall i, j :: 0 <= i < j < |rs| ==> rs[i].start < rs[j].start
  }

  lemma MatchedBefore(text: Text, hit: Range, matches: Text -> bool, sections: seq<Section>, i: nat, rs: seq<Range>)
    requires i < |sections| && RisingSections(sections)
    requires forall r :: r in rs ==> Matched(text, hit, matches, sections[..i], r)
    ensures forall k :: 0 <= k < |rs| ==> rs[k].start < sections[i].range.start
  {
    forall k | 0 <= k < |rs| ensures rs[k].start < sections[i].range.start {
      assert rs[k] in rs;
      var j :| 0 <= j < i && sections[..i][j].range == rs[k] && Signals(text, hit, matches, sections[..i][j]);
    }
  }

  lemma MatchedPush(text: Text, hit: Range, matches: Text -> bool, front: seq<Section>, s: Section)
    ensures forall r :: Matched(text, hit, matches, front + [s], r) <==>
      Matched(text, hit, matches, front, r) || (r == s.range && Signals(text, hit, matches, s))
  {
    var all := front + [s];
    assert all[|front|] == s && forall i :: 0 <= i < |front| ==> all[i] == front[i];
    forall r ensures Matched(text, hit, matches, all, r) <==>
      Matched(text, hit, matches, front, r) || (r == s.range && Signals(text, hit, matches, s))
    {
      if Matched(text, hit, matches, front, r) {
        var i :| 0 <= i < |front| && front[i].range == r && Signals(text, hit, matches, front[i]);
        assert all[i] == front[i];
      }
    }
  }

  predicate Maximal(rs: seq<Range>, r: Range) { forall i :: 0 <= i < |rs| ==> !StrictlyCovers(rs[i], r) }

  method KeepMaximal(rs: seq<Range>) returns (kept: seq<Range>)
    ensures forall r :: r in kept <==> r in rs && Maximal(rs, r)
    ensures Rising(rs) ==> Rising(kept)
  {
    kept := [];
    for i := 0 to |rs|
      invariant forall r :: r in kept <==> r in rs[..i] && Maximal(rs, r)
      invariant Rising(rs) ==> Rising(kept)
    {
      assert rs[..i + 1] == rs[..i] + [rs[i]];
      if Maximal(rs, rs[i]) {
        forall k | 0 <= k < |kept| && Rising(rs) ensures kept[k].start < rs[i].start {
          assert kept[k] in kept;
        }
        kept := kept + [rs[i]];
      }
    }
    assert rs[..|rs|] == rs;
  }

  lemma {:induction false} LongestExists(rs: seq<Range>) returns (i: nat)
    requires rs != []
    ensures i < |rs| && forall j :: 0 <= j < |rs| ==> rs[j].end - rs[j].start <= rs[i].end - rs[i].start
  {
    var last := |rs| - 1;
    i := last;
    if last > 0 {
      var k := LongestExists(rs[..last]);
      assert forall j :: 0 <= j < last ==> rs[..last][j] == rs[j];
      if rs[k].end - rs[k].start > rs[last].end - rs[last].start { i := k; }
    }
  }

  /** Among any ranges some range is not strictly inside another. */
  lemma MaximalExists(rs: seq<Range>)
    requires rs != []
    ensures exists r :: r in rs && Maximal(rs, r)
  {
    var i := LongestExists(rs);
    assert Maximal(rs, rs[i]);
  }

  predicate StartOrder(a: Range, b: Range) { a.start <= b.start }

  // ---- The answer ----

  /** The ranges are usable slices of the text, in order, and share no byte. */
  ghost predicate Apart(text: Text, rs: seq<Range>) {
    && (forall i :: 0 <= i < |rs| ==> Sliceable(text, rs[i]))
    && (forall i, j :: 0 <= i < j < |rs| ==> rs[i].end <= rs[j].start)
  }

  ghost predicate Contained(sections: seq<Section>, hit: Range) {
    exists s :: s in sections && Covers(s.range, hit)
  }

  /** The single best section that contains the whole hit. */
  ghost predicate BestSection(sections: seq<Section>, hit: Range, r: Range) {
    exists s :: s in sections && r == s.range && Covers(r, hit) && forall t :: t in sections && Covers(t.range, hit) ==> !Beats(t, s)
  }

  /** Exactly the matching sections that no other matching section strictly contains. */
  ghost predicate OuterMatches(text: Text, hit: Range, matches: Text -> bool, sections: seq<Section>, rs: seq<Range>) {
    forall r :: r in rs <==>
      Matched(text, hit, matches, sections, r)
      && forall other :: Matched(text, hit, matches, sections, other) ==> !StrictlyCovers(other, r)
  }

  ghost predicate Answers(text: Text, sections: seq<Section>, hit: Range, matches: Text -> bool, r: Option<seq<Range>>) {
    if Contained(sections, hit) then
      r.Some? && |r.value| == 1 && BestSection(sections, hit, r.value[0])
    else if exists x :: Matched(text, hit, matches, sections, x) then
      r.Some? && r.value != [] && OuterMatches(text, hit, matches, sections, r.value)
    else
      r == if hit.start == 0 && hit.end == |text| then Some([hit]) else None
  }

  /** What is recalled for a hit: nothing for an unusable slice; without headings a short
      document whole, or the hit; with headings an answer over their sections. */
  ghost predicate Recalled(text: Text, headings: seq<Heading>, hit: Range, matches: Text -> bool, shortBytes: nat, r: Option<seq<Range>>) {
    if !Sliceable(text, hit) then r.None?
    else if headings == [] then r == Some([if |text| <= shortBytes then Range(0, |text|) else hit])
    else Answers(text, SectionsOf(text, headings, |headings|), hit, matches, r)
  }

  /** Complete sections for a hit, whatever the query's relevance decides. */
  method RecallRanges(text: Text, headings: seq<Heading>, hit: Range, matches: Text -> bool, shortBytes: nat)
    returns (r: Option<seq<Range>>)
    ensures Recalled(text, headings, hit, matches, shortBytes, r)
    ensures r.Some? ==> SortedBy(r.value, StartOrder)
    ensures InOrder(headings) && r.Some? ==> Apart(text, r.value)
  {
    if !Sliceable(text, hit) {
      return None;
    }
    if headings == [] {
      return Some([if |text| <= shortBytes then Range(0, |text|) else hit]);
    }
    var sections := CollectSections(text, headings);
    var best := Outermost(sections, hit);
    if InOrder(headings) { SectionsFamily(text, headings); SectionsRise(text, headings, |headings|); }
    if best.Some? {
      assert BestSection(sections, hit, best.value.range);
      return Some([best.value.range]);
    }
    var selected := SelectMatches(text, hit, matches, sections);
    if selected != [] {
      return Some(selected);
    }
    r := if hit.start == 0 && hit.end == |text| then Some([hit]) else None;
  }

  method SelectMatches(text: Text, hit: Range, matches: Text -> bool, sections: seq<Section>) returns (rs: seq<Range>)
    ensures OuterMatches(text, hit, matches, sections, rs) && SortedBy(rs, StartOrder)
    ensures rs == [] <==> !exists x :: Matched(text, hit, matches, sections, x)
    ensures Family(text, sections) && RisingSections(sections) ==> Apart(text, rs)
  {
    var matched := MatchingSections(text, hit, matches, sections);
    var kept := KeepMaximal(matched);
    rs := Sort(kept, StartOrder);
    SortElements(kept, StartOrder);
    SortSorts(kept, StartOrder);
    if matched != [] {
      MaximalExists(matched);
      assert matched[0] in matched;
    }
    MaximalMatches(text, hit, matches, sections, matched, rs);
    EmptyOrInhabited(rs);
    if Family(text, sections) && RisingSections(sections) {
      SortSorted(kept, StartOrder);
      MaximalApart(text, hit, matches, sections, rs);
    }
  }

  lemma MaximalMatches(text: Text, hit: Range, matches: Text -> bool, sections: seq<Section>, matched: seq<Range>, rs: seq<Range>)
    requires forall r :: r in matched <==> Matched(text, hit, matches, sections, r)
    requires forall r :: r in rs <==> r in matched && Maximal(matched, r)
    ensures OuterMatches(text, hit, matches, sections, rs)
  {
    forall r ensures Maximal(matched, r) <==>
      forall other :: Matched(text, hit, matches, sections, other) ==> !StrictlyCovers(other, r)
    {
      if Maximal(matched, r) {
        forall other | Matched(text, hit, matches, sections, other) ensures !StrictlyCovers(other, r) {
          assert other in matched;
        }
      } else {
        var i :| 0 <= i < |matched| && StrictlyCovers(matched[i], r);
        assert matched[i] in matched;
      }
    }
  }

  lemma MaximalApart(text: Text, hit: Range, matches: Text -> bool, sections: seq<Section>, rs: seq<Range>)
    requires Family(text, sections) && Rising(rs) && OuterMatches(text, hit, matches, sections, rs)
    ensures Apart(text, rs)
  {
    forall i | 0 <= i < |rs| ensures Sliceable(text, rs[i]) {
      assert rs[i] in rs;
      var k :| 0 <= k < |sections| && sections[k].range == rs[i] && Signals(text, hit, matches, sections[k]);
    }
    forall i, j | 0 <= i < j < |rs| ensures rs[i].end <= rs[j].start {
      assert rs[i] in rs && rs[j] in rs;
      var k :| 0 <= k < |sections| && sections[k].range == rs[i] && Signals(text, hit, matches, sections[k]);
      var l :| 0 <= l < |sections| && sections[l].range == rs[j] && Signals(text, hit, matches, sections[l]);
      assert sections[k] in sections && sections[l] in sections;
      assert Nested(sections[k], sections[l]);
      assert !StrictlyCovers(rs[i], rs[j]) && !StrictlyCovers(rs[j], rs[i]);
    }
  }

  /** The section answered for a non-empty hit contains every other section that contains the
      hit: parent conditions and all subsections stay together. */
  lemma BestIsOutermost(text: Text, headings: seq<Heading>, hit: Range, r: Range, other: Section)
    requires InOrder(headings) && hit.start < hit.end
    requires BestSection(SectionsOf(text, headings, |headings|), hit, r)
    requires other in SectionsOf(text, headings, |headings|) && Covers(other.range, hit)
    ensures Covers(r, other.range)
  {
    var sections := SectionsOf(text, headings, |headings|);
    SectionsFamily(text, headings);
    var s :| s in sections && r == s.range && Covers(r, hit) && forall t :: t in sections && Covers(t.range, hit) ==> !Beats(t, s);
    assert Nested(s, other) && !Beats(other, s);
  }

  /** Some section matches where it touches the hit. */
  ghost predicate AnyMatch(text: Text, hit: Range, matches: Text -> bool, sections: seq<Section>) {
    exists y :: Matched(text, hit, matches, sections, y)
  }

  /** A one-range answer holds the whole hit exactly when there are no headings, some section
      contains the hit, or no section that touches the hit matches. */
  lemma SingleAnswer(text: Text, headings: seq<Heading>, hit: Range, matches: Text -> bool, shortBytes: nat, x: Range)
    requires Recalled(text, headings, hit, matches, shortBytes, Some([x]))
    ensures var sections := SectionsOf(text, headings, |headings|);
      Covers(x, hit) <==> headings == [] || Contained(sections, hit) || !AnyMatch(text, hit, matches, sections)
  {
    if headings != [] {
      SectionAnswer(text, SectionsOf(text, headings, |headings|), hit, matches, x);
    }
  }

  lemma SectionAnswer(text: Text, sections: seq<Section>, hit: Range, matches: Text -> bool, x: Range)
    requires Answers(text, sections, hit, matches, Some([x]))
    ensures Covers(x, hit) <==> Contained(sections, hit) || !AnyMatch(text, hit, matches, sections)
  {
    if !Contained(sections, hit) && AnyMatch(text, hit, matches, sections) {
      assert x in [x];
      var i :| 0 <= i < |sections| && sections[i].range == x && Signals(text, hit, matches, sections[i]);
      assert sections[i] in sections;
    }
  }

  lemma TwoSections(text: Text, a: Heading, b: Heading)
    requires Usable(text, a) && Usable(text, b) && Closes(text, a, b)
    ensures SectionsOf(text, [a, b], 2) == [Section(a.level, Range(a.start, b.start)), Section(b.level, Range(b.start, |text|))]
  {
    assert SectionEnd(text, [a, b], a, 1) == b.start && SectionEnd(text, [a, b], b, 2) == |text|;
    assert SectionsOf(text, [a, b], 0) == [];
    assert SectionsOf(text, [a, b], 1) == [SectionOf(text, [a, b], 0)];
  }

  /** Two peer sections, a hit across both, and a query that matches the first only: the first
      is the whole answer, though it holds only part of the hit. */
  lemma FirstPeerAnswers(text: Text, p: Section, q: Section, hit: Range, matches: Text -> bool)
    requires p.range.start < hit.start < p.range.end == q.range.start < hit.end <= q.range.end
    requires Signals(text, hit, matches, p) && !Signals(text, hit, matches, q)
    ensures Answers(text, [p, q], hit, matches, Some([p.range])) && !Covers(p.range, hit)
  {
    assert [p, q][0] == p && [p, q][1] == q;
    assert Matched(text, hit, matches, [p, q], p.range);
    forall r ensures Matched(text, hit, matches, [p, q], r) <==> r == p.range {}
    assert OuterMatches(text, hit, matches, [p, q], [p.range]);
  }

  lemma LoneMatchPartial() returns (text: Text, headings: seq<Heading>, hit: Range, matches: Text -> bool)
    ensures text == [97, 98, 99, 100] && headings == [Heading(0, 1, 1), Heading(2, 3, 1)] && hit == Range(1, 3)
    ensures matches([97, 98]) && !matches([99, 100]) && InOrder(headings)
    ensures Recalled(text, headings, hit, matches, 0, Some([Range(0, 2)])) && !Covers(Range(0, 2), hit)
  {
    text, headings, hit := [97, 98, 99, 100], [Heading(0, 1, 1), Heading(2, 3, 1)], Range(1, 3);
    matches := t => t == [97, 98];
    TwoSections(text, headings[0], headings[1]);
    LetterSignals(text, hit, matches);
    FirstPeerAnswers(text, Section(1, Range(0, 2)), Section(1, Range(2, 4)), hit, matches);
  }

  lemma LetterSignals(text: Text, hit: Range, matches: Text -> bool)
    requires text == [97, 98, 99, 100] && hit == Range(1, 3) && matches([97, 98]) && !matches([99, 100])
    ensures Signals(text, hit, matches, Section(1, Range(0, 2))) && !Signals(text, hit, matches, Section(1, Range(2, 4)))
  {
    assert text[0..2] == [97, 98] && text[2..4] == [99, 100];
  }
}
