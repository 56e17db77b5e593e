/** What the windows and pieces of a text are, in terms of its bytes. */
module WindowMeaning {
  import opened Orders
  import opened Utf8
  import opened Chunking

  /** No character starts strictly between the two places. */
  predicate OneCharacter(s: Text, a: nat, b: nat) { forall k: nat :: a < k < b ==> !Edge(s, k) }

  /** The first place at most `lap` bytes before `end` where a character may start. */
  predicate FirstWithin(s: Text, end: nat, lap: nat, n: nat) {
    end <= n + lap && Edge(s, n) && forall k: nat :: k < n && end <= k + lap ==> !Edge(s, k)
  }

  /** A window from `n` of at most `size` bytes would reach past `end`. */
  ghost predicate ReachesPast(s: Text, n: nat, end: nat, size: nat) {
    exists k: nat :: end < k <= n + size && Edge(s, k)
  }

  /** The size a caller asks for, at least one byte. */
  function Size(maximum: nat): nat { if maximum >= 1 then maximum else 1 }

  /** Overlap is the smaller of what the caller asks for and half the size. */
  predicate IsLap(maximum: nat, overlap: nat, lap: nat) {
    lap <= overlap && 2 * lap <= Size(maximum) && (lap == overlap || 2 * lap + 2 > Size(maximum))
  }

  lemma EdgesAre(s: Text)
    ensures forall k: nat :: k <= |s| ==> (Edge(s, k) <==> Cut(s, k))
  {
    forall k: nat | k <= |s| ensures Edge(s, k) <==> Cut(s, k) { EdgeIsBoundary(s, k); }
  }

  lemma LapIs(maximum: nat, overlap: nat)
    ensures Limit(maximum) == Size(maximum) && IsLap(maximum, overlap, Min(overlap, Limit(maximum) / 2))
    ensures forall lap: nat :: IsLap(maximum, overlap, lap) ==> lap == Min(overlap, Limit(maximum) / 2)
  {
  }

  /** Each window: whole characters within the size, or one character that exceeds it, and no
      longer window would do; the first starts the text, the last ends it. */
  lemma WindowExactly(s: Text, out: seq<Chunk>, maximum: nat, overlap: nat, i: nat)
    requires Windowed(s, out, |s|, Limit(maximum), Min(overlap, Limit(maximum) / 2)) && i < |out|
    ensures var c := out[i];
      && c.ordinal == i && c.start < c.end && Edge(s, c.start) && Edge(s, c.end)
      && (c.end <= c.start + Size(maximum) || OneCharacter(s, c.start, c.end))
      && (forall k: nat :: c.end < k <= c.start + Size(maximum) ==> !Edge(s, k))
    ensures out[0].start == 0 && out[|out| - 1].end == |s|
  {
    var c, limit := out[i], Limit(maximum);
    assert GoodChunk(s, c, limit) && Longest(s, c, limit);
    EdgesAre(s);
    if c.end - c.start > limit {
      forall k: nat | c.start < k < c.end ensures !Edge(s, k) { assert Inner(s, k); }
    }
    forall k: nat | c.end < k <= c.start + Size(maximum) ensures !Edge(s, k) {
      if k <= |s| { assert !Cut(s, k); }
    }
  }

  /** Where the next window starts: at the first character at most `lap` bytes before the end of
      the last window, if that advances the start and a window from there advances the end;
      otherwise where the last window ended. */
  lemma NextExactly(s: Text, out: seq<Chunk>, maximum: nat, overlap: nat, i: nat, lap: nat, n: nat)
    requires Windowed(s, out, |s|, Limit(maximum), Min(overlap, Limit(maximum) / 2)) && i + 1 < |out|
    requires IsLap(maximum, overlap, lap) && FirstWithin(s, out[i].end, lap, n)
    ensures out[i + 1].start ==
      if out[i].start < n && ReachesPast(s, n, out[i].end, Size(maximum)) then n else out[i].end
  {
    LapIs(maximum, overlap);
    assert LapsBy(s, out[i], out[i + 1], Limit(maximum), lap);
    assert GoodChunk(s, out[i], Limit(maximum));
    EdgesAre(s);
    FirstIs(s, Back(out[i].end, lap), out[i].end, n);
    ReachIs(s, n, out[i].end, Limit(maximum));
  }

  lemma {:induction false} FirstIs(s: Text, from: nat, end: nat, n: nat)
    requires from <= end <= |s| && Edge(s, end) && from <= n && Edge(s, n)
    requires forall k: nat :: from <= k < n ==> !Edge(s, k)
    ensures CutFrom(s, from) == n
    decreases |s| - from
  {
    EdgesAre(s);
    if from < n {
      assert !Edge(s, from) && from < end;
      FirstIs(s, from + 1, end, n);
    }
  }

  lemma ReachIs(s: Text, n: nat, end: nat, size: nat)
    ensures Extends(s, n, end, size) <==> ReachesPast(s, n, end, size)
  {
    EdgesAre(s);
    if Extends(s, n, end, size) {
      var k: nat :| end + 1 <= k < Min(n + size, |s|) + 1 && Cut(s, k);
      assert Edge(s, k);
    }
    if k: nat :| end < k <= n + size && Edge(s, k) { assert Cut(s, k); }
  }

  /** The text, the size and the overlap determine the windows. */
  lemma {:induction false} WindowsUnique(s: Text, a: seq<Chunk>, b: seq<Chunk>, limit: nat, lap: nat, i: nat)
    requires Valid(s) && Windowed(s, a, |s|, limit, lap) && Windowed(s, b, |s|, limit, lap) && i < |a|
    ensures i < |b| && a[i] == b[i]
    decreases i
  {
    if i > 0 {
      WindowsUnique(s, a, b, limit, lap, i - 1);
      assert Meets(a[i - 1], a[i]);
      assert GoodChunk(s, a[i], limit);
      assert LapsBy(s, a[i - 1], a[i], limit, lap);
      if i < |b| { assert LapsBy(s, b[i - 1], b[i], limit, lap); }
    }
    SameEnd(s, a[i], b[i], limit);
  }

  lemma SameEnd(s: Text, a: Chunk, b: Chunk, limit: nat)
    requires a.start == b.start && GoodChunk(s, a, limit) && GoodChunk(s, b, limit) && Longest(s, a, limit) && Longest(s, b, limit)
    ensures a.end == b.end
  {
    assert Cut(s, a.end) && Cut(s, b.end);
    assert a.end - a.start > limit && b.end < a.end ==> Inner(s, b.end);
    assert b.end - b.start > limit && a.end < b.end ==> Inner(s, a.end);
  }

  // ---- Pieces ----

  /** `width` newlines stand at `i`. */
  predicate BreakAt(s: Text, width: nat, i: nat) { i + width <= |s| && forall k :: i <= k < i + width ==> s[k] == 10 }

  /** Each piece ends behind the first break in it, or with the text. */
  lemma {:induction false} PieceExactly(s: Text, width: nat, from: nat, i: nat)
    requires from <= |s| && width > 0 && i < |Pieces(s, width, from)|
    ensures var p := Pieces(s, width, from)[i];
      && from <= p.start < p.end <= |s|
      && (p.end == |s| || (p.start + width <= p.end && BreakAt(s, width, p.end - width)))
      && (forall j: nat :: p.start <= j && j + width < p.end ==> !BreakAt(s, width, j))
    decreases |s| - from
  {
    var end := PieceEnd(s, width, from);
    forall j: nat ensures BreakAt(s, width, j) <==> Newlines(s, j, width) {}
    if i > 0 { PieceExactly(s, width, end, i - 1); }
  }
}
