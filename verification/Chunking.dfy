/** The chunkers: exact byte spans into UTF-8 content. */
module Chunking {
  import opened Orders
  import opened Utf8

  datatype Chunk = Chunk(ordinal: nat, start: nat, end: nat)

  /** The limit is at least one byte. */
  function Limit(maximum: nat): nat { if maximum == 0 then 1 else maximum }

  /** Within the limit, or one scalar that alone exceeds it. */
  predicate Fits(s: Text, start: nat, end: nat, limit: nat) {
    end - start <= limit || (ScalarAt(s, start) && end == start + Width(s[start]))
  }

  predicate GoodChunk(s: Text, c: Chunk, limit: nat) {
    c.start < c.end <= |s| && Boundary(s, c.start) && Boundary(s, c.end) && Fits(s, c.start, c.end, limit)
  }

  /** The chunks cover `from..to` without gap, both edges strictly increasing. */
  ghost predicate Tiles(s: Text, out: seq<Chunk>, from: nat, to: nat, limit: nat) {
    && (out == [] <==> from == to)
    && (out != [] ==> out[0].start == from && out[|out| - 1].end == to)
    && (forall i :: 0 <= i < |out| ==> GoodChunk(s, out[i], limit))
    && Chained(out)
  }

  ghost predicate Chained(out: seq<Chunk>) {
    forall i :: 0 <= i < |out| - 1 ==> Meets(out[i], out[i + 1])
  }

  predicate Meets(a: Chunk, b: Chunk) { a.start < b.start <= a.end < b.end }

  ghost predicate Numbered(out: seq<Chunk>) {
    forall i :: 0 <= i < |out| ==> out[i].ordinal == i
  }

  // ---- Overlapping windows ----

  /** A place where the text may be cut; named so that `Uncut` is read only where it is mentioned. */
  predicate Cut(s: Text, k: nat) { Boundary(s, k) }

  /** No character boundary from `lo` up to, but not including, `hi`. */
  ghost predicate Uncut(s: Text, lo: nat, hi: nat) {
    forall k {:trigger Cut(s, k)} :: lo <= k < hi ==> !Cut(s, k)
  }

  /** A window is the longest that fits: no boundary within the limit is left unused. */
  ghost predicate Longest(s: Text, c: Chunk, limit: nat) {
    Uncut(s, c.end + 1, Min(c.start + limit, |s|) + 1)
  }

  /** `lap` bytes before `end`, or the beginning. */
  function Back(end: nat, lap: nat): nat { if end >= lap then end - lap else 0 }

  /** The first boundary from `i` on. */
  function CutFrom(s: Text, i: nat): (r: nat)
    ensures i <= r
    decreases |s| - i
  {
    if i >= |s| || Cut(s, i) then i else CutFrom(s, i + 1)
  }

  /** A window from `n` would end past `end`: some boundary there is within the limit. */
  ghost predicate Extends(s: Text, n: nat, end: nat, limit: nat) {
    !Uncut(s, end + 1, Min(n + limit, |s|) + 1)
  }

  /** The next window starts at the first boundary not more than `lap` bytes before the end of
      the last one, unless that would not advance the start or a window from there would not
      advance the end; then it starts where the last one ended. */
  ghost predicate LapsBy(s: Text, a: Chunk, b: Chunk, limit: nat, lap: nat) {
    var n := CutFrom(s, Back(a.end, lap));
    b.start == if a.start < n && Extends(s, n, a.end, limit) then n else a.end
  }

  method WindowEnd(s: Text, start: nat, limit: nat) returns (end: nat)
    requires Valid(s) && start < |s| && Boundary(s, start) && limit >= 1
    ensures GoodChunk(s, Chunk(0, start, end), limit) && Longest(s, Chunk(0, start, end), limit)
  {
    end := Min(start + limit, |s|);
    while end > start && !Boundary(s, end)
      invariant start <= end <= Min(start + limit, |s|)
      invariant Uncut(s, end + 1, Min(start + limit, |s|) + 1)
    {
      end := end - 1;
    }
    ScalarAtBoundary(s, start);
    if end == start {
      end := start + Width(s[start]);
    }
  }

  method FirstBoundary(s: Text, from: nat, end: nat) returns (next: nat)
    requires from <= end <= |s| && Boundary(s, end)
    ensures from <= next <= end && Boundary(s, next) && next == CutFrom(s, from)
  {
    next := from;
    while next < end && !Boundary(s, next)
      invariant from <= next <= end && CutFrom(s, from) == CutFrom(s, next)
    {
      next := next + 1;
    }
  }

  ghost predicate Laps(s: Text, out: seq<Chunk>, limit: nat, lap: nat) {
    forall i :: 0 <= i < |out| - 1 ==> LapsBy(s, out[i], out[i + 1], limit, lap)
  }

  /** `out` is a finished windowing of the first `covered` bytes. */
  ghost predicate Windowed(s: Text, out: seq<Chunk>, covered: nat, limit: nat, lap: nat) {
    && Tiles(s, out, 0, covered, limit) && Numbered(out) && Laps(s, out, limit, lap)
    && (forall i :: 0 <= i < |out| ==> Longest(s, out[i], limit))
  }

  /** Where the next window is tried first. */
  function Retry(s: Text, last: Chunk, lap: nat): nat {
    if CutFrom(s, Back(last.end, lap)) > last.start then CutFrom(s, Back(last.end, lap)) else last.end
  }

  /** Where the next window may begin once `covered` bytes are windowed: where it is tried
      first, or at the end if that try would not reach past it. */
  ghost predicate Startable(s: Text, out: seq<Chunk>, start: nat, covered: nat, limit: nat, lap: nat) {
    && start <= covered <= |s| && Boundary(s, start) && Boundary(s, covered)
    && (if out == [] then start == 0 else StartsAfter(s, out[|out| - 1], start, covered, limit, lap))
  }

  ghost predicate StartsAfter(s: Text, last: Chunk, start: nat, covered: nat, limit: nat, lap: nat) {
    && last.end == covered && last.start < start
    && (start == Retry(s, last, lap) || (start == covered && !Extends(s, Retry(s, last, lap), covered, limit)))
  }

  lemma PushTiles(s: Text, out: seq<Chunk>, c: Chunk, covered: nat, limit: nat)
    requires Tiles(s, out, 0, covered, limit) && GoodChunk(s, c, limit)
    requires out == [] ==> c.start == 0
    requires out != [] ==> out[|out| - 1].start < c.start <= covered < c.end
    ensures Tiles(s, out + [c], 0, c.end, limit)
  {
    var more := out + [c];
    forall i | 0 <= i < |more| - 1 ensures Meets(more[i], more[i + 1]) {
      assert i < |out| - 1 ==> Meets(out[i], out[i + 1]);
    }
  }

  lemma PushLaps(s: Text, out: seq<Chunk>, c: Chunk, limit: nat, lap: nat)
    requires Laps(s, out, limit, lap) && (out != [] ==> LapsBy(s, out[|out| - 1], c, limit, lap))
    ensures Laps(s, out + [c], limit, lap)
  {
    var more := out + [c];
    forall i | 0 <= i < |more| - 1 ensures LapsBy(s, more[i], more[i + 1], limit, lap) {
      assert i < |out| - 1 ==> LapsBy(s, out[i], out[i + 1], limit, lap);
    }
  }

  /** A window that starts before `covered` and ends past it shows that the try extends. */
  lemma WindowExtends(s: Text, c: Chunk, covered: nat, limit: nat)
    requires GoodChunk(s, c, limit) && c.start < covered < c.end && Boundary(s, covered)
    ensures Extends(s, c.start, covered, limit)
  {
    assert c.end - c.start > limit ==> Inner(s, covered);
    assert Cut(s, c.end);
  }

  lemma StartedLaps(s: Text, last: Chunk, c: Chunk, covered: nat, limit: nat, lap: nat)
    requires GoodChunk(s, c, limit) && c.start <= covered < c.end && Boundary(s, covered)
    requires StartsAfter(s, last, c.start, covered, limit, lap)
    ensures LapsBy(s, last, c, limit, lap)
  {
    if c.start < covered { WindowExtends(s, c, covered, limit); }
  }

  lemma PushWindow(s: Text, out: seq<Chunk>, start: nat, end: nat, covered: nat, limit: nat, lap: nat)
    requires Windowing(s, out, start, covered, limit, lap)
    requires var c := Chunk(|out|, start, end); GoodChunk(s, c, limit) && Longest(s, c, limit) && covered < end
    ensures Windowed(s, out + [Chunk(|out|, start, end)], end, limit, lap)
  {
    var c := Chunk(|out|, start, end);
    PushTiles(s, out, c, covered, limit);
    if out != [] { StartedLaps(s, out[|out| - 1], c, covered, limit, lap); }
    PushLaps(s, out, c, limit, lap);
  }

  /** Loop state of the windowing: what is windowed and where the next window may begin. */
  ghost predicate Windowing(s: Text, out: seq<Chunk>, start: nat, covered: nat, limit: nat, lap: nat) {
    Windowed(s, out, covered, limit, lap) && Startable(s, out, start, covered, limit, lap)
  }

  /** After a window the next one is tried inside it when that advances, else at its end. */
  lemma NextStart(s: Text, out: seq<Chunk>, next: nat, covered: nat, limit: nat, lap: nat)
    requires Windowed(s, out, covered, limit, lap) && out != [] && next <= covered <= |s| && Boundary(s, next)
    requires next == CutFrom(s, Back(covered, lap))
    ensures Windowing(s, out, if next > out[|out| - 1].start then next else covered, covered, limit, lap)
  {
    assert GoodChunk(s, out[|out| - 1], limit);
  }

  /** A window from `start` that covers nothing new: the next one starts at the end. */
  lemma StuckWindow(s: Text, out: seq<Chunk>, start: nat, end: nat, covered: nat, limit: nat, lap: nat)
    requires Windowing(s, out, start, covered, limit, lap) && start < end <= covered
    requires Longest(s, Chunk(0, start, end), limit)
    ensures start < covered && Windowing(s, out, covered, covered, limit, lap)
  {
    assert out != [] && GoodChunk(s, out[|out| - 1], limit);
    assert !Extends(s, start, covered, limit);
  }

  lemma WindowingBounds(s: Text, out: seq<Chunk>, start: nat, covered: nat, limit: nat, lap: nat)
    requires Windowing(s, out, start, covered, limit, lap)
    ensures start <= covered <= |s| && Boundary(s, start)
  {
  }

  method SourceWindows(s: Text, maximum: nat, overlap: nat) returns (out: seq<Chunk>)
    requires Valid(s)
    ensures Windowed(s, out, |s|, Limit(maximum), Min(overlap, Limit(maximum) / 2))
  {
    out := [];
    var start: nat, covered: nat := 0, 0;
    var limit := Limit(maximum);
    var lap := Min(overlap, limit / 2);
    while start < |s|
      invariant Windowing(s, out, start, covered, limit, lap)
      decreases |s| - covered, covered - start
    {
      WindowingBounds(s, out, start, covered, limit, lap);
      var end := WindowEnd(s, start, limit);
      if end <= covered {
        StuckWindow(s, out, start, end, covered, limit, lap);
        start := covered;
        continue;
      }
      PushWindow(s, out, start, end, covered, limit, lap);
      out := out + [Chunk(|out|, start, end)];
      covered := end;
      if end == |s| {
        break;
      }
      var next := FirstBoundary(s, Back(end, lap), end);
      NextStart(s, out, next, covered, limit, lap);
      start := if next > start then next else end;
    }
  }

  // ---- Pieces: `split_inclusive` on one or two newlines ----

  datatype Span = Span(start: nat, end: nat)

  predicate Newlines(s: Text, i: nat, width: nat) {
    i + width <= |s| && forall k :: i <= k < i + width ==> s[k] == 10
  }

  /** End of the piece that starts at `i`: just past the first separator, or the end. */
  function PieceEnd(s: Text, width: nat, i: nat): (r: nat)
    requires i < |s| && width > 0
    ensures i < r <= |s|
    ensures forall j :: i <= j && j + width < r ==> !Newlines(s, j, width)
    ensures r == |s| || (i + width <= r && Newlines(s, r - width, width))
    decreases |s| - i
  {
    if Newlines(s, i, width) then i + width
    else if i + 1 == |s| then |s|
    else
      PieceEnd(s, width, i + 1)
  }

  function Pieces(s: Text, width: nat, from: nat): seq<Span>
    requires from <= |s| && width > 0
    decreases |s| - from
  {
    if from == |s| then [] else
      var end := PieceEnd(s, width, from);
      [Span(from, end)] + Pieces(s, width, end)
  }

  ghost predicate Pieced(s: Text, ps: seq<Span>, from: nat) {
    && (ps == [] <==> from == |s|)
    && (ps != [] ==> ps[0].start == from && ps[|ps| - 1].end == |s|)
    && (forall i {:trigger PieceOk(s, ps, i)} :: 0 <= i < |ps| ==> PieceOk(s, ps, i))
  }

  /** A non-empty, character-aligned piece that ends where the next one starts. */
  predicate PieceOk(s: Text, ps: seq<Span>, i: nat)
    requires i < |ps|
  {
    && ps[i].start < ps[i].end <= |s| && Boundary(s, ps[i].start) && Boundary(s, ps[i].end)
    && ps[i].end == StartOf(s, ps, i + 1)
  }

  function StartOf(s: Text, ps: seq<Span>, i: nat): nat {
    if i < |ps| then ps[i].start else |s|
  }

  lemma PiecedCons(s: Text, p: Span, rest: seq<Span>)
    requires p.start < p.end <= |s| && Boundary(s, p.start) && Boundary(s, p.end) && Pieced(s, rest, p.end)
    ensures Pieced(s, [p] + rest, p.start)
  {
    var all := [p] + rest;
    forall i | 0 <= i < |all| ensures PieceOk(s, all, i) {
      assert i > 0 ==> PieceOk(s, rest, i - 1);
    }
  }

  /** Pieces are adjacent, non-empty, character-aligned and cover the text. */
  lemma {:induction false} PiecesTile(s: Text, width: nat, from: nat)
    requires Valid(s) && from <= |s| && width > 0 && Boundary(s, from)
    ensures Pieced(s, Pieces(s, width, from), from)
    decreases |s| - from
  {
    if from < |s| {
      var end := PieceEnd(s, width, from);
      if end < |s| { AfterAscii(s, end - 1); }
      PiecesTile(s, width, end);
      PiecedCons(s, Span(from, end), Pieces(s, width, end));
    }
  }

  lemma PieceAt(s: Text, ps: seq<Span>, i: nat)
    requires Pieced(s, ps, 0) && i < |ps|
    ensures StartOf(s, ps, i) == ps[i].start < ps[i].end == StartOf(s, ps, i + 1) <= |s|
    ensures Boundary(s, ps[i].start) && Boundary(s, ps[i].end)
  {
    assert PieceOk(s, ps, i);
  }

  // ---- Building a tiling ----

  lemma TilesPush(s: Text, out: seq<Chunk>, mid: nat, c: Chunk, limit: nat)
    requires Tiles(s, out, 0, mid, limit) && c.start == mid && GoodChunk(s, c, limit)
    ensures Tiles(s, out + [c], 0, c.end, limit)
  {
    assert out != [] ==> GoodChunk(s, out[|out| - 1], limit);
    PushTiles(s, out, c, mid, limit);
  }

  /** Chunks of the slice that starts at `base`, as chunks of the whole, numbered from `n`. */
  function Shifted(ws: seq<Chunk>, base: nat, n: nat): seq<Chunk> {
    seq(|ws|, i requires 0 <= i < |ws| => Chunk(n + i, base + ws[i].start, base + ws[i].end))
  }

  lemma GoodShift(s: Text, lo: nat, hi: nat, c: Chunk, n: nat, limit: nat)
    requires lo <= hi <= |s| && Boundary(s, lo) && Boundary(s, hi) && GoodChunk(s[lo..hi], c, limit)
    ensures GoodChunk(s, Chunk(n, lo + c.start, lo + c.end), limit)
  {
    var t := s[lo..hi];
    SliceBoundary(s, lo, hi, c.start);
    SliceBoundary(s, lo, hi, c.end);
    assert forall k :: 0 <= k < |t| ==> t[k] == s[lo + k];
    if ScalarAt(t, c.start) {
      forall k | lo + c.start < k < lo + c.start + Width(t[c.start]) ensures Inner(s, k) {
        assert Inner(t, k - lo);
      }
    }
  }

  lemma ShiftedGood(s: Text, lo: nat, hi: nat, ws: seq<Chunk>, n: nat, limit: nat)
    requires lo < hi <= |s| && Boundary(s, lo) && Boundary(s, hi)
    requires forall i :: 0 <= i < |ws| ==> GoodChunk(s[lo..hi], ws[i], limit)
    ensures forall i :: 0 <= i < |ws| ==> GoodChunk(s, Shifted(ws, lo, n)[i], limit)
  {
    forall i | 0 <= i < |ws| ensures GoodChunk(s, Shifted(ws, lo, n)[i], limit) {
      assert GoodChunk(s[lo..hi], ws[i], limit);
      GoodShift(s, lo, hi, ws[i], n + i, limit);
    }
  }

  lemma ShiftedChained(ws: seq<Chunk>, lo: nat, n: nat)
    requires Chained(ws)
    ensures Chained(Shifted(ws, lo, n))
  {
    forall i | 0 <= i < |ws| - 1 ensures Meets(Shifted(ws, lo, n)[i], Shifted(ws, lo, n)[i + 1]) {
      assert Meets(ws[i], ws[i + 1]);
    }
  }

  lemma ShiftedTiles(s: Text, lo: nat, hi: nat, ws: seq<Chunk>, n: nat, limit: nat)
    requires lo < hi <= |s| && Boundary(s, lo) && Boundary(s, hi) && Tiles(s[lo..hi], ws, 0, hi - lo, limit)
    ensures Tiles(s, Shifted(ws, lo, n), lo, hi, limit)
  {
    ShiftedGood(s, lo, hi, ws, n, limit);
    ShiftedChained(ws, lo, n);
  }

  lemma TilesConcat(s: Text, a: seq<Chunk>, b: seq<Chunk>, mid: nat, to: nat, limit: nat)
    requires Tiles(s, a, 0, mid, limit) && Tiles(s, b, mid, to, limit) && mid < to
    ensures Tiles(s, a + b, 0, to, limit)
  {
    var all := a + b;
    forall i | 0 <= i < |all| - 1 ensures Meets(all[i], all[i + 1]) {
      if i < |a| - 1 {
        assert Meets(a[i], a[i + 1]);
      } else if i == |a| - 1 {
        assert GoodChunk(s, a[i], limit) && GoodChunk(s, b[0], limit);
      } else {
        assert Meets(b[i - |a|], b[i - |a| + 1]);
      }
    }
  }

  lemma TilesShift(s: Text, out: seq<Chunk>, lo: nat, hi: nat, ws: seq<Chunk>, limit: nat)
    requires lo < hi <= |s| && Boundary(s, lo) && Boundary(s, hi)
    requires Tiles(s, out, 0, lo, limit) && Tiles(s[lo..hi], ws, 0, hi - lo, limit)
    ensures Tiles(s, out + Shifted(ws, lo, |out|), 0, hi, limit)
  {
    ShiftedTiles(s, lo, hi, ws, |out|, limit);
    TilesConcat(s, out, Shifted(ws, lo, |out|), lo, hi, limit);
  }

  // ---- Exact partition ----

  ghost predicate Exact(out: seq<Chunk>) {
    forall i :: 0 <= i < |out| - 1 ==> out[i].end == out[i + 1].start
  }

  /** Some chunk is exactly this span. */
  ghost predicate Whole(out: seq<Chunk>, p: Span) {
    exists i :: 0 <= i < |out| && out[i].start == p.start && out[i].end == p.end
  }

  lemma NoLapExact(s: Text, out: seq<Chunk>, covered: nat, limit: nat)
    requires Windowed(s, out, covered, limit, 0)
    ensures Exact(out)
  {
    forall i | 0 <= i < |out| - 1 ensures out[i].end == out[i + 1].start {
      assert LapsBy(s, out[i], out[i + 1], limit, 0) && GoodChunk(s, out[i], limit) && Meets(out[i], out[i + 1]);
    }
  }

  lemma FittingIsSingle(s: Text, out: seq<Chunk>, limit: nat, lap: nat)
    requires 0 < |s| <= limit && Windowed(s, out, |s|, limit, lap)
    ensures |out| == 1 && out[0].start == 0 && out[0].end == |s|
  {
    assert Longest(s, out[0], limit) && Cut(s, |s|);
    EndsBelow(s, out, |s|, limit, 0);
  }

  lemma {:induction false} EndsBelow(s: Text, out: seq<Chunk>, to: nat, limit: nat, i: nat)
    requires Tiles(s, out, 0, to, limit) && i < |out|
    ensures out[i].end <= to && (i < |out| - 1 ==> out[i].end < to)
    decreases |out| - i
  {
    if i < |out| - 1 {
      EndsBelow(s, out, to, limit, i + 1);
      assert Meets(out[i], out[i + 1]);
    }
  }

  /** The concatenation of the chunks' bytes. */
  function Joined(s: Text, out: seq<Chunk>): Text
    requires forall i :: 0 <= i < |out| ==> out[i].start <= out[i].end <= |s|
  {
    if out == [] then [] else
      Joined(s, out[..|out| - 1]) + s[out[|out| - 1].start..out[|out| - 1].end]
  }

  lemma {:induction false} JoinedIsSource(s: Text, out: seq<Chunk>, to: nat, limit: nat)
    requires Tiles(s, out, 0, to, limit) && Exact(out) && to <= |s|
    ensures forall i :: 0 <= i < |out| ==> out[i].start <= out[i].end <= |s|
    ensures Joined(s, out) == s[..to]
  {
    forall i | 0 <= i < |out| ensures out[i].start <= out[i].end <= |s| { assert GoodChunk(s, out[i], limit); }
    if out != [] {
      var front, last := out[..|out| - 1], out[|out| - 1];
      assert forall i :: 0 <= i < |front| ==> front[i] == out[i];
      assert GoodChunk(s, last, limit);
      if front == [] {
        assert s[0..last.end] == s[..to];
      } else {
        var mid := front[|front| - 1].end;
        assert GoodChunk(s, out[|front| - 1], limit);
        assert mid == last.start;
        JoinedIsSource(s, front, mid, limit);
        assert s[..mid] + s[mid..to] == s[..to];
      }
    }
  }

  /** An exact, character-aligned partition: the windows of each block, without overlap, so that a
      block that fits is one chunk. */
  method SplitIntoChunks(s: Text, maximum: nat) returns (out: seq<Chunk>)
    requires Valid(s)
    ensures Tiles(s, out, 0, |s|, Limit(maximum)) && Exact(out) && Numbered(out)
    ensures forall p :: p in Pieces(s, 2, 0) ==> Run(s, out, p, Limit(maximum), 0)
    ensures forall p :: p in Pieces(s, 2, 0) && p.end - p.start <= Limit(maximum) ==> Whole(out, p)
  {
    var blocks := Pieces(s, 2, 0);
    PiecesTile(s, 2, 0);
    out := SplitBlocks(s, blocks, maximum);
    assert forall p :: p in blocks ==> BlockPlaced(s, out, p, Limit(maximum));
  }

  method SplitBlocks(s: Text, blocks: seq<Span>, maximum: nat) returns (out: seq<Chunk>)
    requires Valid(s) && Pieced(s, blocks, 0)
    ensures Tiles(s, out, 0, |s|, Limit(maximum)) && Exact(out) && Numbered(out)
    ensures BlocksPlaced(s, out, blocks, Limit(maximum))
  {
    out := [];
    for i := 0 to |blocks|
      invariant Partitioned(s, out, StartOf(s, blocks, i), Limit(maximum))
      invariant BlocksPlaced(s, out, blocks[..i], Limit(maximum))
    {
      PieceAt(s, blocks, i);
      out := AddNextBlock(s, out, blocks[..i], blocks[i], maximum);
      assert blocks[..i + 1] == blocks[..i] + [blocks[i]];
    }
    assert blocks[..|blocks|] == blocks;
  }

  method AddNextBlock(s: Text, before: seq<Chunk>, done: seq<Span>, p: Span, maximum: nat) returns (out: seq<Chunk>)
    requires Valid(s) && p.start < p.end <= |s| && Boundary(s, p.start) && Boundary(s, p.end)
    requires Partitioned(s, before, p.start, Limit(maximum)) && BlocksPlaced(s, before, done, Limit(maximum))
    ensures Partitioned(s, out, p.end, Limit(maximum)) && BlocksPlaced(s, out, done + [p], Limit(maximum))
  {
    out := AddBlock(s, before, p, maximum);
    BlocksStep(s, before, out, done, p, Limit(maximum));
  }

  ghost predicate Partitioned(s: Text, out: seq<Chunk>, to: nat, limit: nat) {
    Tiles(s, out, 0, to, limit) && Exact(out) && Numbered(out)
  }

  /** The block's windows are in the list, and the block itself when it fits. */
  ghost predicate BlockPlaced(s: Text, out: seq<Chunk>, p: Span, limit: nat) {
    Run(s, out, p, limit, 0) && (p.end - p.start <= limit ==> Whole(out, p))
  }

  ghost predicate BlocksPlaced(s: Text, out: seq<Chunk>, blocks: seq<Span>, limit: nat) {
    forall p {:trigger BlockPlaced(s, out, p, limit)} :: p in blocks ==> BlockPlaced(s, out, p, limit)
  }

  lemma BlocksStep(s: Text, was: seq<Chunk>, out: seq<Chunk>, blocks: seq<Span>, p: Span, limit: nat)
    requires BlocksPlaced(s, was, blocks, limit) && was <= out && BlockPlaced(s, out, p, limit)
    ensures BlocksPlaced(s, out, blocks + [p], limit)
  {
    forall q | q in blocks + [p] ensures BlockPlaced(s, out, q, limit) {
      if q in blocks {
        assert BlockPlaced(s, was, q, limit);
        RunStays(s, was, out, q, limit, 0);
        assert out == was + out[|was|..];
        if q.end - q.start <= limit { WholeExtends(was, out[|was|..], q); }
      }
    }
  }

  /** One block, windowed without overlap. */
  method AddBlock(s: Text, before: seq<Chunk>, p: Span, maximum: nat) returns (out: seq<Chunk>)
    requires Valid(s) && p.start < p.end <= |s| && Boundary(s, p.start) && Boundary(s, p.end)
    requires Partitioned(s, before, p.start, Limit(maximum))
    ensures Partitioned(s, out, p.end, Limit(maximum)) && before <= out && BlockPlaced(s, out, p, Limit(maximum))
  {
    SliceValid(s, p.start, p.end);
    var windows := SourceWindows(s[p.start..p.end], maximum, 0);
    AppendBlock(s, before, p, windows, Limit(maximum));
    out := before + Shifted(windows, p.start, |before|);
  }

  lemma ExactConcat(a: seq<Chunk>, ws: seq<Chunk>, lo: nat)
    requires Exact(a) && Exact(ws) && Numbered(a)
    requires a != [] && ws != [] ==> a[|a| - 1].end == lo + ws[0].start
    ensures Exact(a + Shifted(ws, lo, |a|)) && Numbered(a + Shifted(ws, lo, |a|))
  {
  }

  lemma WholeExtends(out: seq<Chunk>, more: seq<Chunk>, q: Span)
    requires Whole(out, q) || Whole(more, q)
    ensures Whole(out + more, q)
  {
    if Whole(out, q) {
      var i :| 0 <= i < |out| && out[i].start == q.start && out[i].end == q.end;
      assert (out + more)[i] == out[i];
    } else {
      var i :| 0 <= i < |more| && more[i].start == q.start && more[i].end == q.end;
      assert (out + more)[|out| + i] == more[i];
    }
  }

  lemma AppendBlock(s: Text, out: seq<Chunk>, p: Span, ws: seq<Chunk>, limit: nat)
    requires p.start < p.end <= |s| && Boundary(s, p.start) && Boundary(s, p.end)
    requires Tiles(s, out, 0, p.start, limit) && Exact(out) && Numbered(out)
    requires Windowed(s[p.start..p.end], ws, p.end - p.start, limit, 0)
    ensures var more := out + Shifted(ws, p.start, |out|);
      && Tiles(s, more, 0, p.end, limit) && Exact(more) && Numbered(more)
      && BlockPlaced(s, more, p, limit)
  {
    var added := Shifted(ws, p.start, |out|);
    TilesShift(s, out, p.start, p.end, ws, limit);
    NoLapExact(s[p.start..p.end], ws, p.end - p.start, limit);
    ExactConcat(out, ws, p.start);
    if p.end - p.start <= limit {
      FittingIsSingle(s[p.start..p.end], ws, limit, 0);
      assert added[0].start == p.start && added[0].end == p.end;
      WholeExtends(out, added, p);
    }
    assert (out + added)[|out|..|out| + |ws|] == added;
    assert RunAt(s, out + added, p, limit, 0, |out|, ws);
  }

  // ---- Paragraph windows ----

  /** The span lies inside one chunk. */
  ghost predicate Inside(out: seq<Chunk>, p: Span) {
    exists i :: 0 <= i < |out| && out[i].start <= p.start && p.end <= out[i].end
  }

  lemma InsideExtends(out: seq<Chunk>, more: seq<Chunk>)
    ensures forall p :: Inside(out, p) ==> Inside(out + more, p)
  {
    forall p | Inside(out, p) ensures Inside(out + more, p) {
      var i :| 0 <= i < |out| && out[i].start <= p.start && p.end <= out[i].end;
      assert (out + more)[i] == out[i];
    }
  }

  /** An open group of whole pieces `start..end` that fits, after a tiling up to `start`. */
  ghost predicate Grouping(s: Text, out: seq<Chunk>, group: Option<nat>, end: nat, limit: nat) {
    && Numbered(out)
    && match group
       case None => Tiles(s, out, 0, end, limit)
       case Some(start) => Tiles(s, out, 0, start, limit) && GoodChunk(s, Chunk(0, start, end), limit)
  }

  /** What the tiling or the open group already holds together. */
  ghost predicate Kept(out: seq<Chunk>, group: Option<nat>, end: nat, p: Span) {
    Inside(out, p) || (group.Some? && group.value <= p.start && p.end <= end)
  }

  /** `push_chunk` of the open group. */
  function Flush(out: seq<Chunk>, group: Option<nat>, end: nat): seq<Chunk> {
    if group.Some? then out + [Chunk(|out|, group.value, end)] else out
  }

  lemma FlushTiles(s: Text, out: seq<Chunk>, group: Option<nat>, end: nat, limit: nat)
    requires Grouping(s, out, group, end, limit)
    ensures Tiles(s, Flush(out, group, end), 0, end, limit) && Numbered(Flush(out, group, end))
    ensures forall p :: Kept(out, group, end, p) ==> Inside(Flush(out, group, end), p)
  {
    if group.Some? {
      var c := Chunk(|out|, group.value, end);
      TilesPush(s, out, group.value, c, limit);
      InsideExtends(out, [c]);
      assert (out + [c])[|out|] == c;
    }
  }

  // ---- What later pieces cannot change ----

  ghost predicate KeepsAll(out: seq<Chunk>, group: Option<nat>, end: nat,
                           out': seq<Chunk>, group': Option<nat>, end': nat)
  {
    forall p :: Kept(out, group, end, p) ==> Kept(out', group', end', p)
  }

  /** Where the next chunk will start. */
  function Open(group: Option<nat>, end: nat): nat { if group.Some? then group.value else end }

  /** What is pushed stays, and what is pushed later starts no earlier than the open group. */
  ghost predicate Later(out: seq<Chunk>, group: Option<nat>, end: nat, out': seq<Chunk>, group': Option<nat>, end': nat) {
    && out <= out' && Open(group, end) <= Open(group', end')
    && forall i :: |out| <= i < |out'| ==> Open(group, end) <= out'[i].start
  }

  ghost predicate Follows(out: seq<Chunk>, group: Option<nat>, end: nat, out': seq<Chunk>, group': Option<nat>, end': nat) {
    KeepsAll(out, group, end, out', group', end') && Later(out, group, end, out', group', end')
  }

  lemma FollowsOn(a: seq<Chunk>, g: Option<nat>, m: nat, b: seq<Chunk>, h: Option<nat>, n: nat, c: seq<Chunk>, j: Option<nat>, o: nat)
    requires Follows(a, g, m, b, h, n) && Follows(b, h, n, c, j, o)
    ensures Follows(a, g, m, c, j, o)
  {
    forall i | |a| <= i < |c| ensures Open(g, m) <= c[i].start {
      assert i < |b| ==> b[i] == c[i];
    }
  }

  lemma FlushFollows(out: seq<Chunk>, group: Option<nat>, end: nat)
    requires group.Some? ==> group.value <= end
    ensures Follows(out, group, end, Flush(out, group, end), None, end)
  {
    if group.Some? {
      var c := Chunk(|out|, group.value, end);
      InsideExtends(out, [c]);
      assert (out + [c])[|out|] == c;
    }
  }

  predicate Fitting(p: Span, limit: nat) { p.start <= p.end && p.end - p.start <= limit }

  /** The chunk that ends with `p` has no room for `q`. */
  ghost predicate Broken(out: seq<Chunk>, p: Span, q: Span, limit: nat) {
    exists i :: 0 <= i < |out| && out[i].start <= p.start && out[i].end == p.end && q.end > out[i].start + limit
  }

  /** Two adjacent pieces share a chunk, unless the one that ends with the first has no room. */
  ghost predicate Joint(out: seq<Chunk>, group: Option<nat>, end: nat, p: Span, q: Span, limit: nat) {
    Kept(out, group, end, Span(p.start, q.end)) || Broken(out, p, q, limit)
  }

  /** No chunk reaches across `k`. */
  ghost predicate Clean(out: seq<Chunk>, group: Option<nat>, end: nat, k: nat) {
    k <= Open(group, end) && forall i :: 0 <= i < |out| ==> out[i].end <= k || k <= out[i].start
  }

  /** Somewhere in the list the piece's own windows follow one another, moved into place. */
  ghost predicate Run(s: Text, out: seq<Chunk>, p: Span, limit: nat, lap: nat) {
    p.start <= p.end <= |s| && exists k: nat, ws :: RunAt(s, out, p, limit, lap, k, ws)
  }

  ghost predicate RunAt(s: Text, out: seq<Chunk>, p: Span, limit: nat, lap: nat, k: nat, ws: seq<Chunk>)
    requires p.start <= p.end <= |s|
  {
    && Windowed(s[p.start..p.end], ws, p.end - p.start, limit, lap)
    && k + |ws| <= |out| && out[k..k + |ws|] == Shifted(ws, p.start, k)
  }

  lemma JointStays(out: seq<Chunk>, group: Option<nat>, end: nat, out': seq<Chunk>, group': Option<nat>, end': nat,
                   p: Span, q: Span, limit: nat)
    requires Joint(out, group, end, p, q, limit) && Follows(out, group, end, out', group', end')
    ensures Joint(out', group', end', p, q, limit)
  {
    if Broken(out, p, q, limit) {
      var i :| 0 <= i < |out| && out[i].start <= p.start && out[i].end == p.end && q.end > out[i].start + limit;
      assert out'[i] == out[i];
    }
  }

  lemma CleanStays(out: seq<Chunk>, group: Option<nat>, end: nat, out': seq<Chunk>, group': Option<nat>, end': nat, k: nat)
    requires Clean(out, group, end, k) && Later(out, group, end, out', group', end')
    ensures Clean(out', group', end', k)
  {
    forall i | 0 <= i < |out'| ensures out'[i].end <= k || k <= out'[i].start {
      assert i < |out| ==> out'[i] == out[i];
    }
  }

  lemma RunStays(s: Text, out: seq<Chunk>, out': seq<Chunk>, p: Span, limit: nat, lap: nat)
    requires Run(s, out, p, limit, lap) && out <= out'
    ensures Run(s, out', p, limit, lap)
  {
    var k: nat, ws: seq<Chunk> :| RunAt(s, out, p, limit, lap, k, ws);
    assert out'[k..k + |ws|] == out[k..k + |ws|];
    assert RunAt(s, out', p, limit, lap, k, ws);
  }

  // ---- Facts about one piece of a list ----

  /** A piece that fits is kept whole, and together with a fitting piece before it. */
  ghost predicate Together(out: seq<Chunk>, group: Option<nat>, end: nat, ps: seq<Span>, j: nat, limit: nat)
    requires j < |ps|
  {
    && Kept(out, group, end, ps[j])
    && (j > 0 && Fitting(ps[j - 1], limit) ==> Joint(out, group, end, ps[j - 1], ps[j], limit))
  }

  /** A piece that does not fit shares no chunk with its neighbours. */
  ghost predicate Alone(out: seq<Chunk>, group: Option<nat>, end: nat, p: Span) {
    Clean(out, group, end, p.start) && Clean(out, group, end, p.end)
  }

  /** A line is grouped, or windowed by itself. */
  ghost predicate LineHolds(s: Text, out: seq<Chunk>, group: Option<nat>, end: nat, lines: seq<Span>, j: nat, limit: nat, lap: nat)
    requires j < |lines|
  {
    if Fitting(lines[j], limit) then Together(out, group, end, lines, j, limit)
    else Alone(out, group, end, lines[j]) && Run(s, out, lines[j], limit, lap)
  }

  ghost predicate LinesHold(s: Text, out: seq<Chunk>, group: Option<nat>, end: nat, lines: seq<Span>, n: nat, limit: nat, lap: nat)
    requires n <= |lines|
  {
    forall j: nat {:trigger LineHolds(s, out, group, end, lines, j, limit, lap)} :: j < n ==>
      LineHolds(s, out, group, end, lines, j, limit, lap)
  }

  /** A span of a text that starts at `base`, in the coordinates of the whole. */
  function Moved(p: Span, base: nat): Span { Span(base + p.start, base + p.end) }

  function MovedAll(ps: seq<Span>, base: nat): (r: seq<Span>)
    ensures |r| == |ps|
  {
    seq(|ps|, i requires 0 <= i < |ps| => Moved(ps[i], base))
  }

  /** The lines of a paragraph, in the coordinates of the whole text. */
  function LinesOf(s: Text, p: Span): seq<Span>
    requires p.start <= p.end <= |s|
  {
    MovedAll(Pieces(s[p.start..p.end], 1, 0), p.start)
  }

  /** A paragraph is grouped, or split at its lines by itself. */
  ghost predicate ParagraphHolds(s: Text, out: seq<Chunk>, group: Option<nat>, end: nat, ps: seq<Span>, j: nat, limit: nat, lap: nat)
    requires j < |ps|
  {
    if Fitting(ps[j], limit) then Together(out, group, end, ps, j, limit)
    else ParagraphSplit(s, out, group, end, ps[j], limit, lap)
  }

  ghost predicate ParagraphSplit(s: Text, out: seq<Chunk>, group: Option<nat>, end: nat, p: Span, limit: nat, lap: nat) {
    && Alone(out, group, end, p) && p.start <= p.end <= |s|
    && LinesHold(s, out, group, end, LinesOf(s, p), |LinesOf(s, p)|, limit, lap)
  }

  ghost predicate ParagraphsHold(s: Text, out: seq<Chunk>, group: Option<nat>, end: nat, ps: seq<Span>, n: nat, limit: nat, lap: nat)
    requires n <= |ps|
  {
    forall j: nat {:trigger ParagraphHolds(s, out, group, end, ps, j, limit, lap)} :: j < n ==>
      ParagraphHolds(s, out, group, end, ps, j, limit, lap)
  }

  lemma TogetherStays(out: seq<Chunk>, group: Option<nat>, end: nat, out': seq<Chunk>, group': Option<nat>, end': nat,
                      ps: seq<Span>, j: nat, limit: nat)
    requires j < |ps| && Together(out, group, end, ps, j, limit) && Follows(out, group, end, out', group', end')
    ensures Together(out', group', end', ps, j, limit)
  {
    if j > 0 && Fitting(ps[j - 1], limit) { JointStays(out, group, end, out', group', end', ps[j - 1], ps[j], limit); }
  }

  lemma LinesStay(s: Text, out: seq<Chunk>, group: Option<nat>, end: nat, out': seq<Chunk>, group': Option<nat>, end': nat,
                  lines: seq<Span>, n: nat, limit: nat, lap: nat)
    requires n <= |lines| && LinesHold(s, out, group, end, lines, n, limit, lap) && Follows(out, group, end, out', group', end')
    ensures LinesHold(s, out', group', end', lines, n, limit, lap)
  {
    forall j: nat | j < n ensures LineHolds(s, out', group', end', lines, j, limit, lap) {
      assert LineHolds(s, out, group, end, lines, j, limit, lap);
      if Fitting(lines[j], limit) {
        TogetherStays(out, group, end, out', group', end', lines, j, limit);
      } else {
        CleanStays(out, group, end, out', group', end', lines[j].start);
        CleanStays(out, group, end, out', group', end', lines[j].end);
        RunStays(s, out, out', lines[j], limit, lap);
      }
    }
  }

  lemma ParagraphStays(s: Text, out: seq<Chunk>, group: Option<nat>, end: nat, out': seq<Chunk>, group': Option<nat>, end': nat,
                       ps: seq<Span>, j: nat, limit: nat, lap: nat)
    requires j < |ps| && ParagraphHolds(s, out, group, end, ps, j, limit, lap) && Follows(out, group, end, out', group', end')
    ensures ParagraphHolds(s, out', group', end', ps, j, limit, lap)
  {
    if Fitting(ps[j], limit) {
      TogetherStays(out, group, end, out', group', end', ps, j, limit);
    } else {
      CleanStays(out, group, end, out', group', end', ps[j].start);
      CleanStays(out, group, end, out', group', end', ps[j].end);
      LinesStay(s, out, group, end, out', group', end', LinesOf(s, ps[j]), |LinesOf(s, ps[j])|, limit, lap);
    }
  }

  // ---- One line or fitting paragraph ----

  /** One piece joins the open group when the group still fits, else starts the next group. */
  lemma GroupStep(s: Text, out: seq<Chunk>, group: Option<nat>, mid: nat, end: nat, limit: nat)
    requires Grouping(s, out, group, mid, limit) && mid < end <= |s| && end - mid <= limit
    requires Boundary(s, mid) && Boundary(s, end)
    ensures var joins := group.Some? && end - group.value <= limit;
      var out', group' := if joins then out else Flush(out, group, mid), if joins then group else Some(mid);
      Grouping(s, out', group', end, limit) && Follows(out, group, mid, out', group', end)
  {
    FlushTiles(s, out, group, mid, limit);
    if group.Some? { assert GoodChunk(s, Chunk(0, group.value, mid), limit); }
    FlushFollows(out, group, mid);
  }

  /** An oversized line is windowed in place. */
  lemma OversizedStep(s: Text, out: seq<Chunk>, group: Option<nat>, mid: nat, end: nat, ws: seq<Chunk>, limit: nat, lap: nat)
    requires Grouping(s, out, group, mid, limit) && mid < end <= |s|
    requires Boundary(s, mid) && Boundary(s, end) && Windowed(s[mid..end], ws, end - mid, limit, lap)
    ensures var flushed := Flush(out, group, mid); var more := flushed + Shifted(ws, mid, |flushed|);
      && Grouping(s, more, None, end, limit) && Follows(out, group, mid, more, None, end)
      && Alone(more, None, end, Span(mid, end)) && Run(s, more, Span(mid, end), limit, lap)
  {
    var flushed := Flush(out, group, mid);
    FlushTiles(s, out, group, mid, limit);
    if group.Some? { assert GoodChunk(s, Chunk(0, group.value, mid), limit); }
    FlushFollows(out, group, mid);
    TilesShift(s, flushed, mid, end, ws, limit);
    InsideExtends(flushed, Shifted(ws, mid, |flushed|));
    WindowsAlone(s, flushed, mid, end, ws, limit);
    assert (flushed + Shifted(ws, mid, |flushed|))[|flushed|..|flushed| + |ws|] == Shifted(ws, mid, |flushed|);
    assert RunAt(s, flushed + Shifted(ws, mid, |flushed|), Span(mid, end), limit, lap, |flushed|, ws);
    FollowsOn(out, group, mid, flushed, None, mid, flushed + Shifted(ws, mid, |flushed|), None, end);
  }

  lemma WindowsAlone(s: Text, out: seq<Chunk>, mid: nat, end: nat, ws: seq<Chunk>, limit: nat)
    requires mid < end <= |s| && Tiles(s, out, 0, mid, limit) && Tiles(s[mid..end], ws, 0, end - mid, limit)
    ensures var more := out + Shifted(ws, mid, |out|); Alone(more, None, end, Span(mid, end)) && Later(out, None, mid, more, None, end)
  {
    var more := out + Shifted(ws, mid, |out|);
    forall i | 0 <= i < |more| ensures if i < |out| then more[i].end <= mid else mid <= more[i].start && more[i].end <= end {
      if i < |out| {
        EndsBelow(s, out, mid, limit, i);
      } else {
        EndsBelow(s[mid..end], ws, end - mid, limit, i - |out|);
        assert more[i] == Shifted(ws, mid, |out|)[i - |out|];
      }
    }
  }

  /** A piece that fits after an open group that starts at `from`: both share a chunk, or the group
      was full. */
  ghost predicate JoinsOpen(out: seq<Chunk>, group: Option<nat>, open: Option<nat>, start: nat, end: nat, limit: nat) {
    && group.Some? && group.value <= start
    && (open.Some? ==> Joint(out, group, end, Span(open.value, start), Span(start, end), limit))
  }

  lemma JointWiden(out: seq<Chunk>, group: Option<nat>, end: nat, p: Span, q: Span, r: Span, limit: nat)
    requires Joint(out, group, end, p, q, limit) && p.start <= r.start && p.end == r.end
    ensures Joint(out, group, end, r, q, limit)
  {
    if Broken(out, p, q, limit) {
      var i :| 0 <= i < |out| && out[i].start <= p.start && out[i].end == p.end && q.end > out[i].start + limit;
      assert Broken(out, r, q, limit);
    } else if Inside(out, Span(p.start, q.end)) {
      var i :| 0 <= i < |out| && out[i].start <= p.start && q.end <= out[i].end;
      assert Inside(out, Span(r.start, q.end));
    }
  }

  /** One line of an oversized paragraph, or one paragraph that fits: grouped when it fits,
      windowed when it does not. */
  method AddLine(s: Text, before: seq<Chunk>, open: Option<nat>, start: nat, end: nat, maximum: nat, overlap: nat)
    returns (out: seq<Chunk>, group: Option<nat>)
    requires Valid(s) && start < end <= |s| && Boundary(s, start) && Boundary(s, end) && maximum >= 1
    requires Grouping(s, before, open, start, maximum)
    ensures Grouping(s, out, group, end, maximum) && Follows(before, open, start, out, group, end)
    ensures if end - start <= maximum then JoinsOpen(out, group, open, start, end, maximum)
            else Alone(out, group, end, Span(start, end)) && Run(s, out, Span(start, end), maximum, Min(overlap, maximum / 2))
  {
    out, group := before, open;
    if end - start > maximum {
      SliceValid(s, start, end);
      var windows := SourceWindows(s[start..end], maximum, overlap);
      OversizedStep(s, out, group, start, end, windows, maximum, Min(overlap, maximum / 2));
      out := Flush(out, group, start);
      out := out + Shifted(windows, start, |out|);
      group := None;
    } else {
      GroupStep(s, out, group, start, end, maximum);
      if open.Some? { assert GoodChunk(s, Chunk(0, open.value, start), maximum); }
      if group.None? || end - group.value > maximum {
        out := Flush(out, group, start);
        group := Some(start);
        if open.Some? { assert out[|before|] == Chunk(|before|, open.value, start); }
      }
    }
  }

  /** The open group holds the last piece, if that one fits. */
  ghost predicate LastOpen(group: Option<nat>, ps: seq<Span>, n: nat, limit: nat)
    requires n <= |ps|
  {
    n > 0 && Fitting(ps[n - 1], limit) ==> group.Some? && group.value <= ps[n - 1].start
  }

  lemma PieceJoins(out: seq<Chunk>, group: Option<nat>, open: Option<nat>, end: nat, ps: seq<Span>, j: nat, limit: nat)
    requires j < |ps| && LastOpen(open, ps, j, limit) && (j > 0 ==> ps[j - 1].end == ps[j].start) && ps[j].end == end
    requires JoinsOpen(out, group, open, ps[j].start, end, limit)
    ensures Together(out, group, end, ps, j, limit)
  {
    if j > 0 && Fitting(ps[j - 1], limit) {
      JointWiden(out, group, end, Span(open.value, ps[j].start), ps[j], ps[j - 1], limit);
    }
  }

  // ---- The lines of an oversized paragraph ----

  /** Loop state inside an oversized paragraph that starts at `base`, after `n` lines. */
  ghost predicate Splitting(s: Text, before: seq<Chunk>, base: nat, out: seq<Chunk>, group: Option<nat>, end: nat,
                            lines: seq<Span>, n: nat, limit: nat, lap: nat)
    requires n <= |lines|
  {
    && Grouping(s, out, group, end, limit) && Follows(before, None, base, out, group, end)
    && LinesHold(s, out, group, end, lines, n, limit, lap) && LastOpen(group, lines, n, limit)
  }

  /** Lines of one oversized paragraph: whole lines are grouped, longer lines windowed. */
  method AppendOversized(s: Text, para: Span, maximum: nat, overlap: nat, before: seq<Chunk>) returns (out: seq<Chunk>)
    requires Valid(s) && para.start < para.end <= |s| && Boundary(s, para.start) && Boundary(s, para.end) && maximum >= 1
    requires Tiles(s, before, 0, para.start, maximum) && Numbered(before)
    ensures Tiles(s, out, 0, para.end, maximum) && Numbered(out)
    ensures Follows(before, None, para.start, out, None, para.end) && Alone(out, None, para.end, para)
    ensures LinesHold(s, out, None, para.end, LinesOf(s, para), |LinesOf(s, para)|, maximum, Min(overlap, maximum / 2))
  {
    var lines := Pieces(s[para.start..para.end], 1, 0);
    SliceValid(s, para.start, para.end);
    PiecesTile(s[para.start..para.end], 1, 0);
    out := AppendLines(s, para.start, para.end, MovedAll(lines, para.start), maximum, overlap, before);
    ParagraphAlone(s, before, para, out, maximum);
  }

  lemma ParagraphAlone(s: Text, before: seq<Chunk>, para: Span, out: seq<Chunk>, limit: nat)
    requires para.start <= para.end && Tiles(s, before, 0, para.start, limit) && Tiles(s, out, 0, para.end, limit)
    requires Later(before, None, para.start, out, None, para.end)
    ensures Alone(out, None, para.end, para)
  {
    forall i | 0 <= i < |out|
      ensures out[i].end <= para.end && (out[i].end <= para.start || para.start <= out[i].start)
    {
      EndsBelow(s, out, para.end, limit, i);
      if i < |before| {
        EndsBelow(s, before, para.start, limit, i);
        assert out[i] == before[i];
      }
    }
  }

  /** The lines of the text at `base..hi`, in the coordinates of the whole. */
  ghost predicate LinesAt(s: Text, base: nat, hi: nat, lines: seq<Span>) {
    && base < hi <= |s| && Boundary(s, base) && Boundary(s, hi)
    && exists ps: seq<Span> :: Pieced(s[base..hi], ps, 0) && lines == MovedAll(ps, base)
  }

  lemma LineBounds(s: Text, base: nat, hi: nat, lines: seq<Span>, i: nat)
    requires LinesAt(s, base, hi, lines) && i < |lines|
    ensures lines[i].start < lines[i].end <= |s| && Boundary(s, lines[i].start) && Boundary(s, lines[i].end)
    ensures lines[i].start == (if i > 0 then lines[i - 1].end else base)
    ensures lines[|lines| - 1].end == hi
  {
    var ps: seq<Span> :| Pieced(s[base..hi], ps, 0) && lines == MovedAll(ps, base);
    PieceAt(s[base..hi], ps, i);
    if i > 0 { PieceAt(s[base..hi], ps, i - 1); }
    SliceBoundary(s, base, hi, ps[i].start);
    SliceBoundary(s, base, hi, ps[i].end);
  }

  lemma SomeLine(s: Text, base: nat, hi: nat, lines: seq<Span>)
    requires LinesAt(s, base, hi, lines)
    ensures lines != []
  {
  }

  method AppendLines(s: Text, base: nat, hi: nat, lines: seq<Span>, maximum: nat, overlap: nat, before: seq<Chunk>)
    returns (out: seq<Chunk>)
    requires Valid(s) && LinesAt(s, base, hi, lines) && maximum >= 1
    requires Tiles(s, before, 0, base, maximum) && Numbered(before)
    ensures Tiles(s, out, 0, hi, maximum) && Numbered(out)
    ensures Follows(before, None, base, out, None, hi)
    ensures LinesHold(s, out, None, hi, lines, |lines|, maximum, Min(overlap, maximum / 2))
  {
    out := before;
    var group: Option<nat> := None;
    var groupEnd: nat := base;
    SomeLine(s, base, hi, lines);
    for i := 0 to |lines|
      invariant groupEnd == if i > 0 then lines[i - 1].end else base
      invariant Splitting(s, before, base, out, group, groupEnd, lines, i, maximum, Min(overlap, maximum / 2))
    {
      LineBounds(s, base, hi, lines, i);
      out, group := AddNextLine(s, before, base, out, group, lines, i, maximum, overlap);
      groupEnd := lines[i].end;
    }
    LineBounds(s, base, hi, lines, |lines| - 1);
    LinesDone(s, before, base, out, group, groupEnd, lines, maximum, Min(overlap, maximum / 2));
    out := Flush(out, group, groupEnd);
  }

  method AddNextLine(s: Text, ghost before: seq<Chunk>, ghost base: nat, done: seq<Chunk>, open: Option<nat>,
                     lines: seq<Span>, i: nat, maximum: nat, overlap: nat)
    returns (out: seq<Chunk>, group: Option<nat>)
    requires Valid(s) && maximum >= 1 && i < |lines| && lines[i].start < lines[i].end <= |s|
    requires Boundary(s, lines[i].start) && Boundary(s, lines[i].end) && (i > 0 ==> lines[i - 1].end == lines[i].start)
    requires Splitting(s, before, base, done, open, lines[i].start, lines, i, maximum, Min(overlap, maximum / 2))
    ensures Splitting(s, before, base, out, group, lines[i].end, lines, i + 1, maximum, Min(overlap, maximum / 2))
  {
    out, group := AddLine(s, done, open, lines[i].start, lines[i].end, maximum, overlap);
    LinesStep(s, done, open, out, group, lines, i, maximum, Min(overlap, maximum / 2));
    FollowsOn(before, None, base, done, open, lines[i].start, out, group, lines[i].end);
  }

  lemma LinesStep(s: Text, done: seq<Chunk>, open: Option<nat>, out: seq<Chunk>, group: Option<nat>, lines: seq<Span>, i: nat,
                  limit: nat, lap: nat)
    requires i < |lines| && lines[i].start < lines[i].end && (i > 0 ==> lines[i - 1].end == lines[i].start)
    requires LinesHold(s, done, open, lines[i].start, lines, i, limit, lap) && LastOpen(open, lines, i, limit)
    requires Follows(done, open, lines[i].start, out, group, lines[i].end)
    requires if Fitting(lines[i], limit) then JoinsOpen(out, group, open, lines[i].start, lines[i].end, limit)
             else Alone(out, group, lines[i].end, lines[i]) && Run(s, out, lines[i], limit, lap)
    ensures LinesHold(s, out, group, lines[i].end, lines, i + 1, limit, lap) && LastOpen(group, lines, i + 1, limit)
  {
    LinesStay(s, done, open, lines[i].start, out, group, lines[i].end, lines, i, limit, lap);
    if Fitting(lines[i], limit) { PieceJoins(out, group, open, lines[i].end, lines, i, limit); }
    forall j: nat | j < i + 1 ensures LineHolds(s, out, group, lines[i].end, lines, j, limit, lap) {
    }
  }

  lemma LinesDone(s: Text, before: seq<Chunk>, base: nat, out: seq<Chunk>, group: Option<nat>, end: nat, lines: seq<Span>, limit: nat, lap: nat)
    requires Splitting(s, before, base, out, group, end, lines, |lines|, limit, lap)
    ensures Tiles(s, Flush(out, group, end), 0, end, limit) && Numbered(Flush(out, group, end))
    ensures Follows(before, None, base, Flush(out, group, end), None, end)
    ensures LinesHold(s, Flush(out, group, end), None, end, lines, |lines|, limit, lap)
  {
    FlushTiles(s, out, group, end, limit);
    if group.Some? { assert GoodChunk(s, Chunk(0, group.value, end), limit); }
    FlushFollows(out, group, end);
    LinesStay(s, out, group, end, Flush(out, group, end), None, end, lines, |lines|, limit, lap);
    FollowsOn(before, None, base, out, group, end, Flush(out, group, end), None, end);
  }

  // ---- All paragraphs ----

  /** One paragraph: grouped with its neighbours when it fits, else split at its lines by itself. */
  method AddParagraph(s: Text, before: seq<Chunk>, open: Option<nat>, p: Span, maximum: nat, overlap: nat)
    returns (out: seq<Chunk>, group: Option<nat>)
    requires Valid(s) && p.start < p.end <= |s| && Boundary(s, p.start) && Boundary(s, p.end) && maximum >= 1
    requires Grouping(s, before, open, p.start, maximum)
    ensures Grouping(s, out, group, p.end, maximum) && Follows(before, open, p.start, out, group, p.end)
    ensures Fitting(p, maximum) ==> JoinsOpen(out, group, open, p.start, p.end, maximum)
    ensures Fitting(p, maximum) || ParagraphSplit(s, out, group, p.end, p, maximum, Min(overlap, maximum / 2))
  {
    if p.end - p.start <= maximum {
      out, group := AddLine(s, before, open, p.start, p.end, maximum, overlap);
    } else {
      FlushTiles(s, before, open, p.start, maximum);
      if open.Some? { assert GoodChunk(s, Chunk(0, open.value, p.start), maximum); }
      FlushFollows(before, open, p.start);
      out := AppendOversized(s, p, maximum, overlap, Flush(before, open, p.start));
      group := None;
      FollowsOn(before, open, p.start, Flush(before, open, p.start), None, p.start, out, None, p.end);
    }
  }

  /** The paragraph plan. Neighbouring paragraphs that fit share a chunk as long as it has room; a
      paragraph that does not fit shares none, and inside it lines are grouped in the same way, a
      line that does not fit being windowed by itself with the given overlap. */
  method SourceParagraphWindows(s: Text, maximum: nat, overlap: nat) returns (out: seq<Chunk>)
    requires Valid(s)
    ensures Tiles(s, out, 0, |s|, Limit(maximum)) && Numbered(out) && Pieced(s, Pieces(s, 2, 0), 0)
    ensures ParagraphsHold(s, out, None, |s|, Pieces(s, 2, 0), |Pieces(s, 2, 0)|, Limit(maximum), Min(overlap, Limit(maximum) / 2))
  {
    var paragraphs := Pieces(s, 2, 0);
    PiecesTile(s, 2, 0);
    out := GroupParagraphs(s, paragraphs, Limit(maximum), overlap);
  }

  /** Loop state after `n` paragraphs. */
  ghost predicate Planning(s: Text, out: seq<Chunk>, group: Option<nat>, end: nat, ps: seq<Span>, n: nat, limit: nat, lap: nat)
    requires n <= |ps|
  {
    && Grouping(s, out, group, end, limit) && ParagraphsHold(s, out, group, end, ps, n, limit, lap)
    && LastOpen(group, ps, n, limit)
  }

  method GroupParagraphs(s: Text, paragraphs: seq<Span>, limit: nat, overlap: nat) returns (out: seq<Chunk>)
    requires Valid(s) && Pieced(s, paragraphs, 0) && limit >= 1
    ensures Tiles(s, out, 0, |s|, limit) && Numbered(out)
    ensures ParagraphsHold(s, out, None, |s|, paragraphs, |paragraphs|, limit, Min(overlap, limit / 2))
  {
    out := [];
    var group: Option<nat> := None;
    var groupEnd: nat := 0;
    for i := 0 to |paragraphs|
      invariant groupEnd == StartOf(s, paragraphs, i)
      invariant Planning(s, out, group, groupEnd, paragraphs, i, limit, Min(overlap, limit / 2))
    {
      PieceAt(s, paragraphs, i);
      if i > 0 { PieceAt(s, paragraphs, i - 1); }
      out, group := AddNext(s, out, group, paragraphs, i, limit, overlap);
      groupEnd := paragraphs[i].end;
    }
    PlanDone(s, out, group, groupEnd, paragraphs, limit, Min(overlap, limit / 2));
    out := Flush(out, group, groupEnd);
  }

  lemma PlanDone(s: Text, out: seq<Chunk>, group: Option<nat>, end: nat, ps: seq<Span>, limit: nat, lap: nat)
    requires Planning(s, out, group, end, ps, |ps|, limit, lap)
    ensures Tiles(s, Flush(out, group, end), 0, end, limit) && Numbered(Flush(out, group, end))
    ensures ParagraphsHold(s, Flush(out, group, end), None, end, ps, |ps|, limit, lap)
  {
    FlushTiles(s, out, group, end, limit);
    if group.Some? { assert GoodChunk(s, Chunk(0, group.value, end), limit); }
    FlushFollows(out, group, end);
    ParagraphsStay(s, out, group, end, Flush(out, group, end), None, end, ps, |ps|, limit, lap);
  }

  lemma ParagraphsStay(s: Text, out: seq<Chunk>, group: Option<nat>, end: nat, out': seq<Chunk>, group': Option<nat>, end': nat,
                       ps: seq<Span>, n: nat, limit: nat, lap: nat)
    requires n <= |ps| && ParagraphsHold(s, out, group, end, ps, n, limit, lap) && Follows(out, group, end, out', group', end')
    ensures ParagraphsHold(s, out', group', end', ps, n, limit, lap)
  {
    forall j: nat | j < n ensures ParagraphHolds(s, out', group', end', ps, j, limit, lap) {
      assert ParagraphHolds(s, out, group, end, ps, j, limit, lap);
      ParagraphStays(s, out, group, end, out', group', end', ps, j, limit, lap);
    }
  }

  /** The next paragraph; what holds of those before it stays. */
  method AddNext(s: Text, before: seq<Chunk>, open: Option<nat>, ps: seq<Span>, i: nat, limit: nat, overlap: nat)
    returns (out: seq<Chunk>, group: Option<nat>)
    requires Valid(s) && i < |ps| && ps[i].start < ps[i].end <= |s| && Boundary(s, ps[i].start) && Boundary(s, ps[i].end) && limit >= 1
    requires i > 0 ==> ps[i - 1].end == ps[i].start
    requires Planning(s, before, open, ps[i].start, ps, i, limit, Min(overlap, limit / 2))
    ensures Planning(s, out, group, ps[i].end, ps, i + 1, limit, Min(overlap, limit / 2))
  {
    out, group := AddParagraph(s, before, open, ps[i], limit, overlap);
    PlanStep(s, before, open, out, group, ps, i, limit, Min(overlap, limit / 2));
  }

  lemma PlanStep(s: Text, before: seq<Chunk>, open: Option<nat>, out: seq<Chunk>, group: Option<nat>, ps: seq<Span>, i: nat,
                 limit: nat, lap: nat)
    requires i < |ps| && ps[i].start < ps[i].end <= |s| && (i > 0 ==> ps[i - 1].end == ps[i].start)
    requires ParagraphsHold(s, before, open, ps[i].start, ps, i, limit, lap) && LastOpen(open, ps, i, limit)
    requires Follows(before, open, ps[i].start, out, group, ps[i].end)
    requires Fitting(ps[i], limit) ==> JoinsOpen(out, group, open, ps[i].start, ps[i].end, limit)
    requires Fitting(ps[i], limit) || ParagraphSplit(s, out, group, ps[i].end, ps[i], limit, lap)
    ensures ParagraphsHold(s, out, group, ps[i].end, ps, i + 1, limit, lap) && LastOpen(group, ps, i + 1, limit)
  {
    ParagraphsStay(s, before, open, ps[i].start, out, group, ps[i].end, ps, i, limit, lap);
    if Fitting(ps[i], limit) { PieceJoins(out, group, open, ps[i].end, ps, i, limit); }
    forall j: nat | j < i + 1 ensures ParagraphHolds(s, out, group, ps[i].end, ps, j, limit, lap) {
    }
  }
}
