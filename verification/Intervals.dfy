/** Closed integer intervals on a 64-bit timeline and the two operations the temporal
    fold builds on: merging affirmations and clipping denials out of them.

    An interval sequence is read through two point relations. `Covers(s, t)`: some
    interval contains `t`. `Links(s, t)`: some interval contains both `t` and the next
    millisecond, so no output boundary may separate them. Together they determine a
    canonical sequence (`CanonicalUnique`), which is what makes the fold independent
    of the order in which assertions are listed. */
module Intervals {
  import opened Orders

  /** Unix milliseconds in an i64: every step below is checked for overflow. */
  newtype Timestamp = x: int | -0x8000_0000_0000_0000 <= x < 0x8000_0000_0000_0000

  datatype Interval = Interval(start: Timestamp, end: Timestamp) {
    predicate Valid() { start <= end }

    predicate Contains(t: Timestamp) { start <= t <= end }

    /** Contains both `t` and the millisecond after it. */
    predicate Spans(t: Timestamp) { start <= t < end }

    /** Shares a point with the pair of `t` and the millisecond after it. */
    predicate Touches(t: Timestamp) { start as int - 1 <= t as int <= end as int }
  }

  ghost predicate Covers(s: seq<Interval>, t: Timestamp) {
    exists i :: 0 <= i < |s| && s[i].Contains(t)
  }

  ghost predicate Links(s: seq<Interval>, t: Timestamp) {
    exists i :: 0 <= i < |s| && s[i].Spans(t)
  }

  ghost predicate AllValid(s: seq<Interval>) {
    forall i :: 0 <= i < |s| ==> s[i].Valid()
  }

  /** Non-empty, sorted and pairwise disjoint. */
  ghost predicate Canonical(s: seq<Interval>) {
    && AllValid(s)
    && (forall i, j :: 0 <= i < j < |s| ==> s[i].end < s[j].start)
  }

  predicate Overlaps(a: Interval, b: Interval) {
    a.start <= b.end && b.start <= a.end
  }

  lemma OverlapsIsSharedPoint(a: Interval, b: Interval)
    requires a.Valid() && b.Valid()
    ensures Overlaps(a, b) <==> exists t: Timestamp :: a.Contains(t) && b.Contains(t)
  {
    if Overlaps(a, b) {
      var t := if a.start <= b.start then b.start else a.start;
      assert a.Contains(t) && b.Contains(t);
    }
  }

  // ---- Merging ----

  predicate StartsFirst(a: Interval, b: Interval) { a.start <= b.start }

  function MergeInto(last: Interval, rest: seq<Interval>): seq<Interval>
    decreases |rest|
  {
    if rest == [] then
      [last]
    else if rest[0].start <= last.end then
      MergeInto(if rest[0].end > last.end then Interval(last.start, rest[0].end) else last, rest[1..])
    else
      [last] + MergeInto(rest[0], rest[1..])
  }

  /** The value `merge_overlapping` leaves in its argument. */
  function Merge(s: seq<Interval>): seq<Interval> {
    if |s| <= 1 then s else
      var t := Sort(s, StartsFirst);
      MergeInto(t[0], t[1..])
  }

  lemma {:induction false} CoversCons(a: Interval, s: seq<Interval>, t: Timestamp)
    ensures Covers([a] + s, t) <==> a.Contains(t) || Covers(s, t)
    ensures Links([a] + s, t) <==> a.Spans(t) || Links(s, t)
  {
    assert ([a] + s)[0] == a && forall i :: 0 <= i < |s| ==> ([a] + s)[i + 1] == s[i];
    assert forall i :: 0 < i < |s| + 1 ==> ([a] + s)[i] == s[i - 1];
  }

  lemma {:induction false} CoversConcat(a: seq<Interval>, b: seq<Interval>, t: Timestamp)
    ensures Covers(a + b, t) <==> Covers(a, t) || Covers(b, t)
    ensures Links(a + b, t) <==> Links(a, t) || Links(b, t)
  {
    var c := a + b;
    assert forall i :: 0 <= i < |a| ==> c[i] == a[i];
    assert forall i :: 0 <= i < |b| ==> c[|a| + i] == b[i];
    assert forall i :: |a| <= i < |c| ==> c[i] == b[i - |a|];
  }

  /** Point relations only see which intervals occur, not where. */
  lemma CoversByElements(a: seq<Interval>, b: seq<Interval>, t: Timestamp)
    requires forall x :: x in a <==> x in b
    ensures Covers(a, t) <==> Covers(b, t)
    ensures Links(a, t) <==> Links(b, t)
  {
    forall i | 0 <= i < |a| ensures exists j :: 0 <= j < |b| && b[j] == a[i] {
      assert a[i] in b;
    }
    forall j | 0 <= j < |b| ensures exists i :: 0 <= i < |a| && a[i] == b[j] {
      assert b[j] in a;
    }
  }

  lemma {:induction false} MergeIntoCanonical(last: Interval, rest: seq<Interval>)
    requires last.Valid() && AllValid(rest)
    requires SortedBy(rest, StartsFirst)
    requires forall i :: 0 <= i < |rest| ==> last.start <= rest[i].start
    ensures var m := MergeInto(last, rest);
      Canonical(m) && m != [] && m[0].start == last.start
    decreases |rest|
  {
    if rest != [] {
      var x := rest[0];
      if x.start <= last.end {
        MergeIntoCanonical(if x.end > last.end then Interval(last.start, x.end) else last, rest[1..]);
      } else {
        MergeIntoCanonical(x, rest[1..]);
      }
    }
  }

  lemma {:induction false} MergeIntoPoints(last: Interval, rest: seq<Interval>, t: Timestamp)
    requires last.Valid() && AllValid(rest)
    requires SortedBy(rest, StartsFirst)
    requires forall i :: 0 <= i < |rest| ==> last.start <= rest[i].start
    ensures Covers(MergeInto(last, rest), t) <==> last.Contains(t) || Covers(rest, t)
    ensures Links(MergeInto(last, rest), t) <==> last.Spans(t) || Links(rest, t)
    decreases |rest|
  {
    if rest == [] {
      CoversCons(last, [], t);
      assert [last] + [] == [last];
    } else {
      var x, tail := rest[0], rest[1..];
      assert rest == [x] + tail;
      CoversCons(x, tail, t);
      if x.start <= last.end {
        MergeIntoPoints(if x.end > last.end then Interval(last.start, x.end) else last, tail, t);
      } else {
        MergeIntoPoints(x, tail, t);
        CoversCons(last, MergeInto(x, tail), t);
      }
    }
  }

  /** Merging keeps the point set and every link, and leaves a canonical sequence. */
  lemma MergeMeaning(s: seq<Interval>)
    requires AllValid(s)
    ensures Canonical(Merge(s))
    ensures forall t :: Covers(Merge(s), t) <==> Covers(s, t)
    ensures forall t :: Links(Merge(s), t) <==> Links(s, t)
  {
    if |s| > 1 {
      var sorted := Sort(s, StartsFirst);
      SortSorts(s, StartsFirst);
      SortElements(s, StartsFirst);
      forall i | 0 <= i < |sorted| ensures sorted[i].Valid() { assert sorted[i] in s; }
      MergeIntoCanonical(sorted[0], sorted[1..]);
      assert sorted == [sorted[0]] + sorted[1..];
      forall t
        ensures Covers(Merge(s), t) <==> Covers(s, t)
        ensures Links(Merge(s), t) <==> Links(s, t)
      {
        MergeIntoPoints(sorted[0], sorted[1..], t);
        CoversCons(sorted[0], sorted[1..], t);
        CoversByElements(sorted, s, t);
      }
    }
  }

  /** In-place merge of the source: sort by start, then extend the last run or open a new one. */
  method MergeOverlapping(intervals: seq<Interval>) returns (merged: seq<Interval>)
    ensures merged == Merge(intervals)
  {
    if |intervals| <= 1 { return intervals; }
    var sorted := Sort(intervals, StartsFirst);
    merged := [sorted[0]];
    for i := 1 to |sorted|
      invariant |merged| > 0
      invariant merged[..|merged| - 1] + MergeInto(merged[|merged| - 1], sorted[i..]) == Merge(intervals)
    {
      var iv, n := sorted[i], |merged| - 1;
      assert sorted[i..][0] == iv && sorted[i..][1..] == sorted[i + 1..];
      if iv.start <= merged[n].end {
        if iv.end > merged[n].end {
          merged := merged[n := merged[n].(end := iv.end)];
        }
      } else {
        merged := merged + [iv];
        assert merged[..|merged| - 1] == merged[..n] + [merged[n]];
      }
    }
    assert merged[..|merged| - 1] + [merged[|merged| - 1]] == merged;
  }

  // ---- Clipping ----

  /** What one affirming interval keeps after one denial. */
  function Remainder(a: Interval, denial: Interval): seq<Interval> {
    if !Overlaps(a, denial) then
      [a]
    else
      (if a.start < denial.start then [Interval(a.start, denial.start - 1)] else []) +
      (if denial.end < a.end then [Interval(denial.end + 1, a.end)] else [])
  }

  function Remainders(s: seq<Interval>, denial: Interval): seq<Interval> {
    if s == [] then [] else Remainders(s[..|s| - 1], denial) + Remainder(s[|s| - 1], denial)
  }

  /** The value `clip` returns. */
  function Clip(affirming: seq<Interval>, denial: Interval): seq<Interval> {
    Merge(Remainders(affirming, denial))
  }

  lemma {:induction false} RemainderMeaning(a: Interval, denial: Interval, t: Timestamp)
    requires a.Valid() && denial.Valid()
    ensures AllValid(Remainder(a, denial))
    ensures Covers(Remainder(a, denial), t) <==> a.Contains(t) && !denial.Contains(t)
    ensures Links(Remainder(a, denial), t) <==> a.Spans(t) && !denial.Touches(t)
  {
    var r := Remainder(a, denial);
    assert |r| == 0 || r[0] in r;
    assert |r| <= 2;
    assert Covers(r, t) <==> (|r| > 0 && r[0].Contains(t)) || (|r| > 1 && r[1].Contains(t));
    assert Links(r, t) <==> (|r| > 0 && r[0].Spans(t)) || (|r| > 1 && r[1].Spans(t));
  }

  lemma {:induction false} RemaindersMeaning(s: seq<Interval>, denial: Interval)
    requires AllValid(s) && denial.Valid()
    ensures AllValid(Remainders(s, denial))
    ensures forall t :: Covers(Remainders(s, denial), t) <==> Covers(s, t) && !denial.Contains(t)
    ensures forall t :: Links(Remainders(s, denial), t) <==> Links(s, t) && !denial.Touches(t)
  {
    if s != [] {
      var front, last := s[..|s| - 1], s[|s| - 1];
      RemaindersMeaning(front, denial);
      RemainderMeaning(last, denial, 0);
      forall t: Timestamp
        ensures Covers(Remainders(s, denial), t) <==> Covers(s, t) && !denial.Contains(t)
        ensures Links(Remainders(s, denial), t) <==> Links(s, t) && !denial.Touches(t)
      {
        RemainderMeaning(last, denial, t);
        CoversConcat(Remainders(front, denial), Remainder(last, denial), t);
        assert s == front + [last];
        CoversConcat(front, [last], t);
        assert Covers([last], t) <==> [last][0].Contains(t);
        assert Links([last], t) <==> [last][0].Spans(t);
      }
    }
  }

  /** Clipping removes exactly the denied points and cuts exactly the links they touch. */
  lemma ClipMeaning(s: seq<Interval>, denial: Interval)
    requires AllValid(s) && denial.Valid()
    ensures Canonical(Clip(s, denial))
    ensures forall t :: Covers(Clip(s, denial), t) <==> Covers(s, t) && !denial.Contains(t)
    ensures forall t :: Links(Clip(s, denial), t) <==> Links(s, t) && !denial.Touches(t)
  {
    RemaindersMeaning(s, denial);
    MergeMeaning(Remainders(s, denial));
  }

  lemma RemaindersStep(s: seq<Interval>, i: nat, denial: Interval)
    requires i < |s|
    ensures Remainders(s[..i + 1], denial) == Remainders(s[..i], denial) + Remainder(s[i], denial)
  {
    assert s[..i + 1][..i] == s[..i];
  }

  method ClipDenial(affirming: seq<Interval>, denial: Interval) returns (result: seq<Interval>)
    requires AllValid(affirming) && denial.Valid()
    ensures result == Clip(affirming, denial)
  {
    var pieces: seq<Interval> := [];
    for i := 0 to |affirming|
      invariant pieces == Remainders(affirming[..i], denial)
    {
      var aff := affirming[i];
      RemaindersStep(affirming, i, denial);
      if !Overlaps(aff, denial) {
        pieces := pieces + [aff];
        continue;
      }
      var left := if aff.start < denial.start then [Interval(aff.start, denial.start - 1)] else [];
      var right := if denial.end < aff.end then [Interval(denial.end + 1, aff.end)] else [];
      pieces := pieces + (left + right);
    }
    assert affirming[..|affirming|] == affirming;
    result := MergeOverlapping(pieces);
  }

  // ---- Canonical form ----

  lemma HeadIsLeast(a: seq<Interval>, b: seq<Interval>)
    requires Canonical(a) && Canonical(b) && a != []
    requires forall t :: Covers(a, t) <==> Covers(b, t)
    ensures b != [] && b[0].start <= a[0].start
  {
    assert a[0].Contains(a[0].start);
    assert Covers(b, a[0].start);
    var j :| 0 <= j < |b| && b[j].Contains(a[0].start);
  }

  lemma HeadEndsNoEarlier(a: seq<Interval>, b: seq<Interval>)
    requires Canonical(a) && Canonical(b) && a != [] && b != [] && a[0].start == b[0].start
    requires forall t :: Links(a, t) <==> Links(b, t)
    ensures b[0].end <= a[0].end
  {
    var t := a[0].end;
    assert b[0].Spans(t) ==> Links(b, t);
  }

  lemma TailMeaning(a: seq<Interval>, t: Timestamp)
    requires Canonical(a) && a != []
    ensures Covers(a[1..], t) <==> Covers(a, t) && t > a[0].end
    ensures Links(a[1..], t) <==> Links(a, t) && t > a[0].end
  {
    assert a == [a[0]] + a[1..];
    CoversCons(a[0], a[1..], t);
  }

  /** A canonical sequence is determined by its points and links. */
  lemma {:induction false} CanonicalUnique(a: seq<Interval>, b: seq<Interval>)
    requires Canonical(a) && Canonical(b)
    requires forall t :: Covers(a, t) <==> Covers(b, t)
    requires forall t :: Links(a, t) <==> Links(b, t)
    ensures a == b
  {
    if a == [] {
      EmptyOrPoint(b);
    } else {
      HeadIsLeast(a, b);
      HeadIsLeast(b, a);
      HeadEndsNoEarlier(a, b);
      HeadEndsNoEarlier(b, a);
      forall t
        ensures Covers(a[1..], t) <==> Covers(b[1..], t)
        ensures Links(a[1..], t) <==> Links(b[1..], t)
      {
        TailMeaning(a, t);
        TailMeaning(b, t);
      }
      CanonicalUnique(a[1..], b[1..]);
      assert a == [a[0]] + a[1..] && b == [b[0]] + b[1..];
    }
  }

  lemma EmptyOrPoint(b: seq<Interval>)
    requires Canonical(b)
    ensures b == [] || exists t :: Covers(b, t)
  {
    if b != [] {
      assert b[0].Contains(b[0].start);
      assert Covers(b, b[0].start);
    }
  }
}
