/** Recall over gold source spans: how many required bytes the selected ranges recover. */
module EvalRecall {
  import opened Orders

  datatype Span = Span(source: string, start: nat, end: nat)

  // ---- What the counts mean ----

  predicate Holds(s: Span, p: nat) { s.start <= p < s.end }

  /** Some selected range of the gold span's source contains byte `p`. */
  ghost predicate Recovers(selected: seq<Span>, source: string, p: nat) {
    exists i :: 0 <= i < |selected| && selected[i].source == source && Holds(selected[i], p)
  }

  ghost function RecoveredBytes(g: Span, selected: seq<Span>): set<nat> {
    set p: nat | g.start <= p < g.end && Recovers(selected, g.source, p)
  }

  function Length(g: Span): nat { if g.end <= g.start then 0 else g.end - g.start }

  function Required(gold: seq<Span>): nat {
    if gold == [] then 0 else Required(gold[..|gold| - 1]) + Length(gold[|gold| - 1])
  }

  ghost function Recovered(gold: seq<Span>, selected: seq<Span>): nat {
    if gold == [] then 0 else Recovered(gold[..|gold| - 1], selected) + |RecoveredBytes(gold[|gold| - 1], selected)|
  }

  function Fraction(recovered: nat, required: nat): real {
    if required == 0 then 0.0 else recovered as real / required as real
  }

  // ---- Counting ----

  predicate Between(lo: nat, p: nat, hi: nat) { lo <= p < hi }

  ghost function Bytes(lo: nat, hi: nat): set<nat> {
    set p: nat | p < hi && Between(lo, p, hi)
  }

  lemma {:induction false} BytesSize(lo: nat, hi: nat)
    requires lo <= hi
    ensures |Bytes(lo, hi)| == hi - lo
    decreases hi - lo
  {
    if lo < hi {
      BytesSize(lo + 1, hi);
      assert Bytes(lo, hi) == Bytes(lo + 1, hi) + {lo};
    } else {
      assert Bytes(lo, hi) == {};
    }
  }

  lemma DisjointSize(a: set<nat>, b: set<nat>)
    requires a !! b
    ensures |a + b| == |a| + |b|
  {
  }

  // ---- The sweep over one gold span ----

  datatype Range = Range(from: nat, to: nat)

  predicate RangeOrder(a: Range, b: Range) { a.from < b.from || (a.from == b.from && a.to <= b.to) }

  /** The selected ranges of the source, cut to the gold span, empty ones dropped. */
  function Cut(g: Span, selected: seq<Span>): seq<Range> {
    if selected == [] then [] else
      var s := selected[|selected| - 1];
      var r := Range(Max(s.start, g.start), Min(s.end, g.end));
      Cut(g, selected[..|selected| - 1]) + (if s.source == g.source && r.from < r.to then [r] else [])
  }

  ghost predicate InRange(rs: seq<Range>, p: nat) {
    exists i :: 0 <= i < |rs| && rs[i].from <= p < rs[i].to
  }

  ghost function Union(rs: seq<Range>, lo: nat, hi: nat): set<nat> {
    set p: nat | lo <= p < hi && InRange(rs, p)
  }

  ghost predicate Inside(rs: seq<Range>, lo: nat, hi: nat) {
    forall i :: 0 <= i < |rs| ==> lo <= rs[i].from < rs[i].to <= hi
  }

  lemma {:induction false} CutMeaning(g: Span, selected: seq<Span>)
    ensures Inside(Cut(g, selected), g.start, g.end)
    ensures forall p: nat :: InRange(Cut(g, selected), p) <==> Holds(g, p) && Recovers(selected, g.source, p)
  {
    if selected != [] {
      var front, s := selected[..|selected| - 1], selected[|selected| - 1];
      CutMeaning(g, front);
      forall p: nat ensures InRange(Cut(g, selected), p) <==> Holds(g, p) && Recovers(selected, g.source, p) {
        CutStep(g, front, s, p);
        assert selected == front + [s];
      }
    }
  }

  lemma RecoversPush(front: seq<Span>, s: Span, source: string, p: nat)
    ensures Recovers(front + [s], source, p) <==> Recovers(front, source, p) || (s.source == source && Holds(s, p))
  {
    var all := front + [s];
    assert all[|front|] == s;
    assert forall i :: 0 <= i < |front| ==> all[i] == front[i];
  }

  lemma InRangePush(front: seq<Range>, r: Range, p: nat)
    ensures InRange(front + [r], p) <==> InRange(front, p) || r.from <= p < r.to
  {
    var all := front + [r];
    assert all[|front|] == r;
    assert forall i :: 0 <= i < |front| ==> all[i] == front[i];
  }

  lemma CutStep(g: Span, front: seq<Span>, s: Span, p: nat)
    requires InRange(Cut(g, front), p) <==> Holds(g, p) && Recovers(front, g.source, p)
    ensures InRange(Cut(g, front + [s]), p) <==> Holds(g, p) && Recovers(front + [s], g.source, p)
  {
    assert (front + [s])[..|front|] == front;
    RecoversPush(front, s, g.source, p);
    InRangePush(Cut(g, front), Range(Max(s.start, g.start), Min(s.end, g.end)), p);
    assert Cut(g, front) + [] == Cut(g, front);
  }

  /** The state of the sweep: bytes counted so far, and the furthest end reached. Everything
      between the next range's start and that end is already counted. */
  ghost predicate SweptTo(rs: seq<Range>, i: nat, lo: nat, hi: nat, end: nat, count: nat)
    requires i <= |rs|
  {
    && lo <= end <= Max(lo, hi) && count == |Union(rs[..i], lo, hi)|
    && (forall k :: 0 <= k < i ==> rs[k].to <= end)
    && (end > lo ==> exists k :: 0 <= k < i && rs[k].to == end)
  }

  lemma SweepNext(rs: seq<Range>, i: nat, lo: nat, hi: nat, end: nat, count: nat)
    requires i < |rs| && SortedBy(rs, RangeOrder) && Inside(rs, lo, hi) && SweptTo(rs, i, lo, hi, end, count)
    ensures Max(rs[i].from, end) <= Max(rs[i].to, end)
    ensures rs[i].to > end ==> SweptTo(rs, i + 1, lo, hi, rs[i].to, count + (rs[i].to - Max(rs[i].from, end)))
    ensures rs[i].to <= end ==> SweptTo(rs, i + 1, lo, hi, end, count)
  {
    var to, start := rs[i].to, Max(rs[i].from, end);
    UnionNext(rs, i, lo, hi, end);
    AddedSize(Union(rs[..i], lo, hi), Union(rs[..i + 1], lo, hi), start, to);
    assert start <= Max(to, end);
  }

  lemma AddedSize(before: set<nat>, after: set<nat>, start: nat, to: nat)
    requires after == before + Bytes(start, to) && before !! Bytes(start, to)
    ensures |after| == |before| + if start <= to then to - start else 0
  {
    DisjointSize(before, Bytes(start, to));
    if start <= to { BytesSize(start, to); } else { assert Bytes(start, to) == {}; }
  }

  /** The next range adds exactly the bytes past the furthest end. */
  lemma UnionNext(rs: seq<Range>, i: nat, lo: nat, hi: nat, end: nat)
    requires i < |rs| && SortedBy(rs, RangeOrder) && Inside(rs, lo, hi) && lo <= end
    requires (forall k :: 0 <= k < i ==> rs[k].to <= end) && (end > lo ==> exists k :: 0 <= k < i && rs[k].to == end)
    ensures Union(rs[..i + 1], lo, hi) == Union(rs[..i], lo, hi) + Bytes(Max(rs[i].from, end), rs[i].to)
    ensures Union(rs[..i], lo, hi) !! Bytes(Max(rs[i].from, end), rs[i].to)
  {
    var r, start := rs[i], Max(rs[i].from, end);
    var before, after, added := Union(rs[..i], lo, hi), Union(rs[..i + 1], lo, hi), Bytes(start, r.to);
    assert rs[..i + 1] == rs[..i] + [r];
    forall p: nat ensures p in after <==> p in before || p in added {
      InRangePush(rs[..i], r, p);
      if r.from <= p < r.to && p < end { CountedAlready(rs, i, lo, end, p); }
    }
    forall p | p in before ensures p !in added {
      var k :| 0 <= k < i && rs[..i][k].from <= p < rs[..i][k].to;
      assert rs[k].to <= end;
    }
  }

  lemma CountedAlready(rs: seq<Range>, i: nat, lo: nat, end: nat, p: nat)
    requires i < |rs| && SortedBy(rs, RangeOrder) && rs[i].from <= p < end && lo <= p
    requires end > lo ==> exists k :: 0 <= k < i && rs[k].to == end
    ensures InRange(rs[..i], p)
  {
    var k :| 0 <= k < i && rs[k].to == end;
    assert RangeOrder(rs[k], rs[i]);
    assert rs[..i][k] == rs[k];
  }

  method SweepSpan(g: Span, selected: seq<Span>) returns (count: nat)
    ensures count == |RecoveredBytes(g, selected)|
  {
    var ranges := SortedCuts(g, selected);
    var end := g.start;
    count := 0;
    for i := 0 to |ranges|
      invariant SweptTo(ranges, i, g.start, g.end, end, count)
    {
      SweepNext(ranges, i, g.start, g.end, end, count);
      if ranges[i].to > end {
        count := count + (ranges[i].to - Max(ranges[i].from, end));
        end := ranges[i].to;
      }
    }
    assert ranges[..|ranges|] == ranges;
    UnionRecovers(g, selected, ranges);
  }

  lemma UnionRecovers(g: Span, selected: seq<Span>, ranges: seq<Range>)
    requires forall p: nat :: InRange(ranges, p) <==> Holds(g, p) && Recovers(selected, g.source, p)
    ensures Union(ranges, g.start, g.end) == RecoveredBytes(g, selected)
  {
  }

  method SortedCuts(g: Span, selected: seq<Span>) returns (ranges: seq<Range>)
    ensures SortedBy(ranges, RangeOrder) && Inside(ranges, g.start, g.end)
    ensures forall p: nat :: InRange(ranges, p) <==> Holds(g, p) && Recovers(selected, g.source, p)
  {
    var cuts := Cut(g, selected);
    ranges := Sort(cuts, RangeOrder);
    CutMeaning(g, selected);
    SortSorts(cuts, RangeOrder);
    SortElements(cuts, RangeOrder);
    SameRanges(cuts, ranges, g.start, g.end);
  }

  lemma SameRanges(a: seq<Range>, b: seq<Range>, lo: nat, hi: nat)
    requires (forall x :: x in a <==> x in b) && Inside(a, lo, hi)
    ensures Inside(b, lo, hi) && forall p: nat :: InRange(a, p) <==> InRange(b, p)
  {
    forall i | 0 <= i < |b| ensures lo <= b[i].from < b[i].to <= hi { assert b[i] in a; }
    forall p: nat ensures InRange(a, p) <==> InRange(b, p) {
      if InRange(a, p) {
        var i :| 0 <= i < |a| && a[i].from <= p < a[i].to;
        assert a[i] in b;
      }
      if InRange(b, p) {
        var i :| 0 <= i < |b| && b[i].from <= p < b[i].to;
        assert b[i] in a;
      }
    }
  }

  /** The fraction of required bytes that lie in some selected range of their source,
      however the ranges overlap. */
  method SupportFraction(gold: seq<Span>, selected: seq<Span>) returns (fraction: real)
    ensures fraction == Fraction(Recovered(gold, selected), Required(gold))
  {
    var required: nat, recovered: nat := 0, 0;
    for i := 0 to |gold|
      invariant required == Required(gold[..i]) && recovered == Recovered(gold[..i], selected)
    {
      assert gold[..i + 1][..i] == gold[..i];
      var g := gold[i];
      if g.end <= g.start {
        assert RecoveredBytes(g, selected) == {};
        continue;
      }
      required := required + (g.end - g.start);
      var count := SweepSpan(g, selected);
      recovered := recovered + count;
    }
    assert gold[..|gold|] == gold;
    fraction := if required == 0 then 0.0 else recovered as real / required as real;
  }

  // ---- Bounds and monotonicity ----

  lemma SpanBounds(g: Span, selected: seq<Span>, more: Span)
    ensures |RecoveredBytes(g, selected)| <= |RecoveredBytes(g, selected + [more])| <= Length(g)
  {
    var a, b := RecoveredBytes(g, selected), RecoveredBytes(g, selected + [more]);
    forall p | p in a ensures p in b { RecoversPush(selected, more, g.source, p); }
    SizeGrows(a, b);
    if g.start <= g.end {
      BytesSize(g.start, g.end);
      SizeGrows(b, Bytes(g.start, g.end));
    } else {
      assert b == {};
    }
  }

  /** Recovered never exceeds required, and one more selected range never lowers it. */
  lemma {:induction false} RecoveredBounds(gold: seq<Span>, selected: seq<Span>, more: Span)
    ensures Recovered(gold, selected) <= Recovered(gold, selected + [more]) <= Required(gold)
  {
    if gold != [] {
      RecoveredBounds(gold[..|gold| - 1], selected, more);
      SpanBounds(gold[|gold| - 1], selected, more);
    }
  }

  lemma FractionMonotone(a: nat, b: nat, required: nat)
    requires a <= b <= required
    ensures 0.0 <= Fraction(a, required) <= Fraction(b, required) <= 1.0
  {
  }

  /** The reported fraction lies between 0 and 1 and is monotone in the selection. */
  lemma FractionBounds(gold: seq<Span>, selected: seq<Span>, more: Span)
    ensures 0.0 <= Fraction(Recovered(gold, selected), Required(gold))
      <= Fraction(Recovered(gold, selected + [more]), Required(gold)) <= 1.0
  {
    RecoveredBounds(gold, selected, more);
    FractionMonotone(Recovered(gold, selected), Recovered(gold, selected + [more]), Required(gold));
  }

  // ---- What is counted ----

  /** One span: required are its bytes, recovered those of them that some selected range of the
      same source holds. */
  lemma SpanCounts(g: Span, selected: seq<Span>)
    ensures Required([g]) == |Bytes(g.start, g.end)|
    ensures Recovered([g], selected) == |set p: nat | p < g.end && g.start <= p && RecoveredByte(selected, g.source, p)|
  {
    assert [g][..0] == [];
    assert Required([g]) == Length(g) && Recovered([g], selected) == |RecoveredBytes(g, selected)|;
    if g.start <= g.end {
      BytesSize(g.start, g.end);
    } else {
      assert Bytes(g.start, g.end) == {};
    }
    assert RecoveredBytes(g, selected) == set p: nat | p < g.end && g.start <= p && RecoveredByte(selected, g.source, p);
  }

  predicate RecoveredByte(selected: seq<Span>, source: string, p: nat) {
    exists i :: 0 <= i < |selected| && selected[i].source == source && selected[i].start <= p && p < selected[i].end
  }

  /** Several spans: both counts add up, a byte in two gold spans counting twice. */
  lemma {:induction false} CountsAdd(a: seq<Span>, b: seq<Span>, selected: seq<Span>)
    ensures Required(a + b) == Required(a) + Required(b) && Recovered(a + b, selected) == Recovered(a, selected) + Recovered(b, selected)
    decreases |b|
  {
    if b == [] {
      assert a + b == a;
    } else {
      assert (a + b)[..|a + b| - 1] == a + b[..|b| - 1];
      CountsAdd(a, b[..|b| - 1], selected);
    }
  }

  /** The fraction is what is recovered over what is required; with nothing required it is zero. */
  lemma FractionExactly(recovered: nat, required: nat)
    ensures required > 0 ==> Fraction(recovered, required) * required as real == recovered as real
    ensures required == 0 ==> Fraction(recovered, required) == 0.0
  {
    if required > 0 { Times(recovered as real, required as real); }
  }

  lemma Times(a: real, b: real)
    requires b != 0.0
    ensures a / b * b == a
  {
  }

  /** Every byte of the gold span is recovered. */
  ghost predicate AllRecovered(g: Span, selected: seq<Span>) {
    forall p: nat {:trigger RecoveredByte(selected, g.source, p)} :: g.start <= p < g.end ==> RecoveredByte(selected, g.source, p)
  }

  lemma SpanRecovered(g: Span, selected: seq<Span>)
    ensures |RecoveredBytes(g, selected)| == Length(g) <==> AllRecovered(g, selected)
  {
    var bytes := RecoveredBytes(g, selected);
    if g.start < g.end {
      BytesSize(g.start, g.end);
      var all := Bytes(g.start, g.end);
      assert bytes <= all;
      if |bytes| == |all| {
        SizeGrows(bytes, all);
        forall p: nat | g.start <= p < g.end ensures RecoveredByte(selected, g.source, p) { assert p in all; }
      }
      if AllRecovered(g, selected) {
        forall p | p in all ensures p in bytes { assert RecoveredByte(selected, g.source, p); }
        assert bytes == all;
      }
    } else {
      assert bytes == {};
    }
  }

  /** Recall is complete exactly when every byte of every gold span is recovered. */
  lemma {:induction false} FullRecall(gold: seq<Span>, selected: seq<Span>)
    ensures Recovered(gold, selected) == Required(gold) <==> forall i :: 0 <= i < |gold| ==> AllRecovered(gold[i], selected)
  {
    if gold != [] {
      var front, g := gold[..|gold| - 1], gold[|gold| - 1];
      FullRecall(front, selected);
      RecoveredBounds(front, selected, g);
      SpanBounds(g, selected, g);
      SpanRecovered(g, selected);
      assert forall i :: 0 <= i < |front| ==> front[i] == gold[i];
      assert gold[|gold| - 1] == g;
    }
  }
}
