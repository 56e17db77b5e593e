/** UTF-8 text as bytes: scalars, and the character boundaries slices must respect.
    `Valid` asks for the lead/continuation structure only, so everything proved for it
    holds for every Rust `str`. */
module Utf8 {
  import opened Orders

  newtype Byte = x: int | 0 <= x < 256

  type Text = seq<Byte>

  predicate Continuation(b: Byte) { 0x80 <= b < 0xC0 }

  /** Bytes of the scalar a lead byte opens; 0 for a byte that cannot lead. */
  function Width(lead: Byte): nat {
    if lead < 0x80 then 1
    else if lead < 0xC0 then 0
    else if lead < 0xE0 then 2
    else if lead < 0xF0 then 3
    else if lead < 0xF8 then 4
    else 0
  }

  /** `is_char_boundary`. */
  predicate Boundary(s: Text, i: nat) {
    i == 0 || i == |s| || (i < |s| && !Continuation(s[i]))
  }

  /** A character may start or end at `i`. */
  predicate Edge(s: Text, i: nat) { i <= |s| && (i == 0 || i == |s| || s[i] < 128 || s[i] >= 192) }

  lemma EdgeIsBoundary(s: Text, i: nat)
    requires i <= |s|
    ensures Edge(s, i) <==> Boundary(s, i)
  {
  }

  /** `str::get(start..end)`. */
  function Slice(s: Text, start: nat, end: nat): Option<Text> {
    if start <= end <= |s| && Boundary(s, start) && Boundary(s, end) then Some(s[start..end]) else None
  }

  /** Byte `k` is inside a scalar. */
  predicate Inner(s: Text, k: nat) { k < |s| && Continuation(s[k]) }

  /** A whole scalar starts at `i`. */
  predicate ScalarAt(s: Text, i: nat) {
    && i < |s| && Width(s[i]) > 0 && i + Width(s[i]) <= |s|
    && forall k {:trigger Inner(s, k)} :: i < k < i + Width(s[i]) ==> Inner(s, k)
  }

  /** From `i` on, the text is a run of whole scalars. */
  ghost predicate ValidFrom(s: Text, i: nat)
    decreases |s| - i
  {
    i == |s| || (ScalarAt(s, i) && ValidFrom(s, i + Width(s[i])))
  }

  ghost predicate Valid(s: Text) { ValidFrom(s, 0) }

  /** Validity passes to every later boundary. */
  lemma {:induction false} ValidOnwards(s: Text, i: nat, j: nat)
    requires ValidFrom(s, i) && i <= j <= |s| && Boundary(s, j)
    ensures ValidFrom(s, j)
    decreases |s| - i
  {
    if i < j {
      assert Inner(s, j) || j >= i + Width(s[i]);
      ValidOnwards(s, i + Width(s[i]), j);
    }
  }

  /** The scalar at a boundary ends at the next boundary. */
  lemma ScalarAtBoundary(s: Text, i: nat)
    requires Valid(s) && i < |s| && Boundary(s, i)
    ensures ScalarAt(s, i) && Boundary(s, i + Width(s[i]))
    ensures forall k :: i < k < i + Width(s[i]) ==> !Boundary(s, k)
  {
    ValidOnwards(s, 0, i);
    forall k | i < k < i + Width(s[i]) ensures !Boundary(s, k) {
      assert Inner(s, k);
    }
  }

  lemma {:induction false} SuffixFrom(s: Text, i: nat, j: nat)
    requires i <= |s| && j <= |s| - i && ValidFrom(s, i + j)
    ensures ValidFrom(s[i..], j)
    decreases |s| - i - j
  {
    if i + j < |s| {
      var w := Width(s[i + j]);
      assert s[i..][j] == s[i + j];
      forall k | j < k < j + w ensures Inner(s[i..], k) { assert Inner(s, i + k); }
      SuffixFrom(s, i, j + w);
    }
  }

  /** From a boundary on, the rest of valid text is valid text. */
  lemma SuffixValid(s: Text, i: nat)
    requires Valid(s) && i <= |s| && Boundary(s, i)
    ensures Valid(s[i..])
  {
    ValidOnwards(s, 0, i);
    SuffixFrom(s, i, 0);
  }

  lemma {:induction false} PrefixFrom(s: Text, i: nat, j: nat)
    requires ValidFrom(s, j) && j <= i <= |s| && Boundary(s, i)
    ensures ValidFrom(s[..i], j)
    decreases |s| - j
  {
    if j < i {
      var w := Width(s[j]);
      assert Inner(s, i) || i >= j + w;
      forall k | j < k < j + w ensures Inner(s[..i], k) { assert Inner(s, k); }
      PrefixFrom(s, i, j + w);
    }
  }

  lemma PrefixValid(s: Text, i: nat)
    requires Valid(s) && i <= |s| && Boundary(s, i)
    ensures Valid(s[..i])
  {
    PrefixFrom(s, i, 0);
  }

  lemma SliceValid(s: Text, i: nat, j: nat)
    requires Valid(s) && i <= j <= |s| && Boundary(s, i) && Boundary(s, j)
    ensures Valid(s[i..j])
  {
    PrefixValid(s, j);
    SuffixValid(s[..j], i);
    assert s[..j][i..] == s[i..j];
  }

  /** Boundaries of a slice are boundaries of the whole. */
  lemma SliceBoundary(s: Text, i: nat, j: nat, k: nat)
    requires i <= j <= |s| && Boundary(s, i) && Boundary(s, j) && k <= j - i
    ensures Boundary(s[i..j], k) <==> Boundary(s, i + k)
    ensures k < j - i ==> Width(s[i..j][k]) == Width(s[i + k])
  {
    if 0 < k < j - i { assert s[i..j][k] == s[i + k]; }
  }

  lemma {:induction false} ConcatSecond(a: Text, b: Text, j: nat)
    requires ValidFrom(b, j) && j <= |b|
    ensures ValidFrom(a + b, |a| + j)
    decreases |b| - j
  {
    if j < |b| {
      var w := Width(b[j]);
      assert (a + b)[|a| + j] == b[j];
      forall k | |a| + j < k < |a| + j + w ensures Inner(a + b, k) { assert Inner(b, k - |a|); }
      ConcatSecond(a, b, j + w);
    }
  }

  lemma {:induction false} ConcatFirst(a: Text, b: Text, j: nat)
    requires ValidFrom(a, j) && Valid(b) && j <= |a|
    ensures ValidFrom(a + b, j)
    decreases |a| - j
  {
    if j == |a| {
      ConcatSecond(a, b, 0);
    } else {
      var w := Width(a[j]);
      assert (a + b)[j] == a[j];
      forall k | j < k < j + w ensures Inner(a + b, k) { assert Inner(a, k); }
      ConcatFirst(a, b, j + w);
    }
  }

  lemma ConcatValid(a: Text, b: Text)
    requires Valid(a) && Valid(b)
    ensures Valid(a + b)
  {
    ConcatFirst(a, b, 0);
  }

  /** The seam of two valid texts is a boundary. */
  lemma SeamBoundary(a: Text, b: Text)
    requires Valid(b)
    ensures Boundary(a + b, |a|)
  {
    if b != [] { assert (a + b)[|a|] == b[0] && ScalarAt(b, 0); }
  }

  /** After an ASCII byte there is always a boundary. */
  lemma AfterAscii(s: Text, i: nat)
    requires Valid(s) && i < |s| && s[i] < 0x80
    ensures Boundary(s, i) && Boundary(s, i + 1)
  {
    ScalarAtBoundary(s, i);
  }

  function Ascii(s: string): (r: Text)
    requires forall i :: 0 <= i < |s| ==> s[i] < '\U{80}'
    ensures |r| == |s| && forall i :: 0 <= i < |r| ==> r[i] < 0x80
  {
    seq(|s|, i requires 0 <= i < |s| => s[i] as int as Byte)
  }

  lemma {:induction false} AsciiFrom(s: Text, i: nat)
    requires i <= |s| && forall k :: i <= k < |s| ==> s[k] < 0x80
    ensures ValidFrom(s, i)
    decreases |s| - i
  {
    if i < |s| { AsciiFrom(s, i + 1); }
  }

  lemma AsciiValid(s: Text)
    requires forall i :: 0 <= i < |s| ==> s[i] < 0x80
    ensures Valid(s)
  {
    AsciiFrom(s, 0);
  }
}
