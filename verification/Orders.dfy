/** Orders and sorting shared by every other module: the byte-wise order of Rust
    strings, the stable sort of the standard library, and the fact that a strictly
    sorted sequence is determined by its elements. */
module Orders {

  datatype Option<+T> = None | Some(value: T)

  function Min(a: nat, b: nat): nat { if a <= b then a else b }

  function Max(a: nat, b: nat): nat { if a >= b then a else b }

  // ---- Sizes ----

  lemma SizeGrows<T>(a: set<T>, b: set<T>)
    requires a <= b
    ensures |a| <= |b|
    ensures |a| == |b| ==> a == b
  {
    assert b == a + (b - a);
  }

  lemma InsertSize<K, V>(m: map<K, V>, k: K, v: V)
    requires k !in m
    ensures |m[k := v]| == |m| + 1
  {
    assert m[k := v].Keys == m.Keys + {k};
    assert |m[k := v]| == |m[k := v].Keys| && |m| == |m.Keys|;
  }

  // ---- Strings, compared as Rust compares `String` ----

  predicate Below(a: string, b: string) {
    |b| > 0 && (|a| == 0 || a[0] < b[0] || (a[0] == b[0] && Below(a[1..], b[1..])))
  }

  /** At the first place where they differ the smaller string has the smaller character, or ends. */
  lemma {:induction false} BelowMeaning(a: string, b: string)
    ensures Below(a, b) <==> exists k: nat :: DiffersAt(a, b, k)
    decreases |a|
  {
    if |a| > 0 && |b| > 0 && a[0] == b[0] {
      BelowMeaning(a[1..], b[1..]);
      if k: nat :| DiffersAt(a[1..], b[1..], k) { ShiftedDiffers(a, b, k); }
      if k: nat :| DiffersAt(a, b, k) {
        assert k > 0;
        assert a[..k][1..] == a[1..][..k - 1] && b[..k][1..] == b[1..][..k - 1];
        assert DiffersAt(a[1..], b[1..], k - 1);
      }
    } else {
      assert Below(a, b) ==> DiffersAt(a, b, 0);
      if k: nat :| DiffersAt(a, b, k) { assert k > 0 ==> a[..k][0] == b[..k][0]; }
    }
  }

  predicate DiffersAt(a: string, b: string, k: nat) {
    k <= |a| && k < |b| && a[..k] == b[..k] && (k == |a| || a[k] < b[k])
  }

  lemma ShiftedDiffers(a: string, b: string, k: nat)
    requires |a| > 0 && |b| > 0 && a[0] == b[0] && DiffersAt(a[1..], b[1..], k)
    ensures DiffersAt(a, b, k + 1)
  {
    assert a[..k + 1] == [a[0]] + a[1..][..k] && b[..k + 1] == [b[0]] + b[1..][..k];
  }

  predicate AtMost(a: string, b: string) {
    a == b || Below(a, b)
  }

  lemma {:induction false} BelowTrichotomy(a: string, b: string)
    ensures Below(a, b) || a == b || Below(b, a)
    ensures !(Below(a, b) && Below(b, a))
    ensures !Below(a, a)
  {
    if a != [] {
      BelowTrichotomy(a[1..], a[1..]);
    }
    if a != [] && b != [] {
      BelowTrichotomy(a[1..], b[1..]);
      assert a == [a[0]] + a[1..] && b == [b[0]] + b[1..];
    }
  }

  lemma {:induction false} BelowTransitive(a: string, b: string, c: string)
    requires Below(a, b) && Below(b, c)
    ensures Below(a, c)
  {
    if a != [] && a[0] == b[0] == c[0] {
      BelowTransitive(a[1..], b[1..], c[1..]);
    }
  }

  lemma AtMostIsTotalOrder()
    ensures TotalPreorder(AtMost)
    ensures forall a, b :: AtMost(a, b) && AtMost(b, a) ==> a == b
  {
    forall a, b ensures AtMost(a, b) || AtMost(b, a) ensures AtMost(a, b) && AtMost(b, a) ==> a == b {
      BelowTrichotomy(a, b);
    }
    forall a, b, c | AtMost(a, b) && AtMost(b, c) ensures AtMost(a, c) {
      if a != b && b != c { BelowTransitive(a, b, c); }
    }
  }

  // ---- Stable sorting ----

  ghost predicate TotalPreorder<T(!new)>(le: (T, T) -> bool) {
    && (forall x, y :: le(x, y) || le(y, x))
    && (forall x, y, z :: le(x, y) && le(y, z) ==> le(x, z))
  }

  ghost predicate SortedBy<T>(s: seq<T>, le: (T, T) -> bool) {
    forall i, j :: 0 <= i < j < |s| ==> le(s[i], s[j])
  }

  /** Places `x` behind every element it does not have to precede. */
  function Insert<T>(s: seq<T>, x: T, le: (T, T) -> bool): (r: seq<T>)
    ensures multiset(r) == multiset(s) + multiset{x}
    ensures |r| == |s| + 1
  {
    if s == [] || le(s[|s| - 1], x) then
      s + [x]
    else
      assert s == s[..|s| - 1] + [s[|s| - 1]];
      Insert(s[..|s| - 1], x, le) + [s[|s| - 1]]
  }

  /** The stable sort of the Rust standard library (`sort_by`, `sort_by_key`). */
  function Sort<T>(s: seq<T>, le: (T, T) -> bool): (r: seq<T>)
    ensures multiset(r) == multiset(s)
    ensures |r| == |s|
  {
    if s == [] then
      []
    else
      assert s == s[..|s| - 1] + [s[|s| - 1]];
      Insert(Sort(s[..|s| - 1], le), s[|s| - 1], le)
  }

  lemma {:induction false} InsertSorted<T(!new)>(s: seq<T>, x: T, le: (T, T) -> bool)
    requires TotalPreorder(le) && SortedBy(s, le)
    ensures SortedBy(Insert(s, x, le), le)
  {
    if s == [] {
    } else if le(s[|s| - 1], x) {
    } else {
      var last := s[|s| - 1];
      var front := Insert(s[..|s| - 1], x, le);
      InsertSorted(s[..|s| - 1], x, le);
      forall i | 0 <= i < |front| ensures le(front[i], last) {
        assert front[i] in multiset(front);
        assert front[i] == x || front[i] in s[..|s| - 1];
      }
    }
  }

  lemma {:induction false} SortSorts<T(!new)>(s: seq<T>, le: (T, T) -> bool)
    requires TotalPreorder(le)
    ensures SortedBy(Sort(s, le), le)
  {
    if s != [] {
      SortSorts(s[..|s| - 1], le);
      InsertSorted(Sort(s[..|s| - 1], le), s[|s| - 1], le);
    }
  }

  lemma {:induction false} InsertBehind<T(!new)>(a: seq<T>, b: seq<T>, x: T, le: (T, T) -> bool)
    requires forall i :: 0 <= i < |a| ==> le(a[i], x)
    ensures Insert(a + b, x, le) == a + Insert(b, x, le)
    decreases |b|
  {
    if b == [] {
      assert a + b == a;
    } else if le(b[|b| - 1], x) {
      assert a + b + [x] == a + (b + [x]);
    } else {
      assert (a + b)[..|a + b| - 1] == a + b[..|b| - 1];
      InsertBehind(a, b[..|b| - 1], x, le);
    }
  }

  /** A stable sort sorts two parts separately when the first belongs entirely before the second. */
  lemma {:induction false} SortSplit<T(!new)>(a: seq<T>, b: seq<T>, le: (T, T) -> bool)
    requires forall i, j :: 0 <= i < |a| && 0 <= j < |b| ==> le(a[i], b[j])
    ensures Sort(a + b, le) == Sort(a, le) + Sort(b, le)
    decreases |b|
  {
    if b == [] {
      assert a + b == a;
    } else {
      var front, x := b[..|b| - 1], b[|b| - 1];
      assert (a + b)[..|a + b| - 1] == a + front;
      SortSplit(a, front, le);
      SortElements(a, le);
      forall i | 0 <= i < |Sort(a, le)| ensures le(Sort(a, le)[i], x) {
        assert Sort(a, le)[i] in Sort(a, le);
      }
      InsertBehind(Sort(a, le), Sort(front, le), x, le);
    }
  }

  /** The elements that `p` accepts, in order. */
  function Keep<T>(s: seq<T>, p: T -> bool): seq<T> {
    if s == [] then [] else Keep(s[..|s| - 1], p) + (if p(s[|s| - 1]) then [s[|s| - 1]] else [])
  }

  lemma KeepPush<T>(s: seq<T>, x: T, p: T -> bool)
    ensures Keep(s + [x], p) == Keep(s, p) + if p(x) then [x] else []
  {
    assert (s + [x])[..|s|] == s;
  }

  lemma {:induction false} InsertKeeps<T(!new)>(s: seq<T>, x: T, le: (T, T) -> bool, p: T -> bool)
    requires forall y, z :: p(y) && p(z) ==> le(y, z)
    ensures Keep(Insert(s, x, le), p) == Keep(s, p) + if p(x) then [x] else []
  {
    if s == [] || le(s[|s| - 1], x) {
      KeepPush(s, x, p);
    } else {
      var front, last := s[..|s| - 1], s[|s| - 1];
      InsertKeeps(front, x, le, p);
      KeepPush(Insert(front, x, le), last, p);
      if p(x) {
        assert Keep(front, p) + [x] + [] == Keep(front, p) + [] + [x];
      }
    }
  }

  /** The sort is stable: elements it does not tell apart keep their order. */
  lemma {:induction false} SortKeeps<T(!new)>(s: seq<T>, le: (T, T) -> bool, p: T -> bool)
    requires forall y, z :: p(y) && p(z) ==> le(y, z)
    ensures Keep(Sort(s, le), p) == Keep(s, p)
  {
    if s != [] {
      var front, last := s[..|s| - 1], s[|s| - 1];
      SortKeeps(front, le, p);
      InsertKeeps(Sort(front, le), last, le, p);
      KeepPush(Sort(front, le), last, p);
    }
  }

  lemma SameElements<T>(a: seq<T>, b: seq<T>)
    requires multiset(a) == multiset(b)
    ensures forall x :: x in a <==> x in b
  {
    forall x ensures x in a <==> x in b {
      assert x in a <==> x in multiset(a);
      assert x in b <==> x in multiset(b);
    }
  }

  lemma SortElements<T>(s: seq<T>, le: (T, T) -> bool)
    ensures forall x :: x in Sort(s, le) <==> x in s
  {
    SameElements(Sort(s, le), s);
  }

  /** Sorting a sorted sequence changes nothing. */
  lemma {:induction false} SortSorted<T>(s: seq<T>, le: (T, T) -> bool)
    requires SortedBy(s, le)
    ensures Sort(s, le) == s
  {
    if s != [] {
      var front := s[..|s| - 1];
      assert s == front + [s[|s| - 1]];
      SortSorted(front, le);
    }
  }

  // ---- Strictly sorted sequences ----

  ghost predicate StrictlySorted<T>(s: seq<T>, lt: (T, T) -> bool) {
    forall i, j :: 0 <= i < j < |s| ==> lt(s[i], s[j])
  }

  lemma EmptyOrInhabited<T>(s: seq<T>)
    ensures s == [] || s[0] in s
  {
  }

  /** Two strictly sorted sequences with the same elements are the same sequence. */
  lemma {:induction false} StrictlySortedUnique<T(!new)>(a: seq<T>, b: seq<T>, lt: (T, T) -> bool)
    requires forall x, y :: lt(x, y) ==> !lt(y, x)
    requires StrictlySorted(a, lt) && StrictlySorted(b, lt)
    requires forall x :: x in a <==> x in b
    ensures a == b
  {
    if a == [] {
      EmptyOrInhabited(b);
    } else {
      assert a[0] in b && b != [];
      assert b[0] in a;
      var i :| 0 <= i < |b| && b[i] == a[0];
      var j :| 0 <= j < |a| && a[j] == b[0];
      var a0, b0, aj, bi := a[0], b[0], a[j], b[i];
      assert i == 0 || lt(b0, bi);
      assert j == 0 || lt(a0, aj);
      forall x ensures x in a[1..] <==> x in b[1..] {
        TailMembership(a, x, lt);
        TailMembership(b, x, lt);
      }
      StrictlySortedUnique(a[1..], b[1..], lt);
      assert a == [a[0]] + a[1..] && b == [b[0]] + b[1..];
    }
  }

  lemma TailMembership<T(!new)>(a: seq<T>, x: T, lt: (T, T) -> bool)
    requires a != [] && StrictlySorted(a, lt)
    requires forall x, y :: lt(x, y) ==> !lt(y, x)
    ensures x in a[1..] <==> x in a && x != a[0]
  {
    if x in a[1..] {
      var k :| 0 <= k < |a[1..]| && a[1..][k] == x;
      assert lt(a[0], a[k + 1]);
    }
    if x in a && x != a[0] {
      var k :| 0 <= k < |a| && a[k] == x;
      assert a[1..][k - 1] == x;
    }
  }

  // ---- Distinctness ----

  ghost predicate Distinct<T>(s: seq<T>) {
    forall i, j :: 0 <= i < j < |s| ==> s[i] != s[j]
  }

  lemma {:induction false} DistinctMultiset<T>(s: seq<T>)
    requires Distinct(s)
    ensures forall x :: multiset(s)[x] <= 1
  {
    if s != [] {
      var t := s[..|s| - 1];
      DistinctMultiset(t);
      assert s == t + [s[|s| - 1]];
      assert s[|s| - 1] !in t;
    }
  }

  lemma TwoOccurrences<T>(s: seq<T>, i: nat, j: nat)
    requires i < j < |s|
    ensures multiset{s[i], s[j]} <= multiset(s)
  {
    assert s == s[..j] + s[j..];
    assert s[i] == s[..j][i] && s[i] in multiset(s[..j]);
    assert s[j] == s[j..][0] && s[j] in multiset(s[j..]);
    assert multiset(s) == multiset(s[..j]) + multiset(s[j..]);
  }

  lemma MultisetDistinct<T>(s: seq<T>)
    requires forall x :: multiset(s)[x] <= 1
    ensures Distinct(s)
  {
    forall i, j | 0 <= i < j < |s| ensures s[i] != s[j] {
      TwoOccurrences(s, i, j);
    }
  }

  /** A sort of distinct elements under a total order is strictly sorted. */
  lemma SortDistinct<T(!new)>(s: seq<T>, le: (T, T) -> bool)
    requires TotalPreorder(le) && Distinct(s)
    ensures Distinct(Sort(s, le)) && SortedBy(Sort(s, le), le)
  {
    SortSorts(s, le);
    DistinctMultiset(s);
    MultisetDistinct(Sort(s, le));
  }

  // ---- Rearranging ----

  function Map<T, U>(s: seq<T>, f: T -> U): (r: seq<U>)
    ensures |r| == |s| && forall i :: 0 <= i < |s| ==> r[i] == f(s[i])
  {
    seq(|s|, i requires 0 <= i < |s| => f(s[i]))
  }

  lemma MapConcat<T, U>(a: seq<T>, b: seq<T>, f: T -> U)
    ensures Map(a + b, f) == Map(a, f) + Map(b, f)
  {
  }

  function Without<T>(s: seq<T>, i: nat): seq<T>
    requires i < |s|
  {
    s[..i] + s[i + 1..]
  }

  lemma WithoutCounts<T>(s: seq<T>, i: nat)
    requires i < |s|
    ensures multiset(s) == multiset(Without(s, i)) + multiset{s[i]}
  {
    assert s == s[..i] + [s[i]] + s[i + 1..];
  }

  lemma Cancel<T>(a: multiset<T>, b: multiset<T>, x: T)
    requires a + multiset{x} == b + multiset{x}
    ensures a == b
  {
    assert a == a + multiset{x} - multiset{x} && b == b + multiset{x} - multiset{x};
  }

  lemma MapWithout<T, U>(s: seq<T>, f: T -> U, i: nat)
    requires i < |s|
    ensures multiset(Map(s, f)) == multiset(Map(Without(s, i), f)) + multiset{f(s[i])}
  {
    assert Map(Without(s, i), f) == Without(Map(s, f), i);
    WithoutCounts(Map(s, f), i);
  }

  /** Mapping respects rearrangement. */
  lemma {:induction false} MapMultiset<T, U>(a: seq<T>, b: seq<T>, f: T -> U)
    requires multiset(a) == multiset(b)
    ensures multiset(Map(a, f)) == multiset(Map(b, f))
    decreases |a|
  {
    if a == [] {
      assert |multiset(b)| == |b|;
    } else {
      var last := |a| - 1;
      var i := SameElementAt(a, b, last);
      WithoutCounts(a, last);
      WithoutCounts(b, i);
      Cancel(multiset(Without(a, last)), multiset(Without(b, i)), a[last]);
      MapMultiset(Without(a, last), Without(b, i), f);
      MapWithout(a, f, last);
      MapWithout(b, f, i);
    }
  }

  lemma SameElementAt<T>(a: seq<T>, b: seq<T>, k: nat) returns (i: nat)
    requires multiset(a) == multiset(b) && k < |a|
    ensures i < |b| && b[i] == a[k]
  {
    SameElements(a, b);
    assert a[k] in b;
    i :| 0 <= i < |b| && b[i] == a[k];
  }

  lemma {:induction false} DistinctSet<T>(s: seq<T>, x: set<T>)
    requires Distinct(s) && |s| == |x| && forall e :: e in s <==> e in x
    ensures multiset(s) == multiset(x)
  {
    DistinctMultiset(s);
    forall e ensures multiset(s)[e] == multiset(x)[e] {
      assert e in s <==> e in multiset(s);
    }
  }

  // ---- Sets in ascending order, as a BTreeSet is iterated ----

  predicate LowerBound<T(==)>(x: T, s: set<T>, le: (T, T) -> bool) {
    forall y :: y in s ==> le(x, y)
  }

  lemma LowerBoundExtends<T(!new)>(least: T, m: T, rest: set<T>, x: T, s: set<T>, le: (T, T) -> bool)
    requires TotalPreorder(le) && LowerBound(m, rest, le) && s <= rest + {x}
    requires le(least, m) && le(least, x)
    ensures LowerBound(least, s, le)
  {
    forall y | y in s ensures le(least, y) {
      assert y == x || le(m, y);
    }
  }

  lemma {:induction false} LeastExists<T(!new)>(s: set<T>, le: (T, T) -> bool) returns (least: T)
    requires s != {} && TotalPreorder(le)
    ensures least in s && LowerBound(least, s, le)
  {
    var x :| x in s;
    var m := x;
    if s - {x} != {} { m := LeastExists(s - {x}, le); }
    assert le(x, x) && le(m, m);
    least := if le(x, m) then x else m;
    LowerBoundExtends(least, m, s - {x}, x, s, le);
  }

  lemma LeastString(s: set<string>)
    requires s != {}
    ensures exists x :: x in s && LowerBound(x, s, AtMost)
    ensures forall x, y :: x in s && y in s && LowerBound(x, s, AtMost) && LowerBound(y, s, AtMost) ==> x == y
  {
    AtMostIsTotalOrder();
    var least := LeastExists(s, AtMost);
  }

  function Least(s: set<string>): (x: string)
    requires s != {}
    ensures x in s && forall y :: y in s ==> AtMost(x, y)
  {
    LeastString(s);
    var x :| x in s && LowerBound(x, s, AtMost);
    x
  }

  function Ascending(s: set<string>): (r: seq<string>)
    ensures |r| == |s|
    ensures forall x :: x in r <==> x in s
  {
    if s == {} then [] else
      var x := Least(s);
      var rest := Ascending(s - {x});
      assert forall y :: y in [x] + rest <==> y == x || y in rest;
      [x] + rest
  }

  lemma {:induction false} AscendingStrict(s: set<string>)
    ensures StrictlySorted(Ascending(s), Below)
  {
    if s != {} {
      AscendingStrict(s - {Least(s)});
      LeastBelow(s, Ascending(s - {Least(s)}));
      PrependStrict(Least(s), Ascending(s - {Least(s)}), Below);
    }
  }

  lemma AscendingDistinct(s: set<string>)
    ensures Distinct(Ascending(s))
  {
    AscendingStrict(s);
    var r := Ascending(s);
    forall i, j | 0 <= i < j < |r| ensures r[i] != r[j] {
      assert Below(r[i], r[j]);
      BelowTrichotomy(r[i], r[j]);
    }
  }

  lemma PrependStrict<T>(x: T, rest: seq<T>, lt: (T, T) -> bool)
    requires StrictlySorted(rest, lt) && forall j :: 0 <= j < |rest| ==> lt(x, rest[j])
    ensures StrictlySorted([x] + rest, lt)
  {
  }

  lemma LeastBelow(s: set<string>, rest: seq<string>)
    requires s != {} && forall x :: x in rest <==> x in s - {Least(s)}
    ensures forall j :: 0 <= j < |rest| ==> Below(Least(s), rest[j])
  {
    forall j | 0 <= j < |rest| ensures Below(Least(s), rest[j]) {
      assert rest[j] in rest;
      assert AtMost(Least(s), rest[j]);
    }
  }
}
