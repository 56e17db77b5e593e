/** Bounded pools fed page by page, and the greedy choice of complete groups. */
module Selection {
  import opened Orders

  // ---- A bounded pool ----

  function Take<T>(s: seq<T>, k: nat): seq<T> { if |s| <= k then s else s[..k] }

  /** The best `k` rows, best first; ties keep arrival order. */
  function TopK<T>(rows: seq<T>, le: (T, T) -> bool, k: nat): seq<T> { Take(Sort(rows, le), k) }

  /** Later rows inserted one by one into a sorted list. */
  function InsertAll<T>(s: seq<T>, rows: seq<T>, le: (T, T) -> bool): seq<T> {
    if rows == [] then s else Insert(InsertAll(s, rows[..|rows| - 1], le), rows[|rows| - 1], le)
  }

  lemma {:induction false} SortConcat<T>(a: seq<T>, b: seq<T>, le: (T, T) -> bool)
    ensures Sort(a + b, le) == InsertAll(Sort(a, le), b, le)
    decreases |b|
  {
    if b == [] {
      assert a + b == a;
    } else {
      assert (a + b)[..|a + b| - 1] == a + b[..|b| - 1];
      SortConcat(a, b[..|b| - 1], le);
    }
  }

  lemma {:induction false} InsertAllSorted<T(!new)>(s: seq<T>, rows: seq<T>, le: (T, T) -> bool)
    requires TotalPreorder(le) && SortedBy(s, le)
    ensures SortedBy(InsertAll(s, rows, le), le)
  {
    if rows != [] {
      InsertAllSorted(s, rows[..|rows| - 1], le);
      InsertSorted(InsertAll(s, rows[..|rows| - 1], le), rows[|rows| - 1], le);
    }
  }

  lemma InsertLast<T>(s: seq<T>, x: T, le: (T, T) -> bool)
    requires s == [] || le(s[|s| - 1], x)
    ensures Insert(s, x, le) == s + [x]
  {
  }

  /** What a truncated list forgets cannot come back into its first `k`. */
  lemma {:induction false} TruncatedInsert<T(!new)>(s: seq<T>, x: T, le: (T, T) -> bool, k: nat)
    requires TotalPreorder(le) && SortedBy(s, le)
    ensures Take(Insert(s, x, le), k) == Take(Insert(Take(s, k), x, le), k)
  {
    if |s| > k {
      var front, last := s[..|s| - 1], s[|s| - 1];
      if le(last, x) {
        InsertLast(s, x, le);
        assert k > 0 ==> le(s[k - 1], last) || k == |s|;
        InsertLast(Take(s, k), x, le);
      } else {
        assert Take(front, k) == Take(s, k);
        TruncatedInsert(front, x, le, k);
      }
    }
  }

  lemma {:induction false} TruncatedInsertAll<T(!new)>(s: seq<T>, rows: seq<T>, le: (T, T) -> bool, k: nat)
    requires TotalPreorder(le) && SortedBy(s, le)
    ensures Take(InsertAll(Take(s, k), rows, le), k) == Take(InsertAll(s, rows, le), k)
  {
    if rows != [] {
      var front, x := rows[..|rows| - 1], rows[|rows| - 1];
      TruncatedInsertAll(s, front, le, k);
      InsertAllSorted(s, front, le);
      InsertAllSorted(Take(s, k), front, le);
      TruncatedInsert(InsertAll(s, front, le), x, le, k);
      TruncatedInsert(InsertAll(Take(s, k), front, le), x, le, k);
    }
  }

  /** One more page: keeping only the best `k` so far loses nothing. */
  lemma PageByPage<T(!new)>(a: seq<T>, b: seq<T>, le: (T, T) -> bool, k: nat)
    requires TotalPreorder(le)
    ensures TopK(TopK(a, le, k) + b, le, k) == TopK(a + b, le, k)
  {
    var s := Sort(a, le);
    SortSorts(a, le);
    SortSorted(Take(s, k), le);
    SortConcat(a, b, le);
    SortConcat(Take(s, k), b, le);
    TruncatedInsertAll(s, b, le, k);
  }

  function Concat<T>(pages: seq<seq<T>>): seq<T> {
    if pages == [] then [] else Concat(pages[..|pages| - 1]) + pages[|pages| - 1]
  }

  /** A page joins the pool, which is sorted and cut back. */
  method Consider<T>(pool: seq<T>, page: seq<T>, le: (T, T) -> bool, maximum: nat) returns (r: seq<T>)
    ensures r == TopK(pool + page, le, maximum)
  {
    r := pool;
    for i := 0 to |page|
      invariant r == pool + page[..i]
    {
      r := r + [page[i]];
    }
    assert page[..|page|] == page;
    r := Sort(r, le);
    if |r| > maximum { r := r[..maximum]; }
  }

  /** Any division of the rows into pages leaves the pool that all of them at once would. */
  method ConsiderPages<T(!new)>(pages: seq<seq<T>>, le: (T, T) -> bool, maximum: nat) returns (pool: seq<T>)
    requires TotalPreorder(le)
    ensures pool == TopK(Concat(pages), le, maximum)
  {
    pool := [];
    for i := 0 to |pages|
      invariant pool == TopK(Concat(pages[..i]), le, maximum)
    {
      assert pages[..i + 1][..i] == pages[..i];
      PageByPage(Concat(pages[..i]), pages[i], le, maximum);
      pool := Consider(pool, pages[i], le, maximum);
    }
    assert pages[..|pages|] == pages;
  }

  // ---- Dense candidates: unusable scores are dropped first ----

  function Usable<T>(rows: seq<T>, finite: T -> bool): seq<T> {
    if rows == [] then [] else
      Usable(rows[..|rows| - 1], finite) + (if finite(rows[|rows| - 1]) then [rows[|rows| - 1]] else [])
  }

  lemma {:induction false} UsableConcat<T>(a: seq<T>, b: seq<T>, finite: T -> bool)
    ensures Usable(a + b, finite) == Usable(a, finite) + Usable(b, finite)
    decreases |b|
  {
    if b == [] {
      assert a + b == a;
    } else {
      assert (a + b)[..|a + b| - 1] == a + b[..|b| - 1];
      UsableConcat(a, b[..|b| - 1], finite);
    }
  }

  lemma {:induction false} UsableAll<T>(rows: seq<T>, finite: T -> bool)
    ensures forall x :: x in Usable(rows, finite) <==> x in rows && finite(x)
    ensures (forall x :: x in rows ==> finite(x)) ==> Usable(rows, finite) == rows
  {
    if rows != [] {
      var front, x := rows[..|rows| - 1], rows[|rows| - 1];
      assert rows == front + [x];
      UsableAll(front, finite);
    }
  }

  function Retained<T>(rows: seq<T>, finite: T -> bool, le: (T, T) -> bool, k: nat): seq<T> {
    TopK(Usable(rows, finite), le, k)
  }

  /** The streaming law for dense candidates. */
  lemma RetainedPageByPage<T(!new)>(a: seq<T>, b: seq<T>, finite: T -> bool, le: (T, T) -> bool, k: nat)
    requires TotalPreorder(le)
    ensures Retained(Retained(a, finite, le, k) + b, finite, le, k) == Retained(a + b, finite, le, k)
  {
    var kept := Retained(a, finite, le, k);
    UsableAll(a, finite);
    SortElements(Usable(a, finite), le);
    forall x | x in kept ensures finite(x) { assert x in Sort(Usable(a, finite), le); }
    UsableAll(kept, finite);
    UsableConcat(kept, b, finite);
    UsableConcat(a, b, finite);
    PageByPage(Usable(a, finite), Usable(b, finite), le, k);
  }

  // ---- The order of scored groups ----

  datatype Group = Group(subject: string, relation: string, bytes: nat)

  datatype Scored = Scored(group: Group, score: real)

  /** Higher score first, then subject, then relation. */
  predicate Better(a: Scored, b: Scored) {
    a.score > b.score
    || (a.score == b.score && (Below(a.group.subject, b.group.subject)
        || (a.group.subject == b.group.subject && AtMost(a.group.relation, b.group.relation))))
  }

  lemma BetterIsTotal()
    ensures TotalPreorder(Better)
  {
    forall a, b ensures Better(a, b) || Better(b, a) {
      BelowTrichotomy(a.group.subject, b.group.subject);
      BelowTrichotomy(a.group.relation, b.group.relation);
    }
    forall a, b, c | Better(a, b) && Better(b, c) ensures Better(a, c) {
      BetterTransitive(a, b, c);
    }
  }

  lemma BetterTransitive(a: Scored, b: Scored, c: Scored)
    requires Better(a, b) && Better(b, c)
    ensures Better(a, c)
  {
    if a.score == b.score == c.score {
      var x, y, z := a.group.subject, b.group.subject, c.group.subject;
      BelowTrichotomy(y, y);
      if Below(x, y) && Below(y, z) { BelowTransitive(x, y, z); }
      if x == y == z && a.group.relation != b.group.relation && b.group.relation != c.group.relation {
        BelowTransitive(a.group.relation, b.group.relation, c.group.relation);
      }
    }
  }

  // ---- Complete groups within a byte budget ----

  function TotalBytes(groups: seq<Group>): nat {
    if groups == [] then 0 else TotalBytes(groups[..|groups| - 1]) + groups[|groups| - 1].bytes
  }

  /** Every group that still fits, in pool order. */
  function Greedy(pool: seq<Scored>, maximum: nat): seq<Group> {
    if pool == [] then [] else
      var before := Greedy(pool[..|pool| - 1], maximum);
      var g := pool[|pool| - 1].group;
      if TotalBytes(before) + g.bytes <= maximum then before + [g] else before
  }

  lemma TotalBytesPush(groups: seq<Group>, g: Group)
    ensures TotalBytes(groups + [g]) == TotalBytes(groups) + g.bytes
  {
    assert (groups + [g])[..|groups|] == groups;
  }

  /** The choice never exceeds the budget, and whatever it left out would exceed it. */
  lemma {:induction false} GreedyMeaning(pool: seq<Scored>, maximum: nat)
    ensures TotalBytes(Greedy(pool, maximum)) <= maximum
    ensures forall g :: g in Greedy(pool, maximum) ==> exists i :: 0 <= i < |pool| && pool[i].group == g
    ensures forall i :: 0 <= i < |pool| ==>
      pool[i].group in Greedy(pool, maximum) || TotalBytes(Greedy(pool, maximum)) + pool[i].group.bytes > maximum
  {
    if pool != [] {
      var front, g := pool[..|pool| - 1], pool[|pool| - 1].group;
      GreedyMeaning(front, maximum);
      TotalBytesPush(Greedy(front, maximum), g);
      assert forall i :: 0 <= i < |front| ==> front[i] == pool[i];
      assert pool[|pool| - 1].group == g;
    }
  }

  /** The reported byte count is exactly the size of what was kept, within the cap. */
  method SelectCompleteGroups(pool: seq<Scored>, maximum: nat) returns (selected: seq<Group>, used: nat)
    ensures selected == Greedy(pool, maximum) && used == TotalBytes(selected) <= maximum
  {
    selected, used := [], 0;
    for i := 0 to |pool|
      invariant selected == Greedy(pool[..i], maximum) && used == TotalBytes(selected) <= maximum
    {
      assert pool[..i + 1][..i] == pool[..i];
      if pool[i].group.bytes <= maximum - used {
        TotalBytesPush(selected, pool[i].group);
        used := used + pool[i].group.bytes;
        selected := selected + [pool[i].group];
      }
    }
    assert pool[..|pool|] == pool;
  }

  // ---- What is left out ----

  /** The pool is as large as it may be, and nothing left out of it beats anything in it: no score
      is higher, and among equal scores no subject, then no relation, comes earlier. */
  lemma NoneBetterLeftOut(rows: seq<Scored>, maximum: nat, kept: Scored, cut: Scored)
    requires kept in TopK(rows, Better, maximum) && cut in multiset(rows) - multiset(TopK(rows, Better, maximum))
    ensures |TopK(rows, Better, maximum)| == maximum
    ensures kept.score >= cut.score
    ensures kept.score == cut.score ==> AtMost(kept.group.subject, cut.group.subject)
    ensures kept.score == cut.score && kept.group.subject == cut.group.subject ==> AtMost(kept.group.relation, cut.group.relation)
  {
    var s := Sort(rows, Better);
    BetterIsTotal();
    SortSorts(rows, Better);
    if |s| > maximum {
      assert s == s[..maximum] + s[maximum..];
      assert cut in multiset(s[maximum..]);
      var i :| 0 <= i < maximum && s[..maximum][i] == kept;
      var j :| 0 <= j < |s| - maximum && s[maximum..][j] == cut;
      assert Better(s[i], s[maximum + j]);
      BelowTrichotomy(kept.group.subject, cut.group.subject);
    }
  }

  lemma KeepsAllThatFit(rows: seq<Scored>, maximum: nat)
    ensures |rows| <= maximum ==> multiset(TopK(rows, Better, maximum)) == multiset(rows)
    ensures multiset(TopK(rows, Better, maximum)) <= multiset(rows)
  {
    var s := Sort(rows, Better);
    if |s| > maximum { assert s == s[..maximum] + s[maximum..]; }
  }

  /** The bytes of the groups marked among the first `n`. */
  function TakenBytes(pool: seq<Scored>, taken: seq<bool>, n: nat): nat
    requires n <= |taken| == |pool|
  {
    if n == 0 then 0 else TakenBytes(pool, taken, n - 1) + if taken[n - 1] then pool[n - 1].group.bytes else 0
  }

  function TakenGroups(pool: seq<Scored>, taken: seq<bool>, n: nat): seq<Group>
    requires n <= |taken| == |pool|
  {
    if n == 0 then [] else TakenGroups(pool, taken, n - 1) + if taken[n - 1] then [pool[n - 1].group] else []
  }

  /** Each group of the pool in turn is marked exactly when it fits beside those marked before it. */
  ghost predicate InTurn(pool: seq<Scored>, taken: seq<bool>, maximum: nat)
    requires |taken| == |pool|
  {
    forall i {:trigger taken[i]} :: 0 <= i < |pool| ==> (taken[i] <==> TakenBytes(pool, taken, i) + pool[i].group.bytes <= maximum)
  }

  lemma {:induction false} TakenMore(pool: seq<Scored>, taken: seq<bool>, more: seq<Scored>, longer: seq<bool>, n: nat)
    requires n <= |taken| == |pool| <= |more| == |longer|
    requires pool == more[..|pool|] && taken == longer[..|pool|]
    ensures TakenBytes(more, longer, n) == TakenBytes(pool, taken, n) && TakenGroups(more, longer, n) == TakenGroups(pool, taken, n)
    decreases n
  {
    if n > 0 {
      TakenMore(pool, taken, more, longer, n - 1);
      assert pool[n - 1] == more[n - 1] && taken[n - 1] == longer[n - 1];
    }
  }

  /** Which groups are chosen: those that fit in turn, in pool order. */
  lemma {:induction false} GreedyInTurn(pool: seq<Scored>, maximum: nat) returns (taken: seq<bool>)
    ensures |taken| == |pool| && InTurn(pool, taken, maximum)
    ensures Greedy(pool, maximum) == TakenGroups(pool, taken, |pool|) && TotalBytes(Greedy(pool, maximum)) == TakenBytes(pool, taken, |pool|)
    decreases |pool|
  {
    if pool == [] {
      taken := [];
    } else {
      var front, g := pool[..|pool| - 1], pool[|pool| - 1].group;
      var before := GreedyInTurn(front, maximum);
      taken := before + [TotalBytes(Greedy(front, maximum)) + g.bytes <= maximum];
      TakenMore(front, before, pool, taken, |front|);
      TotalBytesPush(Greedy(front, maximum), g);
      forall i | 0 <= i < |pool| ensures taken[i] <==> TakenBytes(pool, taken, i) + pool[i].group.bytes <= maximum {
        TakenMore(front, before, pool, taken, Min(i, |front|));
        if i < |front| { assert before[i] == taken[i] && front[i] == pool[i]; }
      }
    }
  }
}
