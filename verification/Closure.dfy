/** Publication lineage: the bounded ancestor walk, and the descendant closure that
    withdrawal and redaction rely on. */
module Closure {
  import opened Orders

  const MAX_LINEAGE_DEPTH: nat := 64
  const MAX_CLOSURE_VIEWS: nat := 4096

  datatype Error = Unauthorized | Conflict | Budget | Corruption | Storage

  datatype Result<+T> = Ok(value: T) | Err(error: Error)

  /** What the closure reads of a publication record. */
  datatype Link = Link(id: string, parent: Option<string>)

  type Lineage = map<string, Option<string>>

  /** The map the source collects from its rows: a repeated id keeps the last row. */
  function ParentsOf(links: seq<Link>): Lineage {
    if links == [] then map[] else
      ParentsOf(links[..|links| - 1])[links[|links| - 1].id := links[|links| - 1].parent]
  }

  /** The `k`-th ancestor of `id`; an id without a row has no parent. */
  function Ancestor(parents: Lineage, id: string, k: nat): Option<string> {
    if k == 0 then Some(id) else
      var below := Ancestor(parents, id, k - 1);
      if below.Some? && below.value in parents then parents[below.value] else None
  }

  /** The parent chain of `id` runs out within the depth bound. */
  predicate Bounded(parents: Lineage, id: string) {
    exists k :: 0 <= k <= MAX_LINEAGE_DEPTH && Ancestor(parents, id, k).None?
  }

  lemma BoundedEnds(parents: Lineage, id: string, k: nat)
    requires Bounded(parents, id) && k >= MAX_LINEAGE_DEPTH
    ensures Ancestor(parents, id, k).None?
  {
    var n :| 0 <= n <= MAX_LINEAGE_DEPTH && Ancestor(parents, id, n).None?;
    AncestorStaysNone(parents, id, n, k);
  }

  predicate LineageOk(parents: Lineage) {
    forall id :: id in parents ==> Bounded(parents, id)
  }

  lemma {:induction false} AncestorStaysNone(parents: Lineage, id: string, k: nat, n: nat)
    requires k <= n && Ancestor(parents, id, k).None?
    ensures Ancestor(parents, id, n).None?
    decreases n
  {
    if k < n { AncestorStaysNone(parents, id, k, n - 1); }
  }

  lemma {:induction false} AncestorShift(parents: Lineage, id: string, i: nat, n: nat, j: nat)
    requires Ancestor(parents, id, i) == Ancestor(parents, id, n)
    ensures Ancestor(parents, id, i + j) == Ancestor(parents, id, n + j)
  {
    if j > 0 { AncestorShift(parents, id, i, n, j - 1); }
  }

  /** A chain that repeats a node never ends. */
  lemma {:induction false} CycleNeverEnds(parents: Lineage, id: string, i: nat, n: nat, k: nat)
    requires i < n && Ancestor(parents, id, i) == Ancestor(parents, id, n)
    requires Ancestor(parents, id, n).Some?
    ensures Ancestor(parents, id, k).Some?
    decreases k
  {
    if k <= n {
      if Ancestor(parents, id, k).None? { AncestorStaysNone(parents, id, k, n); }
    } else {
      CycleNeverEnds(parents, id, i, n, i + (k - n));
      AncestorShift(parents, id, i, n, k - n);
    }
  }

  lemma {:induction false} AncestorCompose(parents: Lineage, id: string, parent: string, k: nat)
    requires id in parents && parents[id] == Some(parent)
    ensures Ancestor(parents, id, k + 1) == Ancestor(parents, parent, k)
  {
    if k > 0 { AncestorCompose(parents, id, parent, k - 1); }
    assert Ancestor(parents, id, 0) == Some(id);
  }

  /** The walk of the source: it stops on a repeated node or on the 65th. */
  method CheckLineage(parents: Lineage, id: string) returns (ok: bool)
    ensures ok <==> Bounded(parents, id)
  {
    var path: set<string> := {};
    var current := Some(id);
    ghost var n: nat := 0;
    while current.Some?
      invariant n <= MAX_LINEAGE_DEPTH && |path| == n
      invariant current == Ancestor(parents, id, n)
      invariant forall x :: x in path ==> exists i :: 0 <= i < n && Ancestor(parents, id, i) == Some(x)
      decreases MAX_LINEAGE_DEPTH - n, current.Some?
    {
      var node := current.value;
      if node in path {
        ghost var i :| 0 <= i < n && Ancestor(parents, id, i) == Some(node);
        forall k: nat ensures Ancestor(parents, id, k).Some? { CycleNeverEnds(parents, id, i, n, k); }
        return false;
      }
      path := path + {node};
      if |path| > MAX_LINEAGE_DEPTH {
        if Bounded(parents, id) { BoundedEnds(parents, id, n); }
        return false;
      }
      current := if node in parents then parents[node] else None;
      n := n + 1;
    }
    return true;
  }

  // ---- The closure ----

  function IdsOf(links: seq<Link>): set<string> {
    set i | 0 <= i < |links| :: links[i].id
  }

  /** One pass over the rows in order, selecting children of selected parents. */
  function Pass(links: seq<Link>, selected: set<string>): (r: set<string>)
    ensures selected <= r <= selected + IdsOf(links)
  {
    if links == [] then selected else
      var before := Pass(links[..|links| - 1], selected);
      var last := links[|links| - 1];
      assert IdsOf(links[..|links| - 1]) <= IdsOf(links) && last.id in IdsOf(links);
      if last.parent.Some? && last.parent.value in before then before + {last.id} else before
  }

  /** Passes repeated until one adds nothing. */
  function CloseOver(links: seq<Link>, selected: set<string>): set<string>
    decreases IdsOf(links) - selected
  {
    var next := Pass(links, selected);
    if next == selected then selected else
      assert exists x :: x in next && x !in selected;
      CloseOver(links, next)
  }

  function Members(ids: seq<string>): set<string> { set i | 0 <= i < |ids| :: ids[i] }

  /** The value `descendant_closure` returns. */
  function ClosureOf(links: seq<Link>, initial: seq<string>): Result<seq<string>> {
    if |links| > MAX_CLOSURE_VIEWS then Err(Budget)
    else if !LineageOk(ParentsOf(links)) then Err(Corruption)
    else
      var closed := CloseOver(links, Members(initial));
      if |closed| > MAX_CLOSURE_VIEWS then Err(Budget) else Ok(Ascending(closed))
  }

  ghost predicate ClosedUnder(links: seq<Link>, s: set<string>) {
    forall i :: 0 <= i < |links| && links[i].parent.Some? && links[i].parent.value in s ==> links[i].id in s
  }

  lemma {:induction false} PassWithin(links: seq<Link>, selected: set<string>, s: set<string>)
    requires selected <= s && ClosedUnder(links, s)
    ensures Pass(links, selected) <= s
  {
    if links != [] {
      PassWithin(links[..|links| - 1], selected, s);
    }
  }

  lemma {:induction false} PassFixed(links: seq<Link>, selected: set<string>)
    requires Pass(links, selected) == selected
    ensures ClosedUnder(links, selected)
  {
    if links != [] {
      var front, last := links[..|links| - 1], links[|links| - 1];
      assert Pass(front, selected) == selected;
      PassFixed(front, selected);
      assert forall i :: 0 <= i < |front| ==> front[i] == links[i];
    }
  }

  /** The closure is the least set that contains the selection and is closed under
      "parent selected implies child selected". */
  lemma {:induction false} ClosureLeast(links: seq<Link>, selected: set<string>, s: set<string>)
    ensures selected <= CloseOver(links, selected) <= selected + IdsOf(links)
    ensures ClosedUnder(links, CloseOver(links, selected))
    ensures selected <= s && ClosedUnder(links, s) ==> CloseOver(links, selected) <= s
    decreases IdsOf(links) - selected
  {
    var next := Pass(links, selected);
    if next == selected {
      PassFixed(links, selected);
    } else {
      assert exists x :: x in next && x !in selected;
      ClosureLeast(links, next, s);
      if selected <= s && ClosedUnder(links, s) { PassWithin(links, selected, s); }
    }
  }

  /** Row order (and row repetition) does not matter. */
  lemma ClosureOrderFree(a: seq<Link>, b: seq<Link>, selected: set<string>)
    requires forall l :: l in a <==> l in b
    ensures CloseOver(a, selected) == CloseOver(b, selected)
  {
    ClosureWithin(a, b, selected);
    ClosureWithin(b, a, selected);
  }

  lemma ClosureWithin(a: seq<Link>, b: seq<Link>, selected: set<string>)
    requires forall l :: l in a ==> l in b
    ensures CloseOver(a, selected) <= CloseOver(b, selected)
  {
    var s := CloseOver(b, selected);
    ClosureLeast(b, selected, s);
    forall i | 0 <= i < |a| && a[i].parent.Some? && a[i].parent.value in s ensures a[i].id in s {
      assert a[i] in b;
    }
    ClosureLeast(a, selected, s);
  }

  ghost predicate DistinctIds(links: seq<Link>) {
    forall i, j :: 0 <= i < j < |links| ==> links[i].id != links[j].id
  }

  lemma {:induction false} ParentsOfRows(links: seq<Link>)
    requires DistinctIds(links)
    ensures ParentsOf(links).Keys == IdsOf(links)
    ensures forall i :: 0 <= i < |links| ==> links[i].id in ParentsOf(links) && ParentsOf(links)[links[i].id] == links[i].parent
  {
    if links != [] {
      var front := links[..|links| - 1];
      ParentsOfRows(front);
      assert forall i :: 0 <= i < |front| ==> front[i] == links[i];
      assert IdsOf(links) == IdsOf(front) + {links[|links| - 1].id};
    }
  }

  /** Some node on the parent chain of `id`, itself included, is selected. */
  ghost predicate Descends(parents: Lineage, id: string, selected: set<string>) {
    exists k: nat :: ReachesAt(parents, id, selected, k)
  }

  predicate ReachesAt(parents: Lineage, id: string, selected: set<string>, k: nat) {
    Ancestor(parents, id, k).Some? && Ancestor(parents, id, k).value in selected
  }

  lemma {:induction false} DescendantSelected(links: seq<Link>, id: string, selected: set<string>, k: nat)
    requires DistinctIds(links) && ReachesAt(ParentsOf(links), id, selected, k)
    ensures id in CloseOver(links, selected)
    decreases k
  {
    var closed := CloseOver(links, selected);
    ClosureLeast(links, selected, closed);
    if k > 0 {
      var parents := ParentsOf(links);
      ParentsOfRows(links);
      var first := Ancestor(parents, id, 1);
      if first.None? { AncestorStaysNone(parents, id, 1, k); }
      assert Ancestor(parents, id, 0) == Some(id);
      var parent := first.value;
      AncestorCompose(parents, id, parent, k - 1);
      DescendantSelected(links, parent, selected, k - 1);
      assert id in IdsOf(links);
      var i :| 0 <= i < |links| && links[i].id == id;
    }
  }

  /** Exactly the ids whose parent chain reaches the selection. */
  lemma ClosureIsDescendants(links: seq<Link>, selected: set<string>, id: string)
    requires DistinctIds(links)
    ensures id in CloseOver(links, selected) <==> Descends(ParentsOf(links), id, selected)
  {
    var parents := ParentsOf(links);
    ParentsOfRows(links);
    if Descends(parents, id, selected) {
      var k: nat :| ReachesAt(parents, id, selected, k);
      DescendantSelected(links, id, selected, k);
    }
    var s := set x | x in selected + IdsOf(links) && Descends(parents, x, selected);
    forall x | x in selected ensures x in s { assert ReachesAt(parents, x, selected, 0); }
    forall i | 0 <= i < |links| && links[i].parent.Some? && links[i].parent.value in s ensures links[i].id in s {
      var p := links[i].parent.value;
      var k: nat :| ReachesAt(parents, p, selected, k);
      AncestorCompose(parents, links[i].id, p, k);
      assert ReachesAt(parents, links[i].id, selected, k + 1);
    }
    ClosureLeast(links, selected, s);
  }

  /** The fixpoint loop of the source, bound checks included. */
  method DescendantClosure(links: seq<Link>, initial: seq<string>) returns (r: Result<seq<string>>)
    ensures r == ClosureOf(links, initial)
  {
    if |links| > MAX_CLOSURE_VIEWS {
      return Err(Budget);
    }
    var ok := CheckAll(ParentsOf(links));
    if !ok {
      return Err(Corruption);
    }
    var selected := Members(initial);
    while true
      invariant CloseOver(links, selected) == CloseOver(links, Members(initial))
      decreases IdsOf(links) - selected
    {
      var before := selected;
      selected := RunPass(links, selected);
      ClosureLeast(links, selected, selected);
      SizeGrows(selected, CloseOver(links, selected));
      SizeGrows(before, selected);
      if |selected| > MAX_CLOSURE_VIEWS {
        return Err(Budget);
      }
      if |before| == |selected| {
        return Ok(Ascending(selected));
      }
      assert exists x :: x in selected && x !in before;
    }
  }

  method CheckAll(parents: Lineage) returns (ok: bool)
    ensures ok <==> LineageOk(parents)
  {
    var keys := Ascending(parents.Keys);
    for i := 0 to |keys|
      invariant forall j :: 0 <= j < i ==> Bounded(parents, keys[j])
    {
      var bounded := CheckLineage(parents, keys[i]);
      if !bounded {
        assert keys[i] in keys;
        return false;
      }
    }
    return true;
  }

  method RunPass(links: seq<Link>, start: set<string>) returns (selected: set<string>)
    ensures selected == Pass(links, start)
  {
    selected := start;
    for i := 0 to |links|
      invariant selected == Pass(links[..i], start)
    {
      assert links[..i + 1][..i] == links[..i];
      if links[i].parent.Some? && links[i].parent.value in selected {
        selected := selected + {links[i].id};
      }
    }
    assert links[..|links|] == links;
  }

  // ---- What the call returns, row by row ----

  /** Each id but the last has a row that names the next as its parent. */
  predicate ChainOf(links: seq<Link>, p: seq<string>) {
    forall j :: 0 <= j < |p| - 1 ==> Link(p[j], Some(p[j + 1])) in links
  }

  predicate ChainTo(links: seq<Link>, p: seq<string>, id: string, last: string) {
    |p| > 0 && p[0] == id && p[|p| - 1] == last && ChainOf(links, p)
  }

  lemma RowOfParent(links: seq<Link>, id: string, parent: string)
    requires DistinctIds(links)
    ensures Link(id, Some(parent)) in links <==> id in ParentsOf(links) && ParentsOf(links)[id] == Some(parent)
  {
    ParentsOfRows(links);
    if id in ParentsOf(links) && ParentsOf(links)[id] == Some(parent) {
      var i :| 0 <= i < |links| && links[i].id == id;
      assert links[i] == Link(id, Some(parent));
    }
  }

  lemma {:induction false} ChainExists(links: seq<Link>, id: string, k: nat) returns (p: seq<string>)
    requires DistinctIds(links) && Ancestor(ParentsOf(links), id, k).Some?
    ensures |p| == k + 1 && ChainTo(links, p, id, Ancestor(ParentsOf(links), id, k).value)
    decreases k
  {
    if k > 0 {
      var front := ChainExists(links, id, k - 1);
      var last := Ancestor(ParentsOf(links), id, k).value;
      RowOfParent(links, front[k - 1], last);
      p := front + [last];
    } else {
      p := [id];
    }
  }

  lemma {:induction false} ChainAncestor(links: seq<Link>, p: seq<string>, id: string, k: nat)
    requires DistinctIds(links) && k < |p| && p[0] == id && ChainOf(links, p)
    ensures Ancestor(ParentsOf(links), id, k) == Some(p[k])
    decreases k
  {
    if k > 0 {
      ChainAncestor(links, p, id, k - 1);
      assert Link(p[k - 1], Some(p[k - 1 + 1])) in links;
      RowOfParent(links, p[k - 1], p[k]);
    }
  }

  /** Some chain from the id reaches one of the ids to withdraw. */
  ghost predicate ChainReaches(links: seq<Link>, initial: seq<string>, id: string) {
    exists p, last :: ChainTo(links, p, id, last) && last in initial
  }

  /** Some row's chain has more than 64 ids; a chain that runs in a circle has. */
  ghost predicate TooDeep(links: seq<Link>) {
    exists p: seq<string>, id: string, last: string :: |p| == 65 && ChainTo(links, p, id, last) && id in ParentsOf(links)
  }

  lemma ReachesExactly(links: seq<Link>, initial: seq<string>, id: string)
    requires DistinctIds(links)
    ensures id in CloseOver(links, Members(initial)) <==> ChainReaches(links, initial, id)
  {
    var selected := Members(initial);
    ClosureIsDescendants(links, selected, id);
    forall x ensures x in selected <==> x in initial {
      if x in initial { var i :| 0 <= i < |initial| && initial[i] == x; }
    }
    if Descends(ParentsOf(links), id, selected) {
      var k: nat :| ReachesAt(ParentsOf(links), id, selected, k);
      var p := ChainExists(links, id, k);
    }
    if ChainReaches(links, initial, id) {
      var p, last :| ChainTo(links, p, id, last) && last in initial;
      ChainAncestor(links, p, id, |p| - 1);
      assert ReachesAt(ParentsOf(links), id, selected, |p| - 1);
    }
  }

  lemma DeepExactly(links: seq<Link>)
    requires DistinctIds(links)
    ensures LineageOk(ParentsOf(links)) <==> !TooDeep(links)
  {
    if TooDeep(links) {
      var p: seq<string>, id: string, last: string :| |p| == 65 && ChainTo(links, p, id, last) && id in ParentsOf(links);
      forall k: nat | k <= MAX_LINEAGE_DEPTH ensures Ancestor(ParentsOf(links), id, k).Some? { ChainAncestor(links, p, id, k); }
      assert !Bounded(ParentsOf(links), id);
    }
    if !LineageOk(ParentsOf(links)) {
      var id :| id in ParentsOf(links) && !Bounded(ParentsOf(links), id);
      var depth := MAX_LINEAGE_DEPTH;
      var p := ChainExists(links, id, depth);
    }
  }

  /** The result, row by row: a budget error for more than 4096 rows; else corruption when some chain
      is too deep; else a budget error when more than 4096 ids reach the selection; else exactly
      those ids, in order. */
  lemma ClosureExactly(links: seq<Link>, initial: seq<string>) returns (reaching: set<string>)
    requires DistinctIds(links)
    ensures forall id :: id in reaching <==> ChainReaches(links, initial, id)
    ensures ClosureOf(links, initial) == Err(Budget) <==> |links| > 4096 || (!TooDeep(links) && |reaching| > 4096)
    ensures ClosureOf(links, initial) == Err(Corruption) <==> |links| <= 4096 && TooDeep(links)
    ensures ClosureOf(links, initial).Err? ==> ClosureOf(links, initial).error in {Budget, Corruption}
    ensures ClosureOf(links, initial).Ok? ==>
      StrictlySorted(ClosureOf(links, initial).value, Below) && forall id :: id in ClosureOf(links, initial).value <==> id in reaching
  {
    reaching := CloseOver(links, Members(initial));
    forall id ensures id in reaching <==> ChainReaches(links, initial, id) { ReachesExactly(links, initial, id); }
    DeepExactly(links);
    AscendingStrict(reaching);
  }
}
