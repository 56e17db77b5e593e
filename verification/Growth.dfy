/** Lists that grow in place: every old element stays in order, possibly changed, and new
    elements join anywhere between them. */
module Growth {
  import opened Orders

  /** `after` is `before` with elements carried over by `kept` and others, all `added`, put in. */
  ghost predicate Grows<T>(before: seq<T>, after: seq<T>, kept: (T, T) -> bool, added: T -> bool)
    decreases |after|
  {
    if after == [] then before == [] else
      Joined(before, after, kept, added) || Carried(before, after, kept, added)
  }

  /** The last element is new. */
  ghost predicate Joined<T>(before: seq<T>, after: seq<T>, kept: (T, T) -> bool, added: T -> bool)
    requires after != []
    decreases |after|, 0
  {
    added(after[|after| - 1]) && Grows(before, after[..|after| - 1], kept, added)
  }

  /** The last element is the old last one. */
  ghost predicate Carried<T>(before: seq<T>, after: seq<T>, kept: (T, T) -> bool, added: T -> bool)
    requires after != []
    decreases |after|, 0
  {
    before != [] && kept(before[|before| - 1], after[|after| - 1])
    && Grows(before[..|before| - 1], after[..|after| - 1], kept, added)
  }

  /** The two ways a grown list can end. */
  lemma LastCase<T>(before: seq<T>, after: seq<T>, kept: (T, T) -> bool, added: T -> bool) returns (joined: bool)
    requires Grows(before, after, kept, added) && after != []
    ensures joined ==> added(after[|after| - 1]) && Grows(before, after[..|after| - 1], kept, added)
    ensures !joined ==> before != [] && kept(before[|before| - 1], after[|after| - 1])
    ensures !joined ==> Grows(before[..|before| - 1], after[..|after| - 1], kept, added)
  {
    joined := Joined(before, after, kept, added);
  }

  lemma JoinedPush<T>(before: seq<T>, after: seq<T>, x: T, kept: (T, T) -> bool, added: T -> bool)
    requires Grows(before, after, kept, added) && added(x)
    ensures Grows(before, after + [x], kept, added)
  {
    assert (after + [x])[..|after + [x]| - 1] == after;
    assert Joined(before, after + [x], kept, added);
  }

  lemma CarriedPush<T>(before: seq<T>, after: seq<T>, a: T, b: T, kept: (T, T) -> bool, added: T -> bool)
    requires Grows(before, after, kept, added) && kept(a, b)
    ensures Grows(before + [a], after + [b], kept, added)
  {
    assert (after + [b])[..|after + [b]| - 1] == after && (before + [a])[..|before + [a]| - 1] == before;
    assert Carried(before + [a], after + [b], kept, added);
  }

  lemma {:induction false} GrowsConcat<T>(a: seq<T>, b: seq<T>, c: seq<T>, d: seq<T>, kept: (T, T) -> bool, added: T -> bool)
    requires Grows(a, b, kept, added) && Grows(c, d, kept, added)
    ensures Grows(a + c, b + d, kept, added)
    decreases |d|
  {
    if d == [] {
      assert a + c == a && b + d == b;
    } else {
      var front, last := d[..|d| - 1], d[|d| - 1];
      assert b + d == b + front + [last];
      if Joined(c, d, kept, added) {
        GrowsConcat(a, b, c, front, kept, added);
        JoinedPush(a + c, b + front, last, kept, added);
      } else {
        var init := c[..|c| - 1];
        assert a + c == a + init + [c[|c| - 1]];
        GrowsConcat(a, b, init, front, kept, added);
        CarriedPush(a + init, b + front, c[|c| - 1], last, kept, added);
      }
    }
  }

  lemma {:induction false} GrowsSame<T>(s: seq<T>, kept: (T, T) -> bool, added: T -> bool)
    requires forall x :: x in s ==> kept(x, x)
    ensures Grows(s, s, kept, added)
  {
    if s != [] {
      var front, last := s[..|s| - 1], s[|s| - 1];
      assert s == front + [last];
      GrowsSame(front, kept, added);
      CarriedPush(front, front, last, last, kept, added);
    }
  }

  lemma GrowsUpdate<T>(s: seq<T>, i: nat, y: T, kept: (T, T) -> bool, added: T -> bool)
    requires i < |s| && kept(s[i], y) && forall x :: x in s ==> kept(x, x)
    ensures Grows(s, s[i := y], kept, added)
  {
    assert s == s[..i] + [s[i]] + s[i + 1..] && s[i := y] == s[..i] + [y] + s[i + 1..];
    GrowsSame(s[..i], kept, added);
    GrowsSame(s[i + 1..], kept, added);
    CarriedPush(s[..i], s[..i], s[i], y, kept, added);
    GrowsConcat(s[..i] + [s[i]], s[..i] + [y], s[i + 1..], s[i + 1..], kept, added);
  }

  /** `x` put in before position `at`, or at the end. */
  function Inserted<T>(s: seq<T>, at: nat, x: T): seq<T> {
    s[..Min(at, |s|)] + [x] + s[Min(at, |s|)..]
  }

  lemma GrowsInsert<T>(s: seq<T>, at: nat, x: T, kept: (T, T) -> bool, added: T -> bool)
    requires added(x) && forall y :: y in s ==> kept(y, y)
    ensures Grows(s, Inserted(s, at, x), kept, added)
  {
    var i := Min(at, |s|);
    assert s == s[..i] + s[i..];
    GrowsSame(s[..i], kept, added);
    GrowsSame(s[i..], kept, added);
    JoinedPush(s[..i], s[..i], x, kept, added);
    GrowsConcat(s[..i], s[..i] + [x], s[i..], s[i..], kept, added);
  }

  lemma {:induction false} GrowsTrans<T(!new)>(a: seq<T>, b: seq<T>, c: seq<T>, kept: (T, T) -> bool, added: T -> bool)
    requires Grows(a, b, kept, added) && Grows(b, c, kept, added)
    requires forall x, y, z :: kept(x, y) && kept(y, z) ==> kept(x, z)
    requires forall x, y :: added(x) && kept(x, y) ==> added(y)
    ensures Grows(a, c, kept, added)
    decreases |c|
  {
    if c != [] {
      var front := c[..|c| - 1];
      if Joined(b, c, kept, added) {
        GrowsTrans(a, b, front, kept, added);
        assert Joined(a, c, kept, added);
      } else {
        var init := b[..|b| - 1];
        if Joined(a, b, kept, added) {
          GrowsTrans(a, init, front, kept, added);
          assert Joined(a, c, kept, added);
        } else {
          GrowsTrans(a[..|a| - 1], init, front, kept, added);
          assert Carried(a, c, kept, added);
        }
      }
    }
  }

  /** Each element of the longer list is new, or an old one carried over. */
  lemma {:induction false} GrownFrom<T>(before: seq<T>, after: seq<T>, kept: (T, T) -> bool, added: T -> bool, y: T)
    returns (x: Option<T>)
    requires Grows(before, after, kept, added) && y in after
    ensures match x case None => added(y) case Some(prior) => prior in before && kept(prior, y)
    decreases |after|
  {
    var front, last := after[..|after| - 1], after[|after| - 1];
    assert after == front + [last];
    if Joined(before, after, kept, added) {
      if y in front { x := GrownFrom(before, front, kept, added, y); } else { x := None; }
    } else {
      if y in front { x := GrownFrom(before[..|before| - 1], front, kept, added, y); } else { x := Some(before[|before| - 1]); }
    }
  }

  /** Each old element is carried over. */
  lemma {:induction false} GrownInto<T>(before: seq<T>, after: seq<T>, kept: (T, T) -> bool, added: T -> bool, x: T)
    returns (y: T)
    requires Grows(before, after, kept, added) && x in before
    ensures y in after && kept(x, y)
    decreases |after|
  {
    var front, last := after[..|after| - 1], after[|after| - 1];
    assert after == front + [last];
    if Joined(before, after, kept, added) {
      y := GrownInto(before, front, kept, added, x);
    } else {
      var init := before[..|before| - 1];
      assert before == init + [before[|before| - 1]];
      if x in init { y := GrownInto(init, front, kept, added, x); } else { y := last; }
    }
  }
}
