/** Lists: membership, duplicate-free unions, and sorting by an order. */
module Sequences {
  lemma Snoc<T>(s: seq<T>)
    requires s != []
    ensures s == s[..|s| - 1] + [s[|s| - 1]]
    ensures forall y :: y in s <==> y in s[..|s| - 1] || y == s[|s| - 1]
  {
    var init, last := s[..|s| - 1], s[|s| - 1];
    assert s == init + [last];
    forall y ensures y in s <==> y in init || y == last { assert y in init + [last] <==> y in init || y == last; }
  }

  lemma HasItsHead<T>(s: seq<T>)
    ensures s == [] || s[0] in s
  {}

  ghost predicate NoDuplicates<T>(s: seq<T>) { forall i, j | 0 <= i < j < |s| :: s[i] != s[j] }

  /** Appends each element of `more` that is not there yet. */
  function Absorb<T(==)>(s: seq<T>, more: seq<T>): seq<T>
    decreases |more|
  {
    if more == [] then s
    else Absorb(if more[0] in s then s else s + [more[0]], more[1..])
  }

  lemma {:induction false} AbsorbAll<T>(s: seq<T>, more: seq<T>)
    requires NoDuplicates(s)
    ensures NoDuplicates(Absorb(s, more))
    ensures forall r :: r in Absorb(s, more) <==> r in s || r in more
    ensures s <= Absorb(s, more)
    decreases |more|
  {
    if more != [] {
      var next := if more[0] in s then s else s + [more[0]];
      assert forall r :: r in more <==> r == more[0] || r in more[1..];
      AbsorbAll(next, more[1..]);
    }
  }

  // ---------------------------------------------------------------------------
  // Sorting
  // ---------------------------------------------------------------------------

  type Order<!T> = (T, T) -> bool

  /** Total and transitive. */
  ghost predicate Preorder<T(!new)>(before: Order<T>) {
    && (forall x, y :: before(x, y) || before(y, x))
    && (forall x, y, z :: before(x, y) && before(y, z) ==> before(x, z))
  }

  ghost predicate InOrder<T>(before: Order<T>, s: seq<T>) { forall i, j | 0 <= i < j < |s| :: before(s[i], s[j]) }

  function Inserted<T>(before: Order<T>, s: seq<T>, x: T): (r: seq<T>)
    ensures |r| == |s| + 1
  {
    if s == [] || before(s[|s| - 1], x) then s + [x] else Inserted(before, s[..|s| - 1], x) + [s[|s| - 1]]
  }

  /** A stable sort. */
  function SortedBy<T>(before: Order<T>, s: seq<T>): (r: seq<T>)
    ensures |r| == |s|
  {
    if s == [] then [] else Inserted(before, SortedBy(before, s[..|s| - 1]), s[|s| - 1])
  }

  lemma {:induction false} InsertedHolds<T>(before: Order<T>, s: seq<T>, x: T)
    ensures multiset(Inserted(before, s, x)) == multiset(s) + multiset{x}
  {
    if s != [] && !before(s[|s| - 1], x) {
      InsertedHolds(before, s[..|s| - 1], x);
      Snoc(s);
    }
  }

  lemma {:induction false} InsertedIsInOrder<T(!new)>(before: Order<T>, s: seq<T>, x: T)
    requires Preorder(before) && InOrder(before, s)
    ensures InOrder(before, Inserted(before, s, x))
  {
    if s != [] && !before(s[|s| - 1], x) {
      var init, last := s[..|s| - 1], s[|s| - 1];
      InsertedIsInOrder(before, init, x);
      InsertedHolds(before, init, x);
      forall k | 0 <= k < |Inserted(before, init, x)| ensures before(Inserted(before, init, x)[k], last) {
        var y := Inserted(before, init, x)[k];
        assert y in multiset(init) + multiset{x};
        assert y == x || y in init;
      }
    }
  }

  /** Sorting sorts, and keeps the elements. */
  lemma {:induction false} Sorts<T(!new)>(before: Order<T>, s: seq<T>)
    requires Preorder(before)
    ensures InOrder(before, SortedBy(before, s)) && multiset(SortedBy(before, s)) == multiset(s)
    ensures forall y :: y in SortedBy(before, s) <==> y in s
  {
    if s != [] {
      var init, last := s[..|s| - 1], s[|s| - 1];
      Snoc(s);
      Sorts(before, init);
      InsertedIsInOrder(before, SortedBy(before, init), last);
      InsertedHolds(before, SortedBy(before, init), last);
    }
    forall y ensures y in SortedBy(before, s) <==> y in s {
      assert y in multiset(SortedBy(before, s)) <==> y in multiset(s);
    }
  }

  lemma {:induction false} AlreadySorted<T>(before: Order<T>, s: seq<T>)
    requires InOrder(before, s)
    ensures SortedBy(before, s) == s
  {
    if s != [] {
      var init, last := s[..|s| - 1], s[|s| - 1];
      AlreadySorted(before, init);
      Snoc(s);
      assert init != [] ==> before(init[|init| - 1], last);
      assert Inserted(before, init, last) == init + [last];
    }
  }
}
