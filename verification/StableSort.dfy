/** The stable sort of a list by an ordering of its items: entries by key, tables by creation time. */
module StableSort {

  /** Behind everything that `x` does not precede. */
  function InsertBy<T>(x: T, xs: seq<T>, before: (T, T) -> bool): seq<T> {
    if xs == [] || before(x, xs[0]) then [x] + xs else [xs[0]] + InsertBy(x, xs[1..], before)
  }

  function SortBy<T>(xs: seq<T>, before: (T, T) -> bool): seq<T> {
    if xs == [] then [] else InsertBy(xs[|xs| - 1], SortBy(xs[..|xs| - 1], before), before)
  }

  /** An order by some key: items that precede each other in neither direction have the same key. */
  ghost predicate IsOrder<T(!new)>(before: (T, T) -> bool) {
    && (forall x :: !before(x, x))
    && (forall x, y, z :: before(x, y) && before(y, z) ==> before(x, z))
    && (forall x, y, z :: !before(x, y) && !before(y, z) ==> !before(x, z))
  }

  ghost predicate Ascends<T>(xs: seq<T>, before: (T, T) -> bool) {
    forall i, j :: 0 <= i < j < |xs| ==> before(xs[i], xs[j])
  }

  ghost predicate InOrder<T>(xs: seq<T>, before: (T, T) -> bool) {
    forall i, j :: 0 <= i < j < |xs| ==> !before(xs[j], xs[i])
  }

  ghost predicate Differ<T>(x: T, y: T, before: (T, T) -> bool) {
    before(x, y) || before(y, x)
  }

  /** No two items of the list have the same key. */
  ghost predicate AllDiffer<T>(xs: seq<T>, before: (T, T) -> bool) {
    forall i, j :: 0 <= i < j < |xs| ==> Differ(xs[i], xs[j], before)
  }

  lemma {:induction false} InsertKeepsOrder<T(!new)>(x: T, xs: seq<T>, before: (T, T) -> bool)
    requires IsOrder(before) && InOrder(xs, before)
    ensures InOrder(InsertBy(x, xs, before), before)
    ensures multiset(InsertBy(x, xs, before)) == multiset{x} + multiset(xs)
  {
    if xs == [] || before(x, xs[0]) {
      var all := [x] + xs;
      assert forall i :: 0 < i < |all| ==> all[i] == xs[i - 1];
    } else {
      var rest := xs[1..];
      assert xs == [xs[0]] + rest;
      InsertKeepsOrder(x, rest, before);
      var tail := InsertBy(x, rest, before);
      forall i | 0 <= i < |tail| ensures !before(tail[i], xs[0]) {
        assert tail[i] in multiset(tail);
        assert tail[i] == x || tail[i] in rest;
      }
    }
  }

  /** Sorting puts the items in order and loses or repeats none. */
  lemma {:induction false} SortByOk<T(!new)>(xs: seq<T>, before: (T, T) -> bool)
    requires IsOrder(before)
    ensures InOrder(SortBy(xs, before), before)
    ensures multiset(SortBy(xs, before)) == multiset(xs)
  {
    if xs != [] {
      var n := |xs| - 1;
      SortByOk(xs[..n], before);
      InsertKeepsOrder(xs[n], SortBy(xs[..n], before), before);
      assert xs == xs[..n] + [xs[n]];
    }
  }

  lemma DifferEitherWay<T(!new)>(before: (T, T) -> bool)
    ensures forall x, y :: Differ(x, y, before) <==> Differ(y, x, before)
  {
  }

  lemma DifferCons<T>(x: T, xs: seq<T>, before: (T, T) -> bool)
    ensures AllDiffer([x] + xs, before) <==> AllDiffer(xs, before) && forall y :: y in xs ==> Differ(y, x, before)
  {
    var all := [x] + xs;
    assert forall i :: 0 <= i < |xs| ==> all[i + 1] == xs[i];
    if AllDiffer(all, before) {
      forall i, j | 0 <= i < j < |xs| ensures Differ(xs[i], xs[j], before) {
        assert Differ(all[i + 1], all[j + 1], before);
      }
      forall y | y in xs ensures Differ(y, x, before) {
        var i :| 0 <= i < |xs| && xs[i] == y;
        assert Differ(all[0], all[i + 1], before);
      }
    }
    if AllDiffer(xs, before) && forall y :: y in xs ==> Differ(y, x, before) {
      forall i, j | 0 <= i < j < |all| ensures Differ(all[i], all[j], before) {
        assert all[j] == xs[j - 1] && xs[j - 1] in xs;
        if i == 0 {
          assert Differ(all[j], x, before);
        } else {
          assert all[i] == xs[i - 1] && Differ(xs[i - 1], xs[j - 1], before);
        }
      }
    }
  }

  lemma DifferSnoc<T>(xs: seq<T>, x: T, before: (T, T) -> bool)
    ensures AllDiffer(xs + [x], before) <==> AllDiffer(xs, before) && forall y :: y in xs ==> Differ(y, x, before)
  {
    var all := xs + [x];
    assert forall i :: 0 <= i < |xs| ==> all[i] == xs[i];
    if AllDiffer(all, before) {
      forall i, j | 0 <= i < j < |xs| ensures Differ(xs[i], xs[j], before) {
        assert Differ(all[i], all[j], before);
      }
      forall y | y in xs ensures Differ(y, x, before) {
        var i :| 0 <= i < |xs| && xs[i] == y;
        assert Differ(all[i], all[|xs|], before);
      }
    }
  }

  lemma {:induction false} InsertKeepsDifferent<T(!new)>(x: T, xs: seq<T>, before: (T, T) -> bool)
    ensures AllDiffer(InsertBy(x, xs, before), before) <==>
      AllDiffer(xs, before) && forall y :: y in xs ==> Differ(y, x, before)
    ensures forall y :: y in InsertBy(x, xs, before) <==> y == x || y in xs
  {
    hide AllDiffer, Differ;
    DifferEitherWay(before);
    if xs == [] || before(x, xs[0]) {
      DifferCons(x, xs, before);
    } else {
      var rest := xs[1..];
      assert xs == [xs[0]] + rest;
      InsertKeepsDifferent(x, rest, before);
      DifferCons(xs[0], rest, before);
      DifferCons(xs[0], InsertBy(x, rest, before), before);
    }
  }

  lemma EmptyDiffers<T>(before: (T, T) -> bool)
    ensures AllDiffer([], before)
  {
  }

  lemma {:induction false} SortKeepsDifferent<T(!new)>(xs: seq<T>, before: (T, T) -> bool)
    ensures AllDiffer(SortBy(xs, before), before) <==> AllDiffer(xs, before)
    ensures forall x :: x in SortBy(xs, before) <==> x in xs
  {
    hide AllDiffer, Differ, InsertBy;
    EmptyDiffers(before);
    if xs != [] {
      var n := |xs| - 1;
      SortKeepsDifferent(xs[..n], before);
      InsertKeepsDifferent(xs[n], SortBy(xs[..n], before), before);
      assert xs == xs[..n] + [xs[n]];
      DifferSnoc(xs[..n], xs[n], before);
    }
  }

  /** The sorted list is strictly ascending exactly when no two items have the same key. */
  lemma AscendsExactlyWhenDifferent<T(!new)>(xs: seq<T>, before: (T, T) -> bool)
    requires IsOrder(before)
    ensures Ascends(SortBy(xs, before), before) <==> AllDiffer(xs, before)
  {
    SortByOk(xs, before);
    SortKeepsDifferent(xs, before);
    var sorted := SortBy(xs, before);
    if AllDiffer(sorted, before) {
      forall i, j | 0 <= i < j < |sorted| ensures before(sorted[i], sorted[j]) {
        assert Differ(sorted[i], sorted[j], before);
      }
    }
  }

  /** A strictly ascending list is determined by its items. */
  lemma {:induction false} AscendingUnique<T(!new)>(a: seq<T>, b: seq<T>, before: (T, T) -> bool)
    requires IsOrder(before) && Ascends(a, before) && Ascends(b, before)
    requires forall x :: x in a <==> x in b
    ensures a == b
    decreases |a|
  {
    if a != [] { assert a[0] in b; }
    if b != [] { assert b[0] in a; }
    if a != [] && b != [] {
      assert a[0] == b[0];
      assert forall x :: x in a <==> x == a[0] || x in a[1..];
      assert forall x :: x in b <==> x == b[0] || x in b[1..];
      assert forall x :: x in a[1..] ==> x != a[0];
      assert forall x :: x in b[1..] ==> x != b[0];
      AscendingUnique(a[1..], b[1..], before);
    }
  }
}
