/** Greedy packing of consecutive items under a size limit: entries into blocks, entries into tables. */
module Packing {

  function Flatten<T>(pieces: seq<seq<T>>): seq<T> {
    if pieces == [] then [] else Flatten(pieces[..|pieces| - 1]) + pieces[|pieces| - 1]
  }

  function Total<T>(items: seq<T>, size: T -> nat): nat {
    if items == [] then 0 else Total(items[..|items| - 1], size) + size(items[|items| - 1])
  }

  /** Each item joins the last piece unless it would push that piece past the limit. */
  function Greedy<T>(items: seq<T>, size: T -> nat, limit: nat): seq<seq<T>> {
    if items == [] then []
    else Place(Greedy(items[..|items| - 1], size, limit), items[|items| - 1], size, limit)
  }

  function Place<T>(pieces: seq<seq<T>>, x: T, size: T -> nat, limit: nat): seq<seq<T>> {
    if pieces == [] then [[x]]
    else
      var n := |pieces| - 1;
      if Total(pieces[n], size) + size(x) > limit then pieces + [[x]]
      else pieces[..n] + [pieces[n] + [x]]
  }

  /** A way to cut `items` into consecutive pieces that respects the limit. */
  ghost predicate LegalSplit<T>(pieces: seq<seq<T>>, items: seq<T>, size: T -> nat, limit: nat) {
    && Flatten(pieces) == items
    && forall i :: 0 <= i < |pieces| ==> LegalPiece(pieces[i], size, limit)
  }

  ghost predicate LegalPiece<T>(piece: seq<T>, size: T -> nat, limit: nat) {
    piece != [] && (Total(piece, size) <= limit || |piece| == 1)
  }

  lemma {:induction false} TotalAppend<T>(a: seq<T>, b: seq<T>, size: T -> nat)
    ensures Total(a + b, size) == Total(a, size) + Total(b, size)
  {
    if b == [] {
      assert a + b == a;
    } else {
      var n := |b| - 1;
      assert (a + b)[..|a + b| - 1] == a + b[..n];
      TotalAppend(a, b[..n], size);
    }
  }

  lemma FlattenSnoc<T>(pieces: seq<seq<T>>, last: seq<T>)
    ensures Flatten(pieces + [last]) == Flatten(pieces) + last
  {
    assert (pieces + [last])[..|pieces|] == pieces;
  }

  lemma {:induction false} FlattenAppend<T>(a: seq<seq<T>>, b: seq<seq<T>>)
    ensures Flatten(a + b) == Flatten(a) + Flatten(b)
  {
    if b == [] {
      assert a + b == a;
    } else {
      var n := |b| - 1;
      assert (a + b)[..|a + b| - 1] == a + b[..n];
      FlattenAppend(a, b[..n]);
    }
  }

  lemma FlattenCons<T>(first: seq<T>, rest: seq<seq<T>>)
    ensures Flatten([first] + rest) == first + Flatten(rest)
  {
    FlattenAppend([first], rest);
    FlattenSnoc([], first);
  }

  lemma {:induction false} FlattenMember<T>(pieces: seq<seq<T>>, i: nat, x: T)
    requires i < |pieces| && x in pieces[i]
    ensures x in Flatten(pieces)
  {
    var n := |pieces| - 1;
    if i < n {
      FlattenMember(pieces[..n], i, x);
    }
  }

  lemma FlattenSplit<T>(pieces: seq<seq<T>>, i: nat)
    requires i < |pieces|
    ensures Flatten(pieces) == Flatten(pieces[..i]) + pieces[i] + Flatten(pieces[i + 1..])
  {
    hide Flatten;
    var a, c := pieces[..i + 1], pieces[i + 1..];
    assert pieces == a + c;
    FlattenAppend(a, c);
    FlattenUpTo(pieces, i);
  }

  lemma FlattenUpTo<T>(pieces: seq<seq<T>>, i: nat)
    requires i < |pieces|
    ensures Flatten(pieces[..i + 1]) == Flatten(pieces[..i]) + pieces[i]
  {
    assert pieces[..i + 1][..i] == pieces[..i];
  }

  /** What `Place` does to a packing with an open last piece: start a new piece or extend the open one. */
  lemma PlaceNext<T>(pieces: seq<seq<T>>, current: seq<T>, x: T, size: T -> nat, limit: nat)
    ensures Total(current + [x], size) == Total(current, size) + size(x)
    ensures Place(pieces + [current], x, size, limit) ==
      if Total(current, size) + size(x) > limit then pieces + [current] + [[x]] else pieces + [current + [x]]
    ensures Place([], x, size, limit) == [[x]]
  {
    assert (current + [x])[..|current|] == current;
    assert (pieces + [current])[..|pieces|] == pieces;
  }

  lemma GreedyNext<T>(items: seq<T>, i: nat, size: T -> nat, limit: nat)
    requires i < |items|
    ensures Greedy(items[..i + 1], size, limit) == Place(Greedy(items[..i], size, limit), items[i], size, limit)
  {
    assert items[..i + 1][..i] == items[..i];
  }

  lemma PlaceLegal<T>(pieces: seq<seq<T>>, items: seq<T>, x: T, size: T -> nat, limit: nat)
    requires LegalSplit(pieces, items, size, limit)
    ensures LegalSplit(Place(pieces, x, size, limit), items + [x], size, limit)
  {
    if pieces == [] {
      FlattenSnoc([], [x]);
      assert Total([x], size) == size(x);
    } else {
      var n := |pieces| - 1;
      FlattenSnoc(pieces, [x]);
      FlattenSnoc(pieces[..n], pieces[n]);
      FlattenSnoc(pieces[..n], pieces[n] + [x]);
      assert pieces == pieces[..n] + [pieces[n]];
      TotalAppend(pieces[n], [x], size);
      assert Total([x], size) == size(x);
      assert Flatten(pieces[..n] + [pieces[n] + [x]]) == items + [x];
    }
  }

  ghost predicate Overflows<T>(a: seq<T>, b: seq<T>, size: T -> nat, limit: nat) {
    b != [] && Total(a, size) + size(b[0]) > limit
  }

  /** No piece had room for the item that begins the next one. */
  ghost predicate Full<T>(pieces: seq<seq<T>>, size: T -> nat, limit: nat) {
    forall i, j :: 0 <= i && i + 1 == j < |pieces| ==> Overflows(pieces[i], pieces[j], size, limit)
  }

  lemma {:induction false} GreedyFull<T>(items: seq<T>, size: T -> nat, limit: nat)
    ensures Full(Greedy(items, size, limit), size, limit)
  {
    hide Place, Full;
    if items == [] {
      NoneFull(size, limit);
    } else {
      var n := |items| - 1;
      GreedyFull(items[..n], size, limit);
      GreedyLegal(items[..n], size, limit);
      PlaceFull(Greedy(items[..n], size, limit), items[n], size, limit);
    }
  }

  lemma NoneFull<T>(size: T -> nat, limit: nat)
    ensures Full([], size, limit)
  {
  }

  lemma PlaceFull<T>(pieces: seq<seq<T>>, x: T, size: T -> nat, limit: nat)
    requires Full(pieces, size, limit) && forall i :: 0 <= i < |pieces| ==> LegalPiece(pieces[i], size, limit)
    ensures Full(Place(pieces, x, size, limit), size, limit)
  {
    hide Total;
    var after, n := Place(pieces, x, size, limit), |pieces| - 1;
    forall i, j | 0 <= i && i + 1 == j < |after| ensures Overflows(after[i], after[j], size, limit) {
      if j < n {
        assert after[i] == pieces[i] && after[j] == pieces[j];
      } else if j == n {
        assert after[i] == pieces[i] && Overflows(pieces[i], pieces[j], size, limit);
        assert LegalPiece(pieces[j], size, limit);
        assert after[j][0] == pieces[j][0];
      }
    }
  }

  /** Greedy packing loses nothing, reorders nothing, and respects the limit. */
  lemma {:induction false} GreedyLegal<T>(items: seq<T>, size: T -> nat, limit: nat)
    ensures LegalSplit(Greedy(items, size, limit), items, size, limit)
  {
    if items != [] {
      var n := |items| - 1;
      GreedyLegal(items[..n], size, limit);
      PlaceLegal(Greedy(items[..n], size, limit), items[..n], items[n], size, limit);
      assert items == items[..n] + [items[n]];
    }
  }

  function LastLength<T>(pieces: seq<seq<T>>): nat {
    if pieces == [] then 0 else |pieces[|pieces| - 1]|
  }

  /** The last piece of a split is a suffix of what was split. */
  lemma LastIsSuffix<T>(pieces: seq<seq<T>>)
    requires pieces != []
    ensures LastLength(pieces) <= |Flatten(pieces)|
    ensures pieces[|pieces| - 1] == Flatten(pieces)[|Flatten(pieces)| - LastLength(pieces)..]
  {
  }

  lemma SuffixTotal<T>(items: seq<T>, i: nat, j: nat, size: T -> nat)
    requires i <= j <= |items|
    ensures Total(items[j..], size) <= Total(items[i..], size)
  {
    assert items[i..] == items[i..j] + items[j..];
    TotalAppend(items[i..j], items[j..], size);
  }

  /** The split of all but the last item that a legal split induces. */
  function Shorten<T>(pieces: seq<seq<T>>): seq<seq<T>>
    requires pieces != [] && pieces[|pieces| - 1] != []
  {
    var n := |pieces| - 1;
    var last := pieces[n];
    if |last| == 1 then pieces[..n] else pieces[..n] + [last[..|last| - 1]]
  }

  lemma ShortenLegal<T>(pieces: seq<seq<T>>, items: seq<T>, size: T -> nat, limit: nat)
    requires LegalSplit(pieces, items, size, limit) && pieces != []
    ensures items != []
    ensures LegalSplit(Shorten(pieces), items[..|items| - 1], size, limit)
  {
    var n := |pieces| - 1;
    var last := pieces[n];
    assert LegalPiece(last, size, limit);
    if |last| > 1 {
      var cut := last[..|last| - 1];
      FlattenSnoc(pieces[..n], cut);
      assert items[..|items| - 1] == Flatten(pieces[..n]) + cut;
    }
  }

  function LastTotal<T>(pieces: seq<seq<T>>, size: T -> nat): nat {
    if pieces == [] then 0 else Total(pieces[|pieces| - 1], size)
  }

  lemma PlaceShape<T>(pieces: seq<seq<T>>, x: T, size: T -> nat, limit: nat)
    ensures var g := Place(pieces, x, size, limit);
      if pieces == [] || LastTotal(pieces, size) + size(x) > limit
      then |g| == |pieces| + 1 && LastLength(g) == 1
      else |g| == |pieces| && LastLength(g) == LastLength(pieces) + 1
  {
    hide Total;
  }

  lemma ShortenShape<T>(pieces: seq<seq<T>>, items: seq<T>, size: T -> nat, limit: nat)
    requires LegalSplit(pieces, items, size, limit) && pieces != []
    ensures items != [] && pieces[|pieces| - 1] != []
    ensures var short := Shorten(pieces);
      || (|pieces| == |short| + 1 && LastLength(pieces) == 1)
      || (|pieces| == |short| && LastLength(pieces) == LastLength(short) + 1
          && LastTotal(short, size) + size(items[|items| - 1]) <= limit)
  {
    var last := pieces[|pieces| - 1];
    assert LegalPiece(last, size, limit);
    assert last[|last| - 1] == items[|items| - 1];
  }

  /** Of two splits of the same items, the one with the shorter last piece has the smaller last piece. */
  lemma ShorterLast<T>(g: seq<seq<T>>, short: seq<seq<T>>, items: seq<T>, size: T -> nat)
    requires Flatten(g) == items == Flatten(short) && LastLength(g) <= LastLength(short)
    ensures g != [] && short != [] ==> LastTotal(g, size) <= LastTotal(short, size)
  {
    hide Total;
    if g != [] && short != [] {
      LastIsSuffix(g);
      LastIsSuffix(short);
      SuffixTotal(items, |items| - LastLength(short), |items| - LastLength(g), size);
    }
  }

  /** Greedy packing uses the fewest pieces, and among those ends with the shortest last piece. */
  lemma {:induction false} GreedyBest<T>(items: seq<T>, size: T -> nat, limit: nat, other: seq<seq<T>>)
    requires LegalSplit(other, items, size, limit)
    ensures var g := Greedy(items, size, limit);
      |g| < |other| || (|g| == |other| && LastLength(g) <= LastLength(other))
    decreases |items|
  {
    hide Total, Place, LastLength, LastTotal;
    if items == [] {
      if other != [] { ShortenShape(other, items, size, limit); }
    } else {
      assert other != [];
      ShortenLegal(other, items, size, limit);
      ShortenShape(other, items, size, limit);
      var init, short := items[..|items| - 1], Shorten(other);
      GreedyBest(init, size, limit, short);
      GreedyLegal(init, size, limit);
      var g := Greedy(init, size, limit);
      PlaceShape(g, items[|items| - 1], size, limit);
      if LastLength(g) <= LastLength(short) { ShorterLast(g, short, init, size); }
    }
  }

  /** No other legal way of cutting the items into consecutive pieces uses fewer of them. */
  lemma GreedyMinimal<T>(items: seq<T>, size: T -> nat, limit: nat, other: seq<seq<T>>)
    requires LegalSplit(other, items, size, limit)
    ensures |Greedy(items, size, limit)| <= |other|
  {
    GreedyBest(items, size, limit, other);
  }
}
