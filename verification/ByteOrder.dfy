/** The lexicographic order on byte strings, by which every table is sorted. */
module ByteOrder {
  import opened Basics

  predicate Less(a: Key, b: Key)
    decreases |a|
  {
    b != [] && (a == [] || a[0] < b[0] || (a[0] == b[0] && Less(a[1..], b[1..])))
  }

  /**
    The order without recursion: up to position `n` the strings agree, and there the first one either ends
    or has the smaller byte.
   */
  ghost predicate Splits(a: Key, b: Key, n: nat) {
    n <= |a| && n < |b| && a[..n] == b[..n] && (n == |a| || a[n] < b[n])
  }

  ghost predicate Before(a: Key, b: Key) {
    exists n :: Splits(a, b, n)
  }

  /** The keys of a range, its start included and its end excluded. */
  ghost predicate InRange(k: Key, start: Key, end: Key) {
    !Before(k, start) && Before(k, end)
  }

  lemma {:induction false} LessSplits(a: Key, b: Key) returns (n: nat)
    requires Less(a, b)
    ensures Splits(a, b, n)
    decreases |a|
  {
    if a == [] || a[0] < b[0] {
      n := 0;
    } else {
      var m := LessSplits(a[1..], b[1..]);
      n := m + 1;
      assert a[..n] == [a[0]] + a[1..][..m] && b[..n] == [b[0]] + b[1..][..m];
    }
  }

  lemma {:induction false} SplitsLess(a: Key, b: Key, n: nat)
    requires Splits(a, b, n)
    ensures Less(a, b)
    decreases n
  {
    if n > 0 {
      assert a[0] == a[..n][0] && b[0] == b[..n][0];
      assert a[1..][..n - 1] == a[..n][1..] && b[1..][..n - 1] == b[..n][1..];
      SplitsLess(a[1..], b[1..], n - 1);
    }
  }

  /** The order is the lexicographic one, bytes compared as numbers, a proper prefix first. */
  lemma LessIsLexicographic()
    ensures forall a, b :: Less(a, b) <==> Before(a, b)
  {
    forall a, b ensures Less(a, b) <==> Before(a, b) {
      if Less(a, b) { var n := LessSplits(a, b); }
      if Before(a, b) {
        var n :| Splits(a, b, n);
        SplitsLess(a, b, n);
      }
    }
  }

  /** Two laws that fix it: a proper prefix comes first, and after a common prefix the smaller byte decides. */
  lemma LessFixed(p: Key, x: byte, y: byte, s: Key, t: Key)
    ensures Less(p, p + [x] + s)
    ensures x < y ==> Less(p + [x] + s, p + [y] + t)
  {
    assert (p + [x] + s)[..|p|] == p && (p + [y] + t)[..|p|] == p;
    SplitsLess(p, p + [x] + s, |p|);
    if x < y { SplitsLess(p + [x] + s, p + [y] + t, |p|); }
  }

  lemma {:induction false} LessIrreflexive(a: Key)
    ensures !Less(a, a)
    decreases |a|
  {
    if a != [] {
      LessIrreflexive(a[1..]);
    }
  }

  lemma {:induction false} LessTransitive(a: Key, b: Key, c: Key)
    requires Less(a, b) && Less(b, c)
    ensures Less(a, c)
    decreases |a|
  {
    if a != [] && a[0] == b[0] == c[0] {
      LessTransitive(a[1..], b[1..], c[1..]);
    }
  }

  lemma {:induction false} LessTotal(a: Key, b: Key)
    ensures Less(a, b) || a == b || Less(b, a)
    decreases |a|
  {
    if a != [] && b != [] && a[0] == b[0] {
      LessTotal(a[1..], b[1..]);
      assert a == [a[0]] + a[1..] && b == [b[0]] + b[1..];
    }
  }

  /** The three laws at once: `Less` is a strict total order on all byte strings. */
  lemma LessIsStrictTotalOrder()
    ensures forall a :: !Less(a, a)
    ensures forall a, b, c :: Less(a, b) && Less(b, c) ==> Less(a, c)
    ensures forall a, b :: Less(a, b) || a == b || Less(b, a)
  {
    forall a ensures !Less(a, a) { LessIrreflexive(a); }
    forall a, b, c | Less(a, b) && Less(b, c) ensures Less(a, c) { LessTransitive(a, b, c); }
    forall a, b ensures Less(a, b) || a == b || Less(b, a) { LessTotal(a, b); }
  }
}
