/** Powers of two and the binary digits of numbers. */
module Bits {

  function Pow2(n: nat): (p: nat)
    ensures p > 0
  {
    if n == 0 then 1 else 2 * Pow2(n - 1)
  }

  lemma {:induction false} Pow2Add(a: nat, b: nat)
    ensures Pow2(a + b) == Pow2(a) * Pow2(b)
    decreases a
  {
    if a > 0 {
      Pow2Add(a - 1, b);
      assert Pow2(a + b) == 2 * Pow2(a - 1 + b);
      assert 2 * (Pow2(a - 1) * Pow2(b)) == (2 * Pow2(a - 1)) * Pow2(b);
    }
  }

  /** Bit `i` of a number, as `n & (1 << i)` tests it. */
  predicate Bit(n: nat, i: nat) {
    if i == 0 then n % 2 == 1 else Bit(n / 2, i - 1)
  }

  /** The bitwise or. */
  function Or(a: nat, b: nat): nat
    decreases a + b
  {
    if a == 0 then b
    else if b == 0 then a
    else (if a % 2 == 1 || b % 2 == 1 then 1 else 0) + 2 * Or(a / 2, b / 2)
  }

  lemma {:induction false} OrBits(a: nat, b: nat, i: nat)
    ensures Bit(Or(a, b), i) <==> Bit(a, i) || Bit(b, i)
    decreases i
  {
    ZeroBits(i);
    if a > 0 && b > 0 && i > 0 {
      var low := if a % 2 == 1 || b % 2 == 1 then 1 else 0;
      assert Or(a, b) / 2 == Or(a / 2, b / 2) by { assert Or(a, b) == low + 2 * Or(a / 2, b / 2); }
      OrBits(a / 2, b / 2, i - 1);
    }
  }

  lemma {:induction false} ZeroBits(i: nat)
    ensures !Bit(0, i)
  {
    if i > 0 { ZeroBits(i - 1); }
  }

  /** Bit `i` in arithmetic: the last digit after dividing by two to the `i`. */
  lemma {:induction false} BitIs(n: nat, i: nat)
    ensures Bit(n, i) <==> n / Pow2(i) % 2 == 1
    decreases i
  {
    if i > 0 {
      BitIs(n / 2, i - 1);
      DivTwice(n, 2, Pow2(i - 1));
    }
  }

  lemma DivTwice(n: nat, a: nat, b: nat)
    requires a > 0 && b > 0
    ensures a * b > 0
    ensures n / a / b == n / (a * b)
  {
    MulMonotone(a, 1, b);
    var q := n / a;
    DivParts(n, a);
    DivParts(q, b);
    Compose(n, a, b, q, n % a, q / b, q % b);
    ModUnique(n, a * b, q / b, a * (q % b) + n % a);
  }

  lemma DivParts(n: nat, d: nat)
    requires d > 0
    ensures n == d * (n / d) + n % d && n % d < d
  {
  }

  lemma Compose(n: nat, a: nat, b: nat, q: nat, r: nat, q': nat, r': nat)
    requires n == a * q + r && r < a && q == b * q' + r' && r' < b
    ensures a * r' >= 0 && n == (a * b) * q' + (a * r' + r) && a * r' + r < a * b
  {
    Regroup(a, b, q', r');
    MulMonotone(a, r' + 1, b);
    assert a * (r' + 1) == a * r' + a;
  }

  lemma Regroup(a: nat, b: nat, q: nat, r: nat)
    ensures a * (b * q + r) == (a * b) * q + a * r
  {
    assert a * (b * q) == (a * b) * q;
  }

  /** Quotient and remainder are unique. */
  lemma ModUnique(n: nat, d: nat, q: nat, r: nat)
    requires d > 0 && n == d * q + r && r < d
    ensures n % d == r && n / d == q
  {
    var q', r' := n / d, n % d;
    assert d * q' + r' == d * q + r;
    MulMonotone(d, q' + 1, q);
    MulMonotone(d, q + 1, q');
    assert d * (q' + 1) == d * q' + d && d * (q + 1) == d * q + d;
  }

  lemma MulMonotone(d: nat, a: nat, b: nat)
    ensures a <= b ==> d * a <= d * b
  {
  }

  lemma {:induction false} PowerBits(i: nat, j: nat)
    ensures Bit(Pow2(i), j) <==> i == j
  {
    if i == 0 {
      if j > 0 { ZeroBits(j - 1); }
    } else if j > 0 {
      assert Pow2(i) / 2 == Pow2(i - 1);
      PowerBits(i - 1, j - 1);
    }
  }

  lemma {:induction false} OrBelow(a: nat, b: nat, width: nat)
    requires a < Pow2(width) && b < Pow2(width)
    ensures Or(a, b) < Pow2(width)
    decreases width
  {
    if a > 0 && b > 0 {
      OrBelow(a / 2, b / 2, width - 1);
    }
  }

  /** Numbers without a common digit: one below a power of two, the other a multiple of it. */
  lemma {:induction false} OrDisjoint(low: nat, x: nat, shift: nat)
    requires low < Pow2(shift)
    ensures Or(low, x * Pow2(shift)) == low + x * Pow2(shift)
    decreases shift
  {
    if shift > 0 && low > 0 && x > 0 {
      var half := x * Pow2(shift - 1);
      assert x * Pow2(shift) == 2 * half;
      OrDisjoint(low / 2, x, shift - 1);
    } else if x == 0 {
      assert x * Pow2(shift) == 0;
    }
  }
}
