/** Shifts and bitwise "and" of non-negative integers. */
module Bits {

  function Pow2(n: nat): (p: nat)
    ensures p > 0
  {
    if n == 0 then 1 else 2 * Pow2(n - 1)
  }

  function Shl(x: nat, n: nat): nat {
    if n == 0 then x else 2 * Shl(x, n - 1)
  }

  function Shr(x: nat, n: nat): nat {
    if n == 0 then x else Shr(x / 2, n - 1)
  }

  function And(a: nat, b: nat): nat {
    if a == 0 || b == 0 then 0 else 2 * And(a / 2, b / 2) + (if a % 2 == 1 && b % 2 == 1 then 1 else 0)
  }

  lemma {:induction false} MulAway(d: int, k: nat)
    requires d > 0
    ensures k >= 1 ==> d * k >= d
  {
    if k > 1 {
      MulAway(d, k - 1);
      assert d * k == d * (k - 1) + d;
    }
  }

  /** There is only one way to divide. */
  lemma DivIs(x: nat, d: nat, q: nat, r: nat)
    requires d > 0 && x == d * q + r && r < d
    ensures x / d == q
  {
    var p, s := x / d, x % d;
    assert x == d * p + s;
    if p > q {
      assert d * (p - q) == d * p - d * q;
      MulAway(d, p - q);
    } else if q > p {
      assert d * (q - p) == d * q - d * p;
      MulAway(d, q - p);
    }
  }

  /** Shifting right is dividing by a power of two. */
  lemma {:induction false} ShrDivides(x: nat, n: nat)
    ensures Shr(x, n) == x / Pow2(n)
  {
    if n > 0 {
      ShrDivides(x / 2, n - 1);
      HalveFirst(x, Pow2(n - 1));
    }
  }

  lemma HalveFirst(x: nat, d: nat)
    requires d > 0
    ensures x / (2 * d) == x / 2 / d
  {
    var q := x / 2;
    var p, s := q / d, q % d;
    assert q == d * p + s;
    assert 2 * (d * p) == (2 * d) * p;
    DivIs(x, 2 * d, p, 2 * s + x % 2);
  }

  lemma {:induction false} ShrTwice(x: nat, a: nat, b: nat)
    ensures Shr(Shr(x, a), b) == Shr(x, a + b)
  {
    if a > 0 {
      ShrTwice(x / 2, a - 1, b);
    }
  }

  lemma {:induction false} ShlInjective(x: nat, y: nat, n: nat)
    requires Shl(x, n) == Shl(y, n)
    ensures x == y
  {
    if n > 0 {
      ShlInjective(x, y, n - 1);
    }
  }

  lemma AndOdd(x: nat, m: nat)
    ensures And(x, 2 * m + 1) == 2 * And(x / 2, m) + x % 2
  {
  }

  lemma {:induction false} AndOnes(x: nat, n: nat)
    requires x < Pow2(n)
    ensures And(x, Pow2(n) - 1) == x
  {
    if n > 0 && x > 0 {
      AndOnes(x / 2, n - 1);
      AndOdd(x, Pow2(n - 1) - 1);
    }
  }

  lemma {:induction false} AndShift(x: nat, m: nat, n: nat)
    ensures And(x, Shl(m, n)) == Shl(And(Shr(x, n), m), n)
  {
    if n > 0 {
      AndShift(x / 2, m, n - 1);
      assert And(x, 2 * Shl(m, n - 1)) == 2 * And(x / 2, Shl(m, n - 1));
    }
  }

  lemma {:induction false} ShrBelow(x: nat, n: nat)
    ensures Shr(x, n) <= x
  {
    if n > 0 {
      ShrBelow(x / 2, n - 1);
    }
  }

  /** A mask of eight ones shifted left compares exactly the top bits of two bytes. */
  lemma MaskCompares(x: nat, y: nat, n: nat)
    requires x < 256 && y < 256
    ensures And(x, Shl(255, n)) == And(y, Shl(255, n)) <==> Shr(x, n) == Shr(y, n)
  {
    assert Pow2(8) == 256;
    AndShift(x, 255, n);
    AndShift(y, 255, n);
    ShrBelow(x, n);
    ShrBelow(y, n);
    AndOnes(Shr(x, n), 8);
    AndOnes(Shr(y, n), 8);
    if And(x, Shl(255, n)) == And(y, Shl(255, n)) {
      ShlInjective(Shr(x, n), Shr(y, n), n);
    }
  }

  /** Shifting right loses low bits only. */
  lemma {:induction false} ShrSplits(high: nat, low: nat, width: nat, n: nat)
    requires low < Pow2(width) && n <= width
    ensures Shr(Shl(high, width) + low, n) == Shl(high, width - n) + Shr(low, n)
    ensures Shr(low, n) < Pow2(width - n)
  {
    if n > 0 {
      ShrSplits(high, low / 2, width - 1, n - 1);
      assert (2 * Shl(high, width - 1) + low) / 2 == Shl(high, width - 1) + low / 2;
    }
  }

  lemma {:induction false} PartsDiffer(a: nat, x: nat, b: nat, y: nat, n: nat)
    requires x < Pow2(n) && y < Pow2(n)
    ensures Shl(a, n) + x == Shl(b, n) + y <==> a == b && x == y
  {
    if n > 0 {
      PartsDiffer(a, x / 2, b, y / 2, n - 1);
      assert (2 * Shl(a, n - 1) + x) / 2 == Shl(a, n - 1) + x / 2;
      assert (2 * Shl(b, n - 1) + y) / 2 == Shl(b, n - 1) + y / 2;
    }
  }
}
