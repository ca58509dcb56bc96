/** Machine integers of the widths a player counts nanoseconds in, and bounds on them. */
module Integers {
  const TWO_TO_THE_63: int := 0x8000_0000_0000_0000
  const TWO_TO_THE_64: int := 0x1_0000_0000_0000_0000
  const TWO_TO_THE_127: int := 0x8000_0000_0000_0000_0000_0000_0000_0000

  newtype i64 = x: int | -TWO_TO_THE_63 <= x < TWO_TO_THE_63
  newtype i128 = x: int | -TWO_TO_THE_127 <= x < TWO_TO_THE_127

  datatype Option<+T> = None | Some(value: T)

  function Min(a: int, b: int): int { if a <= b then a else b }

  function Max(a: int, b: int): int { if a >= b then a else b }

  function Abs(a: int): nat { if a < 0 then -a else a }

  function Pow2(n: nat): (p: int)
    ensures p > 0
  {
    if n == 0 then 1 else 2 * Pow2(n - 1)
  }

  lemma {:induction false} Pow2Adds(a: nat, b: nat)
    ensures Pow2(a + b) == Pow2(a) * Pow2(b)
  {
    if a > 0 {
      Pow2Adds(a - 1, b);
      assert Pow2(a + b) == 2 * (Pow2(a - 1) * Pow2(b));
    }
  }

  lemma {:induction false} Pow2Monotone(a: nat, b: nat)
    requires a <= b
    ensures Pow2(a) <= Pow2(b)
  {
    if a < b {
      Pow2Monotone(a, b - 1);
    }
  }

  lemma Doubled(n: nat, p: int)
    requires Pow2(n) == p
    ensures Pow2(n + n) == p * p && Pow2(n + n + 1) == 2 * (p * p)
  {
    Pow2Adds(n, n);
  }

  lemma LargePowers()
    ensures Pow2(9) == 512
    ensures Pow2(117) == 0x20_0000_0000_0000_0000_0000_0000_0000
    ensures Pow2(118) == 0x40_0000_0000_0000_0000_0000_0000_0000
  {
    var three: nat := 3;
    assert Pow2(0) == 1 && Pow2(1) == 2 && Pow2(2) == 4 && Pow2(three) == 8;
    Doubled(three, 8);
    var seven := three + three + 1;
    assert Pow2(seven + 1) == 256 && Pow2(seven + 2) == 512;
    Doubled(seven, 128);
    var fourteen := seven + seven;
    Doubled(fourteen, 0x4000);
    var twentyNine := fourteen + fourteen + 1;
    Doubled(twentyNine, 0x2000_0000);
    var fiftyEight := twentyNine + twentyNine;
    Doubled(fiftyEight, 0x400_0000_0000_0000);
    var next := fiftyEight + fiftyEight + 1;
    assert Pow2(next + 1) == 2 * Pow2(next);
  }

  /** Multiplication keeps the order of non-negative factors. */
  lemma ProductBound(a: int, b: int, m: int, n: int)
    requires 0 <= a < m && 0 <= b < n
    ensures 0 <= a * b < m * n
  {
    assert a * b <= a * n;
    assert a * n <= (m - 1) * n;
  }

  /** The floor of an exact quotient is the integer quotient. */
  lemma FloorOfQuotient(a: int, b: int)
    requires b > 0
    ensures (a as real / b as real).Floor == a / b
  {
    var q, r := a / b, a % b;
    assert a == b * q + r;
    assert a as real / b as real == q as real + r as real / b as real;
    assert 0.0 <= r as real / b as real < 1.0;
  }

  lemma ProductGrows(a: int, b: int, c: int)
    requires a >= 0 && b <= c
    ensures a * b <= a * c
  {
  }

  /** A quotient and a remainder are the only ones. */
  lemma DivisionIs(a: int, b: int, quotient: int, remainder: int)
    requires 0 <= remainder < b && a == b * quotient + remainder
    ensures a / b == quotient && a % b == remainder
  {
    var q := a / b;
    assert a == b * q + a % b;
    if q < quotient {
      ProductGrows(b, q + 1, quotient);
      assert false;
    } else if q > quotient {
      ProductGrows(b, quotient + 1, q);
      assert false;
    }
  }

  lemma RemainderOfDifference(a: int, b: int)
    requires b > 0
    ensures (a - b) % b == a % b
  {
    assert a == b * (a / b) + a % b;
    assert a - b == b * (a / b - 1) + a % b;
    DivisionIs(a - b, b, a / b - 1, a % b);
  }

  lemma RemainderBelow(a: int, b: int)
    requires 0 <= a < b
    ensures a % b == a
  {
    DivisionIs(a, b, 0, a);
  }
}
