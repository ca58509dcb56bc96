/**
 How far a player travels: the exact product of elapsed device time and a
 speed, rounded once.  A speed is a double as its bits decode it, an integer
 mantissa scaled by a power of two.
 */
module Speed {
  import opened Integers

  datatype Float =
    | Finite(negative: bool, mantissa: nat, exponent: int)
    | Infinite(below: bool)
    | NotANumber
  {
    /** What 64 bits decode to: below the least exponent's scale the leading
        bit of the mantissa may be missing, above it never is. */
    predicate Valid() {
      Finite? ==>
        && mantissa < 0x20_0000_0000_0000
        && -1074 <= exponent <= 971
        && (exponent > -1074 ==> mantissa >= 0x10_0000_0000_0000)
    }

    /** `speed < 0.0`: a negative zero is not below zero. */
    predicate BelowZero() {
      (Finite? && negative && mantissa > 0) || (Infinite? && below)
    }

    /** `speed >= 0.0`: not a number is neither. */
    predicate AtLeastZero() {
      !NotANumber? && !BelowZero()
    }

    /** `speed == 0.0 || !speed.is_finite()`. */
    predicate Still() {
      !Finite? || mantissa == 0
    }

    /** |speed|, exactly. */
    function Magnitude(): real
      requires Finite?
    {
      if exponent >= 0 then (mantissa * Pow2(exponent)) as real
      else mantissa as real / Pow2(-exponent) as real
    }
  }

  /** The fastest speed the engine accepts, 2^20. */
  const MAX_SPEED: real := 1048576.0

  const SATURATED: i128 := 0x1FFF_FFFF_FFFF_FFFF_FFFF_FFFF_FFFF_FFFF

  /** Half up, to a whole nanosecond. */
  function Rounded(x: real): int {
    (x + 0.5).Floor
  }

  /** What the product stays below, 2^117: the mantissa is below 2^53. */
  const PRODUCT_BOUND: int := 0x20_0000_0000_0000_0000_0000_0000_0000

  /** What a distance stays below, 2^126. */
  const DISTANCE_BOUND: int := 0x4000_0000_0000_0000_0000_0000_0000_0000

  lemma ProductFits(elapsed: int, mantissa: int)
    requires 0 <= elapsed < TWO_TO_THE_64 && 0 <= mantissa < 0x20_0000_0000_0000
    ensures 0 <= elapsed * mantissa < PRODUCT_BOUND
  {
    assert elapsed * mantissa <= elapsed * 0x20_0000_0000_0000;
    assert elapsed * 0x20_0000_0000_0000 < PRODUCT_BOUND;
  }

  lemma ScaledFits(product: int, scale: int)
    requires 0 <= product < PRODUCT_BOUND && 1 <= scale <= 512
    ensures 0 <= product * scale < DISTANCE_BOUND
  {
    ProductBound(product, scale, PRODUCT_BOUND, 513);
    ProductGrows(product, scale, 512);
  }

  lemma QuotientFits(dividend: int, divisor: int)
    requires dividend >= 0 && divisor >= 1
    ensures 0 <= dividend / divisor <= dividend
  {
    QuotientMonotone(0, dividend, divisor);
    var q := dividend / divisor;
    ProductGrows(q, 1, divisor);
    assert dividend == divisor * q + dividend % divisor;
  }

  lemma QuotientMonotone(a: int, b: int, d: int)
    requires a <= b && d > 0
    ensures a / d <= b / d
  {
    var p, q := a / d, b / d;
    assert a == d * p + a % d && b == d * q + b % d;
    if p > q {
      ProductGrows(d, q + 1, p);
      assert false;
    }
  }

  /** Every intermediate below is an `i128`, so none overflows. */
  function Travel(elapsed: i128, speed: Float): (r: i128)
    requires (elapsed as int) < TWO_TO_THE_64 && speed.Valid()
    ensures 0 <= r as int < DISTANCE_BOUND
  {
    if elapsed <= 0 || speed.Still() then 0
    else
      ProductFits(elapsed as int, speed.mantissa);
      LargePowers();
      var product: i128 := elapsed * (speed.mantissa as i128);
      if speed.exponent >= 0 then
        if speed.exponent <= 9 then
          Pow2Monotone(speed.exponent, 9);
          ScaledFits(product as int, Pow2(speed.exponent));
          product * (Pow2(speed.exponent) as i128)
        else SATURATED
      else
        var shift := -speed.exponent;
        if shift > 118 then 0
        else
          Pow2Monotone(shift - 1, 117);
          Pow2Monotone(shift, 118);
          QuotientFits(product as int + Pow2(shift - 1), Pow2(shift));
          (product + (Pow2(shift - 1) as i128)) / (Pow2(shift) as i128)
  }

  /** The distance the documentation promises: elapsed time, none before the
      start, times the speed, rounded. */
  function Promised(elapsed: int, speed: Float): (r: int)
    requires speed.Finite?
  {
    Rounded(Max(elapsed, 0) as real * speed.Magnitude())
  }

  lemma RoundedWhole(n: int)
    ensures Rounded(n as real) == n
  {
  }

  lemma QuotientIs(n: real, w: real, q: real)
    requires w != 0.0 && n == q * w
    ensures n / w == q
  {
    var other := n / w;
    assert (other - q) * w == 0.0;
  }

  lemma QuotientAddsHalf(p: real, w: real)
    requires w != 0.0
    ensures p / w + 0.5 == (p + 0.5 * w) / w
  {
    var q := p / w;
    assert q * w == p;
    QuotientIs(p + 0.5 * w, w, q + 0.5);
  }

  /** Adding half the divisor before an integer division rounds half up. */
  lemma RoundedQuotient(product: int, shift: nat)
    requires shift > 0
    ensures Rounded(product as real / Pow2(shift) as real) == (product + Pow2(shift - 1)) / Pow2(shift)
  {
    var half, whole := Pow2(shift - 1), Pow2(shift);
    var p, w := product as real, whole as real;
    assert half as real == 0.5 * w;
    QuotientAddsHalf(p, w);
    assert (product + half) as real == p + 0.5 * w;
    FloorOfQuotient(product + half, whole);
  }

  /** A product below half its divisor rounds to nothing. */
  lemma TinyRoundsToNothing(product: int, shift: nat)
    requires 0 <= product < PRODUCT_BOUND && shift > 118
    ensures Rounded(product as real / Pow2(shift) as real) == 0
  {
    LargePowers();
    Pow2Monotone(118, shift);
    var x := product as real / Pow2(shift) as real;
    assert 0.0 <= x < 0.5 by {
      assert product as real < 0.5 * Pow2(shift) as real;
    }
  }

  lemma ProductAsReal(a: int, b: int)
    ensures (a * b) as real == a as real * b as real
  {
  }

  lemma QuotientScales(e: real, m: real, s: real)
    requires s != 0.0
    ensures e * (m / s) == (e * m) / s
  {
    assert (e * (m / s)) * s == e * ((m / s) * s);
    assert (m / s) * s == m;
  }

  lemma ScaledUp(elapsed: int, speed: Float)
    requires speed.Finite? && speed.exponent >= 0
    ensures elapsed as real * speed.Magnitude() == (elapsed * speed.mantissa * Pow2(speed.exponent)) as real
  {
    var whole := speed.mantissa * Pow2(speed.exponent);
    ProductAsReal(elapsed, whole);
    Associates(elapsed, speed.mantissa, Pow2(speed.exponent));
  }

  lemma ScaledDown(elapsed: int, speed: Float)
    requires speed.Finite? && speed.exponent < 0
    ensures elapsed as real * speed.Magnitude()
            == (elapsed * speed.mantissa) as real / Pow2(-speed.exponent) as real
  {
    ProductAsReal(elapsed, speed.mantissa);
    QuotientScales(elapsed as real, speed.mantissa as real, Pow2(-speed.exponent) as real);
  }

  lemma Associates(a: int, b: int, c: int)
    ensures a * (b * c) == a * b * c
  {
  }

  /** An even number is not the saturated distance, which is odd. */
  lemma ScaledIsNotSaturated(product: int, exponent: nat)
    requires exponent > 9
    ensures product * Pow2(exponent) != SATURATED as int
  {
    assert product * Pow2(exponent) == 2 * (product * Pow2(exponent - 1));
  }

  lemma NothingToTravel(elapsed: int, speed: Float)
    requires speed.Finite? && (elapsed <= 0 || speed.mantissa == 0)
    ensures Promised(elapsed, speed) == 0
  {
    assert elapsed <= 0 || speed.Magnitude() == 0.0;
    ZeroProduct(Max(elapsed, 0) as real, speed.Magnitude());
    RoundedWhole(0);
  }

  lemma ZeroProduct(a: real, b: real)
    requires a == 0.0 || b == 0.0
    ensures a * b == 0.0
  {
  }

  lemma FastTravel(elapsed: i128, speed: Float)
    requires 0 < elapsed && (elapsed as int) < TWO_TO_THE_64 && speed.Valid() && !speed.Still()
    requires speed.exponent >= 0
    ensures Travel(elapsed, speed) as int == Promised(elapsed as int, speed) <==> speed.exponent <= 9
  {
    var product := elapsed as int * speed.mantissa;
    ScaledUp(elapsed as int, speed);
    RoundedWhole(product * Pow2(speed.exponent));
    if speed.exponent > 9 {
      ScaledIsNotSaturated(product, speed.exponent);
    }
  }

  lemma SlowTravel(elapsed: i128, speed: Float)
    requires 0 < elapsed && (elapsed as int) < TWO_TO_THE_64 && speed.Valid() && !speed.Still()
    requires -118 <= speed.exponent < 0
    ensures Travel(elapsed, speed) as int == Promised(elapsed as int, speed)
  {
    ScaledDown(elapsed as int, speed);
    RoundedQuotient(elapsed as int * speed.mantissa, -speed.exponent);
  }

  lemma BarelyTravel(elapsed: i128, speed: Float)
    requires 0 < elapsed && (elapsed as int) < TWO_TO_THE_64 && speed.Valid() && !speed.Still()
    requires speed.exponent < -118
    ensures Travel(elapsed, speed) as int == Promised(elapsed as int, speed)
  {
    ScaledDown(elapsed as int, speed);
    ProductFits(elapsed as int, speed.mantissa);
    TinyRoundsToNothing(elapsed as int * speed.mantissa, -speed.exponent);
  }

  /**
   The travel is the promised distance exactly below 2^62 times device time
   (an exponent of at most 9): from there on it is the saturated distance,
   which is never the promised one.
   */
  lemma TravelKeepsItsPromise(elapsed: i128, speed: Float)
    requires (elapsed as int) < TWO_TO_THE_64 && speed.Valid() && speed.Finite?
    ensures Travel(elapsed, speed) as int == Promised(elapsed as int, speed)
            <==> elapsed <= 0 || speed.mantissa == 0 || speed.exponent <= 9
  {
    if elapsed <= 0 || speed.mantissa == 0 {
      NothingToTravel(elapsed as int, speed);
    } else if speed.exponent >= 0 {
      FastTravel(elapsed, speed);
    } else if speed.exponent < -118 {
      BarelyTravel(elapsed, speed);
    } else {
      SlowTravel(elapsed, speed);
    }
  }

  /** Every speed the engine accepts travels exactly the promised distance. */
  lemma AcceptedSpeedsTravelExactly(elapsed: i128, speed: Float)
    requires (elapsed as int) < TWO_TO_THE_64 && speed.Valid() && speed.Finite?
    requires speed.Magnitude() <= MAX_SPEED
    ensures Travel(elapsed, speed) as int == Promised(elapsed as int, speed)
  {
    if speed.exponent >= 0 {
      ProductGrows(speed.mantissa, 1, Pow2(speed.exponent));
      assert false;
    }
    TravelKeepsItsPromise(elapsed, speed);
  }

  lemma FastTravelMonotone(shorter: i128, longer: i128, speed: Float)
    requires 0 < shorter <= longer && (longer as int) < TWO_TO_THE_64 && speed.Valid() && !speed.Still()
    requires 0 <= speed.exponent
    ensures Travel(shorter, speed) <= Travel(longer, speed)
  {
    ProductGrows(speed.mantissa, shorter as int, longer as int);
    if speed.exponent <= 9 {
      ProductGrows(Pow2(speed.exponent), shorter as int * speed.mantissa, longer as int * speed.mantissa);
    }
  }

  lemma SlowTravelMonotone(shorter: i128, longer: i128, speed: Float)
    requires 0 < shorter <= longer && (longer as int) < TWO_TO_THE_64 && speed.Valid() && !speed.Still()
    requires speed.exponent < 0
    ensures Travel(shorter, speed) <= Travel(longer, speed)
  {
    if -118 <= speed.exponent {
      ProductGrows(speed.mantissa, shorter as int, longer as int);
      var half := Pow2(-speed.exponent - 1);
      QuotientMonotone(shorter as int * speed.mantissa + half, longer as int * speed.mantissa + half,
                       Pow2(-speed.exponent));
    }
  }

  /** A longer time travels no less far, at any speed. */
  lemma TravelMonotone(shorter: i128, longer: i128, speed: Float)
    requires shorter <= longer && (longer as int) < TWO_TO_THE_64 && speed.Valid()
    ensures Travel(shorter, speed) <= Travel(longer, speed)
  {
    if shorter > 0 && !speed.Still() {
      if speed.exponent >= 0 {
        FastTravelMonotone(shorter, longer, speed);
      } else {
        SlowTravelMonotone(shorter, longer, speed);
      }
    }
  }
}
