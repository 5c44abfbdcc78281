/** Difficulties, kept as the targets they stand for, and the targets that give a share rate. */
module Difficulties {
  import opened Options
  import opened Powers
  import opened Wide

  /** The target of difficulty one, `0xFFFF << 208`: its highest word is `0xFFFF0000`. */
  const TARGET_MAX: u256 := 0xFFFF_0000 * LIMB * LIMB * LIMB

  datatype Ordering = Less | Equal | Greater

  /** Smaller target, higher difficulty: the comparison is the other way round. */
  datatype Difficulty = Difficulty(target: u256) {
    function Cmp(other: Difficulty): Ordering {
      if other.target < target then Less else if other.target == target then Equal else Greater
    }

    predicate Accepts(hash: nat) {
      hash <= target
    }
  }

  /** How long a share takes on average, in seconds: 2^32 hashes for each unit of difficulty. */
  function ExpectedSeconds(target: nat, rate: nat): real
    requires target > 0 && rate > 0
  {
    TARGET_MAX as real / target as real * 4294967296.0 / rate as real
  }

  /** That time is more than a `Duration` holds: converting it panics. A target of nought is caught before. */
  predicate BeyondDuration(target: nat, rate: nat) {
    target > 0 && rate > 0 && 0x1_0000_0000 * (rate * target) <= TARGET_MAX
  }

  /** A `Duration` holds less than 2^64 seconds. */
  lemma BeyondDurationMeans(target: nat, rate: nat)
    requires target > 0 && rate > 0
    ensures BeyondDuration(target, rate) <==> ExpectedSeconds(target, rate) >= 18446744073709551616.0
  {
    var t, r, m := target as real, rate as real, TARGET_MAX as real;
    var x := ExpectedSeconds(target, rate);
    assert (rate * target) as real == r * t;
    SecondsScaled(m, t, r, x);
    RealMulLess(x, 18446744073709551616.0, r * t);
  }

  lemma SecondsScaled(m: real, t: real, r: real, x: real)
    requires t > 0.0 && r > 0.0 && x == m / t * 4294967296.0 / r
    ensures r * t > 0.0 && x * (r * t) == m * 4294967296.0
  {
    var d := m / t;
    assert d * t == m;
    assert x * r == d * 4294967296.0;
    assert x * (r * t) == (x * r) * t;
  }

  /** A pool that sets a difficulty of 2^96 or more makes that so at every hashrate. */
  lemma HardAtEveryRate(f: F64, rate: limb)
    requires f.Positive() && f.Value() >= 79228162514264337593543950336.0
    requires rate > 0 && OfFloat(f).target > 0
    ensures BeyondDuration(OfFloat(f).target, rate)
  {
    var target, v, m := OfFloat(f).target, f.Value(), TARGET_MAX as real;
    QuotientIsFloor(TARGET_MAX, f);
    FloorTimes(m, v, Quotient(TARGET_MAX, f));
    RealMulMono(79228162514264337593543950336.0, v, target as real);
    assert rate * target <= LIMB * target by { MulMono(rate, LIMB, target); }
  }

  /** A target of nought, or above that of difficulty 2^32, is so at none. */
  lemma EasyAtEveryRate(target: nat, rate: nat)
    requires target == 0 || 0x1_0000_0000 * target > TARGET_MAX
    ensures !BeyondDuration(target, rate)
  {
    if rate > 0 {
      MulMono(1, rate, target);
    }
  }

  lemma FloorTimes(m: real, v: real, q: int)
    requires v > 0.0 && q == (m / v).Floor
    ensures v * q as real <= m
  {
    RealMulMono(q as real, m / v, v);
  }

  function FromU64(diff: limb): Difficulty {
    if diff == 0 then Difficulty(TARGET_MAX)
    else DivSmaller(TARGET_MAX, diff); Difficulty(TARGET_MAX / diff)
  }

  /** What a float difficulty stands for. */
  function OfFloat(value: F64): Difficulty {
    Difficulty(if value.Positive() then Saturate(Quotient(TARGET_MAX, value)) else TARGET_MAX)
  }

  method FromF64(value: F64) returns (d: Difficulty)
    requires value.Valid()
    ensures d == OfFloat(value)
  {
    if !value.Finite? || value.negative || value.mantissa == 0 {
      return Difficulty(TARGET_MAX);
    }
    var target := DivF64(TARGET_MAX, value);
    d := Difficulty(target.value);
  }

  /**
   * The two constructors agree on every positive integer that a float can hold, and every
   * integer from 1 to 2^53 is one.
   */
  lemma ConstructorsAgree(n: limb, f: F64)
    requires n > 0 && f.Positive() && f.Value() == n as real
    ensures OfFloat(f) == FromU64(n)
  {
    QuotientByInteger(TARGET_MAX, f, n);
    DivSmaller(TARGET_MAX, n);
  }

  lemma IntegersExact(n: limb)
    requires 1 <= n <= 2 * HIDDEN_BIT
    ensures exists f: F64 :: f.Valid() && f.Positive() && f.Value() == n as real && OfFloat(f) == FromU64(n)
  {
    var f := IntegerAsFloat(n);
    ConstructorsAgree(n, f);
  }

  /** The target of a positive float is the floor of the exact ratio, as far as 256 bits hold it. */
  lemma TargetIsRatio(f: F64)
    requires f.Positive()
    ensures f.Value() > 0.0
    ensures var q := (TARGET_MAX as real / f.Value()).Floor;
            OfFloat(f).target == if q <= MAX256 then q else MAX256
  {
    QuotientIsFloor(TARGET_MAX, f);
  }

  /** That of an integer likewise, and nought stands for one. */
  lemma IntegerTargetIsRatio(n: limb)
    ensures n > 0 ==> FromU64(n).target * n <= TARGET_MAX < (FromU64(n).target + 1) * n
    ensures FromU64(0) == FromU64(1)
  {
    if n > 0 {
      DivBounds(TARGET_MAX, n);
    }
  }

  /** The order says what it means: no easier is to accept no hash the other refuses. */
  lemma OrderIsAcceptance(a: Difficulty, b: Difficulty)
    ensures a.Cmp(b) != Less <==> forall hash: nat :: a.Accepts(hash) ==> b.Accepts(hash)
    ensures a.Cmp(b) == Equal <==> a == b
  {
    if a.Cmp(b) == Less {
      assert a.Accepts(a.target) && !b.Accepts(a.target);
    }
  }

  /** Greater integers are never lower difficulties; nought counts as one. */
  lemma FromU64Ordered(a: limb, b: limb)
    requires a <= b
    ensures FromU64(a).Cmp(FromU64(b)) != Greater
    ensures FromU64(0) == FromU64(1)
  {
    if a > 0 {
      var q := TARGET_MAX / b;
      DivBounds(TARGET_MAX, b);
      MulMono(a, b, q);
      DivAtLeast(TARGET_MAX, a, q);
    } else if b > 0 {
      DivSmaller(TARGET_MAX, b);
    }
  }

  lemma FromF64Ordered(f: F64, g: F64)
    requires f.Positive() && g.Positive() && f.Value() <= g.Value()
    ensures OfFloat(f).Cmp(OfFloat(g)) != Greater
  {
    QuotientAntitone(TARGET_MAX, f, g);
  }

  /**
   * A float that is not positive and finite stands for difficulty one, so it is harder than
   * a positive difficulty exactly when that one is below one.
   */
  lemma NoughtAgainst(bad: F64, g: F64)
    requires !bad.Positive() && g.Valid() && g.Positive()
    ensures OfFloat(bad) == FromU64(1)
    ensures OfFloat(bad).Cmp(OfFloat(g)) == Greater <==> g.Value() < 1.0
  {
    if g.exponent >= 0 {
      ShlPositive(g.mantissa, g.exponent);
      ScaledUp(g.mantissa, g.exponent);
      DivSmaller(TARGET_MAX, Shl(g.mantissa, g.exponent));
    } else {
      ScaledDown(g.mantissa, -g.exponent);
      BelowOne(TARGET_MAX, g.mantissa, -g.exponent);
      RatioBelowOne(g.mantissa, Pow2(-g.exponent));
    }
  }

  /** By the same token it is easier than a positive difficulty exactly when that one is above one. */
  lemma InfinityAgainst(bad: F64, g: F64)
    requires !bad.Positive() && g.Positive()
    ensures OfFloat(bad).Cmp(OfFloat(g)) == Less <==> g.Value() > 1.0
  {
    QuotientIsFloor(TARGET_MAX, g);
    DividedByOneOrLess(TARGET_MAX as real, g.Value());
  }

  lemma DividedByOneOrLess(a: real, v: real)
    requires a > 0.0 && v > 0.0
    ensures a / v < a <==> v > 1.0
  {
    var x := a / v;
    assert x * v == a;
    RealMulLess(1.0, v, a);
    RealMulLess(x, a, v);
    assert v * a == a * v;
  }

  /** The order of floats, infinities included; a NaN is in no order with anything. */
  predicate AtMost(f: F64, g: F64) {
    && !f.Nan? && !g.Nan?
    && ((f.Infinite? && f.negative) || (g.Infinite? && !g.negative)
        || (f.Finite? && g.Finite? && f.Value() <= g.Value()))
  }

  /**
   * The constructor keeps the order of two floats unless it crosses nought or infinity: the
   * order is reversed exactly when the lesser is not positive and the greater below one, or
   * the greater is infinite and the lesser, finite, above one.
   */
  lemma OrderKeptExactlyWhen(f: F64, g: F64)
    requires f.Valid() && g.Valid() && AtMost(f, g)
    ensures OfFloat(f).Cmp(OfFloat(g)) != Greater <==>
            && !(!f.Positive() && g.Positive() && g.Value() < 1.0)
            && !(f.Positive() && g.Infinite? && f.Value() > 1.0)
  {
    if f.Positive() {
      QuotientIsFloor(TARGET_MAX, f);
      if g.Finite? {
        PositiveValue(g);
        FromF64Ordered(f, g);
      } else {
        InfinityAgainst(g, f);
      }
    } else if g.Positive() {
      NoughtAgainst(f, g);
    }
  }

  /** Both failures occur: nought against a half, and two against infinity. */
  lemma OrderBroken()
    ensures var nought, half := Finite(false, 0, -1075), Finite(false, HIDDEN_BIT, -53);
            nought.Valid() && half.Valid() && AtMost(nought, half) && OfFloat(nought).Cmp(OfFloat(half)) == Greater
    ensures var two, infinity := Finite(false, HIDDEN_BIT, -51), Infinite(false);
            two.Valid() && AtMost(two, infinity) && OfFloat(two).Cmp(OfFloat(infinity)) == Greater
  {
    var nought, half, two := Finite(false, 0, -1075), Finite(false, HIDDEN_BIT, -53), Finite(false, HIDDEN_BIT, -51);
    HiddenBit();
    assert Pow2(53) == 2 * Pow2(52) && Pow2(52) == 2 * Pow2(51);
    ScaledDown(HIDDEN_BIT, 53);
    ScaledDown(HIDDEN_BIT, 51);
    assert half.Value() == 0.5 && two.Value() == 2.0;
    ScaledAway(0.0, -1075);
    OrderKeptExactlyWhen(nought, half);
    OrderKeptExactlyWhen(two, Infinite(false));
  }

  lemma RatioBelowOne(m: nat, p: nat)
    requires p > 0
    ensures m as real / p as real < 1.0 <==> m < p
  {
    var x := m as real / p as real;
    assert x * p as real == m as real;
    RealMulLess(x, 1.0, p as real);
  }

  /**
   * Dividing by a fraction below one gives more than the dividend, once the dividend has as many
   * bits as the fraction.
   */
  lemma BelowOne(a: u256, m: nat, shift: nat)
    requires 0 < m < 2 * HIDDEN_BIT && a >= 2 * HIDDEN_BIT && a < MAX256
    ensures Saturate(Shl(a, shift) / m) > a <==> m < Pow2(shift)
  {
    ShlMultiplies(a, shift);
    FractionQuotient(a, Pow2(shift), m);
  }

  lemma FractionQuotient(a: nat, p: nat, m: nat)
    requires 0 < m <= a
    ensures a * p / m > a <==> m < p
  {
    if m < p {
      MulMono(m + 1, p, a);
      assert (a + 1) * m <= a * (m + 1);
      DivAtLeast(a * p, m, a + 1);
    } else {
      MulMono(p, m, a);
      DivBelow(a * p, m, a);
    }
  }

  lemma DivBelow(n: nat, d: nat, q: nat)
    requires d > 0 && n <= q * d
    ensures n / d <= q
  {
    DivBounds(n, d);
    if n / d > q {
      MulMono(q + 1, n / d, d);
    }
  }
}
