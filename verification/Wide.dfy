/** 256-bit integers, held in four words, divided by 64-bit floats. */
module Wide {
  import opened Options
  import opened Powers

  type u256 = x: int | 0 <= x < Span(4)

  const MAX256: u256 := Span(4) - 1

  lemma Spans()
    ensures Span(4) == Pow2(256) && Span(8) == Pow2(512)
  {
    SpanIsPow2(4);
    SpanIsPow2(8);
  }

  function LeadingZeros(v: u256): nat {
    Spans();
    BitLengthAtMost(v, 256);
    256 - BitLength(v)
  }

  function Saturate(q: nat): (r: u256) {
    if q < Span(4) then q else MAX256
  }

  // ------------------------------------------------------- shifted_div

  lemma ShiftTooFar(v: nat, shift: nat, w: nat)
    requires v > 0 && BitLength(v) + shift > 2 * w
    ensures Shl(v, shift) >= Pow2(w) * Pow2(w)
  {
    BitLengthBounds(v);
    var top := BitLength(v) - 1;
    ShlMono(Pow2(top), v, shift);
    ShlPow2(top, shift);
    Pow2Grows(w + w, top + shift);
    Pow2Sum(w, w);
  }

  lemma ShiftFits(v: nat, shift: nat, n: nat)
    requires v == 0 || BitLength(v) + shift <= n
    ensures Shl(v, shift) < Pow2(n)
  {
    ShlMultiplies(0, shift);
    if v > 0 {
      BitLengthBounds(v);
      ShlMono(v, Pow2(BitLength(v)), shift);
      ShlPow2(BitLength(v), shift);
      Pow2Grows(BitLength(v) + shift, n);
    }
  }

  lemma TooManyBits(v: u256, shift: nat)
    requires v > 0 && BitLength(v) + shift > 512
    ensures Shl(v, shift) >= Span(4) * Span(4)
  {
    ShiftTooFar(v, shift, 256);
    Spans();
  }

  /** Beyond 512 bits the quotient by a word saturates. */
  lemma EarlyExit(v: u256, shift: nat, divisor: limb)
    requires v > 0 && divisor > 0 && BitLength(v) + shift > 512
    ensures Saturate(Shl(v, shift) / divisor) == MAX256
  {
    TooManyBits(v, shift);
    DivTooBig(Shl(v, shift), divisor, Span(4));
  }

  /** Up to 512 bits the shift loses none. */
  lemma NoBitsLost(v: u256, shift: nat)
    requires v == 0 || BitLength(v) + shift <= 512
    ensures Truncate(Shl(v, shift), 8) == Shl(v, shift) < Span(8)
  {
    ShiftFits(v, shift, 512);
    Spans();
    LimbsRoundTrip(Shl(v, shift), 8);
  }

  /** The low words of the quotient are the result, unless a high word is not zero. */
  lemma QuotientWords(q: nat, limbs: seq<limb>)
    requires q < Span(8) && limbs == ToLimbs(q, 8)
    ensures Saturate(q) == if forall i :: 4 <= i < 8 ==> limbs[i] == 0 then FromLimbs(limbs[..4]) else MAX256
  {
    HighLimbs(q, 8, 4);
  }

  /**
   * `(self << shift) / divisor` in a 512-bit intermediate. The early exit is sound, the
   * shift loses no bits, and the result saturates exactly when it needs more than 256.
   */
  method ShiftedDiv(self: u256, shift: nat, divisor: limb) returns (r: u256)
    requires divisor > 0
    ensures r == Saturate(Shl(self, shift) / divisor)
  {
    if self != 0 {
      var selfBits := 256 - LeadingZeros(self);
      if selfBits + shift > 512 {
        EarlyExit(self, shift, divisor);
        return MAX256;
      }
    }
    var limbs512 := Widen(self);
    var wide := FromLimbs(limbs512[..]);
    var shifted := Truncate(Shl(wide, shift), 8);
    NoBitsLost(self, shift);
    DivSmaller(shifted, divisor);
    var result := shifted / divisor;
    var limbs := ToLimbs(result, 8);
    QuotientWords(result, limbs);
    r := Narrow(limbs);
  }

  method Widen(self: u256) returns (limbs512: array<limb>)
    ensures fresh(limbs512) && FromLimbs(limbs512[..]) == self
  {
    var limbs256 := ToLimbs(self, 4);
    limbs512 := new limb[8](_ => 0);
    for i := 0 to 4
      invariant limbs512[..i] == limbs256[..i]
      invariant forall k :: i <= k < 8 ==> limbs512[k] == 0
    {
      limbs512[i] := limbs256[i];
    }
    assert limbs512[..] == limbs256 + limbs512[4..];
    LimbsRoundTrip(self, 4);
    Widened(limbs256, limbs512[4..]);
  }

  /** The low four words, or the greatest value when a higher word is not zero. */
  method Narrow(limbs: seq<limb>) returns (r: u256)
    requires |limbs| == 8
    ensures r == if forall i :: 4 <= i < 8 ==> limbs[i] == 0 then FromLimbs(limbs[..4]) else MAX256
  {
    for i := 4 to 8
      invariant forall k :: 4 <= k < i ==> limbs[k] == 0
    {
      if limbs[i] != 0 {
        return MAX256;
      }
    }
    var narrow := new limb[4](_ => 0);
    for i := 0 to 4
      invariant narrow[..i] == limbs[..i]
    {
      narrow[i] := limbs[i];
    }
    assert narrow[..] == limbs[..4];
    LimbsBelow(limbs[..4]);
    r := FromLimbs(narrow[..]);
  }

  // -------------------------------------------------------------- floats

  /** The least mantissa of a normal float. */
  const HIDDEN_BIT: nat := 0x10_0000_0000_0000

  /** A number times a power of two. */
  function Scaled(x: real, exponent: int): real
    decreases if exponent < 0 then -exponent else exponent
  {
    if exponent == 0 then x
    else if exponent > 0 then 2.0 * Scaled(x, exponent - 1)
    else Scaled(x, exponent + 1) / 2.0
  }

  lemma {:induction false} ScaledUp(m: nat, e: nat)
    ensures Scaled(m as real, e) == Shl(m, e) as real
  {
    if e > 0 {
      ScaledUp(m, e - 1);
    }
  }

  lemma {:induction false} ScaledDown(m: nat, e: nat)
    ensures Scaled(m as real, 0 - e) == m as real / Pow2(e) as real
  {
    if e > 0 {
      ScaledDown(m, e - 1);
      HalfOf(m as real, Pow2(e - 1) as real);
      assert Pow2(e) as real == 2.0 * Pow2(e - 1) as real;
    }
  }

  lemma HalfOf(m: real, p: real)
    requires p > 0.0
    ensures m / p / 2.0 == m / (2.0 * p)
  {
    var x := m / p / 2.0;
    assert (m / p) * p == m;
    assert x * (2.0 * p) == (m / p) * p;
  }

  lemma {:induction false} ScaledSign(x: real, e: int)
    ensures x >= 0.0 ==> Scaled(x, e) >= 0.0
    decreases if e < 0 then -e else e
  {
    if e > 0 {
      ScaledSign(x, e - 1);
    } else if e < 0 {
      ScaledSign(x, e + 1);
    }
  }

  /** A 64-bit float taken apart as an integer mantissa and a power of two. */
  datatype F64 =
    | Nan
    | Infinite(negative: bool)
    | Finite(negative: bool, mantissa: nat, exponent: int)
  {
    /** The shapes decoding can give: normal floats, and subnormal ones with their fraction doubled. */
    predicate Valid() {
      Finite? ==>
        && -1075 <= exponent <= 971
        && mantissa < 2 * HIDDEN_BIT
        && (exponent > -1075 ==> mantissa >= HIDDEN_BIT)
        && (exponent == -1075 ==> mantissa % 2 == 0)
    }

    function Value(): real
      requires Finite?
    {
      Scaled(if negative then -(mantissa as real) else mantissa as real, exponent)
    }

    predicate Positive() {
      Finite? && !negative && mantissa > 0
    }
  }

  lemma {:induction false} ScaledAway(x: real, e: int)
    requires x <= 0.0
    ensures Scaled(x, e) <= 0.0
    decreases if e < 0 then -e else e
  {
    if e > 0 {
      ScaledAway(x, e - 1);
    } else if e < 0 {
      ScaledAway(x, e + 1);
    }
  }

  lemma PositiveValue(f: F64)
    requires f.Finite?
    ensures f.Value() > 0.0 ==> f.Positive()
  {
    if !f.Positive() {
      ScaledAway(if f.negative then -(f.mantissa as real) else f.mantissa as real, f.exponent);
    }
  }

  /** The integer quotient by a positive float, with nothing rounded but the result. */
  function Quotient(a: nat, f: F64): nat
    requires f.Positive()
  {
    if f.exponent >= 0 then
      ShlPositive(f.mantissa, f.exponent);
      DivSmaller(a, Shl(f.mantissa, f.exponent));
      a / Shl(f.mantissa, f.exponent)
    else
      DivSmaller(Shl(a, -f.exponent), f.mantissa);
      Shl(a, -f.exponent) / f.mantissa
  }

  lemma ShlPositive(m: nat, shift: nat)
    requires m > 0
    ensures Shl(m, shift) > 0
  {
    ShlMono(0, m, shift);
  }

  /** `None` is the panic on a divisor that is not finite and positive. */
  method DivF64(self: u256, rhs: F64) returns (q: Option<u256>)
    requires rhs.Valid()
    ensures q == if rhs.Positive() then Some(Saturate(Quotient(self, rhs))) else None
  {
    if !rhs.Finite? || rhs.negative || rhs.mantissa == 0 {
      return None;
    }
    var mantissa, exponent := rhs.mantissa, rhs.exponent;
    if exponent >= 0 {
      var shift := exponent;
      ShlPositive(mantissa, shift);
      QuotientFits(self, Shl(mantissa, shift));
      if shift + 53 > 256 {
        HugeDivisor(mantissa, shift);
        return Some(0);
      }
      DivisorFits(mantissa, shift);
      var divisor := Truncate(Shl(mantissa, shift), 4);
      return Some(self / divisor);
    } else {
      var r := ShiftedDiv(self, -exponent, mantissa);
      return Some(r);
    }
  }

  lemma HiddenBit()
    ensures Pow2(52) == HIDDEN_BIT
  {
    Pow2Twice(4, 0x10);
    Pow2Twice(8, 0x100);
    Pow2Twice(16, 0x1_0000);
    Pow2Sum(32, 20);
    Pow2Sum(16, 4);
  }

  lemma QuotientFits(a: u256, d: nat)
    requires d > 0
    ensures Saturate(a / d) == a / d
    ensures d >= Span(4) ==> a / d == 0
  {
    DivBounds(a, d);
    if d >= Span(4) {
      DivIs(a, d, 0);
    }
  }

  /** A divisor of more than 256 bits is above every dividend. */
  lemma HugeDivisor(m: nat, shift: nat)
    requires m >= HIDDEN_BIT && shift + 53 > 256
    ensures Shl(m, shift) >= Span(4)
  {
    HiddenBit();
    ShlMono(HIDDEN_BIT, m, shift);
    ShlPow2(52, shift);
    Pow2Grows(256, 52 + shift);
    Spans();
  }

  /** A divisor of at most 256 bits is built without losing any. */
  lemma DivisorFits(m: nat, shift: nat)
    requires m < 2 * HIDDEN_BIT && shift + 53 <= 256
    ensures Truncate(Shl(m, shift), 4) == Shl(m, shift)
  {
    HiddenBit();
    ShlMono(m, Pow2(53), shift);
    ShlPow2(53, shift);
    Pow2Grows(53 + shift, 256);
    Spans();
    LimbsRoundTrip(Shl(m, shift), 4);
  }

  // ------------------------------------------------ the meaning in reals

  lemma RealMulMono(a: real, b: real, c: real)
    requires a <= b && c >= 0.0
    ensures a * c <= b * c
  {
  }

  lemma RealMulLess(a: real, b: real, c: real)
    requires c > 0.0
    ensures a * c < b * c <==> a < b
  {
    if a < b {
      assert (b - a) * c > 0.0;
    } else {
      RealMulMono(b, a, c);
    }
  }

  lemma FloorOfRatio(n: nat, d: nat, x: real)
    requires d > 0 && x * d as real == n as real
    ensures x.Floor == n / d
  {
    var q := n / d;
    DivBounds(n, d);
    FloorBetween(n, d, q, x);
  }

  lemma FloorBetween(n: nat, d: nat, q: nat, x: real)
    requires d > 0 && x * d as real == n as real && q * d <= n < (q + 1) * d
    ensures x.Floor == q
  {
    AtMost(q, d, n, x);
    Below(n, q + 1, d, x);
    assert q as real <= x < q as real + 1.0;
  }

  lemma AtMost(q: nat, d: nat, n: nat, x: real)
    requires d > 0 && x * d as real == n as real && q * d <= n
    ensures q as real <= x
  {
    assert (q * d) as real == q as real * d as real;
    RealMulLess(x, q as real, d as real);
  }

  lemma Below(n: nat, q: nat, d: nat, x: real)
    requires d > 0 && x * d as real == n as real && n < q * d
    ensures x < q as real
  {
    assert (q * d) as real == q as real * d as real;
    RealMulLess(x, q as real, d as real);
  }

  /** The quotient is the floor of the exact ratio. */
  lemma QuotientIsFloor(a: nat, f: F64)
    requires f.Positive()
    ensures f.Value() > 0.0
    ensures Quotient(a, f) == (a as real / f.Value()).Floor
  {
    var m, v := f.mantissa, f.Value();
    if f.exponent >= 0 {
      var d := Shl(m, f.exponent);
      ShlPositive(m, f.exponent);
      ScaledUp(m, f.exponent);
      FloorOfRatio(a, d, a as real / v);
    } else {
      var p := Pow2(-f.exponent);
      ShlMultiplies(a, -f.exponent);
      ScaledDown(m, -f.exponent);
      ScaledRatio(a, p, m, v);
      FloorOfRatio(a * p, m, a as real / v);
    }
  }

  lemma ScaledRatio(a: nat, p: nat, m: nat, v: real)
    requires p > 0 && m > 0 && v == m as real / p as real
    ensures v > 0.0 && (a as real / v) * m as real == (a * p) as real
  {
    assert v * p as real == m as real;
    var x := a as real / v;
    assert x * v == a as real;
    assert x * m as real == (x * v) * p as real;
    assert (a * p) as real == a as real * p as real;
  }

  lemma RatioShrinks(a: real, v: real, w: real)
    requires a >= 0.0 && 0.0 < v <= w
    ensures a / w <= a / v
  {
    var x, y := a / v, a / w;
    assert x * v == a && y * w == a;
    if x < y {
      RealMulMono(v, w, y);
      assert x * v < y * v;
    }
  }

  /** A greater divisor never gives a greater quotient. */
  lemma QuotientAntitone(a: nat, f: F64, g: F64)
    requires f.Positive() && g.Positive() && f.Value() <= g.Value()
    ensures Quotient(a, g) <= Quotient(a, f)
  {
    QuotientIsFloor(a, f);
    QuotientIsFloor(a, g);
    RatioShrinks(a as real, f.Value(), g.Value());
  }

  /** Dividing by a float that is an integer is integer division. */
  lemma QuotientByInteger(a: nat, f: F64, n: nat)
    requires f.Positive() && n > 0 && f.Value() == n as real
    ensures Quotient(a, f) == a / n
  {
    QuotientIsFloor(a, f);
    FloorOfRatio(a, n, a as real / f.Value());
  }

  /** Every integer from 1 to 2^53 is a float. */
  lemma IntegerAsFloat(n: nat) returns (f: F64)
    requires 1 <= n <= 2 * HIDDEN_BIT
    ensures f.Valid() && f.Positive() && f.Value() == n as real
  {
    if n == 2 * HIDDEN_BIT {
      f := Finite(false, HIDDEN_BIT, 1);
      assert Shl(HIDDEN_BIT, 1) == 2 * Shl(HIDDEN_BIT, 0);
    } else {
      f := Normalized(n);
    }
  }

  lemma Normalized(n: nat) returns (f: F64)
    requires 1 <= n < 2 * HIDDEN_BIT
    ensures f.Valid() && f.Positive() && f.Value() == n as real
  {
    HiddenBit();
    assert Pow2(53) == 2 * Pow2(52);
    BitLengthAtMost(n, 53);
    BitLengthBounds(n);
    var shift := 53 - BitLength(n);
    ShlMultiplies(n, shift);
    ShlMono(n + 1, Pow2(BitLength(n)), shift);
    ShlMono(n, n + 1, shift);
    ShlPow2(BitLength(n), shift);
    ShlMono(Pow2(BitLength(n) - 1), n, shift);
    ShlPow2(BitLength(n) - 1, shift);
    f := Finite(false, Shl(n, shift), -shift);
    ScaledDown(f.mantissa, shift);
    IntegerRatio(n, Pow2(shift));
  }

  lemma IntegerRatio(n: nat, p: nat)
    requires p > 0
    ensures (n * p) as real / p as real == n as real
  {
    assert (n * p) as real == n as real * p as real;
  }
}
