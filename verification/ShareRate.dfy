/** Targets that give a share rate, and the clamp the scheduler puts on a source's target. */
module ShareRates {
  import opened Options
  import opened Powers
  import opened Wide

  /** 2^64, above every hashrate and every number of seconds a `Duration` holds. */
  const LIMIT: real := 18446744073709551616.0

  /** 2^130, above the products of rounded rates and intervals. */
  const RANGE: real := 1361129467683753853853498429727072845824.0

  /** An interval in seconds. */
  predicate Interval(seconds: real) {
    0.0 <= seconds <= LIMIT
  }

  predicate InRange(x: real) {
    0.0 <= x <= RANGE
  }

  /**
   * What is used of rounding to a float: it keeps the order, and at most doubles a number.
   * Rounding to nearest does both.
   */
  ghost predicate Rounds(round: real -> F64) {
    && (forall x {:trigger InRange(x)} :: InRange(x) ==>
          round(x).Finite? && round(x).Valid() && !round(x).negative && round(x).Value() <= 2.0 * x)
    && (forall x, y {:trigger InRange(x), InRange(y)} :: InRange(x) && InRange(y) && x <= y ==>
          round(x).Finite? && round(y).Finite? && round(x).Value() <= round(y).Value())
  }

  lemma RoundedUpTo(round: real -> F64, x: real, bound: real)
    requires Rounds(round) && 0.0 <= x <= bound <= RANGE
    ensures round(x).Finite? && round(x).Valid() && 0.0 <= round(x).Value() <= 2.0 * bound
  {
    assert InRange(x);
    NotNegative(round(x));
  }

  lemma NotNegative(f: F64)
    requires f.Finite? && !f.negative
    ensures f.Value() >= 0.0
  {
    ScaledSign(f.mantissa as real, f.exponent);
  }

  lemma RoundedInOrder(round: real -> F64, x: real, y: real)
    requires Rounds(round) && 0.0 <= x <= y <= RANGE
    ensures round(x).Finite? && round(x).Valid() && round(y).Finite? && round(y).Valid()
    ensures round(x).Value() <= round(y).Value()
  {
    assert InRange(x) && InRange(y);
  }

  function Product(r: real, s: real): real {
    r * s
  }

  /** A rate of `hashesPerSecond` for `seconds`: both factors and their product are rounded. */
  function HashesIn(round: real -> F64, hashesPerSecond: limb, seconds: real): F64
    requires Rounds(round) && Interval(seconds)
  {
    RoundedUpTo(round, hashesPerSecond as real, LIMIT);
    RoundedUpTo(round, seconds, LIMIT);
    round(Product(round(hashesPerSecond as real).Value(), round(seconds).Value()))
  }

  /** The whole of the target range when a share takes at most one hash. */
  function TargetFor(hashesPerShare: F64): Option<u256> {
    if hashesPerShare.Finite? && hashesPerShare.Value() <= 1.0 then Some(MAX256)
    else if hashesPerShare.Positive() then Some(Saturate(Quotient(MAX256, hashesPerShare)))
    else None
  }

  /** More hashes to a share never give a greater target. */
  lemma TargetAntitone(few: F64, many: F64)
    requires few.Finite? && many.Finite? && few.Value() <= many.Value()
    ensures TargetFor(few).Some? && TargetFor(many).Some?
    ensures TargetFor(many).value <= TargetFor(few).value
  {
    PositiveValue(few);
    PositiveValue(many);
    if few.Value() > 1.0 {
      QuotientAntitone(MAX256, few, many);
    }
  }

  /** `None` is the panic of a clamp whose bounds are out of order. */
  function Clamp(v: nat, low: nat, high: nat): Option<nat> {
    if low > high then None else Some(if v < low then low else if v > high then high else v)
  }

  const MEASUREMENT_SECONDS: real := 1.0
  const FLOOD_CAP_SECONDS: real := 0.1

  lemma ProductInRange(r: real, s: real)
    requires 0.0 <= r <= 2.0 * LIMIT && 0.0 <= s <= 2.0 * LIMIT
    ensures 0.0 <= r * s <= RANGE
  {
    RealMulMono(0.0, r, s);
    assert 0.0 * s == 0.0;
    RealMulMono(s, 36893488147419103232.0, r);
    assert r * s == s * r <= 36893488147419103232.0 * r;
  }

  /** A longer interval takes more hashes, whatever the rounding. */
  lemma HashesGrow(round: real -> F64, rate: limb, short: real, long: real)
    requires Rounds(round) && Interval(short) && Interval(long) && short <= long
    ensures HashesIn(round, rate, short).Finite? && HashesIn(round, rate, short).Valid()
    ensures HashesIn(round, rate, long).Finite? && HashesIn(round, rate, long).Valid()
    ensures HashesIn(round, rate, short).Value() <= HashesIn(round, rate, long).Value()
  {
    RoundedUpTo(round, rate as real, LIMIT);
    RoundedUpTo(round, short, LIMIT);
    RoundedUpTo(round, long, LIMIT);
    RoundedInOrder(round, short, long);
    ProductsInOrder(round, round(rate as real).Value(), round(short).Value(), round(long).Value());
  }

  lemma ProductsInOrder(round: real -> F64, r: real, s: real, t: real)
    requires Rounds(round) && 0.0 <= r <= 2.0 * LIMIT && 0.0 <= s <= t <= 2.0 * LIMIT
    ensures var x, y := Product(r, s), Product(r, t);
            && round(x).Finite? && round(x).Valid() && round(y).Finite? && round(y).Valid()
            && round(x).Value() <= round(y).Value()
  {
    ProductInRange(r, s);
    ProductInRange(r, t);
    RealMulMono(s, t, r);
    RoundedInOrder(round, Product(r, s), Product(r, t));
  }

  /** The target that gives a share every `seconds` on average. */
  function TargetForRate(round: real -> F64, rate: limb, seconds: real): u256
    requires Rounds(round) && Interval(seconds)
  {
    HashesGrow(round, rate, seconds, seconds);
    var hashes := HashesIn(round, rate, seconds);
    TargetAntitone(hashes, hashes);
    TargetFor(hashes).value
  }

  // ------------------------------------------------- what a target means

  /** The target at which one of `hashes` hashes is a share: all of the range for one hash or less. */
  ghost predicate TargetOf(t: int, hashes: real) {
    t == if hashes <= 1.0 then MAX256 else (MAX256 as real / hashes).Floor
  }

  /** `v` is `x` up to a relative error of `eps`. */
  ghost predicate Near(v: real, x: real, eps: real) {
    x - eps * x <= v <= x + eps * x
  }

  ghost predicate RoundsNear(round: real -> F64, x: real, eps: real) {
    round(x).Finite? && Near(round(x).Value(), x, eps)
  }

  /** The three roundings between a rate, an interval and their product are each off by `eps` at most. */
  ghost predicate RoundsWithin(round: real -> F64, rate: real, seconds: real, eps: real) {
    && RoundsNear(round, rate, eps) && RoundsNear(round, seconds, eps)
    && RoundsNear(round, Product(round(rate).Value(), round(seconds).Value()), eps)
  }

  ghost predicate NearThrice(v: real, x: real, eps: real) {
    exists a, b :: Near(a, x, eps) && Near(b, a, eps) && Near(v, b, eps)
  }

  /** The target belongs to a number of hashes that three such roundings make of the exact one. */
  ghost predicate TargetWithin(t: int, hashes: real, eps: real) {
    exists v :: NearThrice(v, hashes, eps) && TargetOf(t, v)
  }

  /** Whatever the accuracy of rounding, the target is as accurate as that allows. */
  ghost predicate AsAccurate(round: real -> F64, rate: limb, seconds: real, t: int) {
    forall eps {:trigger RoundsWithin(round, rate as real, seconds, eps)} ::
      0.0 <= eps <= 1.0 && RoundsWithin(round, rate as real, seconds, eps) ==>
        TargetWithin(t, rate as real * seconds, eps)
  }

  lemma TargetForMeans(hashes: F64)
    requires hashes.Finite?
    ensures TargetFor(hashes).Some? && TargetOf(TargetFor(hashes).value, hashes.Value())
  {
    PositiveValue(hashes);
    var v, m := hashes.Value(), MAX256 as real;
    if v > 1.0 {
      QuotientIsFloor(MAX256, hashes);
      SmallerRatio(m, v);
    }
  }

  lemma SmallerRatio(m: real, v: real)
    requires v > 1.0 && m >= 0.0
    ensures 0.0 <= m / v <= m
  {
    var q := m / v;
    assert q * v == m;
    if q < 0.0 {
      RealMulLess(q, 0.0, v);
    }
    RealMulMono(1.0, v, q);
  }

  lemma ErrorsMultiply(rate: real, seconds: real, r: real, s: real, v: real, eps: real)
    requires rate >= 0.0 && seconds >= 0.0 && r >= 0.0 && 0.0 <= eps <= 1.0
    requires Near(r, rate, eps) && Near(s, seconds, eps) && Near(v, Product(r, s), eps)
    ensures NearThrice(v, rate * seconds, eps)
  {
    NearTimes(r, rate, seconds, eps);
    NearTimes(s, seconds, r, eps);
    assert s * r == r * s && seconds * r == r * seconds;
  }

  lemma NearTimes(v: real, x: real, factor: real, eps: real)
    requires Near(v, x, eps) && factor >= 0.0
    ensures Near(v * factor, x * factor, eps)
  {
    RealMulMono(x - eps * x, v, factor);
    RealMulMono(v, x + eps * x, factor);
    assert (eps * x) * factor == eps * (x * factor);
    assert (x - eps * x) * factor == x * factor - (eps * x) * factor;
    assert (x + eps * x) * factor == x * factor + (eps * x) * factor;
  }

  lemma TargetIsAccurate(round: real -> F64, rate: limb, seconds: real)
    requires Rounds(round) && Interval(seconds)
    ensures AsAccurate(round, rate, seconds, TargetForRate(round, rate, seconds))
  {
    forall eps {:trigger RoundsWithin(round, rate as real, seconds, eps)}
      | 0.0 <= eps <= 1.0 && RoundsWithin(round, rate as real, seconds, eps)
      ensures TargetWithin(TargetForRate(round, rate, seconds), rate as real * seconds, eps)
    {
      HashesAreAccurate(round, rate, seconds, rate as real * seconds, eps);
      TargetForMeans(HashesIn(round, rate, seconds));
    }
  }

  lemma HashesAreAccurate(round: real -> F64, rate: limb, seconds: real, exact: real, eps: real)
    requires Rounds(round) && Interval(seconds) && exact == rate as real * seconds
    requires 0.0 <= eps <= 1.0 && RoundsWithin(round, rate as real, seconds, eps)
    ensures HashesIn(round, rate, seconds).Finite?
    ensures NearThrice(HashesIn(round, rate, seconds).Value(), exact, eps)
  {
    HashesInIs(round, rate, seconds);
    RoundedProduct(round, rate as real, seconds, exact, eps);
  }

  lemma HashesInIs(round: real -> F64, rate: limb, seconds: real)
    requires Rounds(round) && Interval(seconds)
    ensures round(rate as real).Finite? && round(seconds).Finite? && round(rate as real).Value() >= 0.0
    ensures HashesIn(round, rate, seconds) == round(Product(round(rate as real).Value(), round(seconds).Value()))
  {
    RoundedUpTo(round, rate as real, LIMIT);
    RoundedUpTo(round, seconds, LIMIT);
  }

  lemma RoundedProduct(round: real -> F64, rate: real, seconds: real, exact: real, eps: real)
    requires rate >= 0.0 && seconds >= 0.0 && 0.0 <= eps <= 1.0 && RoundsWithin(round, rate, seconds, eps)
    requires round(rate).Value() >= 0.0 && exact == rate * seconds
    ensures var hashes := round(Product(round(rate).Value(), round(seconds).Value()));
            hashes.Finite? && NearThrice(hashes.Value(), exact, eps)
  {
    var r, s := round(rate).Value(), round(seconds).Value();
    ErrorsMultiply(rate, seconds, r, s, round(Product(r, s)).Value(), eps);
  }

  /** Without rounding errors it is exactly the target of the rate. */
  lemma ExactlyWithin(t: int, hashes: real)
    ensures TargetWithin(t, hashes, 0.0) <==> TargetOf(t, hashes)
  {
    if TargetOf(t, hashes) {
      assert Near(hashes, hashes, 0.0);
      assert NearThrice(hashes, hashes, 0.0);
    }
  }

  // -------------------------------------------------------------- targets

  method ToTarget(round: real -> F64, hashesPerSecond: limb, seconds: real) returns (target: Option<u256>)
    requires Rounds(round) && Interval(seconds)
    ensures target == Some(TargetForRate(round, hashesPerSecond, seconds))
    ensures AsAccurate(round, hashesPerSecond, seconds, target.value)
    ensures RoundsWithin(round, hashesPerSecond as real, seconds, 0.0) ==>
              TargetOf(target.value, hashesPerSecond as real * seconds)
  {
    TargetIsAccurate(round, hashesPerSecond, seconds);
    ExactlyWithin(TargetForRate(round, hashesPerSecond, seconds), hashesPerSecond as real * seconds);
    HashesGrow(round, hashesPerSecond, seconds, seconds);
    var hashesPerShare := HashesIn(round, hashesPerSecond, seconds);
    PositiveValue(hashesPerShare);
    if hashesPerShare.Finite? && hashesPerShare.Value() <= 1.0 {
      target := Some(MAX256);
    } else {
      target := DivF64(MAX256, hashesPerShare);
    }
  }

  /** A longer interval between shares never gives a greater target; so no bounds are out of order. */
  lemma BoundsInOrder(round: real -> F64, rate: limb, short: real, long: real)
    requires Rounds(round) && Interval(short) && Interval(long) && short <= long
    ensures TargetForRate(round, rate, long) <= TargetForRate(round, rate, short)
  {
    HashesGrow(round, rate, short, long);
    TargetAntitone(HashesIn(round, rate, short), HashesIn(round, rate, long));
  }

  /**
   * The scheduler's target for a thread. It never panics; a thread of unknown rate gets the
   * source's target; otherwise the result lies between the targets for one share a second
   * and for ten, no target between them is closer to the source's, and a source target
   * already between them passes unchanged.
   */
  method ComputeSchedulerTarget(round: real -> F64, rate: limb, source: u256) returns (target: Option<nat>)
    requires Rounds(round)
    ensures target.Some?
    ensures rate == 0 ==> target.value == source
    ensures rate > 0 ==> IsClamped(target.value, source, TargetForRate(round, rate, 1.0),
                                   TargetForRate(round, rate, 0.1))
    ensures rate > 0 ==>
              exists low: nat, high: nat ::
                && AsAccurate(round, rate, 1.0, low) && AsAccurate(round, rate, 0.1, high)
                && IsClamped(target.value, source, low, high)
  {
    BoundsInOrder(round, rate, 0.1, 1.0);
    if rate == 0 {
      return Some(source);
    }
    var measurementTarget := ToTarget(round, rate, MEASUREMENT_SECONDS);
    var floodCapTarget := ToTarget(round, rate, FLOOD_CAP_SECONDS);
    target := Clamp(source, measurementTarget.value, floodCapTarget.value);
  }

  /** `t` is the number between the bounds that is nearest to `source`. */
  ghost predicate IsClamped(t: nat, source: nat, low: nat, high: nat) {
    && low <= t <= high
    && (low <= source <= high ==> t == source)
    && forall other :: low <= other <= high ==> Apart(t, source) <= Apart(other, source)
  }

  function Apart(a: int, b: int): nat {
    if a <= b then b - a else a - b
  }
}
