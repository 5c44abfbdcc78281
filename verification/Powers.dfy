/** Powers of two, and the words numbers are stored in. */
module Powers {

  function Pow2(n: nat): (p: nat)
    ensures p > 0
  {
    if n == 0 then 1 else 2 * Pow2(n - 1)
  }

  lemma Double(p: nat, q: nat)
    ensures (2 * p) * q == 2 * (p * q)
  {
  }

  lemma {:induction false} Pow2Sum(a: nat, b: nat)
    ensures Pow2(a + b) == Pow2(a) * Pow2(b)
  {
    if a > 0 {
      Pow2Sum(a - 1, b);
      Double(Pow2(a - 1), Pow2(b));
    }
  }

  lemma {:induction false} Pow2Grows(a: nat, b: nat)
    requires a <= b
    ensures Pow2(a) <= Pow2(b)
  {
    if a < b {
      Pow2Grows(a, b - 1);
    }
  }

  /** How many bits a number takes. */
  function BitLength(v: nat): nat {
    if v == 0 then 0 else 1 + BitLength(v / 2)
  }

  lemma {:induction false} BitLengthBounds(v: nat)
    ensures v < Pow2(BitLength(v))
    ensures v > 0 ==> BitLength(v) > 0 && Pow2(BitLength(v) - 1) <= v
  {
    if v > 0 {
      BitLengthBounds(v / 2);
    }
  }

  /** A number below a power of two takes no more bits than its exponent. */
  lemma BitLengthAtMost(v: nat, n: nat)
    requires v < Pow2(n)
    ensures BitLength(v) <= n
  {
    BitLengthBounds(v);
    if v > 0 && BitLength(v) > n {
      Pow2Grows(n, BitLength(v) - 1);
    }
  }

  lemma Pow2Twice(n: nat, p: nat)
    requires Pow2(n) == p
    ensures Pow2(2 * n) == p * p
  {
    Pow2Sum(n, n);
  }

  /** A number shifted left, bit by bit. */
  function Shl(v: nat, shift: nat): nat {
    if shift == 0 then v else 2 * Shl(v, shift - 1)
  }

  lemma {:induction false} ShlMultiplies(v: nat, shift: nat)
    ensures Shl(v, shift) == v * Pow2(shift)
  {
    if shift > 0 {
      ShlMultiplies(v, shift - 1);
      Double(Pow2(shift - 1), v);
    }
  }

  lemma {:induction false} ShlMono(v: nat, w: nat, shift: nat)
    requires v <= w
    ensures Shl(v, shift) <= Shl(w, shift)
    ensures v < w ==> Shl(v, shift) < Shl(w, shift)
  {
    if shift > 0 {
      ShlMono(v, w, shift - 1);
    }
  }

  lemma {:induction false} ShlPow2(n: nat, shift: nat)
    ensures Shl(Pow2(n), shift) == Pow2(n + shift)
  {
    if shift > 0 {
      ShlPow2(n, shift - 1);
    }
  }

  // ------------------------------------------------------------- limbs

  const LIMB: nat := 0x1_0000_0000_0000_0000

  type limb = x: int | 0 <= x < LIMB

  /** How many values `n` words can hold. */
  function Span(n: nat): (p: nat)
    ensures p > 0
  {
    if n == 0 then 1 else LIMB * Span(n - 1)
  }

  lemma LimbIsPow2()
    ensures Pow2(64) == LIMB
  {
    Pow2Twice(4, 0x10);
    Pow2Twice(8, 0x100);
    Pow2Twice(16, 0x1_0000);
    Pow2Twice(32, 0x1_0000_0000);
  }

  lemma {:induction false} SpanIsPow2(n: nat)
    ensures Span(n) == Pow2(64 * n)
  {
    if n > 0 {
      LimbIsPow2();
      SpanIsPow2(n - 1);
      Pow2Sum(64, 64 * (n - 1));
    }
  }

  /** A number by its words, lowest first. */
  function ToLimbs(v: nat, n: nat): (ls: seq<limb>)
    ensures |ls| == n
  {
    if n == 0 then [] else [v % LIMB] + ToLimbs(v / LIMB, n - 1)
  }

  function FromLimbs(ls: seq<limb>): nat {
    if ls == [] then 0 else ls[0] + LIMB * FromLimbs(ls[1..])
  }

  lemma {:induction false} LimbsRoundTrip(v: nat, n: nat)
    requires v < Span(n)
    ensures FromLimbs(ToLimbs(v, n)) == v
  {
    if n > 0 {
      LimbsRoundTrip(v / LIMB, n - 1);
    }
  }

  lemma {:induction false} LimbsBelow(ls: seq<limb>)
    ensures FromLimbs(ls) < Span(|ls|)
  {
    if ls != [] {
      LimbsBelow(ls[1..]);
    }
  }

  lemma {:induction false} LimbsSplit(low: seq<limb>, high: seq<limb>)
    ensures FromLimbs(low + high) == FromLimbs(low) + Span(|low|) * FromLimbs(high)
  {
    if low == [] {
      assert low + high == high;
    } else {
      LimbsSplit(low[1..], high);
      assert (low + high)[1..] == low[1..] + high;
      Regroup(LIMB, FromLimbs(low[1..]), Span(|low| - 1), FromLimbs(high));
    }
  }

  lemma Regroup(b: nat, x: nat, p: nat, f: nat)
    ensures b * (x + p * f) == b * x + (b * p) * f
  {
  }

  lemma {:induction false} LimbsZero(ls: seq<limb>)
    ensures FromLimbs(ls) == 0 <==> forall i :: 0 <= i < |ls| ==> ls[i] == 0
  {
    if ls != [] {
      LimbsZero(ls[1..]);
      if forall i :: 0 <= i < |ls| ==> ls[i] == 0 {
        forall i | 0 <= i < |ls| - 1 ensures ls[1..][i] == 0 {
        }
      } else if ls[0] == 0 {
        var i :| 0 <= i < |ls| && ls[i] != 0;
        assert ls[1..][i - 1] != 0;
      }
    }
  }

  /** A number fits in its low words exactly when its high words are all zero. */
  lemma HighLimbs(v: nat, n: nat, k: nat)
    requires v < Span(n) && k <= n
    ensures v < Span(k) <==> forall i :: k <= i < n ==> ToLimbs(v, n)[i] == 0
    ensures v < Span(k) ==> FromLimbs(ToLimbs(v, n)[..k]) == v
  {
    var ls := ToLimbs(v, n);
    LimbsRoundTrip(v, n);
    assert ls == ls[..k] + ls[k..];
    LowLimbs(ls[..k], ls[k..]);
    TailZeros(ls, k);
  }

  lemma TailZeros(ls: seq<limb>, k: nat)
    requires k <= |ls|
    ensures (forall i :: 0 <= i < |ls[k..]| ==> ls[k..][i] == 0) <==> forall i :: k <= i < |ls| ==> ls[i] == 0
  {
    assert forall i :: k <= i < |ls| ==> ls[i] == ls[k..][i - k];
  }

  lemma LowLimbs(low: seq<limb>, high: seq<limb>)
    ensures FromLimbs(low + high) < Span(|low|) <==> forall i :: 0 <= i < |high| ==> high[i] == 0
    ensures FromLimbs(low + high) < Span(|low|) ==> FromLimbs(low) == FromLimbs(low + high)
  {
    LimbsSplit(low, high);
    LimbsBelow(low);
    LimbsZero(high);
    Carry(FromLimbs(low), Span(|low|), FromLimbs(high));
  }

  lemma Carry(low: nat, p: nat, high: nat)
    requires low < p
    ensures low + p * high < p <==> high == 0
  {
    if high > 0 {
      assert p * high >= p;
    }
  }

  /** What is left of a number in `n` words. */
  function Truncate(v: nat, n: nat): nat {
    FromLimbs(ToLimbs(v, n))
  }

  /** Zero words above leave a number as it is. */
  lemma Widened(low: seq<limb>, high: seq<limb>)
    requires forall i :: 0 <= i < |high| ==> high[i] == 0
    ensures FromLimbs(low + high) == FromLimbs(low)
  {
    LimbsSplit(low, high);
    LimbsZero(high);
  }

  // --------------------------------------------------------- division

  lemma MulMono(a: nat, b: nat, c: nat)
    requires a <= b
    ensures a * c <= b * c
  {
  }

  lemma DivBounds(n: nat, d: nat)
    requires d > 0
    ensures n / d * d <= n < (n / d + 1) * d
    ensures n / d <= n
  {
    assert n == d * (n / d) + n % d;
    MulMono(1, d, n / d);
  }

  lemma DivAtLeast(n: nat, d: nat, q: nat)
    requires d > 0 && q * d <= n
    ensures n / d >= q
  {
    DivBounds(n, d);
    if n / d < q {
      MulMono(n / d + 1, q, d);
    }
  }

  lemma DivSmaller(n: nat, d: nat)
    requires d > 0
    ensures 0 <= n / d <= n
  {
    assert n == d * (n / d) + n % d;
    MulMono(1, d, n / d);
  }

  lemma DivTooBig(n: nat, d: nat, p: nat)
    requires 0 < d <= p && p * p <= n
    ensures n / d >= p
  {
    MulMono(d, p, p);
    DivAtLeast(n, d, p);
  }

  lemma DivIs(n: nat, d: nat, q: nat)
    requires q * d <= n < (q + 1) * d
    ensures d > 0 && n / d == q
  {
    DivAtLeast(n, d, q);
    DivBounds(n, d);
    if n / d > q {
      MulMono(q + 1, n / d, d);
    }
  }

  /** Dividing by two factors one after the other is dividing by their product. */
  lemma DividedTwice(v: nat, k: nat, p: nat)
    requires k > 0 && p > 0
    ensures k * p > 0 && v / k / p == v / (k * p)
  {
    MulMono(1, k, p);
    DividedBoth(v, k, p, v / k, k * p);
  }

  lemma DividedBoth(v: nat, k: nat, p: nat, a: nat, d: nat)
    requires k > 0 && p > 0 && d == k * p && d > 0 && a == v / k
    ensures a / p == v / d
  {
    var q := a / p;
    DivBounds(a, p);
    DivBounds(v, k);
    Nested(v, k, p, a, q, d);
    DivIs(v, d, q);
  }

  lemma Nested(v: nat, k: nat, p: nat, a: nat, q: nat, d: nat)
    requires d == k * p && q * p <= a < (q + 1) * p && a * k <= v < (a + 1) * k
    ensures q * d <= v < (q + 1) * d
  {
    MulMono(q * p, a, k);
    MulMono(a + 1, (q + 1) * p, k);
    Regrouped(q, k, p);
    Regrouped(q + 1, k, p);
  }

  lemma Regrouped(q: nat, k: nat, p: nat)
    ensures q * (k * p) == q * p * k
  {
  }
}
