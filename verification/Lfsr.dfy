/**
 * Cyclic redundancy checks over bit strings of any length and generators of any degree.
 * A generator is written by its coefficients below the leading one, highest first.
 */
module Lfsr {

  type Bits = seq<bool>

  function Zeros(n: nat): (z: Bits)
    ensures |z| == n
  {
    seq(n, _ => false)
  }

  function Ones(n: nat): (z: Bits)
    ensures |z| == n
  {
    seq(n, _ => true)
  }

  function Xor(a: Bits, b: Bits): (x: Bits)
    requires |a| == |b|
    ensures |x| == |a| && forall i :: 0 <= i < |a| ==> x[i] == (a[i] != b[i])
  {
    seq(|a|, (i: nat) requires i < |a| => a[i] != b[i])
  }

  function ShiftLeft(r: Bits): (s: Bits)
    requires r != []
    ensures |s| == |r|
  {
    r[1..] + [false]
  }

  /** One clock of the register: shift, and add the generator when the bits going out differ. */
  function Feed(g: Bits, r: Bits, bit: bool): (s: Bits)
    requires |g| == |r| > 0
    ensures |s| == |r|
  {
    if r[0] != bit then Xor(ShiftLeft(r), g) else ShiftLeft(r)
  }

  /** The register after a string of bits. */
  function Reg(g: Bits, r: Bits, bits: Bits): (s: Bits)
    requires |g| == |r| > 0
    ensures |s| == |r|
    decreases |bits|
  {
    if bits == [] then r else Feed(g, Reg(g, r, bits[..|bits| - 1]), bits[|bits| - 1])
  }

  lemma {:induction false} RegAppend(g: Bits, r: Bits, a: Bits, b: Bits)
    requires |g| == |r| > 0
    ensures Reg(g, r, a + b) == Reg(g, Reg(g, r, a), b)
    decreases |b|
  {
    if b == [] {
      assert a + b == a;
    } else {
      RegAppend(g, r, a, b[..|b| - 1]);
      assert (a + b)[..|a + b| - 1] == a + b[..|b| - 1];
    }
  }

  lemma RegOne(g: Bits, r: Bits, bit: bool)
    requires |g| == |r| > 0
    ensures Reg(g, r, [bit]) == Feed(g, r, bit)
  {
    assert [bit][..0] == [];
  }

  // ----------------------------------------------- textbook long division

  /** The remainder of a polynomial, leading coefficient first, divided by the generator. */
  function LongDivision(g: Bits, d: Bits): (r: Bits)
    requires |d| >= |g|
    ensures |r| == |g|
    decreases |d|
  {
    if |d| == |g| then d else LongDivision(g, Reduced(g, d))
  }

  /** The message times the generator's leading power, with the register's start added in front. */
  function Dividend(r: Bits, bits: Bits): (d: Bits)
    ensures |d| == |bits| + |r|
  {
    var m := bits + Zeros(|r|);
    Xor(r, m[..|r|]) + m[|r|..]
  }

  lemma FeedAt(g: Bits, r: Bits, bit: bool, i: nat)
    requires |g| == |r| && i < |r|
    ensures Feed(g, r, bit)[i] == ((i + 1 < |r| && r[i + 1]) != ((r[0] != bit) && g[i]))
  {
  }

  lemma DividendAt(r: Bits, bits: Bits, i: nat)
    requires i < |bits| + |r|
    ensures Dividend(r, bits)[i] == ((i < |r| && r[i]) != (i < |bits| && bits[i]))
  {
  }

  /** One step of the division, which clears the leading coefficient. */
  function Reduced(g: Bits, d: Bits): (d': Bits)
    requires |d| > |g|
    ensures |d'| == |d| - 1
  {
    (if d[0] then Xor(d[1..|g| + 1], g) else d[1..|g| + 1]) + d[|g| + 1..]
  }

  lemma DividendStep(g: Bits, r: Bits, bits: Bits)
    requires |g| == |r| > 0 && bits != []
    ensures Reduced(g, Dividend(r, bits)) == Dividend(Feed(g, r, bits[0]), bits[1..])
  {
    var d, d' := Dividend(r, bits), Dividend(Feed(g, r, bits[0]), bits[1..]);
    DividendAt(r, bits, 0);
    forall i | 0 <= i < |d'| ensures d'[i] == Reduced(g, d)[i] {
      DividendAt(Feed(g, r, bits[0]), bits[1..], i);
      DividendAt(r, bits, i + 1);
      if i < |g| {
        FeedAt(g, r, bits[0], i);
      }
    }
  }

  /** The shift register computes the remainder of long division, for messages of any length. */
  lemma {:induction false} RegisterIsRemainder(g: Bits, r: Bits, bits: Bits)
    requires |g| == |r| > 0
    ensures Reg(g, r, bits) == LongDivision(g, Dividend(r, bits))
    decreases |bits|
  {
    if bits == [] {
      assert Dividend(r, bits) == r;
    } else {
      DividendStep(g, r, bits);
      RegisterIsRemainder(g, Feed(g, r, bits[0]), bits[1..]);
      assert bits == [bits[0]] + bits[1..];
      RegAppend(g, r, [bits[0]], bits[1..]);
      RegOne(g, r, bits[0]);
    }
  }

  // ------------------------------------------------------ what a check says

  /** The check of these two protocols: the register starts from all ones and ends at zero. */
  predicate Valid(g: Bits, bits: Bits)
    requires g != []
  {
    Reg(g, Ones(|g|), bits) == Zeros(|g|)
  }

  /** The generator has a constant term. */
  predicate Proper(g: Bits) {
    g != [] && g[|g| - 1]
  }

  /** Fed its own first bits, a register shifts them out. */
  lemma {:induction false} ShiftOut(g: Bits, r: Bits, k: nat)
    requires |g| == |r| > 0 && k <= |r|
    ensures Reg(g, r, r[..k]) == r[k..] + Zeros(k)
  {
    if k > 0 {
      ShiftOut(g, r, k - 1);
      assert r[..k][..k - 1] == r[..k - 1];
      var s := Reg(g, r, r[..k - 1]);
      assert s[0] == r[k - 1] && ShiftLeft(s) == r[k..] + Zeros(k);
    }
  }

  lemma ClearStep(g: Bits, s: Bits, bit: bool, k: nat)
    requires Proper(g) && |g| == |s| && 0 < k <= |s|
    requires Feed(g, s, bit)[|s| - k..] == Zeros(k)
    ensures s[0] == bit && s[|s| - k + 1..] == Zeros(k - 1)
  {
    var n, s' := |s|, Feed(g, s, bit);
    assert s'[n - 1] == s'[n - k..][k - 1];
    forall i | n - k + 1 <= i < n ensures !s[i] {
      assert s'[i - 1] == s'[n - k..][i - 1 - (n - k)];
    }
  }

  /** Once the last `k` places of a register are clear, the `k` bits just fed were its own first `k`. */
  lemma {:induction false} ClearTail(g: Bits, r: Bits, w: Bits)
    requires Proper(g) && |g| == |r| && |w| <= |r|
    requires Reg(g, r, w)[|r| - |w|..] == Zeros(|w|)
    ensures w == r[..|w|]
    decreases |w|
  {
    if w != [] {
      var k := |w| - 1;
      var before, s := w[..k], Reg(g, r, w[..k]);
      ClearStep(g, s, w[k], k + 1);
      ClearTail(g, r, before);
      FirstOut(g, r, k);
      PrefixGrows(r, w);
    }
  }

  lemma FirstOut(g: Bits, r: Bits, k: nat)
    requires |g| == |r| && k < |r|
    ensures Reg(g, r, r[..k])[0] == r[k]
  {
    ShiftOut(g, r, k);
  }

  lemma PrefixGrows(r: Bits, w: Bits)
    requires 0 < |w| <= |r| && w[..|w| - 1] == r[..|w| - 1] && w[|w| - 1] == r[|w| - 1]
    ensures w == r[..|w|]
  {
    assert w == w[..|w| - 1] + [w[|w| - 1]];
    assert r[..|w|] == r[..|w| - 1] + [r[|w| - 1]];
  }

  /** A register is cleared by its own bits and by no others. */
  lemma ClearedByItself(g: Bits, r: Bits, w: Bits)
    requires Proper(g) && |g| == |r| == |w|
    ensures Reg(g, r, w) == Zeros(|g|) <==> w == r
  {
    ShiftOut(g, r, |r|);
    assert r[..|r|] == r && r[|r|..] + Zeros(|r|) == Zeros(|r|);
    if Reg(g, r, w) == Zeros(|g|) {
      ClearTail(g, r, w);
    }
  }

  /** The check is zero exactly when the last bits, as many as the register holds, are the register after the others. */
  lemma LastBitsAreRegister(g: Bits, bits: Bits)
    requires Proper(g) && |bits| >= |g|
    ensures Valid(g, bits) <==> bits[|bits| - |g|..] == Reg(g, Ones(|g|), bits[..|bits| - |g|])
  {
    var k := |bits| - |g|;
    var front, back := bits[..k], bits[k..];
    assert bits == front + back;
    RegAppend(g, Ones(|g|), front, back);
    ClearedByItself(g, Reg(g, Ones(|g|), front), back);
  }

  // -------------------------------------------------- what a check catches

  lemma FeedLinear(g: Bits, r: Bits, s: Bits, x: bool, y: bool)
    requires |g| == |r| == |s| > 0
    ensures Feed(g, Xor(r, s), x != y) == Xor(Feed(g, r, x), Feed(g, s, y))
  {
  }

  /** The error a channel adds to a message spreads through the register on its own. */
  lemma {:induction false} RegLinear(g: Bits, r: Bits, s: Bits, a: Bits, b: Bits)
    requires |g| == |r| == |s| > 0 && |a| == |b|
    ensures Reg(g, Xor(r, s), Xor(a, b)) == Xor(Reg(g, r, a), Reg(g, s, b))
    decreases |a|
  {
    if a != [] {
      var n := |a| - 1;
      assert Xor(a, b)[..n] == Xor(a[..n], b[..n]);
      RegLinear(g, r, s, a[..n], b[..n]);
      FeedLinear(g, Reg(g, r, a[..n]), Reg(g, s, b[..n]), a[n], b[n]);
    }
  }

  lemma ErrorPasses(g: Bits, bits: Bits, error: Bits)
    requires g != [] && |bits| == |error| && Valid(g, bits)
    ensures Valid(g, Xor(bits, error)) <==> Reg(g, Zeros(|g|), error) == Zeros(|g|)
  {
    var n := |g|;
    RegLinear(g, Ones(n), Zeros(n), bits, error);
    XorZeros(Ones(n));
    XorZeros(Reg(g, Zeros(n), error));
  }

  lemma XorZeros(x: Bits)
    ensures Xor(x, Zeros(|x|)) == x && Xor(Zeros(|x|), x) == x
  {
  }

  lemma FeedZero(g: Bits, r: Bits)
    requires Proper(g) && |g| == |r|
    ensures Feed(g, r, false) == Zeros(|g|) <==> r == Zeros(|g|)
  {
    if Feed(g, r, false) == Zeros(|g|) {
      assert Feed(g, r, false)[|g| - 1] == r[0];
      forall i | 1 <= i < |g| ensures !r[i] {
        assert Feed(g, r, false)[i - 1] == r[i];
      }
    }
  }

  lemma {:induction false} ZerosKeep(g: Bits, r: Bits, n: nat)
    requires Proper(g) && |g| == |r|
    ensures Reg(g, r, Zeros(n)) == Zeros(|g|) <==> r == Zeros(|g|)
  {
    if n > 0 {
      ZerosKeep(g, r, n - 1);
      assert Zeros(n)[..n - 1] == Zeros(n - 1);
      FeedZero(g, Reg(g, r, Zeros(n - 1)));
    }
  }

  /** Zeros before and after a string do not change whether the register, started from zero, ends there. */
  lemma Surrounded(g: Bits, before: nat, w: Bits, after: nat)
    requires Proper(g)
    ensures Reg(g, Zeros(|g|), Zeros(before) + w + Zeros(after)) == Zeros(|g|) <==> Reg(g, Zeros(|g|), w) == Zeros(|g|)
  {
    var z := Zeros(|g|);
    ZerosKeep(g, z, before);
    RegAppend(g, z, Zeros(before), w);
    RegAppend(g, z, Zeros(before) + w, Zeros(after));
    ZerosKeep(g, Reg(g, z, w), after);
  }

  /** A burst: the first wrong bit is at `p` and none is wrong from `p + n` on. */
  ghost predicate Burst(error: Bits, p: nat, n: nat) {
    && p < |error| && error[p]
    && forall i :: 0 <= i < |error| && error[i] ==> p <= i < p + n
  }

  /** A string no longer than the register that has a one leaves a register started from zero non-zero. */
  lemma ShortErrorShows(g: Bits, w: Bits)
    requires Proper(g) && |w| == |g| && w[0]
    ensures Reg(g, Zeros(|g|), w) != Zeros(|g|)
  {
    ClearedByItself(g, Zeros(|g|), w);
    assert w[0] != Zeros(|g|)[0];
  }

  lemma BurstShape(error: Bits, p: nat, n: nat)
    requires Burst(error, p, n)
    ensures var w := (error + Zeros(n))[p..p + n];
            && |w| == n && w[0]
            && error + Zeros(n) == Zeros(p) + w + Zeros(|error| - p)
  {
    var padded := error + Zeros(n);
    var w := padded[p..p + n];
    assert w[0] == error[p];
    var whole := Zeros(p) + w + Zeros(|error| - p);
    forall i | 0 <= i < |padded| ensures padded[i] == whole[i] {
    }
  }

  /** Every single wrong bit, and every burst no longer than the register, is caught. */
  lemma BurstCaught(g: Bits, bits: Bits, error: Bits, p: nat)
    requires Proper(g) && |bits| == |error| && Valid(g, bits) && Burst(error, p, |g|)
    ensures !Valid(g, Xor(bits, error))
  {
    ErrorPasses(g, bits, error);
    BurstShows(g, error, p);
    Trailing(g, error, |g|);
  }

  lemma BurstShows(g: Bits, error: Bits, p: nat)
    requires Proper(g) && Burst(error, p, |g|)
    ensures Reg(g, Zeros(|g|), error + Zeros(|g|)) != Zeros(|g|)
  {
    BurstShape(error, p, |g|);
    var w := (error + Zeros(|g|))[p..p + |g|];
    ShortErrorShows(g, w);
    Surrounded(g, p, w, |error| - p);
  }

  // ---------------------------------------------------------------- parity

  /** Whether an odd number of bits is set. */
  function Odd(w: Bits): bool {
    if w == [] then false else Odd(w[..|w| - 1]) != w[|w| - 1]
  }

  lemma {:induction false} OddXor(a: Bits, b: Bits)
    requires |a| == |b|
    ensures Odd(Xor(a, b)) <==> Odd(a) != Odd(b)
  {
    if a != [] {
      var n := |a| - 1;
      assert Xor(a, b)[..n] == Xor(a[..n], b[..n]);
      OddXor(a[..n], b[..n]);
    }
  }

  lemma {:induction false} OddAppend(a: Bits, b: Bits)
    ensures Odd(a + b) <==> Odd(a) != Odd(b)
    decreases |b|
  {
    if b == [] {
      assert a + b == a;
    } else {
      OddAppend(a, b[..|b| - 1]);
      assert (a + b)[..|a + b| - 1] == a + b[..|b| - 1];
    }
  }

  lemma OddOne(x: bool)
    ensures Odd([x]) <==> x
  {
    assert [x][..0] == [];
  }

  lemma {:induction false} OddZeros(n: nat)
    ensures !Odd(Zeros(n))
  {
    if n > 0 {
      assert Zeros(n)[..n - 1] == Zeros(n - 1);
      OddZeros(n - 1);
    }
  }

  lemma OddFeed(g: Bits, r: Bits, bit: bool)
    requires |g| == |r| > 0 && Odd(g)
    ensures Odd(Feed(g, r, bit)) <==> Odd(r) != bit
  {
    assert r == [r[0]] + r[1..];
    OddAppend([r[0]], r[1..]);
    OddOne(r[0]);
    assert ShiftLeft(r)[..|r| - 1] == r[1..];
    OddXor(ShiftLeft(r), g);
  }

  lemma {:induction false} OddReg(g: Bits, r: Bits, bits: Bits)
    requires |g| == |r| > 0 && Odd(g)
    ensures Odd(Reg(g, r, bits)) <==> Odd(r) != Odd(bits)
    decreases |bits|
  {
    if bits != [] {
      var n := |bits| - 1;
      OddReg(g, r, bits[..n]);
      OddFeed(g, Reg(g, r, bits[..n]), bits[n]);
    }
  }

  /** A generator with an even number of terms, the leading one among them, catches every odd number of wrong bits. */
  lemma OddErrorCaught(g: Bits, bits: Bits, error: Bits)
    requires g != [] && Odd(g) && |bits| == |error| && Valid(g, bits) && Odd(error)
    ensures !Valid(g, Xor(bits, error))
  {
    ErrorPasses(g, bits, error);
    OddZeros(|g|);
    OddReg(g, Zeros(|g|), error);
  }

  lemma Trailing(g: Bits, w: Bits, n: nat)
    requires Proper(g)
    ensures Reg(g, Zeros(|g|), w + Zeros(n)) == Zeros(|g|) <==> Reg(g, Zeros(|g|), w) == Zeros(|g|)
  {
    RegAppend(g, Zeros(|g|), w, Zeros(n));
    ZerosKeep(g, Reg(g, Zeros(|g|), w), n);
  }

  // ------------------------------------------------------ feeding by words

  lemma ClockSum(g: Bits, s: Bits, m: Bits)
    requires |g| == |s| == |m| > 0
    ensures Feed(g, Xor(s, m), false) == Xor(Feed(g, s, m[0]), ShiftLeft(m))
  {
  }

  lemma SlideWord(m: Bits, k: nat)
    requires 0 < k <= |m|
    ensures var rest := m[k - 1..] + Zeros(k - 1); rest[0] == m[k - 1] && ShiftLeft(rest) == m[k..] + Zeros(k)
    ensures m[..k][..k - 1] == m[..k - 1] && Zeros(k)[..k - 1] == Zeros(k - 1)
  {
  }

  /** Adding a word to the register and clocking it through is the same as feeding its bits. */
  lemma {:induction false} AddThenClock(g: Bits, r: Bits, m: Bits, k: nat)
    requires |g| == |r| == |m| > 0 && k <= |m|
    ensures Reg(g, Xor(r, m), Zeros(k)) == Xor(Reg(g, r, m[..k]), m[k..] + Zeros(k))
    decreases k
  {
    if k == 0 {
      assert m[0..] + Zeros(0) == m;
      assert m[..0] == [];
    } else {
      AddThenClock(g, r, m, k - 1);
      SlideWord(m, k);
      ClockSum(g, Reg(g, r, m[..k - 1]), m[k - 1..] + Zeros(k - 1));
    }
  }

  /** Adding a word to the top of the register and clocking it out feeds the bits of the word. */
  lemma FeedWord(g: Bits, r: Bits, w: Bits)
    requires |g| == |r| > 0 && |w| <= |r|
    ensures Reg(g, Xor(r, w + Zeros(|r| - |w|)), Zeros(|w|)) == Reg(g, r, w)
  {
    var m := w + Zeros(|r| - |w|);
    AddThenClock(g, r, m, |w|);
    assert m[..|w|] == w;
    assert m[|w|..] + Zeros(|w|) == Zeros(|r|);
    XorZeros(Reg(g, r, w));
  }
}
