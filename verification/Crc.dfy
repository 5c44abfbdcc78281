/**
 * The two CRC routines of the BM13xx wire protocol, proved against the bit-serial
 * register. CRC-5 has the generator of section 8.3.5.1 of the USB 2.0 specification,
 * x^5 + x^2 + 1; CRC-16 has x^16 + x^12 + x^5 + 1. A machine word is the string of its
 * bits, most significant first.
 */
module Crc {
  import opened Lfsr
  import opened Powers
  import Extranonces

  type byte = Extranonces.byte

  /** 0x05 in five bits, and 0x1021. */
  const G5: Bits := [false, false, true, false, true]
  const G16: Bits := [false, false, false, true, false, false, false, false,
                      false, false, true, false, false, false, false, true]

  // --------------------------------------------------------------- words

  /** The low `n` bits of a number. */
  function ToBits(v: nat, n: nat): (w: Bits)
    ensures |w| == n
  {
    if n == 0 then [] else ToBits(v / 2, n - 1) + [v % 2 == 1]
  }

  function FromBits(w: Bits): nat {
    if w == [] then 0 else 2 * FromBits(w[..|w| - 1]) + if w[|w| - 1] then 1 else 0
  }

  lemma {:induction false} BitsRoundTrip(w: Bits)
    ensures ToBits(FromBits(w), |w|) == w
  {
    if w != [] {
      BitsRoundTrip(w[..|w| - 1]);
      assert w == w[..|w| - 1] + [w[|w| - 1]];
    }
  }

  lemma {:induction false} FromBitsBound(w: Bits)
    ensures FromBits(w) < Pow2(|w|)
  {
    if w != [] {
      FromBitsBound(w[..|w| - 1]);
    }
  }

  function BitsOf(b: byte): (w: Bits)
    ensures |w| == 8
  {
    ToBits(b, 8)
  }

  function ByteOf(w: Bits): (b: byte)
    requires |w| == 8
    ensures BitsOf(b) == w
  {
    BitsRoundTrip(w);
    FromBitsBound(w);
    assert Pow2(8) == 2 * Pow2(7) && Pow2(7) == 2 * Pow2(6) && Pow2(6) == 2 * Pow2(5) && Pow2(5) == 2 * Pow2(4)
        && Pow2(4) == 2 * Pow2(3) && Pow2(3) == 2 * Pow2(2) && Pow2(2) == 2 * Pow2(1);
    FromBits(w)
  }

  /** The message: the bits of every byte, in order. */
  function AllBits(data: seq<byte>): (bits: Bits)
    ensures |bits| == 8 * |data|
  {
    if data == [] then [] else AllBits(data[..|data| - 1]) + BitsOf(data[|data| - 1])
  }

  lemma AllBitsSnoc(data: seq<byte>, b: byte)
    ensures AllBits(data + [b]) == AllBits(data) + BitsOf(b)
  {
    assert (data + [b])[..|data|] == data;
  }

  // --------------------------------------------------------------- CRC-5

  /** The register lives in the low five bits of a byte. */
  function Padded(r: Bits): (w: Bits)
    requires |r| == 5
    ensures |w| == 8
  {
    Zeros(3) + r
  }

  /** Bitwise and. */
  function And(a: Bits, b: Bits): (x: Bits)
    requires |a| == |b|
    ensures |x| == |a|
  {
    seq(|a|, (i: nat) requires i < |a| => a[i] && b[i])
  }

  method Crc5(data: seq<byte>) returns (crc: Bits)
    ensures crc == Padded(Reg(G5, Ones(5), AllBits(data)))
  {
    crc := Zeros(3) + Ones(5);
    for k := 0 to |data|
      invariant crc == Padded(Reg(G5, Ones(5), AllBits(data[..k])))
    {
      var byte := BitsOf(data[k]);
      ghost var start := Reg(G5, Ones(5), AllBits(data[..k]));
      var i: nat := 8;
      while i > 0
        invariant 0 <= i <= 8
        invariant crc == Padded(Reg(G5, start, byte[..8 - i]))
      {
        i := i - 1;
        assert byte[..8 - i][..7 - i] == byte[..7 - i];
        Clock5(Reg(G5, start, byte[..7 - i]), byte[7 - i]);
        var bit := byte[7 - i];
        var top := crc[3];
        crc := And(ShiftLeft(crc), Zeros(3) + Ones(5));
        if top != bit {
          crc := Xor(crc, Padded(G5));
        }
      }
      NextByte(G5, Ones(5), data, k);
      assert byte[..8] == byte;
    }
    assert data[..|data|] == data;
  }

  /** One pass of the inner loop clocks the register once. */
  lemma Clock5(r: Bits, bit: bool)
    requires |r| == 5
    ensures var shifted := And(ShiftLeft(Padded(r)), Zeros(3) + Ones(5));
            && Padded(r)[3] == r[0]
            && (if r[0] != bit then Xor(shifted, Padded(G5)) else shifted) == Padded(Feed(G5, r, bit))
  {
    assert And(ShiftLeft(Padded(r)), Zeros(3) + Ones(5)) == Padded(ShiftLeft(r));
    assert Xor(Padded(ShiftLeft(r)), Padded(G5)) == Padded(Xor(ShiftLeft(r), G5));
  }

  lemma NextByte(g: Bits, r: Bits, data: seq<byte>, k: nat)
    requires |g| == |r| > 0 && k < |data|
    ensures Reg(g, r, AllBits(data[..k + 1])) == Reg(g, Reg(g, r, AllBits(data[..k])), BitsOf(data[k]))
  {
    assert data[..k + 1] == data[..k] + [data[k]];
    AllBitsSnoc(data[..k], data[k]);
    RegAppend(g, r, AllBits(data[..k]), BitsOf(data[k]));
  }

  method Crc5IsValid(data: seq<byte>) returns (valid: bool)
    ensures valid <==> Valid(G5, AllBits(data))
  {
    var crc := Crc5(data);
    var r := crc[3..];
    assert crc == Zeros(8) <==> r == Zeros(5) by {
      assert crc == Zeros(3) + r && Zeros(8)[3..] == Zeros(5) && Zeros(8) == Zeros(3) + Zeros(5);
    }
    valid := crc == Zeros(8);
  }

  /**
   * A frame passes the check for responses exactly when the generator divides its bits by
   * long division, and exactly when its last five bits are the CRC of those in front.
   */
  lemma ValidFrame(bits: Bits)
    ensures Valid(G5, bits) <==> LongDivision(G5, Dividend(Ones(5), bits)) == Zeros(5)
    ensures |bits| >= 5 ==> (Valid(G5, bits) <==> bits[|bits| - 5..] == Reg(G5, Ones(5), bits[..|bits| - 5]))
  {
    RegisterIsRemainder(G5, Ones(5), bits);
    if |bits| >= 5 {
      LastBitsAreRegister(G5, bits);
    }
  }

  /** A good frame with wrong bits is rejected when they lie within five bits, so any single one is. */
  lemma FiveBitBurstRejected(bits: Bits, error: Bits, p: nat)
    requires |bits| == |error| && Valid(G5, bits) && Burst(error, p, 5)
    ensures !Valid(G5, Xor(bits, error))
  {
    BurstCaught(G5, bits, error, p);
  }

  // --------------------------------------------------- pairs of wrong bits

  /** The register by its five bits, b4 the highest. */
  datatype Word5 = W5(b4: bool, b3: bool, b2: bool, b1: bool, b0: bool) {
    function AsBits(): (w: Bits)
      ensures |w| == 5
    {
      [b4, b3, b2, b1, b0]
    }

    function Fed(bit: bool): Word5 { W5(b3, b2, b1 != (b4 != bit), b0, b4 != bit) }

    function Clock(): Word5 { Fed(false) }
  }

  const ZERO5 := W5(false, false, false, false, false)

  lemma SameBits(v: Word5, w: Word5)
    ensures v.AsBits() == w.AsBits() <==> v == w
    ensures ZERO5.AsBits() == Zeros(5)
  {
    var s, t := v.AsBits(), w.AsBits();
    if s == t {
      assert s[0] == t[0] && s[1] == t[1] && s[2] == t[2] && s[3] == t[3] && s[4] == t[4];
    }
  }

  lemma FeedFive(w: Word5, bit: bool)
    ensures Feed(G5, w.AsBits(), bit) == w.Fed(bit).AsBits()
  {
    var r, s := w.AsBits(), w.Fed(bit).AsBits();
    assert ShiftLeft(r) == [w.b3, w.b2, w.b1, w.b0, false];
    forall i | 0 <= i < 5 ensures Feed(G5, r, bit)[i] == s[i] {
    }
  }

  /** The register `k` zeros after a single one fed to a register of zeros. */
  function Orbit(k: nat): Word5 {
    if k == 0 then W5(false, false, true, false, true) else Orbit(k - 1).Clock()
  }

  lemma OrbitTable()
    ensures forall k: nat :: 0 < k < 31 ==> Orbit(k) != Orbit(0)
    ensures Orbit(31) == Orbit(0)
  {
    assert Orbit(0) == W5(false, false, true, false, true);
    assert Orbit(1) == W5(false, true, false, true, false);
    assert Orbit(2) == W5(true, false, true, false, false);
    assert Orbit(3) == W5(false, true, true, false, true);
    assert Orbit(4) == W5(true, true, false, true, false);
    assert Orbit(5) == W5(true, false, false, false, true);
    assert Orbit(6) == W5(false, false, true, true, true);
    assert Orbit(7) == W5(false, true, true, true, false);
    assert Orbit(8) == W5(true, true, true, false, false);
    assert Orbit(9) == W5(true, true, true, false, true);
    assert Orbit(10) == W5(true, true, true, true, true);
    assert Orbit(11) == W5(true, true, false, true, true);
    assert Orbit(12) == W5(true, false, false, true, true);
    assert Orbit(13) == W5(false, false, false, true, true);
    assert Orbit(14) == W5(false, false, true, true, false);
    assert Orbit(15) == W5(false, true, true, false, false);
    assert Orbit(16) == W5(true, true, false, false, false);
    assert Orbit(17) == W5(true, false, true, false, true);
    assert Orbit(18) == W5(false, true, true, true, true);
    assert Orbit(19) == W5(true, true, true, true, false);
    assert Orbit(20) == W5(true, true, false, false, true);
    assert Orbit(21) == W5(true, false, true, true, true);
    assert Orbit(22) == W5(false, true, false, true, true);
    assert Orbit(23) == W5(true, false, true, true, false);
    assert Orbit(24) == W5(false, true, false, false, true);
    assert Orbit(25) == W5(true, false, false, true, false);
    assert Orbit(26) == W5(false, false, false, false, true);
    assert Orbit(27) == W5(false, false, false, true, false);
    assert Orbit(28) == W5(false, false, true, false, false);
    assert Orbit(29) == W5(false, true, false, false, false);
    assert Orbit(30) == W5(true, false, false, false, false);
    assert Orbit(31) == W5(false, false, true, false, true);
  }

  lemma {:induction false} OrbitPeriod(k: nat)
    ensures Orbit(k + 31) == Orbit(k)
  {
    if k == 0 {
      OrbitTable();
    } else {
      OrbitPeriod(k - 1);
      assert Orbit(k + 31) == Orbit(k - 1 + 31).Clock();
    }
  }

  lemma {:induction false} OrbitReturns(k: nat)
    ensures Orbit(k) == Orbit(0) <==> k % 31 == 0
  {
    if k >= 31 {
      OrbitPeriod(k - 31);
      OrbitReturns(k - 31);
    } else {
      OrbitTable();
    }
  }

  lemma {:induction false} OneThenZeros(k: nat)
    ensures Reg(G5, Zeros(5), [true] + Zeros(k)) == Orbit(k).AsBits()
  {
    var w := [true] + Zeros(k);
    if k == 0 {
      assert w == [true];
      RegOne(G5, Zeros(5), true);
      SameBits(ZERO5, ZERO5);
      FeedFive(ZERO5, true);
    } else {
      OneThenZeros(k - 1);
      assert w[..|w| - 1] == [true] + Zeros(k - 1);
      FeedFive(Orbit(k - 1), false);
    }
  }

  lemma PairShows(k: nat)
    requires k > 0
    ensures Reg(G5, Zeros(5), [true] + Zeros(k - 1) + [true]) == Zeros(5) <==> k % 31 == 0
  {
    var w := [true] + Zeros(k - 1) + [true];
    assert w[..|w| - 1] == [true] + Zeros(k - 1);
    OneThenZeros(k - 1);
    FeedFive(Orbit(k - 1), true);
    OrbitReturns(k);
    SameBits(Orbit(k - 1).Fed(true), ZERO5);
  }

  /** Exactly two wrong bits, at `p` and `q`. */
  ghost predicate Pair(error: Bits, p: nat, q: nat) {
    p < q < |error| && forall i :: 0 <= i < |error| ==> (error[i] <==> i == p || i == q)
  }

  /** Two wrong bits go unnoticed exactly when they are a multiple of 31 bits apart. */
  lemma PairCaughtUnlessPeriodic(bits: Bits, error: Bits, p: nat, q: nat)
    requires |bits| == |error| && Valid(G5, bits) && Pair(error, p, q)
    ensures Valid(G5, Xor(bits, error)) <==> (q - p) % 31 == 0
  {
    ErrorPasses(G5, bits, error);
    var w := [true] + Zeros(q - p - 1) + [true];
    assert error == Zeros(p) + w + Zeros(|error| - q - 1);
    Surrounded(G5, p, w, |error| - q - 1);
    PairShows(q - p);
  }

  // ------------------------------------------------------- whole-byte CRC

  lemma {:induction false} ZerosClock(w: Word5, n: nat)
    ensures Reg(G5, w.AsBits(), Zeros(n)) == Clocked(w, n).AsBits()
  {
    if n > 0 {
      ZerosClock(w, n - 1);
      assert Zeros(n)[..n - 1] == Zeros(n - 1);
      FeedFive(Clocked(w, n - 1), false);
    }
  }

  function Clocked(w: Word5, n: nat): Word5 {
    if n == 0 then w else Clocked(w, n - 1).Clock()
  }

  lemma ClockedThrice(w: Word5)
    ensures Clocked(w, 3) == w <==> w == ZERO5
  {
    assert Clocked(w, 1) == w.Clock();
    assert Clocked(w, 2) == w.Clock().Clock();
    assert Clocked(w, 3) == Clocked(w, 2).Clock();
  }

  /** Clocked through three zeros, no register but zero comes back to itself. */
  lemma ThreeClocks(r: Bits, n: nat)
    requires |r| == 5 && n == 3
    ensures Reg(G5, r, Zeros(n)) == r <==> r == Zeros(5)
  {
    var w := W5(r[0], r[1], r[2], r[3], r[4]);
    assert r == w.AsBits();
    ZerosClock(w, n);
    ClockedThrice(w);
    SameBits(Clocked(w, n), w);
    SameBits(w, ZERO5);
  }

  /**
   * A command carries its CRC in a whole byte, with three zero bits in front. Such a frame
   * passes the check for responses exactly when its CRC happens to be zero.
   */
  lemma PaddedCrcCheck(bits: Bits)
    ensures var r := Reg(G5, Ones(5), bits);
            Valid(G5, bits + Padded(r)) <==> r == Zeros(5)
  {
    var r := Reg(G5, Ones(5), bits);
    RegAppend(G5, Ones(5), bits, Padded(r));
    RegAppend(G5, r, Zeros(3), r);
    ClearedByItself(G5, Reg(G5, r, Zeros(3)), r);
    ThreeClocks(r, 3);
  }

  // -------------------------------------------------------------- CRC-16

  method Crc16(data: seq<byte>) returns (crc: Bits)
    ensures crc == Reg(G16, Ones(16), AllBits(data))
  {
    crc := Ones(16);
    for k := 0 to |data|
      invariant crc == Reg(G16, Ones(16), AllBits(data[..k]))
    {
      ghost var start := crc;
      var byte := BitsOf(data[k]);
      crc := Xor(crc, byte + Zeros(8));
      for j := 0 to 8
        invariant crc == Reg(G16, Xor(start, byte + Zeros(8)), Zeros(j))
      {
        assert Zeros(j + 1)[..j] == Zeros(j);
        if crc[0] {
          crc := Xor(ShiftLeft(crc), G16);
        } else {
          crc := ShiftLeft(crc);
        }
      }
      FeedWord(G16, start, byte);
      NextByte(G16, Ones(16), data, k);
    }
    assert data[..|data|] == data;
  }

  /** The bytes a word is sent as, high byte first. */
  function BigEndian(w: Bits): (bs: seq<byte>)
    requires |w| == 16
    ensures |bs| == 2 && BitsOf(bs[0]) == w[..8] && BitsOf(bs[1]) == w[8..]
  {
    [ByteOf(w[..8]), ByteOf(w[8..])]
  }

  /** A whole job frame checks to zero exactly when its last two bytes are the CRC, high byte first. */
  lemma BigEndianCrcCheck(data: seq<byte>, hi: byte, lo: byte)
    ensures Valid(G16, AllBits(data + [hi, lo])) <==> BitsOf(hi) + BitsOf(lo) == Reg(G16, Ones(16), AllBits(data))
    ensures Valid(G16, AllBits(data + BigEndian(Reg(G16, Ones(16), AllBits(data)))))
  {
    TwoBytesCheck(data, hi, lo);
    var w := Reg(G16, Ones(16), AllBits(data));
    var bs := BigEndian(w);
    TwoBytesCheck(data, bs[0], bs[1]);
    assert bs == [bs[0], bs[1]];
    assert w[..8] + w[8..] == w;
  }

  lemma TwoBytesCheck(data: seq<byte>, hi: byte, lo: byte)
    ensures Valid(G16, AllBits(data + [hi, lo])) <==> BitsOf(hi) + BitsOf(lo) == Reg(G16, Ones(16), AllBits(data))
  {
    var bits, tail := AllBits(data), BitsOf(hi) + BitsOf(lo);
    assert data + [hi, lo] == data + [hi] + [lo];
    AllBitsSnoc(data, hi);
    AllBitsSnoc(data + [hi], lo);
    assert AllBits(data + [hi, lo]) == bits + tail;
    RegAppend(G16, Ones(16), bits, tail);
    ClearedByItself(G16, Reg(G16, Ones(16), bits), tail);
  }

  // ------------------------------------------------ what pins the two down

  /** CRC-16 rejects every odd number of wrong bits, and every burst within sixteen bits. */
  lemma OddOrBurstRejected(bits: Bits, error: Bits, p: nat)
    requires |bits| == |error| && Valid(G16, bits) && (Odd(error) || Burst(error, p, 16))
    ensures !Valid(G16, Xor(bits, error))
  {
    if Odd(error) {
      OddG16();
      OddErrorCaught(G16, bits, error);
    } else {
      BurstCaught(G16, bits, error, p);
    }
  }

  lemma OddG16()
    ensures Odd(G16)
  {
    var low, high := Zeros(4) + [true], Zeros(3) + [true] + (Zeros(6) + [true]);
    assert G16 == high + low;
    OddZeros(3);
    OddZeros(4);
    OddZeros(6);
    OddOne(true);
    OddAppend(Zeros(4), [true]);
    OddAppend(Zeros(3), [true]);
    OddAppend(Zeros(6), [true]);
    OddAppend(Zeros(3) + [true], Zeros(6) + [true]);
    OddAppend(high, low);
  }

  /** Bit `i` of byte `k`, from the highest on, is bit `8 * k + i` of the message. */
  lemma {:induction false} AllBitsAt(data: seq<byte>, k: nat, i: nat)
    requires k < |data| && i < 8
    ensures AllBits(data)[8 * k + i] == BitsOf(data[k])[i]
    ensures BitsOf(data[k])[i] <==> data[k] / Pow2(7 - i) % 2 == 1
  {
    if k < |data| - 1 {
      AllBitsAt(data[..|data| - 1], k, i);
    }
    BitAt(data[k], 8, i);
  }

  lemma {:induction false} BitAt(v: nat, n: nat, i: nat)
    requires i < n
    ensures ToBits(v, n)[i] <==> v / Pow2(n - 1 - i) % 2 == 1
  {
    if i < n - 1 {
      BitAt(v / 2, n - 1, i);
      DividedTwice(v, 2, Pow2(n - 2 - i));
    }
  }

  /** The coefficient of x^`p` below the leading one: the generators are x^5 + x^2 + 1 and x^16 + x^12 + x^5 + 1. */
  lemma GeneratorTerms(p: nat)
    ensures p < 5 ==> (G5[4 - p] <==> p == 2 || p == 0)
    ensures p < 16 ==> (G16[15 - p] <==> p == 12 || p == 5 || p == 0)
  {
  }

  /** A line that only carries zeros never passes either check. */
  lemma SilentLineRejected(n: nat)
    ensures !Valid(G5, Zeros(n)) && !Valid(G16, Zeros(n))
  {
    ZerosKeep(G5, Ones(5), n);
    ZerosKeep(G16, Ones(16), n);
    assert Ones(5)[0] != Zeros(5)[0] && Ones(16)[0] != Zeros(16)[0];
  }
}
