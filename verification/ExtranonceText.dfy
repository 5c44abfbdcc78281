/**
 * How an extranonce prints: hex in wire order, with the longest run of zero bytes
 * elided in slots wider than the counter. The run follows sections 4.2.2 and 4.2.3
 * of RFC 5952.
 */
module ExtranonceText {
  import opened Extranonces

  const HEX_DIGITS: string := "0123456789abcdef"

  function HexByte(b: byte): (t: string)
    ensures |t| == 2
  {
    [HEX_DIGITS[b / 16], HEX_DIGITS[b % 16]]
  }

  function Hex(bs: seq<byte>): (t: string)
    ensures |t| == 2 * |bs|
  {
    if bs == [] then "" else HexByte(bs[0]) + Hex(bs[1..])
  }

  function Decimal(n: nat): string {
    (if n < 10 then "" else Decimal(n / 10)) + [HEX_DIGITS[n % 10]]
  }

  ghost predicate ZeroRun(bs: seq<byte>, lo: nat, hi: nat) {
    lo <= hi <= |bs| && forall k :: lo <= k < hi ==> bs[k] == 0
  }

  /** The run the text elides: no zero run is longer, and none as long starts further left. */
  ghost predicate LeftmostLongest(bs: seq<byte>, lo: nat, hi: nat) {
    && ZeroRun(bs, lo, hi)
    && forall a: nat, b: nat :: ZeroRun(bs, a, b) ==> b - a < hi - lo || (b - a == hi - lo && lo <= a)
  }

  function Render(bs: seq<byte>, lo: nat, hi: nat): string
    requires lo <= hi <= |bs|
  {
    if hi - lo < 2 then Hex(bs) else Hex(bs[..lo]) + "::" + Hex(bs[hi..])
  }

  /** `text` is what `e` prints. */
  ghost predicate Prints(e: Extranonce, text: string) {
    if e.width <= COUNTER_WIDTH then text == Hex(e.Bytes())
    else exists lo, hi ::
        && LeftmostLongest(e.Bytes(), lo, hi)
        && text == Render(e.Bytes(), lo, hi) + "/" + Decimal(e.width)
  }

  method WriteCompressed(bytes: seq<byte>) returns (text: string)
    ensures exists lo, hi :: LeftmostLongest(bytes, lo, hi) && text == Render(bytes, lo, hi)
  {
    var lo, hi := 0, 0;
    var i := 0;
    while i < |bytes|
      invariant 0 <= i <= |bytes| + 1
      invariant ZeroRun(bytes, lo, hi) && hi <= i && (lo == hi ==> lo == 0)
      invariant 0 < i <= |bytes| ==> bytes[i - 1] != 0
      invariant forall a: nat, b: nat :: ZeroRun(bytes, a, b) && b <= i ==>
                  b - a < hi - lo || (b - a == hi - lo && lo <= a)
    {
      var start := i;
      while i < |bytes| && bytes[i] == 0
        invariant start <= i <= |bytes|
        invariant ZeroRun(bytes, start, i)
      {
        i := i + 1;
      }
      forall a: nat, b: nat | ZeroRun(bytes, a, b) && a < b && start < b <= i + 1
        ensures b <= i && start <= a
      {
        assert bytes[b - 1] == 0;
      }
      if i - start > hi - lo {
        lo, hi := start, i;
      }
      i := i + 1;
    }
    text := Render(bytes, lo, hi);
  }

  method Display(e: Extranonce) returns (text: string)
    requires e.Valid()
    ensures Prints(e, text)
  {
    DecodeEncode(e);
    if e.width <= COUNTER_WIDTH {
      text := Hex(e.Bytes());
    } else {
      text := WriteCompressed(e.Bytes());
      ghost var lo, hi :| LeftmostLongest(e.Bytes(), lo, hi) && text == Render(e.Bytes(), lo, hi);
      text := text + "/" + Decimal(e.width);
    }
  }

  // ------------------------------------------------------------ injectivity

  lemma {:induction false} HexAlphabet(bs: seq<byte>)
    ensures ':' !in Hex(bs) && '/' !in Hex(bs)
  {
    if bs != [] {
      HexAlphabet(bs[1..]);
    }
  }

  lemma {:induction false} DecimalAlphabet(n: nat)
    ensures '/' !in Decimal(n) && Decimal(n) != ""
  {
    if n >= 10 {
      DecimalAlphabet(n / 10);
    }
  }

  lemma {:induction false} HexInjective(a: seq<byte>, b: seq<byte>)
    requires Hex(a) == Hex(b)
    ensures a == b
  {
    if a != [] {
      assert |Hex(a)| == |Hex(b)|;
      var x, y := HexByte(a[0]), HexByte(b[0]);
      assert Hex(a)[..2] == x && Hex(b)[..2] == y;
      assert Hex(a)[2..] == Hex(a[1..]) && Hex(b)[2..] == Hex(b[1..]);
      HexByteInjective(a[0], b[0]);
      HexInjective(a[1..], b[1..]);
      assert a == [a[0]] + a[1..] && b == [b[0]] + b[1..];
    }
  }

  lemma HexByteInjective(a: byte, b: byte)
    requires HexByte(a) == HexByte(b)
    ensures a == b
  {
    assert HexByte(a)[0] == HexByte(b)[0] && HexByte(a)[1] == HexByte(b)[1];
    HexDigitInjective(a / 16, b / 16);
    HexDigitInjective(a % 16, b % 16);
  }

  lemma HexDigitInjective(a: nat, b: nat)
    requires a < 16 && b < 16 && HEX_DIGITS[a] == HEX_DIGITS[b]
    ensures a == b
  {
  }

  lemma {:induction false} DecimalInjective(a: nat, b: nat)
    requires Decimal(a) == Decimal(b)
    ensures a == b
  {
    var x, y := Decimal(a), Decimal(b);
    assert x[|x| - 1] == y[|y| - 1];
    HexDigitInjective(a % 10, b % 10);
    assert x[..|x| - 1] == y[..|y| - 1];
    if a >= 10 {
      DecimalAlphabet(a / 10);
      assert x[..|x| - 1] == Decimal(a / 10);
    }
    if b >= 10 {
      DecimalAlphabet(b / 10);
      assert y[..|y| - 1] == Decimal(b / 10);
    }
    if a >= 10 && b >= 10 {
      DecimalInjective(a / 10, b / 10);
    }
  }

  /** A text splits at the first occurrence of a character in one way. */
  lemma SplitUnique(c: char, u: string, v: string, u': string, v': string)
    requires c !in u && c !in u'
    requires u + [c] + v == u' + [c] + v'
    ensures u == u' && v == v'
  {
    var t := u + [c] + v;
    assert t[|u|] == c && t[|u'|] == c;
    assert forall k :: 0 <= k < |u| ==> t[k] == u[k];
    assert forall k :: 0 <= k < |u'| ==> t[k] == u'[k];
    assert t[..|u|] == u && t[|u| + 1..] == v;
    assert t[..|u'|] == u' && t[|u'| + 1..] == v';
  }

  lemma RenderHasColon(bs: seq<byte>, lo: nat, hi: nat)
    requires lo <= hi <= |bs|
    ensures ':' in Render(bs, lo, hi) <==> hi - lo >= 2
  {
    HexAlphabet(bs);
    if hi - lo >= 2 {
      assert Render(bs, lo, hi)[2 * lo] == ':';
    }
  }

  /** Only a slot wider than the counter prints its width. */
  lemma SlashMeansWide(e: Extranonce, text: string)
    requires Prints(e, text)
    ensures '/' in text <==> e.width > COUNTER_WIDTH
  {
    HexAlphabet(e.Bytes());
    if e.width > COUNTER_WIDTH {
      var lo, hi :| LeftmostLongest(e.Bytes(), lo, hi) && text == Render(e.Bytes(), lo, hi) + "/" + Decimal(e.width);
      assert text[|Render(e.Bytes(), lo, hi)|] == '/';
    }
  }

  lemma RenderNoSlash(bs: seq<byte>, lo: nat, hi: nat)
    requires lo <= hi <= |bs|
    ensures '/' !in Render(bs, lo, hi)
  {
    HexAlphabet(bs);
    HexAlphabet(bs[..lo]);
    HexAlphabet(bs[hi..]);
  }

  lemma ElidedParts(a: seq<byte>, lo: nat, hi: nat, b: seq<byte>, lo': nat, hi': nat)
    requires lo <= hi <= |a| && lo' <= hi' <= |b|
    requires Hex(a[..lo]) + "::" + Hex(a[hi..]) == Hex(b[..lo']) + "::" + Hex(b[hi'..])
    ensures a[..lo] == b[..lo'] && a[hi..] == b[hi'..]
  {
    HexAlphabet(a[..lo]);
    HexAlphabet(b[..lo']);
    ColonsSplit(Hex(a[..lo]), Hex(a[hi..]), Hex(b[..lo']), Hex(b[hi'..]));
    HexInjective(a[..lo], b[..lo']);
    HexInjective(a[hi..], b[hi'..]);
  }

  lemma ColonsSplit(p: string, q: string, p': string, q': string)
    requires ':' !in p && ':' !in p' && p + "::" + q == p' + "::" + q'
    ensures p == p' && q == q'
  {
    assert p + "::" + q == p + [':'] + (":" + q);
    assert p' + "::" + q' == p' + [':'] + (":" + q');
    SplitUnique(':', p, ":" + q, p', ":" + q');
    assert q == (":" + q)[1..] && q' == (":" + q')[1..];
  }

  lemma RenderInjective(a: seq<byte>, lo: nat, hi: nat, b: seq<byte>, lo': nat, hi': nat)
    requires ZeroRun(a, lo, hi) && ZeroRun(b, lo', hi') && |a| == |b|
    requires Render(a, lo, hi) == Render(b, lo', hi')
    ensures a == b
  {
    RenderHasColon(a, lo, hi);
    RenderHasColon(b, lo', hi');
    if hi - lo < 2 && hi' - lo' < 2 {
      HexInjective(a, b);
    } else if hi - lo >= 2 && hi' - lo' >= 2 {
      ElidedParts(a, lo, hi, b, lo', hi');
      assert |a[..lo]| == |b[..lo']| && |a[hi..]| == |b[hi'..]|;
      forall k | 0 <= k < |a| ensures a[k] == b[k] {
        if k < lo {
          assert a[..lo][k] == b[..lo'][k];
        } else if k >= hi {
          assert a[hi..][k - hi] == b[hi'..][k - hi];
        }
      }
    }
  }

  /** Two different extranonces, in counter or in width, never print alike. */
  lemma PrintedOnce(a: Extranonce, b: Extranonce, text: string)
    requires a.Valid() && b.Valid()
    requires Prints(a, text) && Prints(b, text)
    ensures a == b
  {
    DecodeEncode(a);
    DecodeEncode(b);
    SlashMeansWide(a, text);
    SlashMeansWide(b, text);
    if a.width > COUNTER_WIDTH && b.width > COUNTER_WIDTH {
      var lo, hi :| LeftmostLongest(a.Bytes(), lo, hi) && text == Render(a.Bytes(), lo, hi) + "/" + Decimal(a.width);
      var lo', hi' :| LeftmostLongest(b.Bytes(), lo', hi')
          && text == Render(b.Bytes(), lo', hi') + "/" + Decimal(b.width);
      RenderNoSlash(a.Bytes(), lo, hi);
      RenderNoSlash(b.Bytes(), lo', hi');
      SplitUnique('/', Render(a.Bytes(), lo, hi), Decimal(a.width), Render(b.Bytes(), lo', hi'), Decimal(b.width));
      DecimalInjective(a.width, b.width);
      RenderInjective(a.Bytes(), lo, hi, b.Bytes(), lo', hi');
    } else {
      HexInjective(a.Bytes(), b.Bytes());
    }
    BytesInjective(a, b);
  }

  lemma LeftmostUnique(bs: seq<byte>, lo: nat, hi: nat, lo': nat, hi': nat)
    requires LeftmostLongest(bs, lo, hi) && LeftmostLongest(bs, lo', hi')
    ensures lo == lo' && hi == hi'
  {
    assert ZeroRun(bs, lo, hi) && ZeroRun(bs, lo', hi');
  }

  /** An extranonce prints in one way only. */
  lemma PrintsOneWay(e: Extranonce, s: string, t: string)
    requires Prints(e, s) && Prints(e, t)
    ensures s == t
  {
    if e.width > COUNTER_WIDTH {
      var lo, hi :| LeftmostLongest(e.Bytes(), lo, hi) && s == Render(e.Bytes(), lo, hi) + "/" + Decimal(e.width);
      var lo', hi' :| LeftmostLongest(e.Bytes(), lo', hi') && t == Render(e.Bytes(), lo', hi') + "/" + Decimal(e.width);
      LeftmostUnique(e.Bytes(), lo, hi, lo', hi');
    }
  }

  /** A slot of ten bytes or more always elides zeros: at most the counter's digits print. */
  lemma WideSlotsElide(e: Extranonce, lo: nat, hi: nat)
    requires e.Valid() && e.width >= 10 && LeftmostLongest(e.Bytes(), lo, hi)
    ensures ':' in Render(e.Bytes(), lo, hi)
    ensures |Render(e.Bytes(), lo, hi)| <= 2 * COUNTER_WIDTH + 2
  {
    DecodeEncode(e);
    BytesShape(e);
    var pad := e.width - COUNTER_WIDTH;
    assert forall k :: 0 <= k < pad ==> e.Bytes()[k] == Zeros(pad)[k];
    assert ZeroRun(e.Bytes(), 0, pad);
    RenderHasColon(e.Bytes(), lo, hi);
  }

  // ------------------------------------------------------- reading it back

  /** What a hex digit stands for; other characters for less than nought. */
  function Digit(c: char): int {
    if '0' <= c <= '9' then c as int - '0' as int
    else if 'a' <= c <= 'f' then c as int - 'a' as int + 10
    else -1
  }

  /** Two lower-case hex digits to a byte, the high one first. */
  ghost predicate IsHexByte(high: char, low: char, b: byte) {
    Digit(high) >= 0 && Digit(low) >= 0 && b == 16 * Digit(high) + Digit(low)
  }

  ghost predicate IsHex(t: string, bs: seq<byte>) {
    && |t| == 2 * |bs|
    && forall k :: 0 <= k < |bs| ==> IsHexByte(t[2 * k], t[2 * k + 1], bs[k])
  }

  /** A double colon stands for two zero bytes or more. */
  ghost predicate Shows(t: string, bs: seq<byte>) {
    || IsHex(t, bs)
    || exists lo: nat, hi: nat :: ShowsAround(t, bs, lo, hi)
  }

  ghost predicate ShowsAround(t: string, bs: seq<byte>, lo: nat, hi: nat) {
    && lo + 2 <= hi && ZeroRun(bs, lo, hi)
    && exists left, right :: t == left + "::" + right && IsHex(left, bs[..lo]) && IsHex(right, bs[hi..])
  }

  /** The number a string of decimal digits writes. */
  function Number(t: string): int {
    if t == "" then 0 else 10 * Number(t[..|t| - 1]) + Digit(t[|t| - 1])
  }

  lemma HexDigitReads(d: nat)
    requires d < 16
    ensures Digit(HEX_DIGITS[d]) == d
  {
  }

  lemma HexByteReads(b: byte)
    ensures IsHexByte(HexByte(b)[0], HexByte(b)[1], b)
  {
    HexDigitReads(b / 16);
    HexDigitReads(b % 16);
  }

  lemma {:induction false} HexReads(bs: seq<byte>)
    ensures IsHex(Hex(bs), bs)
  {
    if bs != [] {
      HexReads(bs[1..]);
      HexByteReads(bs[0]);
      HexCons(HexByte(bs[0]), Hex(bs[1..]), bs[0], bs[1..]);
      assert bs == [bs[0]] + bs[1..];
    }
  }

  lemma HexCons(first: string, rest: string, b: byte, bs: seq<byte>)
    requires |first| == 2 && IsHexByte(first[0], first[1], b) && IsHex(rest, bs)
    ensures IsHex(first + rest, [b] + bs)
  {
    var t := first + rest;
    forall k | 0 <= k < |bs| + 1 ensures IsHexByte(t[2 * k], t[2 * k + 1], ([b] + bs)[k]) {
      if k > 0 {
        assert t[2 * k] == rest[2 * (k - 1)] && t[2 * k + 1] == rest[2 * (k - 1) + 1];
      }
    }
  }

  lemma {:induction false} DecimalReads(n: nat)
    ensures Number(Decimal(n)) == n
  {
    HexDigitReads(n % 10);
    if n >= 10 {
      DecimalReads(n / 10);
    }
    NumberSnoc(if n < 10 then "" else Decimal(n / 10), HEX_DIGITS[n % 10]);
  }

  lemma NumberSnoc(front: string, last: char)
    ensures Number(front + [last]) == 10 * Number(front) + Digit(last)
  {
    assert (front + [last])[..|front|] == front;
  }

  /** Decimal digits only, the first of them not nought unless the number is. */
  ghost predicate IsDecimal(t: string, n: nat) {
    && t != "" && (t[0] == '0' ==> n == 0)
    && forall i :: 0 <= i < |t| ==> '0' <= t[i] <= '9'
  }

  lemma {:induction false} DecimalIs(n: nat)
    ensures IsDecimal(Decimal(n), n)
  {
    if n >= 10 {
      DecimalIs(n / 10);
      assert Decimal(n)[..|Decimal(n)| - 1] == Decimal(n / 10);
    }
  }

  lemma RenderReads(bs: seq<byte>, lo: nat, hi: nat)
    requires ZeroRun(bs, lo, hi)
    ensures Shows(Render(bs, lo, hi), bs)
  {
    HexReads(bs);
    if hi - lo >= 2 {
      HexReads(bs[..lo]);
      HexReads(bs[hi..]);
      assert ShowsAround(Render(bs, lo, hi), bs, lo, hi);
    }
  }

  /**
   * What prints can be read back: hex digits two to a byte, in wire order, and for a slot
   * wider than the counter a slash and the width in decimal, without leading zeros.
   */
  lemma PrintsReadably(e: Extranonce, text: string)
    requires Prints(e, text)
    ensures e.width <= COUNTER_WIDTH ==> IsHex(text, e.Bytes())
    ensures e.width > COUNTER_WIDTH ==>
              exists body, width :: text == body + "/" + width && Shows(body, e.Bytes())
                && Number(width) == e.width && IsDecimal(width, e.width)
  {
    HexReads(e.Bytes());
    if e.width > COUNTER_WIDTH {
      var lo, hi :| LeftmostLongest(e.Bytes(), lo, hi) && text == Render(e.Bytes(), lo, hi) + "/" + Decimal(e.width);
      RenderReads(e.Bytes(), lo, hi);
      DecimalReads(e.width);
      DecimalIs(e.width);
    }
  }
}
