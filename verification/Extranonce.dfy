/** Extranonces, their byte codec, and ranges that split among hash threads. */
module Extranonces {
  import opened Options
  import opened Powers

  const U64_SIZE: nat := 0x1_0000_0000_0000_0000
  const MAX_WIDTH: nat := 32
  const COUNTER_WIDTH: nat := 8

  type u64 = x: int | 0 <= x < U64_SIZE
  type byte = x: int | 0 <= x < 256

  // ---------------------------------------------------------------- bytes

  function Pow256(k: nat): (p: nat)
    ensures p > 0
  {
    if k == 0 then 1 else 256 * Pow256(k - 1)
  }

  lemma Pow256Steps()
    ensures Pow256(1) == 0x100 && Pow256(2) == 0x1_0000 && Pow256(3) == 0x100_0000
    ensures Pow256(4) == 0x1_0000_0000 && Pow256(5) == 0x100_0000_0000
    ensures Pow256(6) == 0x1_0000_0000_0000 && Pow256(7) == 0x100_0000_0000_0000
    ensures Pow256(8) == U64_SIZE
  {
    assert Pow256(1) == 256 * Pow256(0);
    assert Pow256(2) == 256 * Pow256(1);
    assert Pow256(3) == 256 * Pow256(2);
    assert Pow256(4) == 256 * Pow256(3);
    assert Pow256(5) == 256 * Pow256(4);
    assert Pow256(6) == 256 * Pow256(5);
    assert Pow256(7) == 256 * Pow256(6);
    assert Pow256(8) == 256 * Pow256(7);
  }

  /** The low `k` bytes of `v`, most significant first. */
  function BeBytes(v: nat, k: nat): (bs: seq<byte>)
    ensures |bs| == k
  {
    if k == 0 then [] else BeBytes(v / 256, k - 1) + [v % 256]
  }

  /** The number that `bs` writes, most significant byte first. */
  function BeValue(bs: seq<byte>): nat {
    if bs == [] then 0 else 256 * BeValue(bs[..|bs| - 1]) + bs[|bs| - 1]
  }

  function Zeros(k: nat): (bs: seq<byte>)
    ensures |bs| == k
  {
    seq(k, _ => 0)
  }

  lemma {:induction false} ValueOfBytes(v: nat, k: nat)
    requires v < Pow256(k)
    ensures BeValue(BeBytes(v, k)) == v
  {
    if k > 0 {
      ValueOfBytes(v / 256, k - 1);
      assert BeBytes(v, k)[..k - 1] == BeBytes(v / 256, k - 1);
    }
  }

  lemma {:induction false} BytesOfValue(bs: seq<byte>)
    ensures BeBytes(BeValue(bs), |bs|) == bs
    ensures BeValue(bs) < Pow256(|bs|)
  {
    if bs != [] {
      var init := bs[..|bs| - 1];
      BytesOfValue(init);
      var v := BeValue(bs);
      assert v / 256 == BeValue(init) && v % 256 == bs[|bs| - 1];
      assert bs == init + [bs[|bs| - 1]];
    }
  }

  /** Dropping high bytes of a fixed-width encoding leaves the narrower one. */
  lemma {:induction false} BytesSuffix(v: nat, n: nat, k: nat)
    requires k <= n
    ensures BeBytes(v, n)[n - k..] == BeBytes(v, k)
  {
    if k > 0 {
      BytesSuffix(v / 256, n - 1, k - 1);
      assert BeBytes(v, n)[n - k..] == BeBytes(v / 256, n - 1)[n - k..] + [v % 256];
    }
  }

  lemma {:induction false} ValueOfPadded(k: nat, bs: seq<byte>)
    ensures BeValue(Zeros(k) + bs) == BeValue(bs)
    decreases k + |bs|
  {
    var all := Zeros(k) + bs;
    if bs != [] {
      ValueOfPadded(k, bs[..|bs| - 1]);
      assert all[..|all| - 1] == Zeros(k) + bs[..|bs| - 1];
    } else if k > 0 {
      ValueOfPadded(k - 1, []);
      assert all[..k - 1] == Zeros(k - 1) + [];
    }
  }

  // ----------------------------------------------------------- extranonce

  datatype ExtranonceError = InvalidWidth(width: nat) | BeyondCounter

  function CheckWidth(width: nat): Result<nat, ExtranonceError> {
    if 1 <= width <= MAX_WIDTH then Ok(width) else Err(InvalidWidth(width))
  }

  /** The largest counter that fits in a slot of the given width. */
  function MaxCounter(width: nat): u64 {
    if width * 8 >= 64 then U64_SIZE - 1 else Pow256Steps(); Pow256(width) - 1
  }

  datatype Extranonce = Extranonce(counter: u64, width: nat) {
    /** What every constructor of the type establishes: the counter fits its slot. */
    ghost predicate Valid() {
      1 <= width <= MAX_WIDTH && counter <= MaxCounter(width)
    }

    function Bytes(): seq<byte> {
      var counterBytes := if width < COUNTER_WIDTH then width else COUNTER_WIDTH;
      var padding := width - counterBytes;
      Zeros(padding) + BeBytes(counter, COUNTER_WIDTH)[COUNTER_WIDTH - counterBytes..]
    }
  }

  predicate AllZero(bs: seq<byte>) {
    forall i :: 0 <= i < |bs| ==> bs[i] == 0
  }

  /** The counter written by up to eight bytes, right-aligned in its eight. */
  function CounterOf(tail: seq<byte>): (c: u64)
    requires |tail| <= COUNTER_WIDTH
    ensures c == BeValue(tail)
  {
    var counter := Zeros(COUNTER_WIDTH - |tail|) + tail;
    BytesOfValue(counter);
    ValueOfPadded(COUNTER_WIDTH - |tail|, tail);
    Pow256Steps();
    BeValue(counter)
  }

  lemma MaxCounterIs(width: nat)
    requires 1 <= width
    ensures MaxCounter(width) == Pow256(if width < COUNTER_WIDTH then width else COUNTER_WIDTH) - 1
  {
    Pow256Steps();
  }

  function FromBytes(bytes: seq<byte>): (r: Result<Extranonce, ExtranonceError>)
    ensures r.Ok? ==> r.value.width == |bytes|
  {
    match CheckWidth(|bytes|)
    case Err(e) => Err(e)
    case Ok(width) =>
      var cut := if |bytes| < COUNTER_WIDTH then 0 else |bytes| - COUNTER_WIDTH;
      var padding, tail := bytes[..cut], bytes[cut..];
      if !AllZero(padding) then Err(BeyondCounter)
      else Ok(Extranonce(CounterOf(tail), width))
  }

  lemma BytesShape(e: Extranonce)
    requires e.Valid()
    ensures var k := if e.width < COUNTER_WIDTH then e.width else COUNTER_WIDTH;
            e.Bytes() == Zeros(e.width - k) + BeBytes(e.counter, k)
  {
    BytesSuffix(e.counter, COUNTER_WIDTH, if e.width < COUNTER_WIDTH then e.width else COUNTER_WIDTH);
  }

  /** Decoding what an extranonce writes gives it back, at every width. */
  lemma DecodeEncode(e: Extranonce)
    requires e.Valid()
    ensures |e.Bytes()| == e.width
    ensures FromBytes(e.Bytes()) == Ok(e)
  {
    var k := if e.width < COUNTER_WIDTH then e.width else COUNTER_WIDTH;
    BytesShape(e);
    MaxCounterIs(e.width);
    ValueOfBytes(e.counter, k);
    var bs := e.Bytes();
    assert bs[..e.width - k] == Zeros(e.width - k);
    assert bs[e.width - k..] == BeBytes(e.counter, k);
  }

  /** An extranonce is valid when its counter fits the slot; it is written with the counter's lowest byte last. */
  lemma BytesAre(e: Extranonce, i: nat)
    ensures e.Valid() <==> 1 <= e.width <= 32 && e.counter < Pow256(e.width)
    ensures e.Valid() && i < e.width ==>
              |e.Bytes()| == e.width && e.Bytes()[e.width - 1 - i] == e.counter / Pow256(i) % 256
  {
    if 1 <= e.width <= 32 {
      MaxCounterIs(e.width);
      Pow256Steps();
      Pow256Grows(COUNTER_WIDTH, e.width);
    }
    if e.Valid() && i < e.width {
      var k := if e.width < COUNTER_WIDTH then e.width else COUNTER_WIDTH;
      BytesShape(e);
      if i < k {
        BeBytesAt(e.counter, k, i);
      } else {
        Pow256Grows(COUNTER_WIDTH, i);
        DivisionToNought(e.counter, Pow256(i));
      }
    }
  }

  lemma DivisionToNought(v: nat, p: nat)
    requires v < p
    ensures v / p == 0
  {
  }

  lemma {:induction false} Pow256Grows(i: nat, j: nat)
    ensures i <= j ==> Pow256(i) <= Pow256(j)
    decreases j
  {
    if i < j {
      Pow256Grows(i, j - 1);
    }
  }

  lemma {:induction false} BeBytesAt(v: nat, k: nat, i: nat)
    requires i < k
    ensures BeBytes(v, k)[k - 1 - i] == v / Pow256(i) % 256
  {
    if i > 0 {
      BeBytesAt(v / 256, k - 1, i - 1);
      DividedTwice(v, 256, Pow256(i - 1));
    }
  }

  /**
   * Encoding what was decoded gives the same bytes; decoding succeeds exactly on
   * 1 to 32 bytes with nothing but zeros left of the last eight, and names the
   * error otherwise.
   */
  lemma EncodeDecode(bytes: seq<byte>)
    ensures FromBytes(bytes).Ok? <==>
            1 <= |bytes| <= 32 && forall i :: 0 <= i < |bytes| - 8 ==> bytes[i] == 0
    ensures FromBytes(bytes).Ok? ==> FromBytes(bytes).value.Valid() && FromBytes(bytes).value.Bytes() == bytes
    ensures FromBytes(bytes) == Err(InvalidWidth(|bytes|)) <==> !(1 <= |bytes| <= 32)
  {
    var r := FromBytes(bytes);
    if 1 <= |bytes| <= MAX_WIDTH {
      var cut := if |bytes| < COUNTER_WIDTH then 0 else |bytes| - COUNTER_WIDTH;
      assert AllZero(bytes[..cut]) <==> forall i :: 0 <= i < cut ==> bytes[i] == 0;
      if r.Ok? {
        var tail := bytes[cut..];
        BytesOfValue(tail);
        MaxCounterIs(|bytes|);
        BytesShape(r.value);
        assert bytes[..cut] == Zeros(cut);
        assert bytes == bytes[..cut] + tail;
      }
    }
  }

  /** Two extranonces of one width that write the same bytes are the same. */
  lemma BytesInjective(a: Extranonce, b: Extranonce)
    requires a.Valid() && b.Valid() && a.Bytes() == b.Bytes()
    ensures a == b
  {
    DecodeEncode(a);
    DecodeEncode(b);
  }

  // ---------------------------------------------------------------- range

  datatype ExtranonceRange = ExtranonceRange(first: u64, last: u64, width: nat) {
    predicate Valid() {
      1 <= width <= MAX_WIDTH && first <= last <= MaxCounter(width)
    }

    function Len(): nat
      requires first <= last
    {
      (last - first) + 1
    }

    ghost predicate Contains(e: Extranonce) {
      e.width == width && first <= e.counter <= last
    }

    function Start(): Extranonce {
      Extranonce(first, width)
    }
  }

  function Full(width: nat): (r: Result<ExtranonceRange, ExtranonceError>)
    ensures r.Ok? <==> 1 <= width <= 32
    ensures r.Ok? ==> r.value.Valid() && forall e: Extranonce :: e.Valid() && e.width == width <==> r.value.Contains(e)
  {
    match CheckWidth(width)
    case Err(e) => Err(e)
    case Ok(w) => Ok(ExtranonceRange(0, MaxCounter(w), w))
  }

  function StartingAt(first: Extranonce): (r: ExtranonceRange)
    ensures first.Valid() ==>
              r.Valid() && forall e: Extranonce ::
                e.Valid() && e.width == first.width && e.counter >= first.counter <==> r.Contains(e)
  {
    ExtranonceRange(first.counter, MaxCounter(first.width), first.width)
  }

  /** How long part `i` is when `len` values go to `n` parts: the first of them take the remainder. */
  function PartLen(len: nat, n: nat, i: nat): nat
    requires n > 0
  {
    len / n + if i < len % n then 1 else 0
  }

  /** Where part `i` begins. */
  function PartStart(first: nat, len: nat, n: nat, i: nat): nat
    requires n > 0
  {
    if i == 0 then first else PartStart(first, len, n, i - 1) + PartLen(len, n, i - 1)
  }

  lemma PartLength(first: nat, len: nat, n: nat, i: nat)
    requires 0 < n <= len
    ensures PartStart(first, len, n, i + 1) - PartStart(first, len, n, i) == PartLen(len, n, i) >= 1
  {
  }

  lemma OneMore(i: int, b: int)
    ensures i * b == (i - 1) * b + b
  {
  }

  lemma {:induction false} PartClosedForm(first: nat, len: nat, n: nat, i: nat)
    requires n > 0
    ensures PartStart(first, len, n, i) == first + i * (len / n) + (if i < len % n then i else len % n)
  {
    if i > 0 {
      PartClosedForm(first, len, n, i - 1);
      OneMore(i, len / n);
    }
  }

  lemma PartEnd(first: nat, len: nat, n: nat)
    requires n > 0
    ensures PartStart(first, len, n, n) == first + len
    ensures PartStart(first, len, n, 0) == first
  {
    PartClosedForm(first, len, n, n);
    assert len == n * (len / n) + len % n;
  }

  lemma {:induction false} PartOrder(first: nat, len: nat, n: nat, i: nat, j: nat)
    requires 0 < n <= len && i <= j <= n
    ensures PartStart(first, len, n, i) + (j - i) <= PartStart(first, len, n, j)
    decreases j
  {
    if i < j {
      PartOrder(first, len, n, i, j - 1);
      PartLength(first, len, n, j - 1);
    }
  }

  /** The parts of `r.split(n)`, each by its own arithmetic. */
  function Parts(r: ExtranonceRange, n: nat): (ps: seq<ExtranonceRange>)
    requires r.first <= r.last && 0 < n <= r.Len()
    ensures |ps| == n
  {
    seq(n, (i: nat) requires i < n => Part(r, n, i))
  }

  function Part(r: ExtranonceRange, n: nat, i: nat): ExtranonceRange
    requires r.first <= r.last && 0 < n <= r.Len() && i < n
  {
    PartOrder(r.first, r.Len(), n, 0, i);
    PartOrder(r.first, r.Len(), n, i, i + 1);
    PartOrder(r.first, r.Len(), n, i + 1, n);
    PartEnd(r.first, r.Len(), n);
    ExtranonceRange(PartStart(r.first, r.Len(), n, i), PartStart(r.first, r.Len(), n, i + 1) - 1, r.width)
  }

  function SplitParts(r: ExtranonceRange, n: nat): Option<seq<ExtranonceRange>>
    requires r.first <= r.last
  {
    if n == 0 || n > r.Len() then None else Some(Parts(r, n))
  }

  /**
   * A split is an exact ordered partition: `n` non-empty parts, each starting where
   * the one before it stops, from the first value to the last, with lengths that
   * differ by at most one and the longer parts first.
   */
  lemma SplitPartition(r: ExtranonceRange, n: nat)
    requires r.Valid() && 0 < n <= r.Len()
    ensures var ps := Parts(r, n);
            && (forall i :: 0 <= i < n ==> ps[i].Valid() && ps[i].width == r.width)
            && ps[0].first == r.first && ps[n - 1].last == r.last
            && (forall i :: 0 <= i < n - 1 ==> ps[i].last + 1 == ps[i + 1].first)
            && (forall i: nat :: i < n ==> ps[i].Len() == r.Len() / n + if i < r.Len() % n then 1 else 0)
  {
    var first, len := r.first, r.Len();
    PartEnd(first, len, n);
    forall i | 0 <= i < n
      ensures Parts(r, n)[i].Valid() && Parts(r, n)[i].Len() == len / n + if i < len % n then 1 else 0
    {
      PartLength(first, len, n, i);
      PartOrder(first, len, n, 0, i);
      PartOrder(first, len, n, i, i + 1);
      PartOrder(first, len, n, i + 1, n);
    }
  }

  /** Which part of a split a value of the range falls in. */
  lemma {:induction false} PartOf(r: ExtranonceRange, n: nat, c: nat, k: nat) returns (i: nat)
    requires r.first <= r.last && 0 < n <= r.Len() && k <= n
    requires r.first <= c < PartStart(r.first, r.Len(), n, k)
    ensures i < k && Parts(r, n)[i].first <= c <= Parts(r, n)[i].last
    decreases k
  {
    PartEnd(r.first, r.Len(), n);
    if c < PartStart(r.first, r.Len(), n, k - 1) {
      i := PartOf(r, n, c, k - 1);
    } else {
      i := k - 1;
    }
  }

  /** Every extranonce of the range is in exactly one part, and the parts hold no others. */
  lemma SplitCoversOnce(r: ExtranonceRange, n: nat, e: Extranonce)
    requires r.Valid() && 0 < n <= r.Len()
    ensures r.Contains(e) <==> exists i :: 0 <= i < n && Parts(r, n)[i].Contains(e)
    ensures forall i, j :: 0 <= i < n && 0 <= j < n && Parts(r, n)[i].Contains(e) && Parts(r, n)[j].Contains(e) ==>
              i == j
  {
    var first, len := r.first, r.Len();
    PartEnd(first, len, n);
    if r.Contains(e) {
      var i := PartOf(r, n, e.counter, n);
      assert Parts(r, n)[i].Contains(e);
    }
    forall i | 0 <= i < n && Parts(r, n)[i].Contains(e) ensures r.Contains(e) {
      PartOrder(first, len, n, 0, i);
      PartOrder(first, len, n, i + 1, n);
    }
    forall i, j | 0 <= i < n && 0 <= j < n && Parts(r, n)[i].Contains(e) && Parts(r, n)[j].Contains(e)
      ensures i == j
    {
      if i < j {
        PartOrder(first, len, n, i + 1, j);
      } else if j < i {
        PartOrder(first, len, n, j + 1, i);
      }
    }
  }

  /**
   * The loop over the parts. Both casts to 64 bits are lossless, the sum `first + span`
   * never overflows, and the successor wraps only after the last part.
   */
  method Split(r: ExtranonceRange, n: nat) returns (ranges: Option<seq<ExtranonceRange>>)
    requires r.Valid()
    ensures ranges == SplitParts(r, n)
    ensures ranges.None? <==> n == 0 || n > r.last - r.first + 1
  {
    var parts := n;
    if parts == 0 || parts > r.Len() {
      return None;
    }
    var base := r.Len() / parts;
    var extra := r.Len() % parts;
    forall i | 0 <= i < parts ensures Follows(r, base, extra, Parts(r, n), i) {
      PartFits(r, n, i);
    }
    PartFits(r, n, 0);
    var out := CutParts(r, parts, base, extra, Parts(r, n));
    ranges := Some(out);
  }

  /** Part `i` has its length, lies in the range, and the next part follows it. */
  ghost predicate Follows(r: ExtranonceRange, base: nat, extra: nat, all: seq<ExtranonceRange>, i: nat)
    requires i < |all|
  {
    var len := base + if i < extra then 1 else 0;
    && all[i].width == r.width && len >= 1
    && all[i].last == all[i].first + len - 1 && all[i].last <= r.last
    && (i + 1 < |all| ==> all[i + 1].first == all[i].last + 1)
  }

  method CutParts(r: ExtranonceRange, parts: nat, base: nat, extra: nat,
                  ghost all: seq<ExtranonceRange>) returns (out: seq<ExtranonceRange>)
    requires |all| == parts > 0 && all[0].first == r.first
    requires forall i :: 0 <= i < parts ==> Follows(r, base, extra, all, i)
    ensures out == all
  {
    out := [];
    var first: u64 := r.first;
    for i := 0 to parts
      invariant out == all[..i]
      invariant i < parts ==> first == all[i].first
    {
      assert Follows(r, base, extra, all, i);
      var span: u64 := base + (if i < extra then 1 else 0) - 1;
      var last: u64 := first + span;
      out := out + [ExtranonceRange(first, last, r.width)];
      first := (last + 1) % U64_SIZE;
    }
  }

  /** One turn of the loop: the part's last value is in range, and the next part follows it. */
  lemma PartFits(r: ExtranonceRange, n: nat, i: nat)
    requires r.Valid() && 0 < n <= r.Len() && i < n
    ensures var p := Parts(r, n)[i];
            && p.width == r.width && p.first + PartLen(r.Len(), n, i) - 1 == p.last <= r.last
            && PartLen(r.Len(), n, i) >= 1
            && (i + 1 < n ==> Parts(r, n)[i + 1].first == p.last + 1)
    ensures Parts(r, n)[0].first == r.first
  {
    PartLength(r.first, r.Len(), n, i);
    PartOrder(r.first, r.Len(), n, 0, i);
    PartOrder(r.first, r.Len(), n, i, i + 1);
    PartOrder(r.first, r.Len(), n, i + 1, n);
    PartEnd(r.first, r.Len(), n);
  }
}
