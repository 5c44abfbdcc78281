/** Wire framing: a decoder that resynchronises after garbage, and the two encoders. */
module Codec {
  import opened Options
  import opened Lfsr
  import opened Crc

  const FRAME_LEN: nat := 11

  /** A growable byte buffer that is consumed from the front. */
  class ByteBuffer {
    var data: seq<byte>

    constructor ()
      ensures data == []
    {
      data := [];
    }

    method Advance(n: nat)
      requires n <= |data|
      modifies this
      ensures data == old(data)[n..]
    {
      data := data[n..];
    }

    method PutSlice(bytes: seq<byte>)
      modifies this
      ensures data == old(data) + bytes
    {
      data := data + bytes;
    }
  }

  /** Eleven bytes of `s` from `p` on are a frame: preamble, and nine bytes whose CRC-5 checks and that parse. */
  predicate Good<R>(parse: seq<byte> -> Option<R>, s: seq<byte>, p: nat) {
    && p + FRAME_LEN <= |s|
    && s[p] == 0xaa && s[p + 1] == 0x55
    && Valid(G5, AllBits(s[p + 2..p + FRAME_LEN]))
    && parse(s[p + 2..p + FRAME_LEN]).Some?
  }

  function ResponseAt<R>(parse: seq<byte> -> Option<R>, s: seq<byte>, p: nat): R
    requires Good(parse, s, p)
  {
    parse(s[p + 2..p + FRAME_LEN]).value
  }

  /** How many bytes one call consumes. */
  function Taken<R>(parse: seq<byte> -> Option<R>, s: seq<byte>): (n: nat)
    ensures n <= |s|
  {
    if |s| < FRAME_LEN then 0 else if Good(parse, s, 0) then FRAME_LEN else 1
  }

  class FrameCodec<R> {
    /** The decoder of the nine data bytes for the codec's chip model. */
    const parse: seq<byte> -> Option<R>

    constructor (parse: seq<byte> -> Option<R>)
      ensures this.parse == parse
    {
      this.parse := parse;
    }

    method Decode(src: ByteBuffer) returns (item: Option<R>)
      modifies src
      ensures item == if Good(parse, old(src.data), 0) then Some(ResponseAt(parse, old(src.data), 0)) else None
      ensures src.data == old(src.data)[Taken(parse, old(src.data))..]
    {
      if |src.data| < FRAME_LEN {
        return None;
      }
      if src.data[0] != 0xaa {
        src.Advance(1);
        return None;
      }
      if src.data[1] != 0x55 {
        src.Advance(1);
        return None;
      }
      var valid := Crc5IsValid(src.data[2..FRAME_LEN]);
      if !valid {
        src.Advance(1);
        return None;
      }
      var response := parse(src.data[2..FRAME_LEN]);
      match response {
        case Some(_) =>
          src.Advance(FRAME_LEN);
          return response;
        case None =>
          src.Advance(1);
          return None;
      }
    }

    /** `body` is what the command writes of itself. */
    method EncodeRegister(body: seq<byte>, dst: ByteBuffer)
      modifies dst
      ensures dst.data == old(dst.data) + RegisterFrame(body)
    {
      dst.PutSlice([0x55, 0xaa]);
      var startPos := |dst.data|;
      dst.PutSlice(body);
      assert dst.data[startPos..] == body;
      var crc := Crc5(dst.data[startPos..]);
      dst.PutSlice([ByteOf(crc)]);
    }

    method EncodeJob(body: seq<byte>, dst: ByteBuffer)
      modifies dst
      ensures dst.data == old(dst.data) + JobFrame(body)
    {
      dst.PutSlice([0x55, 0xaa]);
      var startPos := |dst.data|;
      dst.PutSlice(body);
      assert dst.data[startPos..] == body;
      var crc := Crc16(dst.data[startPos..]);
      dst.PutSlice(BigEndian(crc));
    }
  }

  function RegisterFrame(body: seq<byte>): seq<byte> {
    [0x55, 0xaa] + body + [ByteOf(Padded(Reg(G5, Ones(5), AllBits(body))))]
  }

  function JobFrame(body: seq<byte>): seq<byte> {
    [0x55, 0xaa] + body + BigEndian(Reg(G16, Ones(16), AllBits(body)))
  }

  /**
   * What the chip can check: the preamble and the body, and that a command followed by the
   * five low bits of its last byte, the other three being zero, leaves the register at zero,
   * as a job frame does with all its bytes.
   */
  lemma FramesCheck(body: seq<byte>)
    ensures var f := RegisterFrame(body);
            var last := BitsOf(f[|f| - 1]);
            && |f| == |body| + 3 && f[0] == 0x55 && f[1] == 0xaa && f[2..|f| - 1] == body
            && last[..3] == Zeros(3) && Valid(G5, AllBits(f[2..|f| - 1]) + last[3..])
    ensures var f := JobFrame(body);
            && |f| == |body| + 4 && f[0] == 0x55 && f[1] == 0xaa && f[2..|f| - 2] == body
            && Valid(G16, AllBits(f[2..]))
  {
    var f := RegisterFrame(body);
    assert f[2..|f| - 1] == body;
    CommandChecks(AllBits(body), BitsOf(f[|f| - 1]));
    var w := Reg(G16, Ones(16), AllBits(body));
    assert JobFrame(body)[2..] == body + BigEndian(w);
    var bs := BigEndian(w);
    BigEndianCrcCheck(body, bs[0], bs[1]);
  }

  lemma CommandChecks(bits: Bits, last: Bits)
    requires last == Padded(Reg(G5, Ones(5), bits))
    ensures last[..3] == Zeros(3) && Valid(G5, bits + last[3..])
  {
    var r := Reg(G5, Ones(5), bits);
    assert last[..3] == Zeros(3) && last[3..] == r;
    RegAppend(G5, Ones(5), bits, r);
    ClearedByItself(G5, r, r);
  }

  // ------------------------------------------------- the frames of a stream

  /**
   * Which frames of a stream count, said without scanning: frames that do not overlap,
   * such that every frame left out starts inside one chosen before it.
   */
  ghost predicate Selection(good: set<nat>, from: nat, ps: seq<nat>) {
    && (forall p :: p in ps ==> from <= p && p in good)
    && Spaced(ps)
    && (forall q :: q in good && from <= q ==> Covered(ps, q))
  }

  predicate Spaced(ps: seq<nat>) {
    forall i, j :: 0 <= i < j < |ps| ==> ps[i] + FRAME_LEN <= ps[j]
  }

  /** `q` is chosen or inside a chosen frame. */
  ghost predicate Covered(ps: seq<nat>, q: nat) {
    exists p :: p in ps && p <= q < p + FRAME_LEN
  }

  /** The places a left-to-right scan stops at. */
  function Stops(good: set<nat>, from: nat, end: nat): (ps: seq<nat>)
    decreases end - from
  {
    if from >= end then []
    else if from in good then [from] + Stops(good, from + FRAME_LEN, end)
    else Stops(good, from + 1, end)
  }

  lemma {:induction false} StopsSelect(good: set<nat>, from: nat, end: nat)
    requires forall q :: q in good ==> q < end
    ensures Selection(good, from, Stops(good, from, end))
    decreases end - from
  {
    if from < end {
      if from in good {
        StopsSelect(good, from + FRAME_LEN, end);
        SelectionGrows(good, from, Stops(good, from + FRAME_LEN, end));
      } else {
        StopsSelect(good, from + 1, end);
      }
    }
  }

  lemma CoveredGrows(from: nat, rest: seq<nat>, q: nat)
    requires Covered(rest, q) || from <= q < from + FRAME_LEN
    ensures Covered([from] + rest, q)
  {
    var ps := [from] + rest;
    assert from in ps;
    if Covered(rest, q) {
      var p :| p in rest && p <= q < p + FRAME_LEN;
      assert p in ps;
    }
  }

  lemma SpacedGrows(from: nat, rest: seq<nat>)
    requires Spaced(rest) && forall p :: p in rest ==> from + FRAME_LEN <= p
    ensures Spaced([from] + rest)
  {
    var ps := [from] + rest;
    forall i, j | 0 <= i < j < |ps| ensures ps[i] + FRAME_LEN <= ps[j] {
      assert ps[j] == rest[j - 1] && rest[j - 1] in rest;
      assert i > 0 ==> ps[i] == rest[i - 1];
    }
  }

  lemma SelectionGrows(good: set<nat>, from: nat, rest: seq<nat>)
    requires from in good && Selection(good, from + FRAME_LEN, rest)
    ensures Selection(good, from, [from] + rest)
  {
    SpacedGrows(from, rest);
    forall q | q in good && from <= q ensures Covered([from] + rest, q) {
      CoveredGrows(from, rest, q);
    }
  }

  lemma SelectionStarts(good: set<nat>, from: nat, ps: seq<nat>)
    requires Selection(good, from, ps) && from in good
    ensures ps != [] && ps[0] == from
  {
    assert Covered(ps, from);
    var first :| first in ps && first <= from < first + FRAME_LEN;
    assert first == from;
    assert ps[0] in ps;
  }

  lemma TailCovers(ps: seq<nat>, q: nat)
    requires ps != [] && ps[0] + FRAME_LEN <= q && Covered(ps, q)
    ensures Covered(ps[1..], q)
  {
    var p :| p in ps && p <= q < p + FRAME_LEN;
    assert p in ps[1..];
  }

  lemma TailBeyond(ps: seq<nat>, p: nat)
    requires ps != [] && Spaced(ps) && p in ps[1..]
    ensures ps[0] + FRAME_LEN <= p
  {
    var i :| 0 <= i < |ps| - 1 && ps[1..][i] == p;
    assert ps[i + 1] == p;
  }

  lemma SelectionTail(good: set<nat>, from: nat, ps: seq<nat>)
    requires Selection(good, from, ps) && from in good
    ensures ps != [] && ps[0] == from && Selection(good, from + FRAME_LEN, ps[1..])
  {
    SelectionStarts(good, from, ps);
    forall q | q in good && from + FRAME_LEN <= q ensures Covered(ps[1..], q) {
      TailCovers(ps, q);
    }
    forall p | p in ps[1..] ensures from + FRAME_LEN <= p && p in good {
      TailBeyond(ps, p);
    }
  }

  lemma SelectionBelow(good: set<nat>, from: nat, end: nat, ps: seq<nat>)
    requires forall q :: q in good ==> q < end
    requires Selection(good, from, ps)
    ensures ps == [] || from < end
  {
    if ps != [] {
      assert ps[0] in ps;
    }
  }

  /** Only one selection is possible. */
  lemma {:induction false} SelectionUnique(good: set<nat>, from: nat, end: nat, ps: seq<nat>)
    requires forall q :: q in good ==> q < end
    requires Selection(good, from, ps)
    ensures ps == Stops(good, from, end)
    decreases end - from
  {
    SelectionBelow(good, from, end, ps);
    if from >= end {
    } else if from in good {
      SelectionTail(good, from, ps);
      SelectionUnique(good, from + FRAME_LEN, end, ps[1..]);
    } else {
      SelectionUnique(good, from + 1, end, ps);
    }
  }

  // ---------------------------------------------------- chunks and calls

  /** The responses of a stream: what its selected frames parse to. */
  function Scan<R>(parse: seq<byte> -> Option<R>, s: seq<byte>): seq<R>
    decreases |s|
  {
    if |s| < FRAME_LEN then []
    else if Good(parse, s, 0) then [ResponseAt(parse, s, 0)] + Scan(parse, s[FRAME_LEN..])
    else Scan(parse, s[1..])
  }

  lemma GoodLater<R>(parse: seq<byte> -> Option<R>, s: seq<byte>, d: nat, p: nat)
    requires d <= |s|
    ensures Good(parse, s[d..], p) <==> Good(parse, s, d + p)
    ensures Good(parse, s[d..], p) ==> ResponseAt(parse, s[d..], p) == ResponseAt(parse, s, d + p)
  {
    if d + p + FRAME_LEN <= |s| {
      assert s[d..][p + 2..p + FRAME_LEN] == s[d + p + 2..d + p + FRAME_LEN];
    }
  }

  /** Where the well-formed frames of a stream start. */
  function Frames<R>(parse: seq<byte> -> Option<R>, s: seq<byte>): set<nat> {
    set p: nat | p < |s| && Good(parse, s, p)
  }

  /** `rs` are the responses of the frames selected from `from` on. */
  ghost predicate Reads<R(!new)>(parse: seq<byte> -> Option<R>, s: seq<byte>, ps: seq<nat>, rs: seq<R>) {
    |rs| == |ps| && forall k :: 0 <= k < |ps| ==> Good(parse, s, ps[k]) && rs[k] == ResponseAt(parse, s, ps[k])
  }

  lemma {:induction false} ScanStops<R(!new)>(parse: seq<byte> -> Option<R>, s: seq<byte>, from: nat)
    requires from <= |s|
    ensures Reads(parse, s, Stops(Frames(parse, s), from, |s|), Scan(parse, s[from..]))
    decreases |s| - from
  {
    if from < |s| {
      ScanStep(parse, s, from);
      if from in Frames(parse, s) {
        ScanStops(parse, s, from + FRAME_LEN);
        var ps, rs := Stops(Frames(parse, s), from + FRAME_LEN, |s|), Scan(parse, s[from + FRAME_LEN..]);
        ReadsMore(parse, s, from, ps, rs);
      } else {
        ScanStops(parse, s, from + 1);
      }
    }
  }

  /** One step of a scan, told by positions. */
  lemma ScanStep<R>(parse: seq<byte> -> Option<R>, s: seq<byte>, from: nat)
    requires from < |s|
    ensures from in Frames(parse, s) <==> Good(parse, s, from)
    ensures Scan(parse, s[from..]) ==
              if Good(parse, s, from) then [ResponseAt(parse, s, from)] + Scan(parse, s[from + FRAME_LEN..])
              else Scan(parse, s[from + 1..])
  {
    GoodLater(parse, s, from, 0);
    var rest := s[from..];
    assert rest[1..] == s[from + 1..];
    if |rest| >= FRAME_LEN {
      assert rest[FRAME_LEN..] == s[from + FRAME_LEN..];
    }
  }

  lemma ReadsMore<R(!new)>(parse: seq<byte> -> Option<R>, s: seq<byte>, p: nat, ps: seq<nat>, rs: seq<R>)
    requires Good(parse, s, p) && Reads(parse, s, ps, rs)
    ensures Reads(parse, s, [p] + ps, [ResponseAt(parse, s, p)] + rs)
  {
  }

  /**
   * A scan returns the responses of the one selection of the stream's frames: leftmost
   * first, none overlapping, none left out that could have been chosen.
   */
  lemma ScanIsSelection<R(!new)>(parse: seq<byte> -> Option<R>, s: seq<byte>, ps: seq<nat>)
    requires Selection(Frames(parse, s), 0, ps)
    ensures Reads(parse, s, ps, Scan(parse, s))
  {
    SelectionUnique(Frames(parse, s), 0, |s|, ps);
    ScanStops(parse, s, 0);
    assert s[0..] == s;
  }

  /** What happens to a receiving port: bytes arrive, or the decoder is called. */
  datatype Op = Feed(bytes: seq<byte>) | Call

  datatype Port<R> = Port(buffer: seq<byte>, out: seq<R>)

  function Apply<R>(parse: seq<byte> -> Option<R>, port: Port<R>, op: Op): Port<R> {
    match op
    case Feed(bytes) => Port(port.buffer + bytes, port.out)
    case Call =>
      Port(port.buffer[Taken(parse, port.buffer)..],
           if Good(parse, port.buffer, 0) then port.out + [ResponseAt(parse, port.buffer, 0)] else port.out)
  }

  function Session<R>(parse: seq<byte> -> Option<R>, ops: seq<Op>): Port<R> {
    if ops == [] then Port([], []) else Apply(parse, Session(parse, ops[..|ops| - 1]), ops[|ops| - 1])
  }

  /** The whole stream, wherever it was cut. */
  function Fed(ops: seq<Op>): seq<byte> {
    if ops == [] then []
    else Fed(ops[..|ops| - 1]) + match ops[|ops| - 1] case Feed(bytes) => bytes case Call => []
  }

  lemma CallKeepsScan<R>(parse: seq<byte> -> Option<R>, port: Port<R>, future: seq<byte>)
    ensures var next := Apply(parse, port, Call);
            next.out + Scan(parse, next.buffer + future) == port.out + Scan(parse, port.buffer + future)
  {
    var b := port.buffer;
    if |b| >= FRAME_LEN {
      var n := Taken(parse, b);
      assert (b + future)[n..] == b[n..] + future;
      assert (b + future)[2..FRAME_LEN] == b[2..FRAME_LEN];
      assert Good(parse, b, 0) <==> Good(parse, b + future, 0);
    } else {
      assert b[0..] == b;
    }
  }

  /**
   * Chunk independence. However the stream is cut and however often the decoder is called,
   * the responses out so far followed by those a scan finds in the buffer and any later
   * bytes are those a scan finds in the whole stream.
   */
  lemma {:induction false} ChunkIndependence<R>(parse: seq<byte> -> Option<R>, ops: seq<Op>, future: seq<byte>)
    ensures var port := Session(parse, ops);
            port.out + Scan(parse, port.buffer + future) == Scan(parse, Fed(ops) + future)
  {
    if ops != [] {
      var front, op := ops[..|ops| - 1], ops[|ops| - 1];
      var port := Session(parse, front);
      match op {
        case Feed(bytes) =>
          ChunkIndependence(parse, front, bytes + future);
          assert port.buffer + (bytes + future) == port.buffer + bytes + future;
          assert Fed(front) + (bytes + future) == Fed(ops) + future;
        case Call =>
          ChunkIndependence(parse, front, future);
          CallKeepsScan(parse, port, future);
          assert Fed(ops) == Fed(front);
      }
    }
  }

  /** What is out is always a prefix of the stream's responses, and all of them once fewer than eleven bytes wait. */
  lemma EmittedArePrefix<R>(parse: seq<byte> -> Option<R>, ops: seq<Op>)
    ensures var port := Session(parse, ops);
            && port.out <= Scan(parse, Fed(ops))
            && (|port.buffer| < FRAME_LEN ==> port.out == Scan(parse, Fed(ops)))
  {
    var port := Session(parse, ops);
    ChunkIndependence(parse, ops, []);
    assert port.buffer + [] == port.buffer && Fed(ops) + [] == Fed(ops);
    assert port.out + Scan(parse, port.buffer) == Scan(parse, Fed(ops));
  }

  predicate IsSuffix(b: seq<byte>, s: seq<byte>) {
    |b| <= |s| && b == s[|s| - |b|..]
  }

  lemma SuffixGrows(b: seq<byte>, s: seq<byte>, more: seq<byte>)
    requires IsSuffix(b, s)
    ensures IsSuffix(b + more, s + more)
  {
  }

  lemma SuffixShrinks(b: seq<byte>, s: seq<byte>, n: nat)
    requires IsSuffix(b, s) && n <= |b|
    ensures IsSuffix(b[n..], s + [])
  {
  }

  /** Bytes are only ever taken from the front: the buffer is what remains of the stream. */
  lemma {:induction false} BufferIsSuffix<R>(parse: seq<byte> -> Option<R>, ops: seq<Op>)
    ensures IsSuffix(Session(parse, ops).buffer, Fed(ops))
  {
    if ops != [] {
      var front := ops[..|ops| - 1];
      BufferIsSuffix(parse, front);
      match ops[|ops| - 1] {
        case Feed(bytes) => SuffixGrows(Session(parse, front).buffer, Fed(front), bytes);
        case Call => SuffixShrinks(Session(parse, front).buffer, Fed(front),
                                   Taken(parse, Session(parse, front).buffer));
      }
    }
  }

  function Calls(n: nat): (ops: seq<Op>)
    ensures |ops| == n
  {
    seq(n, _ => Call)
  }

  lemma {:induction false} CallsShrink<R>(parse: seq<byte> -> Option<R>, ops: seq<Op>, n: nat)
    ensures Fed(ops + Calls(n)) == Fed(ops)
    ensures var b, b' := Session(parse, ops).buffer, Session(parse, ops + Calls(n)).buffer;
            |b'| < FRAME_LEN || |b'| + n <= |b|
  {
    if n == 0 {
      assert ops + Calls(0) == ops;
    } else {
      CallsShrink(parse, ops, n - 1);
      var all := ops + Calls(n);
      assert all[..|all| - 1] == ops + Calls(n - 1);
    }
  }

  /** Calling as often as there are bytes waiting emits every response of the stream so far. */
  lemma DrainCompletes<R>(parse: seq<byte> -> Option<R>, ops: seq<Op>, n: nat)
    requires n >= |Session(parse, ops).buffer|
    ensures Session(parse, ops + Calls(n)).out == Scan(parse, Fed(ops))
  {
    CallsShrink(parse, ops, n);
    EmittedArePrefix(parse, ops + Calls(n));
  }

  // --------------------------------------------------------- resynchronising

  /**
   * A well-formed frame is found whatever garbage is around it, unless another well-formed
   * frame starts in the ten bytes before it.
   */
  lemma FrameFound<R(!new)>(parse: seq<byte> -> Option<R>, s: seq<byte>, q: nat)
    requires Good(parse, s, q)
    requires forall p: nat :: p < q < p + FRAME_LEN ==> !Good(parse, s, p)
    ensures ResponseAt(parse, s, q) in Scan(parse, s)
  {
    var good := Frames(parse, s);
    StopsSelect(good, 0, |s|);
    Undisturbed(good, Stops(good, 0, |s|), q);
    ScanStops(parse, s, 0);
    assert s[0..] == s;
    ReadsMember(parse, s, Stops(good, 0, |s|), Scan(parse, s), q);
  }

  lemma ReadsMember<R(!new)>(parse: seq<byte> -> Option<R>, s: seq<byte>, ps: seq<nat>, rs: seq<R>, q: nat)
    requires Reads(parse, s, ps, rs) && q in ps
    ensures Good(parse, s, q) && ResponseAt(parse, s, q) in rs
  {
    var k :| 0 <= k < |ps| && ps[k] == q;
    assert rs[k] == ResponseAt(parse, s, q);
  }

  lemma Undisturbed(good: set<nat>, ps: seq<nat>, q: nat)
    requires Selection(good, 0, ps) && q in good
    requires forall p :: p in good ==> !(p < q < p + FRAME_LEN)
    ensures q in ps
  {
    assert Covered(ps, q);
  }

  /** Bodies that a chip may send. */
  predicate Body<R>(parse: seq<byte> -> Option<R>, b: seq<byte>) {
    |b| == 9 && Valid(G5, AllBits(b)) && parse(b).Some?
  }

  function Stream(bodies: seq<seq<byte>>): seq<byte> {
    if bodies == [] then [] else [0xaa, 0x55] + bodies[0] + Stream(bodies[1..])
  }

  function Parsed<R>(parse: seq<byte> -> Option<R>, bodies: seq<seq<byte>>): (rs: seq<R>)
    requires forall i :: 0 <= i < |bodies| ==> Body(parse, bodies[i])
  {
    seq(|bodies|, (i: nat) requires i < |bodies| => assert Body(parse, bodies[i]); parse(bodies[i]).value)
  }

  /** Round trip: frames sent back to back, with a cut-off one after them, come out as sent. */
  lemma {:induction false} FramesRoundTrip<R>(parse: seq<byte> -> Option<R>, bodies: seq<seq<byte>>, tail: seq<byte>)
    requires forall i :: 0 <= i < |bodies| ==> Body(parse, bodies[i])
    requires |tail| < FRAME_LEN
    ensures Scan(parse, Stream(bodies) + tail) == Parsed(parse, bodies)
    decreases |bodies|
  {
    var s := Stream(bodies) + tail;
    if bodies != [] {
      assert Body(parse, bodies[0]);
      FramesRoundTrip(parse, bodies[1..], tail);
      assert s[2..FRAME_LEN] == bodies[0];
      assert s[FRAME_LEN..] == Stream(bodies[1..]) + tail;
      assert Good(parse, s, 0);
      assert Parsed(parse, bodies) == [parse(bodies[0]).value] + Parsed(parse, bodies[1..]);
    }
  }
}
