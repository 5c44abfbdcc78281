/**
 * The double-ended iterator over an extranonce range. Every method answers from the
 * bounds; each is proved against the finite sequence of values still to come.
 */
module ExtranonceIteration {
  import opened Options
  import opened Extranonces

  /** The values from `lo` to `hi` in order, up to 2^64 of them. */
  ghost function Run(lo: u64, hi: u64, width: nat): (s: seq<Extranonce>)
    requires lo <= hi
    ensures |s| == hi - lo + 1
  {
    seq(hi - lo + 1, (i: nat) requires i < hi - lo + 1 => Extranonce(lo + i, width))
  }

  datatype SizeHint = SizeHint(lower: u64, upper: Option<u64>)

  class ExtranonceIter {
    var next: Option<u64>
    var last: u64
    const width: nat

    ghost predicate Valid()
      reads this
    {
      next.Some? ==> next.value <= last
    }

    ghost function Contents(): seq<Extranonce>
      reads this
      requires Valid()
    {
      if next.None? then [] else Run(next.value, last, width)
    }

    constructor (range: ExtranonceRange)
      requires range.Valid()
      ensures Valid()
      ensures Contents() == Run(range.first, range.last, range.width)
    {
      next, last, width := Some(range.first), range.last, range.width;
    }

    /** The count is at most 2^64, one more than a `u64` holds. */
    method Remaining() returns (n: nat)
      requires Valid()
      ensures n == |Contents()| <= U64_SIZE
    {
      match next
      case None => n := 0;
      case Some(lo) => n := (last - lo) + 1;
    }

    method GetSizeHint() returns (hint: SizeHint)
      requires Valid()
      ensures hint == if |Contents()| < U64_SIZE then SizeHint(|Contents()|, Some(|Contents()|))
                      else SizeHint(U64_SIZE - 1, None)
    {
      var n := Remaining();
      var exact: Option<u64> := if n < U64_SIZE then Some(n) else None;
      hint := SizeHint(if exact.Some? then exact.value else U64_SIZE - 1, exact);
    }

    /** `None` stands for the documented panic, which only the full 2^64 values reach. */
    method Count() returns (n: Option<u64>)
      requires Valid()
      ensures n.None? <==> |Contents()| == U64_SIZE
      ensures n.Some? ==> n.value == |Contents()|
    {
      var exact := Remaining();
      n := if exact < U64_SIZE then Some(exact) else None;
    }

    method Last() returns (e: Option<Extranonce>)
      requires Valid()
      ensures e == if Contents() == [] then None else Some(Contents()[|Contents()| - 1])
    {
      e := if next.Some? then Some(Extranonce(last, width)) else None;
    }

    method Next() returns (e: Option<Extranonce>)
      requires Valid()
      modifies this
      ensures Valid()
      ensures e == Pull(FromFront(0), old(Contents()))
      ensures Contents() == Left(FromFront(0), old(Contents()))
    {
      if next.None? {
        return None;
      }
      var counter := next.value;
      next := if counter < last then Some(counter + 1) else None;
      e := Some(Extranonce(counter, width));
    }

    method Nth(n: u64) returns (e: Option<Extranonce>)
      requires Valid()
      modifies this
      ensures Valid()
      ensures e == Pull(FromFront(n), old(Contents()))
      ensures Contents() == Left(FromFront(n), old(Contents()))
    {
      if next.None? {
        return None;
      }
      var checkedAdd := if next.value + n < U64_SIZE then Some(next.value + n) else None;
      if checkedAdd.Some? && checkedAdd.value <= last {
        next := Some(checkedAdd.value);
        e := Next();
      } else {
        next := None;
        e := None;
      }
    }

    method NextBack() returns (e: Option<Extranonce>)
      requires Valid()
      modifies this
      ensures Valid()
      ensures e == Pull(FromBack(0), old(Contents()))
      ensures Contents() == Left(FromBack(0), old(Contents()))
    {
      if next.None? {
        return None;
      }
      var counter := last;
      if counter == next.value {
        next := None;
      } else {
        last := last - 1;
      }
      e := Some(Extranonce(counter, width));
    }

    method NthBack(n: u64) returns (e: Option<Extranonce>)
      requires Valid()
      modifies this
      ensures Valid()
      ensures e == Pull(FromBack(n), old(Contents()))
      ensures Contents() == Left(FromBack(n), old(Contents()))
    {
      if next.None? {
        return None;
      }
      var checkedSub: Option<u64> := if last >= n then Some(last - n) else None;
      if checkedSub.Some? && checkedSub.value >= next.value {
        last := checkedSub.value;
        e := NextBack();
      } else {
        next := None;
        e := None;
      }
    }
  }

  // --------------------------------------- the sequence the iterator refines

  /** Skip `n` values at one end, then take the next one there. */
  datatype Request = FromFront(n: u64) | FromBack(n: u64)

  function Pull<T>(q: Request, s: seq<T>): Option<T> {
    if q.n >= |s| then None
    else match q
      case FromFront(n) => Some(s[n])
      case FromBack(n) => Some(s[|s| - 1 - n])
  }

  function Left<T>(q: Request, s: seq<T>): seq<T> {
    if q.n >= |s| then []
    else match q
      case FromFront(n) => s[n + 1..]
      case FromBack(n) => s[..|s| - 1 - n]
  }

  /** What a list of requests yields on a sequence, and what it leaves. */
  function Answers<T>(qs: seq<Request>, s: seq<T>): (r: seq<Option<T>>)
    ensures |r| == |qs|
  {
    if qs == [] then [] else Answers(qs[..|qs| - 1], s) + [Pull(qs[|qs| - 1], Rest(qs[..|qs| - 1], s))]
  }

  function Rest<T>(qs: seq<Request>, s: seq<T>): seq<T> {
    if qs == [] then s else Left(qs[|qs| - 1], Rest(qs[..|qs| - 1], s))
  }

  /** Any interleaving of the four stepping methods behaves as it does on the sequence. */
  method Drive(it: ExtranonceIter, qs: seq<Request>) returns (out: seq<Option<Extranonce>>)
    requires it.Valid()
    modifies it
    ensures it.Valid()
    ensures out == Answers(qs, old(it.Contents())) && it.Contents() == Rest(qs, old(it.Contents()))
  {
    out := [];
    for k := 0 to |qs|
      invariant it.Valid()
      invariant out == Answers(qs[..k], old(it.Contents())) && it.Contents() == Rest(qs[..k], old(it.Contents()))
    {
      assert qs[..k + 1][..k] == qs[..k];
      var e;
      match qs[k] {
        case FromFront(n) => if n == 0 { e := it.Next(); } else { e := it.Nth(n); }
        case FromBack(n) => if n == 0 { e := it.NextBack(); } else { e := it.NthBack(n); }
      }
      out := out + [e];
    }
    assert qs[..|qs|] == qs;
  }

  /** The values answered from the front in order, and from the back in reverse. */
  function FrontValues<T>(qs: seq<Request>, s: seq<T>): seq<T> {
    if qs == [] then []
    else
      var q, done := qs[|qs| - 1], qs[..|qs| - 1];
      var e := Pull(q, Rest(done, s));
      FrontValues(done, s) + if q.FromFront? && e.Some? then [e.value] else []
  }

  function BackValues<T>(qs: seq<Request>, s: seq<T>): seq<T> {
    if qs == [] then []
    else
      var q, done := qs[|qs| - 1], qs[..|qs| - 1];
      var e := Pull(q, Rest(done, s));
      (if q.FromBack? && e.Some? then [e.value] else []) + BackValues(done, s)
  }

  /**
   * Stepping one at a time from both ends yields each value exactly once: what came
   * from the front, what is left, and what came from the back make the range again.
   */
  lemma {:induction false} EachValueOnce<T>(qs: seq<Request>, s: seq<T>)
    requires forall i :: 0 <= i < |qs| ==> qs[i].n == 0
    ensures FrontValues(qs, s) + Rest(qs, s) + BackValues(qs, s) == s
  {
    if qs != [] {
      var done := qs[..|qs| - 1];
      EachValueOnce(done, s);
      MoveOne(qs[|qs| - 1], FrontValues(done, s), Rest(done, s), BackValues(done, s));
    }
  }

  /** One step moves at most one value from what is left to the end it was asked from. */
  lemma MoveOne<T>(q: Request, f: seq<T>, r: seq<T>, b: seq<T>)
    requires q.n == 0
    ensures var e := Pull(q, r);
            (f + if q.FromFront? && e.Some? then [e.value] else []) + Left(q, r)
            + ((if q.FromBack? && e.Some? then [e.value] else []) + b) == f + r + b
  {
    if r != [] {
      if q.FromFront? {
        MoveFront(f, r, b);
      } else {
        MoveBack(f, r, b);
      }
    }
  }

  lemma MoveFront<T>(f: seq<T>, r: seq<T>, b: seq<T>)
    requires r != []
    ensures (f + [r[0]]) + r[1..] + b == f + r + b
  {
  }

  lemma MoveBack<T>(f: seq<T>, r: seq<T>, b: seq<T>)
    requires r != []
    ensures f + r[..|r| - 1] + ([r[|r| - 1]] + b) == f + r + b
  {
  }

  /** Once a request finds nothing the iterator stays empty, whatever is asked next. */
  lemma {:induction false} Fused<T>(qs: seq<Request>, more: seq<Request>, s: seq<T>)
    requires qs != [] && Answers(qs, s)[|qs| - 1].None?
    ensures Rest(qs + more, s) == []
    ensures forall i :: |qs| <= i < |qs + more| ==> Answers(qs + more, s)[i].None?
    decreases |more|
  {
    if more == [] {
      assert qs + more == qs;
    } else {
      var fewer := more[..|more| - 1];
      Fused(qs, fewer, s);
      assert (qs + more)[..|qs + more| - 1] == qs + fewer;
    }
  }
}
