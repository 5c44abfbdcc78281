/** The windowed hashrate estimator, proved to agree with recomputation from the whole history. */
module Estimator {
  import opened Options
  import opened Powers
  import opened Wide

  /** Times are nanoseconds on the monotonic clock. */
  const SECOND: nat := 1_000_000_000

  datatype Sample = Sample(at: nat, work: u256)

  datatype Limits = Limits(window: nat, minSamples: nat, maxSamples: nat)

  // ------------------------------------------------------- sums of work

  /** Additions and subtractions of 256-bit integers wrap. */
  function Plus(a: u256, b: u256): u256 {
    if a + b < Span(4) then a + b else a + b - Span(4)
  }

  function Minus(a: u256, b: u256): u256 {
    if a >= b then a - b else a - b + Span(4)
  }

  function Sum(samples: seq<Sample>): nat {
    if samples == [] then 0 else samples[0].work + Sum(samples[1..])
  }

  /** One sample counts with its work, and every sample counts once. */
  lemma {:induction false} SumAdds(a: seq<Sample>, b: seq<Sample>, s: Sample)
    ensures Sum([]) == 0 && Sum([s]) == s.work && Sum(a + b) == Sum(a) + Sum(b)
  {
    assert [s][1..] == [];
    if a == [] {
      assert a + b == b;
    } else {
      SumAdds(a[1..], b, s);
      assert (a + b)[1..] == a[1..] + b;
    }
  }

  /** The sum as a 256-bit integer. */
  function Wrapped(samples: seq<Sample>): u256 {
    if samples == [] then 0 else Plus(samples[0].work, Wrapped(samples[1..]))
  }

  lemma {:induction false} WrappedSnoc(samples: seq<Sample>, s: Sample)
    ensures Wrapped(samples + [s]) == Plus(Wrapped(samples), s.work)
  {
    if samples == [] {
      assert [s][1..] == [];
    } else {
      assert (samples + [s])[1..] == samples[1..] + [s];
      WrappedSnoc(samples[1..], s);
    }
  }

  /**
   * While the true sum fits in 256 bits the running total is that sum, and taking off the oldest
   * sample does not underflow.
   */
  lemma {:induction false} WrappedIsSum(samples: seq<Sample>)
    requires Sum(samples) < Span(4)
    ensures Wrapped(samples) == Sum(samples)
    ensures samples != [] ==>
              && Wrapped(samples) >= samples[0].work
              && Minus(Wrapped(samples), samples[0].work) == Wrapped(samples) - samples[0].work == Wrapped(samples[1..])
  {
    if samples != [] {
      WrappedIsSum(samples[1..]);
    }
  }

  // --------------------------------------------------------- transitions

  /** Where pruning stops; a clock younger than the window yields its own time. */
  function Cutoff(window: nat, now: nat): nat {
    if now >= window then now - window else now
  }

  function DropOld(samples: seq<Sample>, cutoff: nat): seq<Sample> {
    if samples == [] || samples[0].at >= cutoff then samples else DropOld(samples[1..], cutoff)
  }

  function Last(n: nat, samples: seq<Sample>): seq<Sample> {
    if |samples| <= n then samples else samples[|samples| - n..]
  }

  datatype Call = Record(at: nat, work: u256) | Query(at: nat)

  /** The samples after a call. */
  function Apply(limits: Limits, samples: seq<Sample>, call: Call): seq<Sample> {
    var kept := DropOld(samples, Cutoff(limits.window, call.at));
    if call.Record? then Last(limits.maxSamples, kept + [Sample(call.at, call.work)]) else kept
  }

  function Run(limits: Limits, calls: seq<Call>): seq<Sample> {
    if calls == [] then [] else Apply(limits, Run(limits, calls[..|calls| - 1]), calls[|calls| - 1])
  }

  /** Work over whole seconds since the oldest sample, rounded down and saturated. */
  function Rate(samples: seq<Sample>, total: nat, now: nat): (rate: limb) {
    if samples == [] || now < samples[0].at + SECOND then 0
    else
      var secs := (now - samples[0].at) / SECOND;
      var r := total / secs;
      if 0 <= r < LIMB then r else LIMB - 1
  }

  class HashrateEstimator {
    const limits: Limits
    var samples: seq<Sample>
    var totalWork: u256

    ghost predicate Valid()
      reads this
    {
      totalWork == Wrapped(samples)
    }

    constructor (limits: Limits)
      ensures Valid() && samples == [] && this.limits == limits
    {
      this.limits := limits;
      samples := [];
      totalWork := 0;
    }

    method PruneBefore(cutoff: nat)
      requires Valid()
      modifies this
      ensures Valid() && samples == DropOld(old(samples), cutoff)
    {
      while samples != []
        invariant Valid() && DropOld(samples, cutoff) == DropOld(old(samples), cutoff)
        decreases |samples|
      {
        if samples[0].at >= cutoff {
          break;
        }
        totalWork := Minus(totalWork, samples[0].work);
        samples := samples[1..];
      }
    }

    method RecordAt(at: nat, work: u256)
      requires Valid()
      modifies this
      ensures Valid() && samples == Apply(limits, old(samples), Record(at, work))
    {
      PruneBefore(Cutoff(limits.window, at));
      WrappedSnoc(samples, Sample(at, work));
      samples := samples + [Sample(at, work)];
      totalWork := Plus(totalWork, work);
      EvictOldest();
    }

    /** The capacity limit on top of pruning by time. */
    method EvictOldest()
      requires Valid()
      modifies this
      ensures Valid() && samples == Last(limits.maxSamples, old(samples))
    {
      while |samples| > limits.maxSamples
        invariant Valid() && Last(limits.maxSamples, samples) == Last(limits.maxSamples, old(samples))
        decreases |samples|
      {
        LastTail(limits.maxSamples, samples);
        totalWork := Minus(totalWork, samples[0].work);
        samples := samples[1..];
      }
    }

    method HashrateAt(now: nat) returns (rate: limb)
      requires Valid()
      modifies this
      ensures Valid() && samples == Apply(limits, old(samples), Query(now))
      ensures rate == Rate(samples, Wrapped(samples), now)
    {
      PruneBefore(Cutoff(limits.window, now));
      if samples == [] {
        return 0;
      }
      var oldest := samples[0].at;
      var secs := if now < oldest then 0 else (now - oldest) / SECOND;
      if secs == 0 {
        return 0;
      }
      DivSmaller(totalWork, secs);
      var quotient := totalWork / secs;
      rate := if quotient < LIMB then quotient else LIMB - 1;
    }

    method SettledHashrate(now: nat) returns (rate: Option<limb>)
      requires Valid()
      modifies this
      ensures Valid()
      ensures rate.Some? <==> IsSettled(limits, old(samples))
      ensures rate.Some? ==>
                && samples == Apply(limits, old(samples), Query(now))
                && rate.value == Rate(samples, Wrapped(samples), now)
      ensures rate.None? ==> samples == old(samples)
    {
      if |samples| >= limits.minSamples {
        var r := HashrateAt(now);
        rate := Some(r);
      } else {
        rate := None;
      }
    }
  }

  lemma LastTail(n: nat, samples: seq<Sample>)
    requires |samples| > n
    ensures Last(n, samples[1..]) == Last(n, samples)
  {
  }

  // -------------------------------------------- recomputed from the history

  predicate InOrder(calls: seq<Call>) {
    forall i, j :: 0 <= i < j < |calls| ==> calls[i].at <= calls[j].at
  }

  /** Everything ever recorded. */
  function Recorded(calls: seq<Call>): seq<Sample> {
    if calls == [] then []
    else
      var call := calls[|calls| - 1];
      Recorded(calls[..|calls| - 1]) + if call.Record? then [Sample(call.at, call.work)] else []
  }

  /** The latest cutoff of any call. */
  function HighWater(window: nat, calls: seq<Call>): nat {
    if calls == [] then 0
    else
      var before, cutoff := HighWater(window, calls[..|calls| - 1]), Cutoff(window, calls[|calls| - 1].at);
      if before < cutoff then cutoff else before
  }

  /** The samples recorded at `cutoff` or later. */
  function Since(samples: seq<Sample>, cutoff: nat): seq<Sample> {
    if samples == [] then []
    else (if samples[0].at >= cutoff then [samples[0]] else []) + Since(samples[1..], cutoff)
  }

  lemma {:induction false} SinceSnoc(samples: seq<Sample>, s: Sample, cutoff: nat)
    requires s.at >= cutoff
    ensures Since(samples + [s], cutoff) == Since(samples, cutoff) + [s]
  {
    if samples == [] {
      assert [s][1..] == [];
    } else {
      assert (samples + [s])[1..] == samples[1..] + [s];
      SinceSnoc(samples[1..], s, cutoff);
      var first, rest := if samples[0].at >= cutoff then [samples[0]] else [], Since(samples[1..], cutoff);
      assert first + (rest + [s]) == (first + rest) + [s];
    }
  }

  predicate Sorted(samples: seq<Sample>) {
    forall i, j :: 0 <= i < j < |samples| ==> samples[i].at <= samples[j].at
  }

  lemma {:induction false} RecordedSorted(calls: seq<Call>)
    requires InOrder(calls)
    ensures Sorted(Recorded(calls))
    ensures forall i :: 0 <= i < |Recorded(calls)| ==> calls != [] && Recorded(calls)[i].at <= calls[|calls| - 1].at
  {
    if calls != [] {
      RecordedSorted(calls[..|calls| - 1]);
    }
  }

  lemma {:induction false} AllSince(samples: seq<Sample>, cutoff: nat)
    requires forall i :: 0 <= i < |samples| ==> samples[i].at >= cutoff
    ensures Since(samples, cutoff) == samples
  {
    if samples != [] {
      AllSince(samples[1..], cutoff);
    }
  }

  /** In time order, pruning from the front selects by time. */
  lemma {:induction false} DropOldIsSince(samples: seq<Sample>, cutoff: nat)
    requires Sorted(samples)
    ensures DropOld(samples, cutoff) == Since(samples, cutoff)
  {
    if samples != [] {
      if samples[0].at >= cutoff {
        AllSince(samples, cutoff);
      } else {
        DropOldIsSince(samples[1..], cutoff);
      }
    }
  }

  lemma {:induction false} DropOldTwice(samples: seq<Sample>, before: nat, cutoff: nat)
    ensures DropOld(DropOld(samples, before), cutoff) == DropOld(samples, if before < cutoff then cutoff else before)
  {
    if samples != [] && samples[0].at < before {
      DropOldTwice(samples[1..], before, cutoff);
    }
  }

  lemma {:induction false} DropOldShrinks(samples: seq<Sample>, cutoff: nat)
    ensures |DropOld(samples, cutoff)| <= |samples|
    ensures Sorted(samples) ==> Sorted(DropOld(samples, cutoff))
  {
    if samples != [] && samples[0].at < cutoff {
      DropOldShrinks(samples[1..], cutoff);
    }
  }

  /** Limits by number and by age can be applied in either order. */
  lemma {:induction false} DropOldLast(n: nat, samples: seq<Sample>, cutoff: nat)
    requires Sorted(samples)
    ensures DropOld(Last(n, samples), cutoff) == Last(n, DropOld(samples, cutoff))
  {
    DropOldShrinks(samples, cutoff);
    if |samples| > n {
      if samples[0].at >= cutoff {
        assert forall i :: 0 <= i < |samples| ==> samples[i].at >= cutoff;
      } else {
        LastTail(n, samples);
        DropOldLast(n, samples[1..], cutoff);
      }
    }
  }

  /** Pruning what was kept of a sorted history is keeping that much of the samples since the later cutoff. */
  lemma PruneHistory(history: seq<Sample>, n: nat, before: nat, cutoff: nat)
    requires Sorted(history)
    ensures DropOld(Last(n, Since(history, before)), cutoff)
         == Last(n, Since(history, if before < cutoff then cutoff else before))
  {
    DropOldIsSince(history, before);
    DropOldIsSince(history, if before < cutoff then cutoff else before);
    DropOldTwice(history, before, cutoff);
    DropOldShrinks(history, before);
    DropOldLast(n, DropOld(history, before), cutoff);
  }

  lemma {:induction false} HighWaterBelow(window: nat, calls: seq<Call>)
    requires InOrder(calls)
    ensures calls != [] ==> HighWater(window, calls) <= calls[|calls| - 1].at
    ensures calls == [] ==> HighWater(window, calls) == 0
  {
    if calls != [] {
      HighWaterBelow(window, calls[..|calls| - 1]);
    }
  }

  /**
   * The samples held after any calls, in time order, are the last `maxSamples` of those ever
   * recorded that are no older than the latest cutoff.
   */
  lemma {:induction false} SamplesAreHistory(limits: Limits, calls: seq<Call>)
    requires InOrder(calls)
    ensures Run(limits, calls) == Last(limits.maxSamples, Since(Recorded(calls), HighWater(limits.window, calls)))
  {
    if calls != [] {
      var front, call := calls[..|calls| - 1], calls[|calls| - 1];
      var n := limits.maxSamples;
      SamplesAreHistory(limits, front);
      RecordedSorted(front);
      PruneHistory(Recorded(front), n, HighWater(limits.window, front), Cutoff(limits.window, call.at));
      HighWaterBelow(limits.window, calls);
      var since := Since(Recorded(front), HighWater(limits.window, calls));
      if call.Record? {
        var s := Sample(call.at, call.work);
        SinceSnoc(Recorded(front), s, HighWater(limits.window, calls));
        LastSnoc(n, since, s);
      } else {
        assert Recorded(calls) == Recorded(front);
      }
    }
  }

  lemma LastSnoc(n: nat, samples: seq<Sample>, s: Sample)
    ensures Last(n, Last(n, samples) + [s]) == Last(n, samples + [s])
  {
  }

  /**
   * On a clock older than the window at every call, the samples are the last `maxSamples`
   * of those recorded within a window of the latest call.
   */
  lemma {:induction false} SamplesAreWindow(limits: Limits, calls: seq<Call>)
    requires InOrder(calls) && calls != []
    requires forall i :: 0 <= i < |calls| ==> calls[i].at >= limits.window
    ensures Run(limits, calls) == Last(limits.maxSamples, Since(Recorded(calls), calls[|calls| - 1].at - limits.window))
  {
    SamplesAreHistory(limits, calls);
    LatestCutoff(limits.window, calls);
  }

  lemma {:induction false} LatestCutoff(window: nat, calls: seq<Call>)
    requires InOrder(calls) && calls != []
    requires forall i :: 0 <= i < |calls| ==> calls[i].at >= window
    ensures HighWater(window, calls) == calls[|calls| - 1].at - window
  {
    if |calls| > 1 {
      LatestCutoff(window, calls[..|calls| - 1]);
    }
  }

  /**
   * A query's estimate is that of the history: its work over the whole seconds since the
   * oldest of the last `maxSamples` recorded since the latest cutoff.
   */
  lemma {:induction false} EstimateIsHistory(limits: Limits, calls: seq<Call>)
    requires InOrder(calls) && calls != [] && calls[|calls| - 1].Query?
    ensures var kept, now := Run(limits, calls), calls[|calls| - 1].at;
            && kept == Last(limits.maxSamples, Since(Recorded(calls), HighWater(limits.window, calls)))
            && (Sum(kept) < Span(4) ==> Rate(kept, Wrapped(kept), now) == Rate(kept, Sum(kept), now))
  {
    SamplesAreHistory(limits, calls);
    if Sum(Run(limits, calls)) < Span(4) {
      WrappedIsSum(Run(limits, calls));
    }
  }

  /**
   * A rate is the floor of work over whole seconds since the oldest sample, unless that needs
   * more than 64 bits; no sample, or less than a second, gives none.
   */
  lemma RateIsFloor(samples: seq<Sample>, total: nat, now: nat)
    ensures samples == [] || samples[0].at > now ==> Rate(samples, total, now) == 0
    ensures samples != [] && samples[0].at <= now ==>
            var secs, r := (now - samples[0].at) / 1_000_000_000, Rate(samples, total, now);
            && (secs == 0 ==> r == 0)
            && (secs > 0 ==> r * secs <= total && (total < (r + 1) * secs || r == LIMB - 1))
  {
    if samples != [] && samples[0].at + SECOND <= now {
      var secs := (now - samples[0].at) / SECOND;
      DivBounds(total, secs);
      if total / secs >= LIMB {
        MulMono(LIMB - 1, total / secs, secs);
      }
    }
  }

  // ---------------------------------------------- where the two cases differ

  /** Where the window that ends now begins. */
  function WindowStart(window: nat, now: nat): nat {
    if now >= window then now - window else 0
  }

  /**
   * On a clock younger than the window nothing is too old yet, but pruning still drops
   * everything before the present instant. So one call keeps exactly the samples of its
   * window if and only if the clock is old enough or nothing older than now is held.
   */
  lemma {:induction false} PruneKeepsWindow(window: nat, samples: seq<Sample>, now: nat)
    requires Sorted(samples) && forall i :: 0 <= i < |samples| ==> samples[i].at <= now
    ensures DropOld(samples, Cutoff(window, now)) == Since(samples, WindowStart(window, now))
       <==> now >= window || samples == [] || samples[0].at >= now
  {
    DropOldIsSince(samples, Cutoff(window, now));
    AllSince(samples, 0);
    if samples != [] && now < window {
      DropOldShrinks(samples[1..], now);
      if samples[0].at >= now {
        AllSince(samples, now);
      }
    }
  }

  // ------------------------------------------------------------- settling

  /** At least `n` samples are left after pruning exactly when the `n`-th newest is. */
  lemma {:induction false} EnoughLeft(samples: seq<Sample>, cutoff: nat, n: nat)
    requires Sorted(samples) && 0 < n <= |samples|
    ensures |DropOld(samples, cutoff)| >= n <==> samples[|samples| - n].at >= cutoff
  {
    DropOldShrinks(samples, cutoff);
    if samples[0].at < cutoff {
      if n < |samples| {
        EnoughLeft(samples[1..], cutoff, n);
      } else {
        DropOldShrinks(samples[1..], cutoff);
      }
    }
  }

  /** What settling is documented to mean: enough samples were recorded within the window of `now`. */
  ghost predicate EnoughInWindow(limits: Limits, calls: seq<Call>, now: nat) {
    |Since(Recorded(calls), WindowStart(limits.window, now))| >= limits.minSamples
  }

  /** What the estimator goes by: the samples it holds, before any are pruned. */
  predicate IsSettled(limits: Limits, samples: seq<Sample>) {
    |samples| >= limits.minSamples
  }

  /** The oldest of the `n` newest samples is no older than `start`. */
  predicate NewestSince(samples: seq<Sample>, n: nat, start: nat)
    requires |samples| >= n
  {
    n > 0 ==> samples[|samples| - n].at >= start
  }

  /** There are `n` samples no older than `start`. */
  predicate EnoughSince(samples: seq<Sample>, n: nat, start: nat) {
    |samples| >= n && NewestSince(samples, n, start)
  }

  /**
   * An estimator counts as settled exactly when its capacity allows for `minSamples` and that
   * many were recorded since the latest cutoff; it should, exactly when that many were
   * recorded within the window. So a settled one has the samples it is documented to have if
   * and only if the oldest of its `minSamples` newest is within the window, and one that is
   * not settled lacks them too, unless its capacity is too small for them or it pruned more
   * than the window when the clock was young.
   */
  lemma {:induction false} SettledExactlyWhen(limits: Limits, calls: seq<Call>, now: nat)
    requires InOrder(calls)
    ensures var held, n, start := Run(limits, calls), limits.minSamples, WindowStart(limits.window, now);
            && (IsSettled(limits, held) <==>
                  n <= limits.maxSamples && EnoughSince(Recorded(calls), n, HighWater(limits.window, calls)))
            && (EnoughInWindow(limits, calls, now) <==> EnoughSince(Recorded(calls), n, start))
            && (IsSettled(limits, held) ==> (EnoughInWindow(limits, calls, now) <==> NewestSince(held, n, start)))
            && (!IsSettled(limits, held) && EnoughInWindow(limits, calls, now) ==>
                  limits.maxSamples < n || start < HighWater(limits.window, calls))
  {
    SamplesAreHistory(limits, calls);
    RecordedSorted(calls);
    var history, start, cutoff := Recorded(calls), WindowStart(limits.window, now), HighWater(limits.window, calls);
    HeldAndWindow(history, limits.maxSamples, limits.minSamples, cutoff, start);
    LastShorter(limits.maxSamples, Since(history, cutoff));
    ManySince(history, cutoff, limits.minSamples);
    ManySince(history, start, limits.minSamples);
  }

  lemma {:induction false} ManySince(history: seq<Sample>, start: nat, n: nat)
    requires Sorted(history)
    ensures |Since(history, start)| >= n <==> EnoughSince(history, n, start)
  {
    DropOldIsSince(history, start);
    DropOldShrinks(history, start);
    if 0 < n <= |history| {
      EnoughLeft(history, start, n);
    }
  }

  lemma {:induction false} HeldAndWindow(history: seq<Sample>, most: nat, n: nat, before: nat, start: nat)
    requires Sorted(history)
    ensures var held := Last(most, Since(history, before));
            && (|held| >= n ==> (|Since(history, start)| >= n <==> NewestSince(held, n, start)))
            && (|held| < n && |Since(history, start)| >= n ==> most < n || start < before)
  {
    var since := Since(history, before);
    SinceWithin(history, before, start);
    LastOfWindow(most, since, start, n);
    LastShorter(most, since);
  }

  lemma LastShorter(most: nat, samples: seq<Sample>)
    ensures |Last(most, samples)| == if |samples| <= most then |samples| else most
  {
  }

  lemma {:induction false} SinceWithin(history: seq<Sample>, before: nat, start: nat)
    requires Sorted(history)
    ensures Sorted(Since(history, before))
    ensures before <= start ==> DropOld(Since(history, before), start) == Since(history, start)
    ensures before > start ==>
              && DropOld(Since(history, before), start) == Since(history, before)
              && |Since(history, before)| <= |Since(history, start)|
  {
    DropOldIsSince(history, before);
    DropOldIsSince(history, start);
    DropOldShrinks(history, before);
    DropOldTwice(history, before, start);
    DropOldTwice(history, start, before);
    DropOldShrinks(DropOld(history, start), before);
  }

  lemma {:induction false} LastOfWindow(most: nat, since: seq<Sample>, cutoff: nat, n: nat)
    requires Sorted(since)
    ensures |Last(most, since)| >= n ==> (|DropOld(since, cutoff)| >= n <==> NewestSince(Last(most, since), n, cutoff))
    ensures |DropOld(since, cutoff)| <= |since|
  {
    DropOldShrinks(since, cutoff);
    if |Last(most, since)| >= n > 0 {
      EnoughLeft(since, cutoff, n);
      assert Last(most, since)[|Last(most, since)| - n] == since[|since| - n];
    }
  }

  /** Five shares in four seconds settle the default limits of a five-minute window. */
  const FIVE_MINUTES: Limits := Limits(300 * SECOND, 5, 3000)

  function FiveShares(): seq<Call> {
    [Record(1000 * SECOND, 1), Record(1001 * SECOND, 1), Record(1002 * SECOND, 1), Record(1003 * SECOND, 1),
     Record(1004 * SECOND, 1)]
  }

  /**
   * It then still counts as settled 303 seconds after the first share, when only two shares
   * are left in the window, and the rate it reports is made from those two.
   */
  lemma SettledOnTwoShares()
    ensures InOrder(FiveShares())
    ensures IsSettled(FIVE_MINUTES, Run(FIVE_MINUTES, FiveShares()))
    ensures !EnoughInWindow(FIVE_MINUTES, FiveShares(), 1303 * SECOND)
    ensures |Apply(FIVE_MINUTES, Run(FIVE_MINUTES, FiveShares()), Query(1303 * SECOND))| == 2
  {
    var calls := FiveShares();
    var held := [Sample(1000 * SECOND, 1), Sample(1001 * SECOND, 1), Sample(1002 * SECOND, 1), Sample(1003 * SECOND, 1),
                 Sample(1004 * SECOND, 1)];
    FiveHeld(calls, held);
    SettledExactlyWhen(FIVE_MINUTES, calls, 1303 * SECOND);
    assert DropOld(held, 1003 * SECOND) == held[3..] by { DropThree(held, 1003 * SECOND); }
  }

  lemma DropThree(samples: seq<Sample>, cutoff: nat)
    requires |samples| > 3 && samples[0].at < cutoff && samples[1].at < cutoff && samples[2].at < cutoff
             && samples[3].at >= cutoff
    ensures DropOld(samples, cutoff) == samples[3..]
  {
    assert samples[1..][1..] == samples[2..] && samples[2..][1..] == samples[3..];
    assert DropOld(samples[3..], cutoff) == samples[3..];
    assert DropOld(samples[2..], cutoff) == samples[3..];
    assert DropOld(samples[1..], cutoff) == samples[3..];
  }

  lemma {:induction false} FiveHeld(calls: seq<Call>, held: seq<Sample>)
    requires |calls| == |held| == 5
    requires forall i :: 0 <= i < 5 ==>
               calls[i] == Record((1000 + i) * SECOND, 1) && held[i] == Sample((1000 + i) * SECOND, 1)
    ensures Run(FIVE_MINUTES, calls) == held
  {
    for k := 0 to 5
      invariant Run(FIVE_MINUTES, calls[..k]) == held[..k]
    {
      assert calls[..k + 1][..k] == calls[..k];
      assert held[..k + 1] == held[..k] + [held[k]];
      assert held[..k] == [] || held[..k][0].at >= Cutoff(FIVE_MINUTES.window, calls[k].at);
    }
    assert calls[..5] == calls && held[..5] == held;
  }
}
