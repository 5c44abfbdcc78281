/** How a Stratum source paces itself: difficulty suggestions, and reconnection attempts. */
module SuggestThrottle {
  import opened Options

  /** Milliseconds between two suggestions. */
  const SUGGEST_MIN_INTERVAL: nat := 5000
  const DOWN_FACTOR: real := 1.25
  const UP_FACTOR: real := 1.5

  datatype Suggestion = Suggestion(at: nat, diff: real)

  /** `sent` is what went to the client so far on this connection. */
  datatype Throttle = Throttle(rate: nat, last: Option<real>, cooldownUntil: Option<nat>, sent: seq<Suggestion>)

  /** `diff` turns a positive hashrate into the difficulty that suits it. */
  function Suggested(diff: nat -> real, rate: nat): Option<real> {
    if rate == 0 then None else Some(diff(rate))
  }

  predicate IsMaterialChange(d: real, last: Option<real>) {
    last.None? || d <= last.value / DOWN_FACTOR || d >= last.value * UP_FACTOR
  }

  /** A hashrate whose difficulty is outside the deadband of the last suggestion. */
  predicate Pending(diff: nat -> real, rate: nat, last: Option<real>) {
    rate != 0 && IsMaterialChange(diff(rate), last)
  }

  // --------------------------------------------------------- transitions

  datatype Tick = UpdateHashRate(now: nat, rate: nat) | CooldownExpires(now: nat)

  /** The cooldown arm can only be taken once the cooldown is over. */
  predicate Ready(t: Throttle, tick: Tick) {
    tick.CooldownExpires? ==> t.cooldownUntil.Some? && t.cooldownUntil.value <= tick.now
  }

  function Send(t: Throttle, now: nat, d: real): Throttle {
    t.(last := Some(d), cooldownUntil := Some(now + SUGGEST_MIN_INTERVAL), sent := t.sent + [Suggestion(now, d)])
  }

  function Apply(diff: nat -> real, t: Throttle, tick: Tick): Throttle {
    if !Ready(t, tick) then t
    else match tick
      case UpdateHashRate(now, rate) =>
        var t1 := t.(rate := rate);
        if Pending(diff, rate, t.last) && !(t.cooldownUntil.Some? && now < t.cooldownUntil.value)
        then Send(t1, now, diff(rate)) else t1
      case CooldownExpires(now) =>
        if Pending(diff, t.rate, t.last) then Send(t, now, diff(t.rate)) else t.(cooldownUntil := None)
  }

  function Connected(diff: nat -> real, rate: nat): Throttle {
    Throttle(rate, Suggested(diff, rate), None, [])
  }

  function Run(diff: nat -> real, rate: nat, ticks: seq<Tick>): Throttle {
    if ticks == [] then Connected(diff, rate)
    else Apply(diff, Run(diff, rate, ticks[..|ticks| - 1]), ticks[|ticks| - 1])
  }

  // ----------------------------------------------------------- the source

  class Suggester {
    const diff: nat -> real
    var expectedHashrate: nat
    var lastSuggestedDifficulty: Option<real>
    var cooldownUntil: Option<nat>
    /** The commands put on the channel to the client. */
    var sent: seq<Suggestion>

    ghost function Model(): Throttle
      reads this
    {
      Throttle(expectedHashrate, lastSuggestedDifficulty, cooldownUntil, sent)
    }

    constructor (diff: nat -> real, rate: nat)
      ensures this.diff == diff && Model() == Connected(diff, rate)
    {
      this.diff := diff;
      expectedHashrate := rate;
      lastSuggestedDifficulty := Suggested(diff, rate);
      cooldownUntil := None;
      sent := [];
    }

    method SendSuggest(now: nat, newDiff: real)
      modifies this
      ensures Model() == Send(old(Model()), now, newDiff)
    {
      lastSuggestedDifficulty := Some(newDiff);
      cooldownUntil := Some(now + SUGGEST_MIN_INTERVAL);
      sent := sent + [Suggestion(now, newDiff)];
    }

    method MaybeSuggestDifficulty(now: nat, rate: nat)
      modifies this
      ensures Model() == Apply(diff, old(Model()), UpdateHashRate(now, rate))
    {
      expectedHashrate := rate;
      var newDiff := Suggested(diff, expectedHashrate);
      if newDiff.None? {
        return;
      }
      if !IsMaterialChange(newDiff.value, lastSuggestedDifficulty) {
        return;
      }
      if cooldownUntil.Some? && now < cooldownUntil.value {
        return;
      }
      SendSuggest(now, newDiff.value);
    }

    method FlushSuggest(now: nat)
      requires cooldownUntil.Some? && cooldownUntil.value <= now
      modifies this
      ensures Model() == Apply(diff, old(Model()), CooldownExpires(now))
    {
      var pending := Suggested(diff, expectedHashrate);
      if pending.Some? && IsMaterialChange(pending.value, lastSuggestedDifficulty) {
        SendSuggest(now, pending.value);
      } else {
        cooldownUntil := None;
      }
    }
  }

  // -------------------------------------------------------- whole connections

  predicate InOrder(ticks: seq<Tick>) {
    forall i, j :: 0 <= i < j < |ticks| ==> ticks[i].now <= ticks[j].now
  }

  /** The suggestion in force before the `i`-th of this connection. */
  function Floor(first: Option<real>, sent: seq<Suggestion>, i: nat): Option<real>
    requires i <= |sent|
  {
    if i == 0 then first else Some(sent[i - 1].diff)
  }

  /** The `i`-th suggestion keeps its distance from the one before, in time and in size. */
  ghost predicate PacedAt(first: Option<real>, sent: seq<Suggestion>, i: nat)
    requires i < |sent|
  {
    && (i > 0 ==> sent[i].at >= sent[i - 1].at + SUGGEST_MIN_INTERVAL)
    && IsMaterialChange(sent[i].diff, Floor(first, sent, i))
  }

  ghost predicate Paced(first: Option<real>, sent: seq<Suggestion>) {
    forall i :: 0 <= i < |sent| ==> PacedAt(first, sent, i)
  }

  /**
   * What holds between two ticks. Without a cooldown no change is waiting; with one it ends
   * an interval after the last suggestion.
   */
  ghost predicate Inv(diff: nat -> real, first: Option<real>, t: Throttle, now: nat) {
    && Paced(first, t.sent)
    && t.last == Floor(first, t.sent, |t.sent|)
    && (t.sent != [] ==> t.sent[|t.sent| - 1].at <= now)
    && (match t.cooldownUntil
        case None =>
          && !Pending(diff, t.rate, t.last)
          && (t.sent != [] ==> t.sent[|t.sent| - 1].at + SUGGEST_MIN_INTERVAL <= now)
        case Some(until) => t.sent != [] && until == t.sent[|t.sent| - 1].at + SUGGEST_MIN_INTERVAL)
  }

  ghost predicate PositiveDifficulties(diff: nat -> real) {
    forall rate: nat :: rate > 0 ==> diff(rate) > 0.0
  }

  lemma SendKeeps(diff: nat -> real, first: Option<real>, t: Throttle, now: nat)
    requires PositiveDifficulties(diff)
    requires Paced(first, t.sent) && t.last == Floor(first, t.sent, |t.sent|) && Pending(diff, t.rate, t.last)
    requires t.sent != [] ==> t.sent[|t.sent| - 1].at + SUGGEST_MIN_INTERVAL <= now
    ensures Inv(diff, first, Send(t, now, diff(t.rate)), now)
  {
    var sent := Send(t, now, diff(t.rate)).sent;
    forall i | 0 <= i < |sent| ensures PacedAt(first, sent, i) {
      if i < |t.sent| {
        assert PacedAt(first, t.sent, i);
      }
    }
  }

  lemma TickKeeps(diff: nat -> real, first: Option<real>, t: Throttle, tick: Tick, before: nat)
    requires PositiveDifficulties(diff) && Inv(diff, first, t, before) && before <= tick.now
    ensures Inv(diff, first, Apply(diff, t, tick), tick.now)
  {
    if Ready(t, tick) {
      match tick {
        case UpdateHashRate(now, rate) =>
          if Pending(diff, rate, t.last) && !(t.cooldownUntil.Some? && now < t.cooldownUntil.value) {
            SendKeeps(diff, first, t.(rate := rate), now);
          }
        case CooldownExpires(now) =>
          if Pending(diff, t.rate, t.last) {
            SendKeeps(diff, first, t, now);
          }
      }
    }
  }

  lemma {:induction false} RunKeeps(diff: nat -> real, rate: nat, ticks: seq<Tick>)
    requires PositiveDifficulties(diff) && InOrder(ticks)
    ensures Inv(diff, Suggested(diff, rate), Run(diff, rate, ticks), if ticks == [] then 0 else ticks[|ticks| - 1].now)
  {
    if ticks != [] {
      var front := ticks[..|ticks| - 1];
      RunKeeps(diff, rate, front);
      TickKeeps(diff, Suggested(diff, rate), Run(diff, rate, front), ticks[|ticks| - 1],
                if front == [] then 0 else front[|front| - 1].now);
    }
  }

  /** At least half as much again as the last suggestion, or at most four fifths of it. */
  ghost predicate OutsideDeadband(d: real, last: real) {
    d >= 1.5 * last || d <= 0.8 * last
  }

  lemma MaterialMeans(d: real, last: Option<real>)
    ensures IsMaterialChange(d, last) <==> last.None? || OutsideDeadband(d, last.value)
  {
  }

  /** The hashrate of the latest update, or that at which the connection was made. */
  function LatestRate(rate: nat, ticks: seq<Tick>): nat {
    if ticks == [] then rate
    else
      var last := ticks[|ticks| - 1];
      if last.UpdateHashRate? then last.rate else LatestRate(rate, ticks[..|ticks| - 1])
  }

  lemma {:induction false} RateIsLatest(diff: nat -> real, rate: nat, ticks: seq<Tick>)
    ensures Run(diff, rate, ticks).rate == LatestRate(rate, ticks)
  {
    if ticks != [] {
      RateIsLatest(diff, rate, ticks[..|ticks| - 1]);
    }
  }

  /**
   * Any two suggestions of a connection are five seconds apart for each step between them, and
   * each lies outside the deadband of the one before; the first of that of the connection's rate.
   */
  lemma SuggestionsArePaced(diff: nat -> real, rate: nat, ticks: seq<Tick>, i: nat, j: nat)
    requires PositiveDifficulties(diff) && InOrder(ticks)
    requires i <= j < |Run(diff, rate, ticks).sent|
    ensures var sent := Run(diff, rate, ticks).sent;
            && sent[j].at >= sent[i].at + (j - i) * 5000
            && (j > 0 ==> OutsideDeadband(sent[j].diff, sent[j - 1].diff))
            && (j == 0 && rate > 0 ==> OutsideDeadband(sent[j].diff, diff(rate)))
  {
    RunKeeps(diff, rate, ticks);
    var sent := Run(diff, rate, ticks).sent;
    assert PacedAt(Suggested(diff, rate), sent, j);
    MaterialMeans(sent[j].diff, Floor(Suggested(diff, rate), sent, j));
    Spread(Suggested(diff, rate), Run(diff, rate, ticks).sent, i, j);
  }

  lemma {:induction false} Spread(first: Option<real>, sent: seq<Suggestion>, i: nat, j: nat)
    requires Paced(first, sent) && i <= j < |sent|
    ensures sent[j].at >= sent[i].at + (j - i) * SUGGEST_MIN_INTERVAL
    decreases j
  {
    if i < j {
      Spread(first, sent, i, j - 1);
      assert PacedAt(first, sent, j);
    }
  }

  /**
   * No change is lost. A change still waiting is held by a cooldown that is over within an
   * interval, and the tick that ends it sends the difficulty of the latest hashrate; with
   * no cooldown that difficulty is within the deadband, or there is no hashrate. The change
   * is against the last suggestion, or against the connection's rate before there is one.
   */
  lemma NoChangeLost(diff: nat -> real, rate: nat, ticks: seq<Tick>, later: nat)
    requires PositiveDifficulties(diff) && InOrder(ticks)
    ensures var t := Run(diff, rate, ticks);
            var now := if ticks == [] then 0 else ticks[|ticks| - 1].now;
            var latest := LatestRate(rate, ticks);
            latest > 0 && Waiting(diff, rate, t.sent, latest) ==>
              && t.cooldownUntil.Some? && t.cooldownUntil.value <= now + 5000
              && (t.cooldownUntil.value <= later ==>
                    Apply(diff, t, CooldownExpires(later)).sent == t.sent + [Suggestion(later, diff(latest))])
  {
    RunKeeps(diff, rate, ticks);
    RateIsLatest(diff, rate, ticks);
    var t := Run(diff, rate, ticks);
    MaterialMeans(diff(LatestRate(rate, ticks)), t.last);
  }

  /** The difficulty of a hashrate is outside the deadband of what the pool was last told. */
  ghost predicate Waiting(diff: nat -> real, first: nat, sent: seq<Suggestion>, rate: nat) {
    if sent != [] then OutsideDeadband(diff(rate), sent[|sent| - 1].diff)
    else first == 0 || OutsideDeadband(diff(rate), diff(first))
  }
}

module ReconnectBackoff {

  function Min(a: nat, b: nat): nat {
    if a < b then a else b
  }

  /** The `k`-th delay before jitter: doubled every time, up to the ceiling. */
  function Nominal(initial: nat, max: nat, k: nat): nat {
    if k == 0 then initial else Min(Times2(initial, k), max)
  }

  function Times2(n: nat, k: nat): nat {
    if k == 0 then n else 2 * Times2(n, k - 1)
  }

  const HASH_MAX: nat := 0xFFFF_FFFF_FFFF_FFFF

  class ExponentialBackoff {
    var current: nat
    const initial: nat
    const max: nat
    /** Delays given out since the last reset. */
    ghost var attempts: nat

    ghost predicate Valid()
      reads this
    {
      current == Nominal(initial, max, attempts)
    }

    constructor (initial: nat, max: nat)
      ensures Valid() && attempts == 0 && this.initial == initial && this.max == max
    {
      this.current := initial;
      this.initial := initial;
      this.max := max;
      attempts := 0;
    }

    /** `hash` is the jitter hash of this attempt. */
    method NextDelay(hash: nat) returns (delay: real)
      requires Valid() && hash <= HASH_MAX
      modifies this
      ensures Valid() && attempts == old(attempts) + 1
      ensures var nominal := Nominal(initial, max, old(attempts)) as real;
              nominal / 2.0 <= delay <= nominal && IsJittered(nominal, hash, delay)
    {
      var nominal := current;
      NominalStep(initial, max, attempts);
      current := Min(current * 2, max);
      attempts := attempts + 1;
      delay := Jittered(nominal, hash);
    }

    method Reset()
      modifies this
      ensures Valid() && attempts == 0
    {
      current := initial;
      attempts := 0;
    }
  }

  /** The share of the upper half that is waited is that of the hash among all hashes. */
  ghost predicate IsJittered(nominal: real, hash: nat, delay: real) {
    (delay - nominal / 2.0) * HASH_MAX as real == nominal / 2.0 * hash as real
  }

  /** A delay scaled to between half and all of it. */
  function Jittered(nominal: nat, hash: nat): (delay: real)
    requires hash <= HASH_MAX
    ensures nominal as real / 2.0 <= delay <= nominal as real && IsJittered(nominal as real, hash, delay)
  {
    var fraction := hash as real / HASH_MAX as real;
    FractionOf(hash as real, HASH_MAX as real, fraction);
    JitterBounds(nominal as real, fraction);
    JitterShare(nominal as real, fraction, hash);
    ScaledBy(nominal as real, fraction)
  }

  function ScaledBy(n: real, fraction: real): real {
    n * (0.5 + fraction * 0.5)
  }

  lemma FractionOf(h: real, m: real, fraction: real)
    requires 0.0 <= h <= m && m > 0.0 && fraction == h / m
    ensures 0.0 <= fraction <= 1.0 && fraction * m == h
  {
  }

  lemma JitterBounds(n: real, h: real)
    requires n >= 0.0 && 0.0 <= h <= 1.0
    ensures n / 2.0 <= ScaledBy(n, h) <= n
  {
    assert 0.0 <= n * h <= n;
  }

  lemma JitterShare(n: real, f: real, hash: nat)
    requires f * HASH_MAX as real == hash as real
    ensures IsJittered(n, hash, ScaledBy(n, f))
  {
    ShareTimes(n, f, HASH_MAX as real, hash as real);
  }

  lemma ShareTimes(n: real, f: real, m: real, h: real)
    requires f * m == h
    ensures (ScaledBy(n, f) - n / 2.0) * m == n / 2.0 * h
  {
    assert ScaledBy(n, f) - n / 2.0 == n / 2.0 * f;
    assert n / 2.0 * f * m == n / 2.0 * (f * m);
  }

  lemma NominalStep(initial: nat, max: nat, k: nat)
    ensures Nominal(initial, max, k + 1) == Min(2 * Nominal(initial, max, k), max)
  {
  }

  /** From an initial delay below the ceiling, delays double until they reach it, and stay there. */
  lemma {:induction false} NominalGrows(initial: nat, max: nat, k: nat)
    requires 0 < initial <= max
    ensures initial <= Nominal(initial, max, k) <= Nominal(initial, max, k + 1) <= max
    ensures k >= max ==> Nominal(initial, max, k) == max
    ensures Nominal(initial, max, 0) == initial
    ensures var doubled := 2 * Nominal(initial, max, k);
            Nominal(initial, max, k + 1) == if doubled < max then doubled else max
  {
    Times2Grows(initial, k);
    Times2Grows(initial, k + 1);
  }

  lemma {:induction false} Times2Grows(n: nat, k: nat)
    requires n > 0
    ensures Times2(n, k) >= n && Times2(n, k) > k
  {
    if k > 0 {
      Times2Grows(n, k - 1);
    }
  }
}
