/**
 * The Stratum v1 job source: what a pool's messages make of its protocol state, the jobs it
 * passes on, and its connections one after another.
 */
module StratumSource {
  import opened Options
  import opened Extranonces
  import opened Jobs
  import opened ReconnectBackoff
  import SchedulerState
  import Wide
  import Difficulties
  import Powers

  type SourceEvent = SchedulerState.SourceEvent
  type F64 = Wide.F64

  /** A 32-bit word, as block versions and version masks are sent. */
  type u32 = x: int | 0 <= x < 0x1_0000_0000

  datatype ProtocolState = ProtocolState(
    extranonce1: seq<byte>,
    extranonce2Size: nat,
    shareDifficulty: Option<Difficulties.Difficulty>,
    versionMask: Option<u32>)

  datatype JobNotification = JobNotification(
    jobId: string,
    prevHash: Hash,
    coinbase1: seq<byte>,
    coinbase2: seq<byte>,
    merkleBranches: seq<Hash>,
    version: u32,
    nbits: nat,
    ntime: nat,
    cleanJobs: bool)

  /** `Notice` stands for the events that are only logged. */
  datatype ClientEvent =
    | VersionRollingConfigured(authorizedMask: Option<u32>)
    | Subscribed(extranonce1: seq<byte>, extranonce2Size: nat)
    | NewJob(job: JobNotification)
    | DifficultyChanged(diff: F64)
    | VersionMaskSet(mask: u32)
    | Notice

  // ---------------------------------------------------------------- jobs

  /** Bits 13 to 28 of a word. */
  function GeneralPurposeBits(word: u32): nat {
    word / 0x2000 % 0x1_0000
  }

  ghost predicate IsSet(v: nat, i: nat) {
    v / Powers.Pow2(i) % 2 == 1
  }

  /** Bit `i` of the result is bit `i + 13` of the word, for the sixteen of them. */
  lemma GeneralPurposeBitsAre(word: u32, i: nat)
    ensures IsSet(GeneralPurposeBits(word), i) <==> i < 16 && IsSet(word, i + 13)
  {
    var x := word / 0x2000;
    Powers.Pow2Sum(13, i);
    Powers.DividedTwice(word, 0x2000, Powers.Pow2(i));
    if i < 16 {
      LowBit(x, 16, i);
    } else {
      Powers.Pow2Sum(16, i - 16);
      Powers.DivIs(x % 0x1_0000, Powers.Pow2(i), 0);
    }
  }

  lemma {:induction false} LowBit(x: nat, n: nat, i: nat)
    requires i < n
    ensures Powers.Pow2(n) > 0
    ensures IsSet(x % Powers.Pow2(n), i) <==> IsSet(x, i)
  {
    var p := Powers.Pow2(n - 1);
    HalfOfLow(x, p);
    if i > 0 {
      LowBit(x / 2, n - 1, i - 1);
      Powers.DividedTwice(x, 2, Powers.Pow2(i - 1));
      Powers.DividedTwice(x % (2 * p), 2, Powers.Pow2(i - 1));
    }
  }

  lemma HalfOfLow(x: nat, p: nat)
    requires p > 0
    ensures x % (2 * p) / 2 == x / 2 % p && x % (2 * p) % 2 == x % 2
  {
    var q, r := x / (2 * p), x % (2 * p);
    assert x == 2 * p * q + r;
    assert 2 * p * q == 2 * (q * p);
    assert x / 2 == q * p + r / 2;
    Powers.DivIs(x / 2, p, q);
  }

  /** A base version may not have the bits set that rolling replaces. */
  function NewVersionTemplate(version: u32, mask: nat): Option<VersionTemplate> {
    if GeneralPurposeBits(version) != 0 then None else Some(VersionTemplate(version, mask))
  }

  function JobToTemplate(state: Option<ProtocolState>, job: JobNotification): Option<JobTemplate> {
    match state
    case None => None
    case Some(st) =>
      match Full(st.extranonce2Size)
      case Err(_) => None
      case Ok(range) =>
        var mask := if st.versionMask.Some? then GeneralPurposeBits(st.versionMask.value) else 0;
        match NewVersionTemplate(job.version, mask)
        case None => None
        case Some(version) =>
          var difficulty := if st.shareDifficulty.Some? then st.shareDifficulty.value else Difficulties.FromU64(1);
          Some(JobTemplate(job.jobId, job.prevHash, version, job.nbits, difficulty.target, job.ntime,
                           Computed(MerkleRootTemplate(job.coinbase1, st.extranonce1, range, job.coinbase2,
                                                       job.merkleBranches))))
  }

  /** What handling one event makes of the protocol state. */
  function NextState(state: Option<ProtocolState>, event: ClientEvent): Option<ProtocolState> {
    match event
    case VersionRollingConfigured(mask) =>
      Some(if state.Some? then state.value.(versionMask := mask) else ProtocolState([], 0, None, mask))
    case Subscribed(extranonce1, size) =>
      Some(if state.Some? then state.value.(extranonce1 := extranonce1, extranonce2Size := size)
           else ProtocolState(extranonce1, size, None, None))
    case DifficultyChanged(diff) =>
      if state.Some? then Some(state.value.(shareDifficulty := Some(Difficulties.OfFloat(diff)))) else None
    case VersionMaskSet(mask) =>
      if state.Some? then Some(state.value.(versionMask := Some(mask))) else None
    case NewJob(_) => state
    case Notice => state
  }

  /** What handling one event passes to the scheduler. */
  function PassedOn(state: Option<ProtocolState>, event: ClientEvent): seq<SourceEvent> {
    if !event.NewJob? then []
    else match JobToTemplate(state, event.job)
      case None => []
      case Some(template) =>
        [if event.job.cleanJobs then SchedulerState.ReplaceJob(template) else SchedulerState.UpdateJob(template)]
  }

  /** The protocol state after the events of one connection. */
  function After(events: seq<ClientEvent>): Option<ProtocolState> {
    if events == [] then None else NextState(After(events[..|events| - 1]), events[|events| - 1])
  }

  function Emitted(events: seq<ClientEvent>): seq<SourceEvent> {
    if events == [] then []
    else Emitted(events[..|events| - 1]) + PassedOn(After(events[..|events| - 1]), events[|events| - 1])
  }

  // ---------------------------------------- the state told from the history

  datatype Subscription = Subscription(extranonce1: seq<byte>, size: nat)

  /** The latest subscription of the connection. */
  function LatestSubscription(events: seq<ClientEvent>): Option<Subscription> {
    if events == [] then None
    else match events[|events| - 1]
      case Subscribed(extranonce1, size) => Some(Subscription(extranonce1, size))
      case _ => LatestSubscription(events[..|events| - 1])
  }

  /** The pool has answered a subscription or the version-rolling request. */
  predicate Started(events: seq<ClientEvent>) {
    exists i :: 0 <= i < |events| && (events[i].Subscribed? || events[i].VersionRollingConfigured?)
  }

  /** The latest difficulty, of those that arrived once the connection had started. */
  function LatestDifficulty(events: seq<ClientEvent>): Option<Difficulties.Difficulty> {
    if events == [] then None
    else
      var front := events[..|events| - 1];
      match events[|events| - 1]
      case DifficultyChanged(diff) =>
        if Started(front) then Some(Difficulties.OfFloat(diff)) else LatestDifficulty(front)
      case _ => LatestDifficulty(front)
  }

  /** The latest authorisation of version bits; a bare mask counts once the connection has started. */
  function LatestMask(events: seq<ClientEvent>): Option<u32> {
    if events == [] then None
    else
      var front := events[..|events| - 1];
      match events[|events| - 1]
      case VersionRollingConfigured(mask) => mask
      case VersionMaskSet(mask) => if Started(front) then Some(mask) else LatestMask(front)
      case _ => LatestMask(front)
  }

  lemma StartedStep(events: seq<ClientEvent>)
    requires events != []
    ensures Started(events) <==>
              || Started(events[..|events| - 1]) || events[|events| - 1].Subscribed?
              || events[|events| - 1].VersionRollingConfigured?
  {
    var n := |events| - 1;
    if Started(events[..n]) {
      var i :| 0 <= i < n && (events[..n][i].Subscribed? || events[..n][i].VersionRollingConfigured?);
      assert events[i] == events[..n][i];
    }
    if Started(events) {
      var i :| 0 <= i < |events| && (events[i].Subscribed? || events[i].VersionRollingConfigured?);
      assert i < n ==> events[..n][i] == events[i];
    }
  }

  lemma {:induction false} StateIsHistory(events: seq<ClientEvent>)
    ensures After(events).Some? <==> Started(events)
    ensures After(events).Some? ==>
              var st := After(events).value;
              && Subscription(st.extranonce1, st.extranonce2Size) ==
                   (match LatestSubscription(events) case Some(s) => s case None => Subscription([], 0))
              && st.shareDifficulty == LatestDifficulty(events)
              && st.versionMask == LatestMask(events)
    ensures After(events).None? ==>
              LatestSubscription(events).None? && LatestDifficulty(events).None? && LatestMask(events).None?
  {
    if events != [] {
      StateIsHistory(events[..|events| - 1]);
      StartedStep(events);
    }
  }

  /**
   * A job is passed on exactly when the latest subscription of its connection gives 1 to 32
   * bytes of extranonce and the version leaves the rollable bits clear. Its template then
   * has that subscription's prefix and all extranonces of its width.
   */
  lemma {:induction false} TemplateCarriesSubscription(events: seq<ClientEvent>, job: JobNotification)
    ensures JobToTemplate(After(events), job).Some? <==>
              && LatestSubscription(events).Some? && 1 <= LatestSubscription(events).value.size <= 32
              && GeneralPurposeBits(job.version) == 0
    ensures JobToTemplate(After(events), job).Some? ==>
              var t, s := JobToTemplate(After(events), job).value, LatestSubscription(events).value;
              && t.merkleRoot.Computed?
              && t.merkleRoot.template.extranoncePrefix == s.extranonce1
              && t.merkleRoot.template.extranonceRange.Valid()
              && (forall e: Extranonce :: t.merkleRoot.template.extranonceRange.Contains(e) <==>
                  e.Valid() && e.width == s.size)
              && SchedulerState.WellFormedJob(t)
  {
    StateIsHistory(events);
  }

  /**
   * Its share target is that of the latest difficulty of the connection, and its rollable
   * bits those last authorised; difficulties and masks from before the first answer to the
   * handshake are lost, and the pool then gets shares of difficulty one.
   */
  lemma {:induction false} TemplateCarriesDifficulty(events: seq<ClientEvent>, job: JobNotification)
    requires JobToTemplate(After(events), job).Some?
    ensures var t := JobToTemplate(After(events), job).value;
            && t.shareTarget == (match LatestDifficulty(events)
                                 case Some(d) => d.target
                                 case None => Difficulties.TARGET_MAX)
            && t.version == VersionTemplate(job.version, match LatestMask(events)
                                                         case Some(m) => GeneralPurposeBits(m)
                                                         case None => 0)
  {
    StateIsHistory(events);
  }

  // ------------------------------------------------- a connection's jobs

  /** The notification can be worked on with what the connection has brought before it. */
  ghost predicate Workable(before: seq<ClientEvent>, job: JobNotification) {
    && LatestSubscription(before).Some? && 1 <= LatestSubscription(before).value.size <= 32
    && GeneralPurposeBits(job.version) == 0
  }

  /** The event hands on this notification, with the latest subscription, difficulty and mask before it. */
  ghost predicate HandsOn(event: SourceEvent, before: seq<ClientEvent>, job: JobNotification)
    requires Workable(before, job)
  {
    var s := LatestSubscription(before).value;
    && !event.ClearJobs? && (event.ReplaceJob? <==> job.cleanJobs)
    && event.job == JobTemplate(
         job.jobId, job.prevHash,
         VersionTemplate(job.version, match LatestMask(before) case Some(m) => GeneralPurposeBits(m) case None => 0),
         job.nbits,
         match LatestDifficulty(before) case Some(d) => d.target case None => Difficulties.TARGET_MAX,
         job.ntime,
         Computed(MerkleRootTemplate(job.coinbase1, s.extranonce1, ExtranonceRange(0, MaxCounter(s.size), s.size),
                                     job.coinbase2, job.merkleBranches)))
  }

  /** The `k`-th event passed on is the notification that arrived as `i`-th event. */
  ghost predicate IsOrigin(events: seq<ClientEvent>, i: nat, k: nat) {
    && i < |events| && events[i].NewJob? && Workable(events[..i], events[i].job)
    && k == |Emitted(events[..i])| < |Emitted(events)|
    && HandsOn(Emitted(events)[k], events[..i], events[i].job)
  }

  ghost predicate HasOrigin(events: seq<ClientEvent>, k: nat) {
    exists i: nat :: IsOrigin(events, i, k)
  }

  lemma {:induction false} PassedOnIs(before: seq<ClientEvent>, event: ClientEvent)
    ensures PassedOn(After(before), event) != [] <==> event.NewJob? && Workable(before, event.job)
    ensures PassedOn(After(before), event) != [] ==>
              |PassedOn(After(before), event)| == 1 && HandsOn(PassedOn(After(before), event)[0], before, event.job)
  {
    StateIsHistory(before);
  }

  lemma {:induction false} OriginStays(events: seq<ClientEvent>, i: nat, k: nat)
    requires events != [] && IsOrigin(events[..|events| - 1], i, k)
    ensures IsOrigin(events, i, k)
  {
    var front := events[..|events| - 1];
    assert front[..i] == events[..i];
    assert Emitted(front) <= Emitted(events);
  }

  lemma {:induction false} OriginLast(events: seq<ClientEvent>)
    requires events != []
    ensures var front, last := events[..|events| - 1], events[|events| - 1];
            && (last.NewJob? && Workable(front, last.job) ==> IsOrigin(events, |events| - 1, |Emitted(front)|))
            && (!(last.NewJob? && Workable(front, last.job)) ==> Emitted(events) == Emitted(front))
            && |Emitted(events)| <= |Emitted(front)| + 1
  {
    PassedOnIs(events[..|events| - 1], events[|events| - 1]);
  }

  /**
   * Over a whole connection the events passed on are, in order and one for one, the
   * notifications that could be worked on when they arrived, each with the subscription,
   * difficulty and mask in force at that moment.
   */
  lemma {:induction false} EmittedAreNotifications(events: seq<ClientEvent>)
    ensures forall k: nat :: k < |Emitted(events)| ==> HasOrigin(events, k)
    ensures forall i: nat :: i < |events| && events[i].NewJob? && Workable(events[..i], events[i].job) ==>
              IsOrigin(events, i, |Emitted(events[..i])|)
  {
    if events != [] {
      var front := events[..|events| - 1];
      EmittedAreNotifications(front);
      OriginLast(events);
      forall k: nat | k < |Emitted(events)| ensures HasOrigin(events, k) {
        if k < |Emitted(front)| {
          assert HasOrigin(front, k);
          var i: nat :| IsOrigin(front, i, k);
          OriginStays(events, i, k);
        } else {
          assert IsOrigin(events, |events| - 1, k);
        }
      }
      forall i: nat | i < |events| && events[i].NewJob? && Workable(events[..i], events[i].job)
        ensures IsOrigin(events, i, |Emitted(events[..i])|)
      {
        if i < |front| {
          assert front[..i] == events[..i];
          OriginStays(events, i, |Emitted(front[..i])|);
        }
      }
    }
  }

  // ---------------------------------------------------------- connections

  datatype ConnectOutcome = Shutdown | Disconnected | Fatal

  /**
   * One attempt: the events it brought, how it ended and after how many milliseconds; `hash`
   * jitters the wait after it.
   */
  datatype Connection = Connection(events: seq<ClientEvent>, outcome: ConnectOutcome, lasted: nat, hash: nat)

  const STABLE_CONNECTION_THRESHOLD: nat := 60_000
  const INITIAL_RECONNECT_DELAY: nat := 1000
  const MAX_RECONNECT_DELAY: nat := 60_000

  /** The attempts that are made: up to the first that is not a mere disconnection. */
  function Made(connections: seq<Connection>): seq<Connection> {
    if connections == [] then []
    else if connections[0].outcome != Disconnected then [connections[0]]
    else [connections[0]] + Made(connections[1..])
  }

  /** A message to the scheduler, and the number of the connection it belongs to. */
  datatype Entry = Entry(connection: nat, event: SourceEvent)

  function Tagged(connection: nat, events: seq<SourceEvent>): (log: seq<Entry>)
    ensures |log| == |events|
    ensures forall i :: 0 <= i < |log| ==> log[i] == Entry(connection, events[i])
  {
    seq(|events|, (i: nat) requires i < |events| => Entry(connection, events[i]))
  }

  function FromConnection(c: Connection): seq<SourceEvent> {
    Emitted(c.events) + if c.outcome == Disconnected then [SchedulerState.ClearJobs] else []
  }

  function Log(connections: seq<Connection>): seq<Entry> {
    if connections == [] then []
    else Log(connections[..|connections| - 1]) + Tagged(|connections| - 1,
                                                        FromConnection(connections[|connections| - 1]))
  }

  /** All that these attempts pass on. */
  function FromAll(connections: seq<Connection>): seq<SourceEvent> {
    if connections == [] then []
    else FromAll(connections[..|connections| - 1]) + FromConnection(connections[|connections| - 1])
  }

  /** How many of these events clear the jobs. */
  function Clears(events: seq<SourceEvent>): nat {
    if events == [] then 0
    else Clears(events[..|events| - 1]) + if events[|events| - 1].ClearJobs? then 1 else 0
  }

  lemma {:induction false} ClearsAppend(a: seq<SourceEvent>, b: seq<SourceEvent>)
    ensures Clears(a + b) == Clears(a) + Clears(b)
    decreases |b|
  {
    if b == [] {
      assert a + b == a;
    } else {
      ClearsAppend(a, b[..|b| - 1]);
      assert (a + b)[..|a + b| - 1] == a + b[..|b| - 1];
    }
  }

  lemma {:induction false} NoClears(events: seq<SourceEvent>)
    requires forall k :: 0 <= k < |events| ==> !events[k].ClearJobs?
    ensures Clears(events) == 0
  {
    if events != [] {
      NoClears(events[..|events| - 1]);
    }
  }

  /** How many attempts ended in a disconnection. */
  function Breaks(connections: seq<Connection>): nat {
    if connections == [] then 0
    else
      var last := connections[|connections| - 1];
      Breaks(connections[..|connections| - 1]) + if last.outcome == Disconnected then 1 else 0
  }

  /** The jobs are cleared once for every disconnection, and for nothing else; a disconnection ends on it. */
  lemma {:induction false} ClearedPerDisconnection(connections: seq<Connection>)
    ensures Clears(FromAll(connections)) == Breaks(connections)
    ensures connections != [] && connections[|connections| - 1].outcome == Disconnected ==>
              FromAll(connections) != [] && FromAll(connections)[|FromAll(connections)| - 1].ClearJobs?
  {
    if connections != [] {
      var front, last := connections[..|connections| - 1], connections[|connections| - 1];
      ClearedPerDisconnection(front);
      ClearsAppend(FromAll(front), FromConnection(last));
      ClearsOfConnection(last);
    }
  }

  lemma ClearsOfConnection(c: Connection)
    ensures Clears(FromConnection(c)) == if c.outcome == Disconnected then 1 else 0
  {
    var emitted, end := Emitted(c.events), if c.outcome == Disconnected then [SchedulerState.ClearJobs] else [];
    EmittedAreNotifications(c.events);
    forall k: nat | k < |emitted| ensures !emitted[k].ClearJobs? {
      assert HasOrigin(c.events, k);
    }
    NoClears(emitted);
    ClearsAppend(emitted, end);
    assert [SchedulerState.ClearJobs][..0] == [];
  }

  function Events(log: seq<Entry>): (events: seq<SourceEvent>)
    ensures |events| == |log|
    ensures forall i :: 0 <= i < |log| ==> events[i] == log[i].event
  {
    seq(|log|, (i: nat) requires i < |log| => log[i].event)
  }

  lemma {:induction false} LogIsAll(connections: seq<Connection>)
    ensures Events(Log(connections)) == FromAll(connections)
  {
    if connections != [] {
      LogIsAll(connections[..|connections| - 1]);
    }
  }

  /** How many attempts in a row, before the last one, broke before they were stable. */
  function Flaps(connections: seq<Connection>): nat
    requires connections != []
    decreases |connections|, 0
  {
    if connections[|connections| - 1].lasted >= STABLE_CONNECTION_THRESHOLD then 0
    else AttemptsAfter(connections[..|connections| - 1])
  }

  /** Delays drawn since the backoff was last reset. */
  function AttemptsAfter(connections: seq<Connection>): nat
    decreases |connections|, 1
  {
    if connections == [] then 0 else Flaps(connections) + 1
  }

  /** Attempt `k` lasted long enough to count as stable. */
  predicate Stable(connections: seq<Connection>, k: nat)
    requires k < |connections|
  {
    connections[k].lasted >= 60_000
  }

  /** The flaps are counted from the latest stable attempt, or from the first attempt if none was stable. */
  lemma {:induction false} FlapsCount(connections: seq<Connection>, k: nat)
    requires k < |connections| && forall i :: k < i < |connections| ==> !Stable(connections, i)
    ensures Stable(connections, k) || k == 0 ==> Flaps(connections) == |connections| - 1 - k
    decreases |connections|
  {
    var front := connections[..|connections| - 1];
    if k < |front| {
      assert !Stable(connections, |front|);
      forall i | k <= i < |front| ensures Stable(front, i) == Stable(connections, i) {
      }
      FlapsCount(front, k);
    }
  }

  /** The wait after the last of these attempts, before jitter. */
  function NominalWait(connections: seq<Connection>): nat
    requires connections != []
  {
    Nominal(INITIAL_RECONNECT_DELAY, MAX_RECONNECT_DELAY, Flaps(connections))
  }

  class StratumV1Source {
    var state: Option<ProtocolState>
    /** The events put on the channel to the scheduler. */
    var emitted: seq<SourceEvent>

    constructor ()
      ensures state == None && emitted == []
    {
      state := None;
      emitted := [];
    }

    method HandleClientEvent(event: ClientEvent)
      modifies this
      ensures state == NextState(old(state), event)
      ensures emitted == old(emitted) + PassedOn(old(state), event)
    {
      match event {
        case VersionRollingConfigured(authorizedMask) =>
          if state.Some? {
            state := Some(state.value.(versionMask := authorizedMask));
          } else {
            state := Some(ProtocolState([], 0, None, authorizedMask));
          }
        case Subscribed(extranonce1, extranonce2Size) =>
          if state.Some? {
            state := Some(state.value.(extranonce1 := extranonce1, extranonce2Size := extranonce2Size));
          } else {
            state := Some(ProtocolState(extranonce1, extranonce2Size, None, None));
          }
        case NewJob(job) =>
          var template := JobToTemplate(state, job);
          if template.None? {
            return;
          }
          var out := if job.cleanJobs then SchedulerState.ReplaceJob(template.value)
            else SchedulerState.UpdateJob(template.value);
          emitted := emitted + [out];
        case DifficultyChanged(diff) =>
          if state.Some? {
            state := Some(state.value.(shareDifficulty := Some(Difficulties.OfFloat(diff))));
          }
        case VersionMaskSet(mask) =>
          if state.Some? {
            state := Some(state.value.(versionMask := Some(mask)));
          }
        case Notice =>
      }
    }

    method ConnectAndRun(connection: Connection)
      requires state == None
      modifies this
      ensures state == After(connection.events)
      ensures emitted == old(emitted) + Emitted(connection.events)
    {
      var events := connection.events;
      for i := 0 to |events|
        invariant state == After(events[..i])
        invariant emitted == old(emitted) + Emitted(events[..i])
      {
        assert events[..i + 1][..i] == events[..i];
        HandleClientEvent(events[i]);
      }
      assert events[..|events|] == events;
    }

    /** The jobs and delays so far are those of the attempts `done`. */
    ghost predicate Kept(backoff: ExponentialBackoff, done: seq<Connection>, waits: seq<real>)
      reads this, backoff
    {
      && backoff.Valid() && backoff.initial == INITIAL_RECONNECT_DELAY && backoff.max == MAX_RECONNECT_DELAY
      && backoff.attempts == AttemptsAfter(done)
      && emitted == FromAll(done)
      && WaitsOk(done, waits)
    }

    /** One turn of the reconnection loop; a disconnection clears the jobs and draws a delay. */
    method Attempt(connection: Connection, backoff: ExponentialBackoff, ghost done: seq<Connection>, waits: seq<real>)
      returns (more: seq<real>)
      requires connection.hash <= HASH_MAX && Kept(backoff, done, waits)
      modifies this, backoff
      ensures emitted == FromAll(done + [connection])
      ensures if connection.outcome == Disconnected then Kept(backoff, done + [connection], more) else more == waits
    {
      AllSnoc(done, connection);
      state := None;
      ConnectAndRun(connection);
      if connection.outcome != Disconnected {
        return waits;
      }
      emitted := emitted + [SchedulerState.ClearJobs];
      if connection.lasted >= STABLE_CONNECTION_THRESHOLD {
        backoff.Reset();
      }
      var delay := backoff.NextDelay(connection.hash);
      more := waits + [delay];
      WaitsSnoc(done, waits, connection, delay);
    }

    /**
     * The reconnection loop over the attempts as they turn out; `waits` are the delays it
     * sleeps for, one after each of the attempts `done`.
     */
    method Run(connections: seq<Connection>) returns (waits: seq<real>, ghost done: seq<Connection>)
      requires emitted == [] && HashesOk(connections)
      modifies this
      ensures emitted == FromAll(Made(connections))
      ensures WaitsOk(done, waits) && done <= Made(connections) && |Made(connections)| <= |done| + 1
    {
      waits := [];
      done := [];
      var backoff := new ExponentialBackoff(INITIAL_RECONNECT_DELAY, MAX_RECONNECT_DELAY);
      var rest := connections;
      while rest != []
        invariant Made(connections) == done + Made(rest) && HashesOk(rest)
        invariant fresh(backoff) && Kept(backoff, done, waits)
        decreases |rest|
      {
        MadeTurn(Made(connections), done, rest);
        waits := Attempt(rest[0], backoff, done, waits);
        if rest[0].outcome != Disconnected {
          return;
        }
        done := done + [rest[0]];
        rest := rest[1..];
      }
      assert Made(connections) == done;
    }
  }

  predicate HashesOk(connections: seq<Connection>) {
    forall i :: 0 <= i < |connections| ==> connections[i].hash <= HASH_MAX
  }

  lemma MadeTurn(all: seq<Connection>, done: seq<Connection>, rest: seq<Connection>)
    requires rest != [] && all == done + Made(rest)
    ensures all == if rest[0].outcome == Disconnected then (done + [rest[0]]) + Made(rest[1..]) else done + [rest[0]]
  {
    Reassociate(done, rest[0], Made(rest[1..]));
  }

  lemma Reassociate<T>(a: seq<T>, x: T, b: seq<T>)
    ensures a + ([x] + b) == (a + [x]) + b
  {
  }

  /** A jittered delay is between half the nominal one and all of it. */
  predicate Within(delay: real, nominal: nat) {
    nominal as real / 2.0 <= delay <= nominal as real
  }

  /** One delay for each of these attempts, by the attempts that broke in a row before it. */
  predicate WaitsOk(connections: seq<Connection>, waits: seq<real>) {
    |waits| == |connections| &&
    (connections != [] ==>
       var n := |connections| - 1;
       Within(waits[n], NominalWait(connections)) && WaitsOk(connections[..n], waits[..n]))
  }

  lemma AllSnoc(done: seq<Connection>, c: Connection)
    ensures FromAll(done + [c]) == FromAll(done) + FromConnection(c)
  {
    assert (done + [c])[..|done|] == done;
  }

  lemma WaitsSnoc(done: seq<Connection>, waits: seq<real>, c: Connection, delay: real)
    requires WaitsOk(done, waits)
    requires var k := if c.lasted >= STABLE_CONNECTION_THRESHOLD then 0 else AttemptsAfter(done);
             Within(delay, Nominal(INITIAL_RECONNECT_DELAY, MAX_RECONNECT_DELAY, k))
    ensures WaitsOk(done + [c], waits + [delay])
    ensures AttemptsAfter(done + [c]) == 1 + if c.lasted >= STABLE_CONNECTION_THRESHOLD then 0 else AttemptsAfter(done)
  {
    assert (done + [c])[..|done|] == done;
    assert (waits + [delay])[..|waits|] == waits;
  }
}

/** The connections of a Stratum source as the scheduler sees them. */
module StratumEpochs {
  import opened Jobs
  import opened SchedulerState
  import opened SchedulerSafety
  import opened StratumSource

  /** Every attempt but the last ended in a disconnection. */
  predicate Chain(connections: seq<Connection>) {
    forall i :: 0 <= i < |connections| - 1 ==> connections[i].outcome == Disconnected
  }

  lemma {:induction false} MadeIsChain(connections: seq<Connection>)
    ensures Chain(Made(connections))
  {
    if connections != [] && connections[0].outcome == Disconnected {
      MadeIsChain(connections[1..]);
    }
  }

  /** Between a job of one connection and anything of a later one the source clears its jobs. */
  lemma {:induction false} ConnectionsSeparated(connections: seq<Connection>, i: nat, j: nat)
    requires Chain(connections)
    requires i <= j < |Log(connections)| && !Log(connections)[i].event.ClearJobs?
    ensures Log(connections)[i].connection <= Log(connections)[j].connection < |connections|
    ensures Log(connections)[i].connection < Log(connections)[j].connection ==>
              exists k :: i < k < j && Log(connections)[k].event.ClearJobs?
  {
    var n := |connections| - 1;
    var front, last := Log(connections[..n]), FromConnection(connections[n]);
    assert Log(connections) == front + Tagged(n, last);
    if j < |front| {
      ConnectionsSeparated(connections[..n], i, j);
      if front[i].connection < front[j].connection {
        var k :| i < k < j && front[k].event.ClearJobs?;
        assert Log(connections)[k].event.ClearJobs?;
      }
    } else if i < |front| {
      ConnectionsSeparated(connections[..n], i, |front| - 1);
      EndsCleared(connections[..n]);
      var k := |front| - 1;
      assert Log(connections)[k].event.ClearJobs?;
    }
  }

  lemma EndsCleared(connections: seq<Connection>)
    requires connections != [] && connections[|connections| - 1].outcome == Disconnected
    ensures Log(connections) != [] && Log(connections)[|Log(connections)| - 1].event.ClearJobs?
  {
    var c := connections[|connections| - 1];
    assert FromConnection(c)[|FromConnection(c)| - 1] == ClearJobs;
  }

  // ---------------------------------------------- the scheduler's transcript

  /** What the scheduler has taken from a source's channel. */
  function Heard(wire: seq<Message>): seq<SchedulerState.SourceEvent> {
    if wire == [] then []
    else Heard(wire[..|wire| - 1]) + match wire[|wire| - 1] case Received(e) => [e] case Sent(_) => []
  }

  lemma {:induction false} HeardPrefix(wire: seq<Message>, i: nat)
    requires i <= |wire|
    ensures Heard(wire[..i]) <= Heard(wire)
    ensures i < |wire| && wire[i].Received? ==>
              |Heard(wire[..i])| < |Heard(wire)| && Heard(wire)[|Heard(wire[..i])|] == wire[i].event
    decreases |wire|
  {
    if i < |wire| {
      var n := |wire| - 1;
      if i == n {
      } else {
        HeardPrefix(wire[..n], i);
        assert wire[..n][..i] == wire[..i];
      }
    } else {
      assert wire[..i] == wire;
    }
  }

  /** Every event heard stands somewhere in the transcript, between those heard around it. */
  lemma {:induction false} WhereHeard(wire: seq<Message>, k: nat) returns (i: nat)
    requires k < |Heard(wire)|
    ensures i < |wire| && wire[i].Received? && wire[i].event == Heard(wire)[k] && |Heard(wire[..i])| == k
    decreases |wire|
  {
    var n := |wire| - 1;
    if k < |Heard(wire[..n])| {
      i := WhereHeard(wire[..n], k);
      assert wire[..n][..i] == wire[..i];
    } else {
      i := n;
    }
  }

  lemma HeardGrows(wire: seq<Message>, i: nat, j: nat)
    requires i <= j <= |wire|
    ensures |Heard(wire[..i])| <= |Heard(wire[..j])|
  {
    HeardPrefix(wire[..j], i);
    assert wire[..j][..i] == wire[..i];
  }

  lemma HeardOrder(wire: seq<Message>, i: nat, j: nat)
    requires i <= |wire| && j <= |wire| && |Heard(wire[..i])| < |Heard(wire[..j])|
    ensures i < j
  {
    if j <= i {
      HeardGrows(wire, j, i);
    }
  }

  /** What was heard is a first part of what these connections passed on. */
  ghost predicate HeardFrom(wire: seq<Message>, connections: seq<Connection>) {
    Heard(wire) <= FromAll(connections)
  }

  /** The connection a received event belongs to, when what was heard is a part of the source's log. */
  ghost function ConnectionOf(connections: seq<Connection>, wire: seq<Message>, i: nat): nat
    requires i < |wire| && wire[i].Received? && HeardFrom(wire, connections)
  {
    HeardPrefix(wire, i);
    LogIsAll(connections);
    Log(connections)[|Heard(wire[..i])|].connection
  }

  /** Two jobs live at a moment were delivered by one connection. */
  lemma LiveFromOneConnection(connections: seq<Connection>, wire: seq<Message>, a: nat, jobA: JobTemplate, b: nat,
                              jobB: JobTemplate)
    requires Chain(connections) && HeardFrom(wire, connections)
    requires DeliveredAt(wire, a, |wire|, jobA) && DeliveredAt(wire, b, |wire|, jobB) && a <= b
    ensures ConnectionOf(connections, wire, a) == ConnectionOf(connections, wire, b)
  {
    var log := Log(connections);
    LogIsAll(connections);
    HeardPrefix(wire, a);
    HeardPrefix(wire, b);
    HeardPrefix(wire[..b], a);
    assert wire[..b][..a] == wire[..a];
    var i, j := |Heard(wire[..a])|, |Heard(wire[..b])|;
    assert log[i].event == wire[a].event && log[j].event == wire[b].event;
    ConnectionsSeparated(connections, i, j);
    if log[i].connection < log[j].connection {
      var k :| i < k < j && log[k].event.ClearJobs?;
      var m := WhereHeard(wire, k);
      HeardOrder(wire, a, m);
      assert Invalidates(wire[m]);
      assert false;
    }
  }

  /** `job` was delivered by connection `c` and not invalidated since. */
  ghost predicate DeliveredBy(connections: seq<Connection>, wire: seq<Message>, c: nat, job: JobTemplate)
    requires HeardFrom(wire, connections)
  {
    exists i: nat :: DeliveredAt(wire, i, |wire|, job) && ConnectionOf(connections, wire, i) == c
  }

  /** All tasks of the source are for jobs of connection `c`. */
  ghost predicate TasksFrom(s: State, source: SourceId, connections: seq<Connection>, c: nat)
    requires source in s.sources && HeardFrom(s.sources[source].wire, connections)
  {
    forall id :: id in s.work.tasks && s.work.tasks[id].source == source ==>
      DeliveredBy(connections, s.sources[source].wire, c, s.work.tasks[id].template)
  }

  /** The source's tasks are for one of its connections, when the scheduler heard what the source sent. */
  ghost predicate OneConnectionAtATime(s: State, source: SourceId, connections: seq<Connection>) {
    source in s.sources && HeardFrom(s.sources[source].wire, connections) ==>
      exists c: nat :: TasksFrom(s, source, connections, c)
  }

  /**
   * In every state of every run, all tasks the scheduler holds for a Stratum source are for
   * jobs of one connection of that source.
   */
  lemma TasksOfOneConnection(events: seq<Event>, source: SourceId, attempts: seq<Connection>)
    ensures OneConnectionAtATime(Run(Initial, events), source, Made(attempts))
  {
    RunKeeps(events);
    MadeIsChain(attempts);
    OneConnection(Run(Initial, events), source, Made(attempts));
  }

  lemma OneConnection(s: State, source: SourceId, connections: seq<Connection>)
    requires Inv(s) && Chain(connections)
    ensures OneConnectionAtATime(s, source, connections)
  {
    if source in s.sources && HeardFrom(s.sources[source].wire, connections) {
      if first :| first in s.work.tasks && s.work.tasks[first].source == source {
        FirstDecides(s, source, connections, first);
      } else {
        assert TasksFrom(s, source, connections, 0);
      }
    }
  }

  lemma FirstDecides(s: State, source: SourceId, connections: seq<Connection>, first: TaskId)
    requires Inv(s) && Chain(connections)
    requires source in s.sources && HeardFrom(s.sources[source].wire, connections)
    requires first in s.work.tasks && s.work.tasks[first].source == source
    ensures exists c: nat :: TasksFrom(s, source, connections, c)
  {
    var wire, job := s.sources[source].wire, s.work.tasks[first].template;
    assert TaskOk(s.sources, s.crew.threads.Keys, s.work.tasks[first]);
    var i: nat :| DeliveredAt(wire, i, |wire|, job);
    var c := ConnectionOf(connections, wire, i);
    forall id | id in s.work.tasks && s.work.tasks[id].source == source
      ensures DeliveredBy(connections, wire, c, s.work.tasks[id].template)
    {
      assert TaskOk(s.sources, s.crew.threads.Keys, s.work.tasks[id]);
      SameConnection(connections, wire, i, job, s.work.tasks[id].template);
    }
    assert TasksFrom(s, source, connections, c);
  }

  lemma SameConnection(connections: seq<Connection>, wire: seq<Message>, i: nat, job: JobTemplate, other: JobTemplate)
    requires Chain(connections) && HeardFrom(wire, connections)
    requires DeliveredAt(wire, i, |wire|, job) && Live(wire, |wire|, other)
    ensures DeliveredBy(connections, wire, ConnectionOf(connections, wire, i), other)
  {
    var j: nat :| DeliveredAt(wire, j, |wire|, other);
    if i <= j {
      LiveFromOneConnection(connections, wire, i, job, j, other);
    } else {
      LiveFromOneConnection(connections, wire, j, other, i, job);
    }
  }
}
