/** What each source was last told about the hashrate, over every run. */
module SchedulerRates {
  import opened Options
  import opened Extranonces
  import opened Jobs
  import opened SchedulerState
  import opened SchedulerSafety

  /** The rate in the last UpdateHashRate a source was sent. */
  ghost function LastTold(wire: seq<Message>): Option<nat> {
    if wire == [] then None
    else match wire[|wire| - 1]
      case Sent(UpdateHashRate(rate)) => Some(rate)
      case _ => LastTold(wire[..|wire| - 1])
  }

  ghost predicate AllTold(sources: map<SourceId, SourceEntry>, rate: nat) {
    forall id :: id in sources && sources[id].listening ==> LastTold(sources[id].wire) == Some(rate)
  }

  /** While the gate is open every listening source knows the current aggregate. */
  ghost predicate Fresh(s: State) {
    s.startup.gate.open ==> AllTold(s.sources, ExpectedHashrate(s.crew))
  }

  lemma TellAllTells(sources: map<SourceId, SourceEntry>, rate: nat)
    ensures AllTold(TellAll(sources, rate), rate)
  {
    forall id | id in sources && sources[id].listening
      ensures LastTold(TellAll(sources, rate)[id].wire) == Some(rate)
    {
      var wire := sources[id].wire;
      assert (wire + [Sent(UpdateHashRate(rate))])[|wire|] == Sent(UpdateHashRate(rate));
    }
  }

  /** Any other message leaves what a source was last told unchanged. */
  lemma OtherMessage(wire: seq<Message>, m: Message)
    requires !(m.Sent? && m.command.UpdateHashRate?)
    ensures LastTold(wire + [m]) == LastTold(wire)
  {
    assert (wire + [m])[..|wire|] == wire;
  }

  lemma {:induction false} RateFrame(a: map<ThreadId, ThreadEntry>, b: map<ThreadId, ThreadEntry>, n: nat)
    requires forall id: nat :: id < n ==> RateOf(a, id) == RateOf(b, id)
    ensures RateBelow(a, n) == RateBelow(b, n)
  {
    if n > 0 {
      RateFrame(a, b, n - 1);
    }
  }

  /** A thread that registers does not change the aggregate before it reports. */
  lemma EnlistRate(crew: Crew, token: nat)
    requires CrewOk(crew)
    ensures ExpectedHashrate(Enlist(crew, token)) == ExpectedHashrate(crew)
  {
    RateFrame(crew.threads, Enlist(crew, token).threads, |crew.registry|);
  }

  lemma SourceEventFresh(s: State, arm: Arm)
    requires Fresh(s) && Ready(s, arm) && arm.FromSource?
    ensures Fresh(Handle(s, arm))
  {
    var s' := Handle(s, arm);
    SourcesAfterIs(s, arm.source, arm.event);
    assert s'.sources == SourcesAfter(s, arm.source, arm.event);
    assert s'.startup == s.startup && s'.crew == s.crew;
    if s.startup.gate.open {
      HeardKeepsTold(s, arm.source, arm.event);
    }
  }

  lemma HeardKeepsTold(s: State, source: SourceId, event: SourceEvent)
    requires source in s.sources && AllTold(s.sources, ExpectedHashrate(s.crew))
    ensures AllTold(SourcesAfter(s, source, event), ExpectedHashrate(s.crew))
  {
    OtherMessage(s.sources[source].wire, Received(event));
  }

  lemma HandleFresh(s: State, arm: Arm)
    requires Inv(s) && Fresh(s) && Ready(s, arm)
    ensures Fresh(Handle(s, arm))
  {
    var s' := Handle(s, arm);
    match arm {
      case SourceRegistered =>
        TellAllTells(s.sources[s.nextSource := SourceEntry(None, true, [])], ExpectedHashrate(s.crew));
      case FromSource(_, _, _, _) => SourceEventFresh(s, arm);
      case ShareReady(task) =>
        if s'.sources != s.sources {
          var entry := s.work.tasks[task];
          var share := s.work.channels[task][0];
          OtherMessage(s.sources[entry.source].wire,
                       Sent(SubmitShare(SourceShare(entry.template.id, share.nonce, share.ntime, share.version,
                                                    share.extranonce))));
        }
      case ExpectedHashRate(thread, rate, _, _) =>
        TellAllTells(s.sources, ExpectedHashrate(Declare(s.crew, thread, rate)));
      case Registration(Thread(token)) => EnlistRate(s.crew, token);
      case Registration(InitialEnumerationComplete) => TellAllTells(s.sources, ExpectedHashrate(s.crew));
      case GateTimeout => TellAllTells(s.sources, ExpectedHashrate(s.crew));
      case Housekeeping =>
    }
  }

  lemma StepFresh(s: State, event: Event)
    requires Inv(s) && Fresh(s)
    ensures Fresh(Step(s, event))
  {
    if event.Take? {
      if Ready(s, event.arm) {
        HandleFresh(s, event.arm);
        var s1 := Handle(s, event.arm);
        TellAllTells(s1.sources, ExpectedHashrate(Muster(s1.crew)));
      }
    }
  }

  /**
   * In every reachable state with the gate open, the last rate sent to each source that
   * still listens is the aggregate of the present threads' declared rates.
   */
  lemma {:induction false} BroadcastFreshness(events: seq<Event>)
    ensures Fresh(Run(Initial, events))
  {
    if events != [] {
      var before := events[..|events| - 1];
      BroadcastFreshness(before);
      RunKeeps(before);
      StepFresh(Run(Initial, before), events[|events| - 1]);
    }
  }

  /** The sum over a set of threads, taken in any order. */
  ghost function RateSum(threads: map<ThreadId, ThreadEntry>): nat
    decreases |threads|
  {
    if threads == map[] then 0
    else var id :| id in threads; RateOf(threads, id) + RateSum(threads - {id})
  }

  lemma {:induction false} RateWithout(threads: map<ThreadId, ThreadEntry>, id: ThreadId, n: nat)
    requires id in threads
    ensures RateBelow(threads, n) == RateBelow(threads - {id}, n) + if id < n then RateOf(threads, id) else 0
  {
    if n > 0 {
      RateWithout(threads, id, n - 1);
    }
  }

  /** The aggregate is the sum over the present threads, and exact when it fits in 64 bits. */
  lemma {:induction false} AggregateIsSum(threads: map<ThreadId, ThreadEntry>, n: nat)
    requires forall id :: id in threads ==> id < n
    ensures RateBelow(threads, n) == RateSum(threads)
    decreases |threads|
  {
    if threads == map[] {
      NoRate(n);
    } else {
      var id: ThreadId :| id in threads && RateSum(threads) == RateOf(threads, id) + RateSum(threads - {id});
      RateWithout(threads, id, n);
      AggregateIsSum(threads - {id}, n);
    }
  }

  lemma {:induction false} NoRate(n: nat)
    ensures RateBelow(map[], n) == 0
  {
    if n > 0 {
      NoRate(n - 1);
    }
  }

  lemma AggregateExact(crew: Crew)
    requires CrewOk(crew)
    ensures ExpectedHashrate(crew) == RateSum(crew.threads) % U64_SIZE
    ensures RateSum(crew.threads) < U64_SIZE <==> ExpectedHashrate(crew) == RateSum(crew.threads)
  {
    AggregateIsSum(crew.threads, |crew.registry|);
  }
}
