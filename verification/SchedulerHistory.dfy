/** The scheduler's state told from the events of its run: what was reported, when it was marked, which shares came. */
module SchedulerHistory {
  import opened Options
  import opened Extranonces
  import opened Jobs
  import opened SchedulerState
  import opened SchedulerSafety
  import opened SchedulerStartup
  import opened SchedulerRates
  import opened SchedulerRuns

  /** The last event of the run is an arm that was ready when the loop came to it. */
  ghost predicate TakesArm(before: seq<Event>, event: Event) {
    event.Take? && !Run(Initial, before).crashed && Ready(Run(Initial, before), event.arm)
  }

  // --------------------------------------------------------------- reports

  /** The latest rate a thread reported. */
  ghost function LastReport(events: seq<Event>, id: ThreadId): Option<u64> {
    if events == [] then None
    else
      var before, event := events[..|events| - 1], events[|events| - 1];
      if TakesArm(before, event) && event.arm.ExpectedHashRate? && event.arm.thread == id then Some(event.arm.rate)
      else LastReport(before, id)
  }

  /** What is on record for the present threads is what they last reported; ids to come have reported nothing. */
  ghost predicate ReportsOk(crew: Crew, events: seq<Event>) {
    && (forall id :: id in crew.threads ==> crew.threads[id].expected == LastReport(events, id))
    && forall id: nat :: id >= |crew.registry| ==> LastReport(events, id) == None
  }

  lemma LastReportSnoc(before: seq<Event>, event: Event, id: ThreadId)
    ensures LastReport(before + [event], id) ==
              if TakesArm(before, event) && event.arm.ExpectedHashRate? && event.arm.thread == id
              then Some(event.arm.rate)
              else LastReport(before, id)
  {
    assert (before + [event])[..|before|] == before;
  }

  lemma StepReports(before: seq<Event>, s: State, event: Event)
    requires Leads(before, s) && CrewOk(s.crew) && ReportsOk(s.crew, before)
    ensures ReportsOk(Step(s, event).crew, before + [event])
  {
    StepEffects(s, event);
    var s' := Step(s, event);
    forall id: nat ensures id in s'.crew.threads ==> s'.crew.threads[id].expected == LastReport(before + [event], id)
      ensures id >= |s'.crew.registry| ==> LastReport(before + [event], id) == None
    {
      LastReportSnoc(before, event, id);
    }
  }

  lemma {:induction false} RateIsReported(events: seq<Event>)
    ensures ReportsOk(Run(Initial, events).crew, events)
  {
    if events != [] {
      var before, event := events[..|events| - 1], events[|events| - 1];
      assert events == before + [event];
      RateIsReported(before);
      RunKeeps(before);
      StepReports(before, Run(Initial, before), event);
    }
  }

  /** The sum of what the present ones of the first `n` threads last reported. */
  ghost function TotalReported(events: seq<Event>, present: set<ThreadId>, n: nat): nat {
    if n == 0 then 0
    else
      var report := LastReport(events, n - 1);
      TotalReported(events, present, n - 1) + if n - 1 in present && report.Some? then report.value else 0
  }

  lemma {:induction false} RatesReported(events: seq<Event>, threads: map<ThreadId, ThreadEntry>, n: nat)
    requires forall id :: id in threads ==> threads[id].expected == LastReport(events, id)
    ensures RateBelow(threads, n) == TotalReported(events, threads.Keys, n)
  {
    if n > 0 {
      RatesReported(events, threads, n - 1);
    }
  }

  /**
   * In every reachable state with the gate open, a source that listens was last told the sum
   * of what the present threads last reported, modulo 2^64.
   */
  lemma ToldIsReported(events: seq<Event>, source: SourceId)
    ensures var s := Run(Initial, events);
            s.startup.gate.open && source in s.sources && s.sources[source].listening ==>
              LastTold(s.sources[source].wire) ==
              Some(TotalReported(events, s.crew.threads.Keys, |s.crew.registry|) % 0x1_0000_0000_0000_0000)
  {
    BroadcastFreshness(events);
    RateIsReported(events);
    RatesReported(events, Run(Initial, events).crew.threads, |Run(Initial, events).crew.registry|);
  }

  // -------------------------------------------------------------- deadline

  /** The milliseconds that have passed. */
  ghost function Clock(events: seq<Event>): nat {
    if events == [] then 0
    else Clock(events[..|events| - 1]) + if events[|events| - 1].TimePasses? then events[|events| - 1].ms else 0
  }

  /** When the latest marker was taken. */
  ghost function MarkedAt(events: seq<Event>): Option<nat> {
    if events == [] then None
    else
      var before, event := events[..|events| - 1], events[|events| - 1];
      if event == Take(Registration(InitialEnumerationComplete)) then Some(Clock(before)) else MarkedAt(before)
  }

  /** Ten seconds after the marker. */
  ghost function AfterMark(markedAt: Option<nat>): Option<nat> {
    if markedAt.Some? then Some(markedAt.value + 10_000) else None
  }

  /** The scheduler's clock and deadline, while it runs and the gate holds, are those of the history. */
  ghost predicate DeadlineOk(s: State, events: seq<Event>) {
    !s.crashed ==>
      && s.now == Clock(events)
      && (!s.startup.gate.open ==> s.startup.deadline == AfterMark(MarkedAt(events)))
  }

  lemma {:induction false} DeadlineIsMarked(events: seq<Event>)
    ensures DeadlineOk(Run(Initial, events), events)
  {
    if events != [] {
      var before, event := events[..|events| - 1], events[|events| - 1];
      assert events == before + [event];
      DeadlineIsMarked(before);
      RunSnoc(before, event);
      DeadlineSnoc(before, Run(Initial, before), event);
    }
  }

  lemma DeadlineSnoc(before: seq<Event>, s: State, event: Event)
    requires DeadlineOk(s, before)
    ensures DeadlineOk(Step(s, event), before + [event])
  {
    assert (before + [event])[..|before|] == before;
    StepClock(s, event);
    StepDeadline(s, event);
  }

  /** While the gate holds only a marker sets the deadline. */
  lemma StepDeadline(s: State, event: Event)
    ensures var s' := Step(s, event);
            !s'.crashed && !s'.startup.gate.open ==>
              && !s.crashed && !s.startup.gate.open
              && s'.startup.deadline == if event == Take(Registration(InitialEnumerationComplete))
                                        then Some(s.now + 10_000)
                                        else s.startup.deadline
  {
    StepEffects(s, event);
  }

  lemma StepClock(s: State, event: Event)
    ensures !s.crashed ==> Step(s, event).now == s.now + if event.TimePasses? then event.ms else 0
  {
    if event.Take? && Ready(s, event.arm) {
      ArmClock(s, event.arm);
    }
  }

  lemma ArmClock(s: State, arm: Arm)
    requires Ready(s, arm)
    ensures Handle(s, arm).now == s.now
  {
  }

  /**
   * No thread can hold the gate for more than ten seconds: from then on after the latest
   * marker the fallback is ready, and taking it opens the gate.
   */
  lemma GateOpensInTime(events: seq<Event>)
    ensures var s, at := Run(Initial, events), MarkedAt(events);
            !s.crashed && !s.startup.gate.open && at.Some? ==>
              && (Ready(s, GateTimeout) <==> Clock(events) >= at.value + 10_000)
              && (Ready(s, GateTimeout) ==> Step(s, Take(GateTimeout)).startup.gate.open)
    ensures var s, at := Run(Initial, events), MarkedAt(events);
            !s.crashed && !s.startup.gate.open && at.None? ==> !Ready(s, GateTimeout)
  {
    DeadlineIsMarked(events);
    var s := Run(Initial, events);
    if !s.crashed && Ready(s, GateTimeout) {
      StepEffects(s, Take(GateTimeout));
    }
  }

  // ---------------------------------------------------------------- shares

  /** The shares that arrived on a task's channel while there was one. */
  ghost function Arrived(events: seq<Event>, id: TaskId): seq<Share> {
    if events == [] then []
    else
      var before, event := events[..|events| - 1], events[|events| - 1];
      var s := Run(Initial, before);
      Arrived(before, id) +
        if event.ShareSent? && event.task == id && !s.crashed && id in s.work.channels then [event.share] else []
  }

  /** The shares the scheduler took from it. */
  ghost function TakenShares(events: seq<Event>, id: TaskId): seq<Share> {
    if events == [] then []
    else
      var before, event := events[..|events| - 1], events[|events| - 1];
      TakenShares(before, id) +
        if TakesArm(before, event) && event.arm == ShareReady(id)
        then [Run(Initial, before).work.channels[id][0]]
        else []
  }

  /** What a step does to a channel: it goes, or it is as before but for the share that came or was taken. */
  ghost predicate ChannelFollows(s: State, event: Event, s': State, id: TaskId) {
    && s.work.nextTask <= s'.work.nextTask
    && (id in s'.work.channels ==>
          if id in s.work.channels then
            if event == Take(ShareReady(id)) && s.work.channels[id] != [] then
              s'.work.channels[id] == s.work.channels[id][1..]
            else if event.ShareSent? && event.task == id then
              s'.work.channels[id] == s.work.channels[id] + [event.share]
            else s'.work.channels[id] == s.work.channels[id]
          else id >= s.work.nextTask && s'.work.channels[id] == [])
  }

  /** Channels made by offers are empty and new. */
  ghost predicate OnlyNewChannels(w: Work, w': Work) {
    && w.nextTask <= w'.nextTask
    && forall id :: id in w'.channels ==>
         if id < w.nextTask then id in w.channels && w'.channels[id] == w.channels[id]
         else w'.channels[id] == []
  }

  lemma {:induction false} OfferAllChannels(w: Work, mode: AssignMode, source: SourceId, job: JobTemplate,
                                            ids: seq<ThreadId>, ranges: seq<ExtranonceRange>, refused: set<ThreadId>)
    requires |ids| == |ranges| && forall id :: id in w.channels ==> id < w.nextTask
    ensures OnlyNewChannels(w, OfferAll(w, mode, source, job, ids, ranges, refused))
    decreases |ids|
  {
    if ids != [] {
      var w1 := Offer(w, mode, source, job, ids[0], ranges[0], ids[0] !in refused);
      OfferAllChannels(w1, mode, source, job, ids[1..], ranges[1..], refused);
    }
  }

  lemma {:induction false} OfferCachedChannels(w: Work, sources: map<SourceId, SourceEntry>, thread: ThreadId,
                                               order: seq<SourceId>, refused: set<SourceId>)
    requires forall id :: id in w.channels ==> id < w.nextTask
    ensures OnlyNewChannels(w, OfferCached(w, sources, thread, order, refused))
    decreases |order|
  {
    if order != [] {
      var source := order[0];
      var w1 := w;
      if source in sources && sources[source].lastJob.Some? && sources[source].lastJob.value.merkleRoot.Computed? {
        var job := sources[source].lastJob.value;
        w1 := Offer(w, Update, source, job, thread, job.merkleRoot.template.extranonceRange, source !in refused);
      }
      OfferCachedChannels(w1, sources, thread, order[1..], refused);
    }
  }

  lemma AssignChannels(s: State, mode: AssignMode, source: SourceId, job: JobTemplate, order: seq<ThreadId>,
                       refused: set<ThreadId>)
    requires Enumerates(order, s.crew.threads.Keys) && WellFormedJob(job)
    requires forall id :: id in s.work.channels ==> id < s.work.nextTask
    ensures OnlyNewChannels(s.work, AssignJob(s, mode, source, job, order, refused).work)
  {
    if job.merkleRoot.Computed? && s.crew.threads != map[] && !TooHard(s, source, job) {
      var w := if mode == Replace then RemoveTasksWhere(s.work, OfSource(source)) else s.work;
      var ids := Eligible(s.crew.threads, order);
      if ids != [] {
        match SplitParts(job.merkleRoot.template.extranonceRange, |ids|) {
          case None =>
          case Some(ranges) => OfferAllChannels(w, mode, source, job, ids, ranges, refused);
        }
      }
    }
  }

  lemma ArmChannels(s: State, arm: Arm)
    requires Inv(s) && Ready(s, arm) && !arm.ShareReady?
    ensures OnlyNewChannels(s.work, Handle(s, arm).work)
  {
    match arm {
      case FromSource(source, event, order, refused) =>
        if !event.ClearJobs? {
          AssignChannels(Deliver(s, source, event), ModeOf(event), source, event.job, order, refused);
        }
      case ExpectedHashRate(thread, rate, order, refused) =>
        OfferCachedChannels(s.work, s.sources, thread, order, refused);
      case _ =>
    }
  }

  lemma SettleChannels(s: State)
    ensures var s' := Settle(s);
            && s'.work.nextTask == s.work.nextTask
            && forall id :: id in s'.work.channels ==>
                 id in s.work.channels && s'.work.channels[id] == s.work.channels[id]
  {
  }

  lemma StepChannels(s: State, event: Event, id: TaskId)
    requires Inv(s) && !s.crashed
    ensures ChannelFollows(s, event, Step(s, event), id)
  {
    if event.Take? && Ready(s, event.arm) {
      if !event.arm.ShareReady? {
        ArmChannels(s, event.arm);
      }
      SettleChannels(Handle(s, event.arm));
    }
  }

  /** The channel's history agrees with what it holds. */
  ghost predicate ChannelOk(w: Work, events: seq<Event>, id: TaskId) {
    && TakenShares(events, id) <= Arrived(events, id)
    && (id in w.channels ==> Arrived(events, id) == TakenShares(events, id) + w.channels[id])
    && (id >= w.nextTask ==> Arrived(events, id) == [])
  }

  lemma ChannelSnoc(before: seq<Event>, s: State, event: Event, id: TaskId)
    requires Leads(before, s) && Inv(s) && ChannelOk(s.work, before, id)
    ensures ChannelOk(Step(s, event).work, before + [event], id)
  {
    HistorySnoc(before, s, event, id);
    if s.crashed {
      SameHistory(s.work, id, before, before + [event]);
    } else {
      StepChannels(s, event, id);
      ChannelAdvances(s, event, Step(s, event), id, before, before + [event]);
    }
  }

  lemma SameHistory(w: Work, id: TaskId, before: seq<Event>, after: seq<Event>)
    requires ChannelOk(w, before, id)
    requires Arrived(after, id) == Arrived(before, id) && TakenShares(after, id) == TakenShares(before, id)
    ensures ChannelOk(w, after, id)
  {
  }

  lemma HistorySnoc(before: seq<Event>, s: State, event: Event, id: TaskId)
    requires Leads(before, s)
    ensures Arrived(before + [event], id) == Arrived(before, id) +
              if !s.crashed && event.ShareSent? && event.task == id && id in s.work.channels then [event.share] else []
    ensures TakenShares(before + [event], id) == TakenShares(before, id) +
              if !s.crashed && event == Take(ShareReady(id)) && Ready(s, ShareReady(id))
              then [s.work.channels[id][0]]
              else []
  {
    assert (before + [event])[..|before|] == before;
  }

  lemma ChannelAdvances(s: State, event: Event, s': State, id: TaskId, before: seq<Event>, after: seq<Event>)
    requires ChannelOk(s.work, before, id) && ChannelFollows(s, event, s', id)
    requires id in s.work.channels ==> id < s.work.nextTask
    requires Arrived(after, id) == Arrived(before, id) +
               if event.ShareSent? && event.task == id && id in s.work.channels then [event.share] else []
    requires TakenShares(after, id) == TakenShares(before, id) +
               if event == Take(ShareReady(id)) && Ready(s, ShareReady(id)) then [s.work.channels[id][0]] else []
    ensures ChannelOk(s'.work, after, id)
  {
    if id in s.work.channels {
      if event == Take(ShareReady(id)) && s.work.channels[id] != [] {
        OneTaken(Arrived(before, id), TakenShares(before, id), s.work.channels[id]);
      } else if event.ShareSent? && event.task == id {
        OneArrived(Arrived(before, id), TakenShares(before, id), s.work.channels[id], event.share);
      }
    }
  }

  lemma OneTaken(arrived: seq<Share>, taken: seq<Share>, queue: seq<Share>)
    requires arrived == taken + queue && queue != []
    ensures arrived == taken + [queue[0]] + queue[1..] && taken + [queue[0]] <= arrived
  {
  }

  lemma OneArrived(arrived: seq<Share>, taken: seq<Share>, queue: seq<Share>, share: Share)
    requires arrived == taken + queue
    ensures arrived + [share] == taken + (queue + [share]) && taken <= arrived + [share]
  {
  }

  /**
   * Over any run, the shares taken from a task's channel are the first that arrived on it, each
   * once and in order, and those still waiting are the others.
   */
  lemma {:induction false} SharesOnceInOrder(events: seq<Event>, id: TaskId)
    ensures ChannelOk(Run(Initial, events).work, events, id)
  {
    if events != [] {
      var before, event := events[..|events| - 1], events[|events| - 1];
      assert events == before + [event];
      SharesOnceInOrder(before, id);
      RunKeeps(before);
      RunSnoc(before, event);
      ChannelSnoc(before, Run(Initial, before), event, id);
    }
  }
}
