/**
 * The scheduler in its own form: fields updated in place by the handlers of its event
 * loop. Every handler is proved against the transition that describes it.
 */
module Scheduler {
  import opened Options
  import opened Extranonces
  import opened Jobs
  import opened SchedulerState
  import Rates = SchedulerRates
  import SchedulerStartup
  import Difficulties

  class StartupGate {
    var registered: nat
    var reported: nat
    var enumerationComplete: bool
    var open: bool

    ghost function Value(): Gate
      reads this
    {
      Gate(registered, reported, enumerationComplete, open)
    }

    constructor ()
      ensures Value() == Gate(0, 0, false, false)
    {
      registered, reported, enumerationComplete, open := 0, 0, false, false;
    }

    method RecordRegistered()
      modifies this
      ensures Value() == old(Value()).Registered()
    {
      if !open {
        registered := registered + 1;
      }
    }

    method RecordReported()
      modifies this
      ensures Value() == old(Value()).Reported()
    {
      if !open {
        reported := reported + 1;
        TryOpen();
      }
    }

    method RecordEnumerationComplete()
      modifies this
      ensures Value() == old(Value()).EnumerationComplete()
    {
      if !open {
        enumerationComplete := true;
        TryOpen();
      }
    }

    method RecordTimeout()
      modifies this
      ensures Value() == old(Value()).Timeout()
    {
      open := true;
    }

    method TryOpen()
      modifies this
      ensures Value() == old(Value()).TryOpen()
    {
      if enumerationComplete && reported >= registered {
        open := true;
      }
    }
  }

  class Scheduler {
    var sources: map<SourceId, SourceEntry>
    var threads: map<ThreadId, ThreadEntry>
    var tasks: map<TaskId, TaskEntry>
    var lastThreadCount: nat
    const startupGate: StartupGate

    // Keys never handed out yet: slot map keys are versioned, so none comes twice.
    var nextSource: SourceId
    var nextThread: ThreadId
    var nextTask: TaskId

    // Locals of the event loop.
    var shareChannels: map<TaskId, seq<Share>>
    var threadEvents: set<ThreadId>
    var gateDeadline: Option<nat>
    var clock: nat
    var panicked: bool

    // What has happened so far.
    ghost var registry: seq<nat>
    ghost var reporters: set<ThreadId>
    ghost var registrations: seq<ThreadRegistration>
    ghost var handoffs: seq<Handoff>
    ghost var timedOut: bool

    ghost predicate Valid()
      reads this
    {
      nextThread == |registry| && forall id :: id in threads ==> id < nextThread
    }

    ghost function Books(): Work
      reads this
    {
      Work(tasks, shareChannels, nextTask, handoffs)
    }

    ghost function TheCrew(): Crew
      reads this
    {
      Crew(threads, threadEvents, lastThreadCount, registry, reporters)
    }

    ghost function TheStartup(): Startup
      reads this, startupGate
    {
      Startup(startupGate.Value(), gateDeadline, registrations, timedOut)
    }

    ghost function Model(): State
      reads this, startupGate
    {
      State(sources, nextSource, Books(), TheCrew(), TheStartup(), clock, panicked)
    }

    constructor ()
      ensures Valid() && Model() == Initial && fresh(startupGate)
    {
      sources, threads, tasks, lastThreadCount := map[], map[], map[], 0;
      nextSource, nextThread, nextTask := 0, 0, 0;
      shareChannels, threadEvents, gateDeadline, clock, panicked := map[], {}, None, 0, false;
      registry, reporters, registrations, handoffs, timedOut := [], {}, [], [], false;
      startupGate := new StartupGate();
    }

    /** Sums the declared rates in whatever order the slot map holds the threads. */
    method GetExpectedHashrate() returns (rate: u64)
      requires Valid()
      ensures rate == ExpectedHashrate(TheCrew())
    {
      rate := 0;
      var rest := threads;
      ghost var total := RateBelow(threads, nextThread);
      while rest != map[]
        invariant (rate + RateBelow(rest, nextThread)) % U64_SIZE == total % U64_SIZE
        invariant forall id :: id in rest ==> id in threads && rest[id] == threads[id]
        decreases |rest|
      {
        var id: ThreadId :| id in rest;
        SumStep(rest, id, nextThread, rate);
        rate := (rate + RateOf(rest, id)) % U64_SIZE;
        rest := rest - {id};
      }
      Rates.NoRate(nextThread);
    }

    static lemma SumStep(rest: map<ThreadId, ThreadEntry>, id: ThreadId, n: nat, rate: nat)
      requires id in rest && id < n
      ensures ((rate + RateOf(rest, id)) % U64_SIZE + RateBelow(rest - {id}, n)) % U64_SIZE ==
                (rate + RateBelow(rest, n)) % U64_SIZE
    {
      Rates.RateWithout(rest, id, n);
      WrapAdd(rate + RateOf(rest, id), RateBelow(rest - {id}, n));
    }

    static lemma WrapAdd(a: nat, b: nat)
      ensures (a % U64_SIZE + b) % U64_SIZE == (a + b) % U64_SIZE
    {
    }

    method CollectHashrateUpdates() returns (updates: map<SourceId, u64>)
      requires Valid()
      ensures updates == map id | id in sources :: ExpectedHashrate(TheCrew())
    {
      updates := map[];
      var rest := sources.Keys;
      while rest != {}
        invariant rest <= sources.Keys
        invariant updates == map id | id in sources && id !in rest :: ExpectedHashrate(TheCrew())
      {
        var id :| id in rest;
        var rate := GetExpectedHashrate();
        updates := updates[id := rate];
        rest := rest - {id};
      }
    }

    method BroadcastHashrateChange()
      requires Valid()
      modifies this`sources
      ensures sources == TellAll(old(sources), ExpectedHashrate(TheCrew()))
    {
      var updates := CollectHashrateUpdates();
      ghost var told := TellAll(old(sources), ExpectedHashrate(TheCrew()));
      var rest := updates.Keys;
      while rest != {}
        invariant rest <= old(sources).Keys && sources.Keys == old(sources).Keys
        invariant forall id :: id in sources ==> sources[id] == if id in rest then old(sources)[id] else told[id]
      {
        var id :| id in rest;
        sources := sources[id := SendTo(sources[id], UpdateHashRate(updates[id]))];
        rest := rest - {id};
      }
      assert sources == told;
    }

    method DropTasksWhere(p: TaskEntry -> bool)
      modifies this`tasks, this`shareChannels
      ensures Books() == RemoveTasksWhere(old(Books()), p)
    {
      var taskIds := set id | id in tasks && p(tasks[id]);
      ghost var all := taskIds;
      while taskIds != {}
        invariant taskIds <= all
        invariant tasks == old(tasks) - (all - taskIds)
        invariant shareChannels == old(shareChannels) - (all - taskIds)
      {
        var taskId :| taskId in taskIds;
        tasks := tasks - {taskId};
        shareChannels := shareChannels - {taskId};
        taskIds := taskIds - {taskId};
      }
      assert tasks == RemoveTasksWhere(old(Books()), p).tasks;
      assert shareChannels == RemoveTasksWhere(old(Books()), p).channels;
    }

    method HandleSourceRegistration()
      requires Valid()
      modifies this`sources, this`nextSource
      ensures Model() == RegisterSource(old(Model()))
    {
      sources := sources[nextSource := SourceEntry(None, true, [])];
      nextSource := nextSource + 1;
      if startupGate.open {
        BroadcastHashrateChange();
      }
    }

    /** Hand one task to a thread; it is booked if the thread accepts it. */
    method OfferTask(mode: AssignMode, source: SourceId, job: JobTemplate, thread: ThreadId, range: ExtranonceRange,
                     accepted: bool)
      modifies this`tasks, this`shareChannels, this`nextTask, this`handoffs
      ensures Books() == Offer(old(Books()), mode, source, job, thread, range, accepted)
    {
      var hashTask := HashTask(job, range, range.Start(), job.time);
      if accepted {
        var taskId := nextTask;
        nextTask := nextTask + 1;
        tasks := tasks[taskId := TaskEntry(source, job, thread)];
        shareChannels := shareChannels[taskId := []];
        handoffs := handoffs + [Handoff(thread, source, mode, hashTask, Some(taskId))];
      } else {
        handoffs := handoffs + [Handoff(thread, source, mode, hashTask, None)];
      }
    }

    method EligibleThreadIds(order: seq<ThreadId>) returns (ids: seq<ThreadId>)
      requires forall id :: id in order ==> id in threads
      ensures ids == Eligible(threads, order)
    {
      ids := [];
      for k := 0 to |order|
        invariant ids == Eligible(threads, order[..k])
      {
        var id := order[k];
        EligibleSnoc(threads, order[..k], id);
        assert order[..k + 1] == order[..k] + [id];
        if threads[id].expected.Some? {
          ids := ids + [id];
        }
      }
      assert order[..|order|] == order;
    }

    static lemma {:induction false} EligibleSnoc(threads: map<ThreadId, ThreadEntry>, front: seq<ThreadId>,
                                                 id: ThreadId)
      requires id in threads && forall x :: x in front ==> x in threads
      ensures Eligible(threads, front + [id])
           == Eligible(threads, front) + if threads[id].expected.Some? then [id] else []
    {
      if front == [] {
        assert [id][1..] == [];
      } else {
        assert (front + [id])[1..] == front[1..] + [id];
        EligibleSnoc(threads, front[1..], id);
        var first := if threads[front[0]].expected.Some? then [front[0]] else [];
        var last := if threads[id].expected.Some? then [id] else [];
        var rest := Eligible(threads, front[1..]);
        assert first + (rest + last) == (first + rest) + last;
      }
    }

    /** One part to each eligible thread. */
    method OfferSlices(mode: AssignMode, source: SourceId, job: JobTemplate, eligible: seq<ThreadId>,
                       slices: seq<ExtranonceRange>, refused: set<ThreadId>)
      requires |eligible| == |slices|
      modifies this`tasks, this`shareChannels, this`nextTask, this`handoffs
      ensures Books() == OfferAll(old(Books()), mode, source, job, eligible, slices, refused)
    {
      for k := 0 to |eligible|
        invariant OfferAll(Books(), mode, source, job, eligible[k..], slices[k..], refused)
               == OfferAll(old(Books()), mode, source, job, eligible, slices, refused)
      {
        assert eligible[k..][1..] == eligible[k + 1..] && slices[k..][1..] == slices[k + 1..];
        OfferTask(mode, source, job, eligible[k], slices[k], eligible[k] !in refused);
      }
    }

    /** Unwinding drops the books and the share channels. */
    method EndInPanic()
      modifies this`tasks, this`shareChannels, this`panicked
      ensures tasks == map[] && shareChannels == map[] && panicked
    {
      tasks, shareChannels, panicked := map[], map[], true;
    }

    /** Whether the check for jobs too hard for the hashrate panics. */
    method DifficultyCheckPanics(source: SourceId, job: JobTemplate) returns (panics: bool)
      requires Valid()
      ensures panics == TooHard(Model(), source, job)
    {
      var hashrate := GetExpectedHashrate();
      if source in sources {
        panics := Difficulties.BeyondDuration(job.shareTarget, hashrate);
      } else {
        panics := false;
      }
    }

    /** Splits the range over the eligible threads; one too short for them ends in a panic. */
    method AssignSlices(mode: AssignMode, source: SourceId, job: JobTemplate, range: ExtranonceRange,
                        order: seq<ThreadId>, refused: set<ThreadId>)
      requires range.Valid() && forall id :: id in order ==> id in threads
      modifies this`tasks, this`shareChannels, this`nextTask, this`handoffs, this`panicked
      ensures var ids := Eligible(threads, order);
              var parts := SplitParts(range, |ids|);
              && panicked == (old(panicked) || (ids != [] && parts.None?))
              && Books() == if ids == [] then old(Books())
                            else match parts
                              case None => old(Books()).(tasks := map[], channels := map[])
                              case Some(ranges) => OfferAll(old(Books()), mode, source, job, ids, ranges, refused)
    {
      var eligible := EligibleThreadIds(order);
      if eligible == [] {
        return;
      }
      var split := Split(range, |eligible|);
      if split.None? {
        EndInPanic();
        return;
      }
      OfferSlices(mode, source, job, eligible, split.value, refused);
    }

    method AssignJobToThreads(mode: AssignMode, source: SourceId, job: JobTemplate, order: seq<ThreadId>,
                              refused: set<ThreadId>)
      requires Valid() && WellFormedJob(job) && Enumerates(order, threads.Keys)
      modifies this`sources, this`tasks, this`shareChannels, this`nextTask, this`handoffs, this`panicked
      ensures var s' := AssignJob(old(Model()), mode, source, job, order, refused);
              sources == s'.sources && Books() == s'.work && panicked == s'.crashed
    {
      if job.merkleRoot.Computed? {
        CacheJob(source, Some(job));
        if threads != map[] {
          var panics := DifficultyCheckPanics(source, job);
          if panics {
            EndInPanic();
            return;
          }
          if mode == Replace {
            DropTasksWhere(OfSource(source));
          }
          AssignSlices(mode, source, job, job.merkleRoot.template.extranonceRange, order, refused);
        }
      }
    }

    method CacheJob(source: SourceId, last: Option<JobTemplate>)
      modifies this`sources
      ensures sources == Cache(old(sources), source, last)
    {
      if source in sources {
        sources := sources[source := sources[source].(lastJob := last)];
      }
    }

    method HandleClearJobs(source: SourceId)
      modifies this`sources, this`tasks, this`shareChannels
      ensures sources == Cache(old(sources), source, None)
              && Books() == RemoveTasksWhere(old(Books()), OfSource(source))
    {
      CacheJob(source, None);
      DropTasksWhere(OfSource(source));
    }

    method TakeShare(taskId: TaskId, share: Share)
      modifies this`sources
      ensures Model() == HandleShare(old(Model()), taskId, share)
    {
      if taskId !in tasks {
        return;
      }
      var entry := tasks[taskId];
      if share.hash <= entry.template.shareTarget {
        if entry.source in sources {
          var sourceShare := SourceShare(entry.template.id, share.nonce, share.ntime, share.version, share.extranonce);
          sources := sources[entry.source := SendTo(sources[entry.source], SubmitShare(sourceShare))];
        }
      }
    }

    method AssignCachedJobsToThread(thread: ThreadId, order: seq<SourceId>, refused: set<SourceId>)
      modifies this`tasks, this`shareChannels, this`nextTask, this`handoffs
      ensures Books() == OfferCached(old(Books()), sources, thread, order, refused)
    {
      for k := 0 to |order|
        invariant OfferCached(Books(), sources, thread, order[k..], refused) ==
                    OfferCached(old(Books()), sources, thread, order, refused)
      {
        assert order[k..][1..] == order[k + 1..];
        var source := order[k];
        if source in sources && sources[source].lastJob.Some? {
          var job := sources[source].lastJob.value;
          if job.merkleRoot.Computed? {
            OfferTask(Update, source, job, thread, job.merkleRoot.template.extranonceRange, source !in refused);
          }
        }
      }
    }

    method HandleExpectedHashRate(thread: ThreadId, rate: u64, order: seq<SourceId>, refused: set<SourceId>)
      requires Valid()
      modifies this`sources, this`threads, this`reporters, this`tasks, this`shareChannels, this`nextTask, this`handoffs,
               startupGate
      ensures var s' := ExpectedReport(old(Model()), thread, rate, order, refused);
              && sources == s'.sources && Books() == s'.work && TheCrew() == s'.crew
              && startupGate.Value() == s'.startup.gate
    {
      if thread !in threads {
        return;
      }
      var firstReport := threads[thread].expected.None?;
      threads := threads[thread := ThreadEntry(Some(rate))];
      reporters := reporters + {thread};
      if firstReport {
        AssignCachedJobsToThread(thread, order, refused);
      }
      if firstReport && !startupGate.open {
        startupGate.RecordReported();
      }
      if startupGate.open {
        BroadcastHashrateChange();
      }
    }

    method HandleNewThread(token: nat)
      requires Valid()
      modifies this`nextThread, this`registry, this`threads, this`threadEvents, this`lastThreadCount, startupGate
      ensures Valid()
      ensures TheCrew() == Enlist(old(TheCrew()), token) && startupGate.Value() == old(startupGate.Value()).Registered()
    {
      var threadId := nextThread;
      nextThread := nextThread + 1;
      registry := registry + [token];
      threads := threads[threadId := ThreadEntry(None)];
      startupGate.RecordRegistered();
      threadEvents := threadEvents + {threadId};
      lastThreadCount := |threadEvents|;
    }

    method HandleThreadDisconnections()
      requires Valid()
      modifies this`sources, this`threads, this`tasks, this`shareChannels, this`lastThreadCount
      ensures var s' := Settle(old(Model())); sources == s'.sources && Books() == s'.work && TheCrew() == s'.crew
    {
      var currentCount := |threadEvents|;
      if currentCount == lastThreadCount {
        return;
      }
      var active := threadEvents;
      threads := map id | id in threads && id in active :: threads[id];
      DropTasksWhere(WithoutStream(active));
      lastThreadCount := currentCount;
      BroadcastHashrateChange();
    }

    method HandleEnumerationComplete()
      requires Valid()
      modifies this`sources, this`gateDeadline, startupGate
      ensures var s' := FinishEnumeration(old(Model())); sources == s'.sources && TheStartup() == s'.startup
    {
      startupGate.RecordEnumerationComplete();
      if !startupGate.open {
        gateDeadline := Some(clock + GATE_TIMEOUT_MS);
      } else {
        BroadcastHashrateChange();
      }
    }

    method HandleThreadRegistration(token: nat)
      requires Valid()
      modifies this, startupGate
      ensures Valid()
      ensures Model() == Handle(old(Model()), Registration(Thread(token)))
    {
      registrations := registrations + [Thread(token)];
      HandleNewThread(token);
    }

    method HandleMarker()
      requires Valid()
      modifies this, startupGate
      ensures Valid()
      ensures Model() == Handle(old(Model()), Registration(InitialEnumerationComplete))
    {
      registrations := registrations + [InitialEnumerationComplete];
      HandleEnumerationComplete();
    }

    method HandleGateTimeout()
      requires Valid()
      modifies this`sources, this`timedOut, this`gateDeadline, startupGate
      ensures Model() == OpenByTimeout(old(Model()))
    {
      startupGate.RecordTimeout();
      timedOut := true;
      BroadcastHashrateChange();
      gateDeadline := None;
    }

    method HandleSourceEvent(source: SourceId, event: SourceEvent, order: seq<ThreadId>, refused: set<ThreadId>)
      requires Valid() && Ready(Model(), FromSource(source, event, order, refused))
      modifies this`sources, this`tasks, this`shareChannels, this`nextTask, this`handoffs, this`panicked
      ensures var s' := Handle(old(Model()), FromSource(source, event, order, refused));
              sources == s'.sources && Books() == s'.work && panicked == s'.crashed
    {
      sources := sources[source := sources[source].(wire := sources[source].wire + [Received(event)])];
      assert Model() == Deliver(old(Model()), source, event);
      if event.ClearJobs? {
        HandleClearJobs(source);
      } else {
        AssignJobToThreads(if event.UpdateJob? then Update else Replace, source, event.job, order, refused);
      }
    }

    method TakeSourceArm(source: SourceId, event: SourceEvent, order: seq<ThreadId>, refused: set<ThreadId>)
      requires Valid() && Ready(Model(), FromSource(source, event, order, refused))
      modifies this
      ensures Valid()
      ensures Model() == Handle(old(Model()), FromSource(source, event, order, refused))
    {
      ghost var before := Model();
      HandleSourceEvent(source, event, order, refused);
      SchedulerStartup.SourceArmEffects(before, source, event, order, refused);
    }

    method TakeShareArm(taskId: TaskId)
      requires Valid() && Ready(Model(), ShareReady(taskId))
      modifies this
      ensures Valid()
      ensures Model() == Handle(old(Model()), ShareReady(taskId))
    {
      var share := shareChannels[taskId][0];
      shareChannels := shareChannels[taskId := shareChannels[taskId][1..]];
      TakeShare(taskId, share);
    }

    method TakeReportArm(thread: ThreadId, rate: u64, order: seq<SourceId>, refused: set<SourceId>)
      requires Valid() && Ready(Model(), ExpectedHashRate(thread, rate, order, refused))
      modifies this, startupGate
      ensures Valid()
      ensures Model() == Handle(old(Model()), ExpectedHashRate(thread, rate, order, refused))
    {
      ghost var before := Model();
      HandleExpectedHashRate(thread, rate, order, refused);
      SchedulerStartup.ReportEffects(before, thread, rate, order, refused);
    }

    method TakeArm(arm: Arm)
      requires Valid() && Ready(Model(), arm)
      modifies this, startupGate
      ensures Valid()
      ensures Model() == Handle(old(Model()), arm)
    {
      match arm {
        case SourceRegistered => HandleSourceRegistration();
        case FromSource(source, event, order, refused) => TakeSourceArm(source, event, order, refused);
        case ShareReady(taskId) => TakeShareArm(taskId);
        case ExpectedHashRate(thread, rate, order, refused) => TakeReportArm(thread, rate, order, refused);
        case Registration(Thread(token)) => HandleThreadRegistration(token);
        case Registration(InitialEnumerationComplete) => HandleMarker();
        case GateTimeout => HandleGateTimeout();
        case Housekeeping =>
      }
    }

    /** One turn of the loop: an arm whose channel has something, then the disconnection check. */
    method Turn(arm: Arm)
      requires Valid() && !panicked && Ready(Model(), arm)
      modifies this, startupGate
      ensures Valid()
      ensures Model() == Step(old(Model()), Take(arm))
    {
      TakeArm(arm);
      if !panicked {
        HandleThreadDisconnections();
      }
    }

    /** What the threads, the sources and the clock do between two turns. */
    method LetHappen(event: Event)
      requires Valid() && !panicked && !event.Take?
      modifies this
      ensures Valid()
      ensures Model() == Step(old(Model()), event)
    {
      match event {
        case ShareSent(taskId, share) =>
          if taskId in shareChannels {
            shareChannels := shareChannels[taskId := shareChannels[taskId] + [share]];
          }
        case ChannelEnds(taskId) => shareChannels := shareChannels - {taskId};
        case StreamEnds(thread) => threadEvents := threadEvents - {thread};
        case SourceHangsUp(source) =>
          if source in sources {
            sources := sources[source := sources[source].(listening := false)];
          }
        case TimePasses(ms) => clock := clock + ms;
      }
    }

    /** The event loop, over the choices `select!` and its surroundings make. */
    method RunLoop(events: seq<Event>)
      requires Valid() && Model() == Initial
      modifies this, startupGate
      ensures Valid()
      ensures Model() == Run(Initial, events)
    {
      for k := 0 to |events|
        invariant Valid() && Model() == Run(Initial, events[..k])
      {
        assert events[..k + 1][..k] == events[..k];
        var event := events[k];
        if !panicked {
          match event {
            case Take(arm) =>
              var ready := IsReady(arm);
              if ready {
                Turn(arm);
              }
            case _ => LetHappen(event);
          }
        }
      }
      assert events[..|events|] == events;
    }

    /** Whether `select!` could take the arm now. */
    method IsReady(arm: Arm) returns (ready: bool)
      ensures ready == Ready(Model(), arm)
    {
      match arm {
        case SourceRegistered => ready := true;
        case FromSource(source, event, order, _) =>
          ready := source in sources && WellFormedEvent(event) && Enumerates(order, threads.Keys);
        case ShareReady(taskId) => ready := taskId in shareChannels && shareChannels[taskId] != [];
        case ExpectedHashRate(thread, _, order, _) => ready := thread in threadEvents
            && Enumerates(order, sources.Keys);
        case Registration(_) => ready := true;
        case GateTimeout => ready := !startupGate.open && gateDeadline.Some? && gateDeadline.value <= clock;
        case Housekeeping => ready := true;
      }
    }
  }
}
