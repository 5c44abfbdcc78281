/**
 * The scheduler as a state machine: one transition per arm of its event loop, and one
 * per thing its surroundings may do between two arms.
 */
module SchedulerState {
  import opened Options
  import opened Extranonces
  import opened Jobs
  import Difficulties

  type SourceId = nat
  type ThreadId = nat
  type TaskId = nat

  const GATE_TIMEOUT_MS: nat := 10_000

  // -------------------------------------------------------------- messages

  /** Extranonce ranges come only from constructors that keep them valid. */
  predicate WellFormedJob(job: JobTemplate) {
    job.merkleRoot.Computed? ==> job.merkleRoot.template.extranonceRange.Valid()
  }

  datatype SourceEvent = UpdateJob(job: JobTemplate) | ReplaceJob(job: JobTemplate) | ClearJobs

  /** A share as the hash thread reports it. */
  datatype Share = Share(nonce: nat, hash: nat, version: nat, ntime: nat, extranonce: Option<Extranonce>)

  /** A share as the source receives it. */
  datatype SourceShare = SourceShare(jobId: string, nonce: nat, time: nat, version: nat, extranonce: Option<Extranonce>)

  datatype SourceCommand = SubmitShare(share: SourceShare) | UpdateHashRate(rate: nat)

  /** One message on a source's two channels, in the order the scheduler handles them. */
  datatype Message = Received(event: SourceEvent) | Sent(command: SourceCommand)

  datatype AssignMode = Update | Replace

  datatype HashTask = HashTask(
    template: JobTemplate,
    extranonceRange: ExtranonceRange,
    extranonce: Extranonce,
    ntime: nat)

  /** A task offered to a thread; `taskId` is absent when the thread refused it. */
  datatype Handoff = Handoff(thread: ThreadId, source: SourceId, mode: AssignMode, task: HashTask,
                             taskId: Option<TaskId>)

  /** What the backplane puts on the registration channel; a thread is known by its token. */
  datatype ThreadRegistration = Thread(token: nat) | InitialEnumerationComplete

  // ----------------------------------------------------------------- state

  datatype TaskEntry = TaskEntry(source: SourceId, template: JobTemplate, thread: ThreadId)

  /** `wire` is the transcript of both channels; `listening` is false once the source hung up. */
  datatype SourceEntry = SourceEntry(lastJob: Option<JobTemplate>, listening: bool, wire: seq<Message>)

  datatype ThreadEntry = ThreadEntry(expected: Option<u64>)

  datatype Gate = Gate(registered: nat, reported: nat, enumerationComplete: bool, open: bool) {
    function Registered(): Gate {
      if open then this else this.(registered := registered + 1)
    }

    function Reported(): Gate {
      if open then this else this.(reported := reported + 1).TryOpen()
    }

    function EnumerationComplete(): Gate {
      if open then this else this.(enumerationComplete := true).TryOpen()
    }

    function Timeout(): Gate {
      this.(open := true)
    }

    function TryOpen(): Gate {
      if enumerationComplete && reported >= registered then this.(open := true) else this
    }
  }

  /** Tasks and their share channels; `handoffs` records every task offered so far. */
  datatype Work = Work(
    tasks: map<TaskId, TaskEntry>,
    channels: map<TaskId, seq<Share>>,
    nextTask: TaskId,
    handoffs: seq<Handoff>)

  /**
   * Threads, and those whose event stream has not ended. `registry` lists the tokens of
   * all threads registered so far, by id, and `reporters` the ids that ever reported.
   */
  datatype Crew = Crew(
    threads: map<ThreadId, ThreadEntry>,
    streams: set<ThreadId>,
    lastThreadCount: nat,
    registry: seq<nat>,
    reporters: set<ThreadId>)

  /** The gate and its deadline; `registrations` and `timedOut` record what led here. */
  datatype Startup = Startup(
    gate: Gate,
    deadline: Option<nat>,
    registrations: seq<ThreadRegistration>,
    timedOut: bool)

  datatype State = State(
    sources: map<SourceId, SourceEntry>,
    nextSource: SourceId,
    work: Work,
    crew: Crew,
    startup: Startup,
    now: nat,
    crashed: bool)

  const Initial: State :=
    State(map[], 0, Work(map[], map[], 0, []), Crew(map[], {}, 0, [], {}),
          Startup(Gate(0, 0, false, false), None, [], false), 0, false)

  // ----------------------------------------------------------------- rates

  /** What a thread adds to the aggregate: nothing before its first report. */
  function RateOf(threads: map<ThreadId, ThreadEntry>, id: ThreadId): nat {
    if id in threads && threads[id].expected.Some? then threads[id].expected.value else 0
  }

  /** The sum of the rates declared by the threads below `n`. */
  function RateBelow(threads: map<ThreadId, ThreadEntry>, n: nat): nat {
    if n == 0 then 0 else RateBelow(threads, n - 1) + RateOf(threads, n - 1)
  }

  /** The aggregate as a `u64`: the release build wraps. Ids are below the registry's length. */
  function ExpectedHashrate(crew: Crew): u64 {
    RateBelow(crew.threads, |crew.registry|) % U64_SIZE
  }

  function Eligible(threads: map<ThreadId, ThreadEntry>, order: seq<ThreadId>): (ids: seq<ThreadId>)
    requires forall id :: id in order ==> id in threads
    ensures forall id :: id in ids <==> id in order && threads[id].expected.Some?
  {
    if order == [] then []
    else (if threads[order[0]].expected.Some? then [order[0]] else []) + Eligible(threads, order[1..])
  }

  predicate Enumerates<T(==)>(order: seq<T>, all: set<T>) {
    && (forall i :: 0 <= i < |order| ==> order[i] in all)
    && (forall x :: x in all ==> x in order)
    && (forall i, j :: 0 <= i < j < |order| ==> order[i] != order[j])
  }

  // ------------------------------------------------------------- fragments

  function SendTo(source: SourceEntry, command: SourceCommand): SourceEntry {
    if source.listening then source.(wire := source.wire + [Sent(command)]) else source
  }

  /** Every source is told the rate. */
  function TellAll(sources: map<SourceId, SourceEntry>, rate: nat): map<SourceId, SourceEntry> {
    map id | id in sources :: SendTo(sources[id], UpdateHashRate(rate))
  }

  function Broadcast(s: State): State {
    s.(sources := TellAll(s.sources, ExpectedHashrate(s.crew)))
  }

  function OfSource(source: SourceId): TaskEntry -> bool {
    (e: TaskEntry) => e.source == source
  }

  function WithoutStream(streams: set<ThreadId>): TaskEntry -> bool {
    (e: TaskEntry) => e.thread !in streams
  }

  /** Drop the tasks a predicate selects, and their share channels with them. */
  function RemoveTasksWhere(w: Work, p: TaskEntry -> bool): Work {
    w.(tasks := map id | id in w.tasks && !p(w.tasks[id]) :: w.tasks[id],
       channels := map id | id in w.channels && !(id in w.tasks && p(w.tasks[id])) :: w.channels[id])
  }

  /** Offer one task to one thread, and book it when the thread takes it. */
  function Offer(w: Work, mode: AssignMode, source: SourceId, job: JobTemplate,
                 thread: ThreadId, range: ExtranonceRange, accepted: bool): Work
  {
    var task := HashTask(job, range, range.Start(), job.time);
    if accepted then
      Work(w.tasks[w.nextTask := TaskEntry(source, job, thread)],
           w.channels[w.nextTask := []],
           w.nextTask + 1,
           w.handoffs + [Handoff(thread, source, mode, task, Some(w.nextTask))])
    else
      w.(handoffs := w.handoffs + [Handoff(thread, source, mode, task, None)])
  }

  function OfferAll(w: Work, mode: AssignMode, source: SourceId, job: JobTemplate,
                    ids: seq<ThreadId>, ranges: seq<ExtranonceRange>, refused: set<ThreadId>): Work
    requires |ids| == |ranges|
    decreases |ids|
  {
    if ids == [] then w
    else OfferAll(Offer(w, mode, source, job, ids[0], ranges[0], ids[0] !in refused), mode, source, job, ids[1..],
                  ranges[1..], refused)
  }

  // -------------------------------------------------------------- handlers

  function RegisterSource(s: State): State {
    var s1 := s.(sources := s.sources[s.nextSource := SourceEntry(None, true, [])], nextSource := s.nextSource + 1);
    if s1.startup.gate.open then Broadcast(s1) else s1
  }

  function Cache(sources: map<SourceId, SourceEntry>, source: SourceId,
                 last: Option<JobTemplate>): map<SourceId, SourceEntry>
  {
    if source in sources then sources[source := sources[source].(lastJob := last)] else sources
  }

  /** A panic ends the event loop, and with it go the books and the share channels. */
  function Panic(s: State): State {
    s.(work := s.work.(tasks := map[], channels := map[]), crashed := true)
  }

  /** The job is so hard for the threads there are that the check for hard jobs panics. */
  predicate TooHard(s: State, source: SourceId, job: JobTemplate) {
    source in s.sources && Difficulties.BeyondDuration(job.shareTarget, ExpectedHashrate(s.crew))
  }

  /** Ends in a panic, too, when the range is too short to give every eligible thread a part. */
  function AssignJob(s: State, mode: AssignMode, source: SourceId, job: JobTemplate,
                     order: seq<ThreadId>, refused: set<ThreadId>): State
    requires Enumerates(order, s.crew.threads.Keys) && WellFormedJob(job)
  {
    match job.merkleRoot
    case Fixed(_) => s
    case Computed(template) =>
      var cached := Cache(s.sources, source, Some(job));
      if s.crew.threads == map[] then s.(sources := cached)
      else if TooHard(s, source, job) then Panic(s.(sources := cached))
      else
        var work := if mode == Replace then RemoveTasksWhere(s.work, OfSource(source)) else s.work;
        var ids := Eligible(s.crew.threads, order);
        if ids == [] then s.(sources := cached, work := work)
        else match SplitParts(template.extranonceRange, |ids|)
          case None => Panic(s.(sources := cached))
          case Some(ranges) => s.(sources := cached, work := OfferAll(work, mode, source, job, ids, ranges, refused))
  }

  function Clear(s: State, source: SourceId): State {
    s.(sources := Cache(s.sources, source, None), work := RemoveTasksWhere(s.work, OfSource(source)))
  }

  function HandleShare(s: State, task: TaskId, share: Share): State {
    if task !in s.work.tasks then s
    else
      var entry := s.work.tasks[task];
      if share.hash <= entry.template.shareTarget && entry.source in s.sources then
        var out := SourceShare(entry.template.id, share.nonce, share.ntime, share.version, share.extranonce);
        s.(sources := s.sources[entry.source := SendTo(s.sources[entry.source], SubmitShare(out))])
      else s
  }

  /** Offer a newly eligible thread every cached job, with its whole extranonce range. */
  function OfferCached(w: Work, sources: map<SourceId, SourceEntry>, thread: ThreadId, order: seq<SourceId>,
                       refused: set<SourceId>): Work
    decreases |order|
  {
    if order == [] then w
    else
      var source := order[0];
      var w1 :=
        if source in sources && sources[source].lastJob.Some? then
          var job := sources[source].lastJob.value;
          match job.merkleRoot
          case Fixed(_) => w
          case Computed(t) => Offer(w, Update, source, job, thread, t.extranonceRange, source !in refused)
        else w;
      OfferCached(w1, sources, thread, order[1..], refused)
  }

  function Declare(crew: Crew, thread: ThreadId, rate: u64): Crew {
    crew.(threads := crew.threads[thread := ThreadEntry(Some(rate))], reporters := crew.reporters + {thread})
  }

  function ExpectedReport(s: State, thread: ThreadId, rate: u64, order: seq<SourceId>, refused: set<SourceId>): State {
    if thread !in s.crew.threads then s
    else
      var firstReport := s.crew.threads[thread].expected.None?;
      var crew := Declare(s.crew, thread, rate);
      var work := if firstReport then OfferCached(s.work, s.sources, thread, order, refused) else s.work;
      var gate := if firstReport then s.startup.gate.Reported() else s.startup.gate;
      s.(sources := if gate.open then TellAll(s.sources, ExpectedHashrate(crew)) else s.sources,
         work := work, crew := crew, startup := s.startup.(gate := gate))
  }

  function Enlist(crew: Crew, token: nat): Crew {
    var id := |crew.registry|;
    crew.(threads := crew.threads[id := ThreadEntry(None)],
          streams := crew.streams + {id},
          lastThreadCount := |crew.streams + {id}|,
          registry := crew.registry + [token])
  }

  function RegisterThread(s: State, token: nat): State {
    s.(crew := Enlist(s.crew, token), startup := s.startup.(gate := s.startup.gate.Registered()))
  }

  function FinishEnumeration(s: State): State {
    var gate := s.startup.gate.EnumerationComplete();
    if gate.open then Broadcast(s.(startup := s.startup.(gate := gate)))
    else s.(startup := s.startup.(gate := gate, deadline := Some(s.now + GATE_TIMEOUT_MS)))
  }

  predicate TimeoutDue(s: State) {
    !s.startup.gate.open && s.startup.deadline.Some? && s.startup.deadline.value <= s.now
  }

  function OpenByTimeout(s: State): State {
    Broadcast(s.(startup := s.startup.(gate := s.startup.gate.Timeout(), deadline := None, timedOut := true)))
  }

  /** The threads that still have a stream, and their number taken as the new baseline. */
  function Muster(crew: Crew): Crew {
    crew.(threads := map id | id in crew.threads && id in crew.streams :: crew.threads[id],
          lastThreadCount := |crew.streams|)
  }

  /** Run after every arm: forget the threads whose streams ended, when their number changed. */
  function Settle(s: State): State {
    if |s.crew.streams| == s.crew.lastThreadCount then s
    else
      s.(sources := TellAll(s.sources, ExpectedHashrate(Muster(s.crew))),
         work := RemoveTasksWhere(s.work, WithoutStream(s.crew.streams)),
         crew := Muster(s.crew))
  }

  // ------------------------------------------------------------ transitions

  /**
   * `order` is the order in which the slot maps happen to iterate, and `refused` the
   * threads or sources for which the thread reports that it could not take the task.
   */
  datatype Arm =
    | SourceRegistered
    | FromSource(source: SourceId, event: SourceEvent, order: seq<ThreadId>, refused: set<ThreadId>)
    | ShareReady(task: TaskId)
    | ExpectedHashRate(thread: ThreadId, rate: u64, sourceOrder: seq<SourceId>, unable: set<SourceId>)
    | Registration(registration: ThreadRegistration)
    | GateTimeout
    | Housekeeping

  datatype Event =
    | Take(arm: Arm)
    | ShareSent(task: TaskId, share: Share)
    | ChannelEnds(task: TaskId)
    | StreamEnds(thread: ThreadId)
    | SourceHangsUp(source: SourceId)
    | TimePasses(ms: nat)

  predicate WellFormedEvent(event: SourceEvent) {
    event.ClearJobs? || WellFormedJob(event.job)
  }

  /** Whether `select!` can take the arm in this state. */
  predicate Ready(s: State, arm: Arm) {
    match arm
    case SourceRegistered => true
    case FromSource(source, event, order, _) => source in s.sources && WellFormedEvent(event)
        && Enumerates(order, s.crew.threads.Keys)
    case ShareReady(task) => task in s.work.channels && s.work.channels[task] != []
    case ExpectedHashRate(thread, _, order, _) => thread in s.crew.streams && Enumerates(order, s.sources.Keys)
    case Registration(_) => true
    case GateTimeout => TimeoutDue(s)
    case Housekeeping => true
  }

  function Deliver(s: State, source: SourceId, event: SourceEvent): State
    requires source in s.sources
  {
    s.(sources := s.sources[source := s.sources[source].(wire := s.sources[source].wire + [Received(event)])])
  }

  function Popped(w: Work, task: TaskId): Work
    requires task in w.channels && w.channels[task] != []
  {
    w.(channels := w.channels[task := w.channels[task][1..]])
  }

  function Pushed(w: Work, task: TaskId, share: Share): Work
    requires task in w.channels
  {
    w.(channels := w.channels[task := w.channels[task] + [share]])
  }

  function Handle(s: State, arm: Arm): State
    requires Ready(s, arm)
  {
    match arm
    case SourceRegistered => RegisterSource(s)
    case FromSource(source, event, order, refused) =>
      var s1 := Deliver(s, source, event);
      (match event
       case UpdateJob(job) => AssignJob(s1, Update, source, job, order, refused)
       case ReplaceJob(job) => AssignJob(s1, Replace, source, job, order, refused)
       case ClearJobs => Clear(s1, source))
    case ShareReady(task) =>
      HandleShare(s.(work := Popped(s.work, task)), task, s.work.channels[task][0])
    case ExpectedHashRate(thread, rate, order, refused) => ExpectedReport(s, thread, rate, order, refused)
    case Registration(registration) =>
      var s1 := s.(startup := s.startup.(registrations := s.startup.registrations + [registration]));
      (match registration
       case Thread(token) => RegisterThread(s1, token)
       case InitialEnumerationComplete => FinishEnumeration(s1))
    case GateTimeout => OpenByTimeout(s)
    case Housekeeping => s
  }

  /** What the surroundings of the scheduler may do to its channels and streams. */
  function Outside(s: State, event: Event): State
    requires !event.Take?
  {
    match event
    case ShareSent(task, share) =>
      if task in s.work.channels then s.(work := Pushed(s.work, task, share)) else s
    case ChannelEnds(task) => s.(work := s.work.(channels := s.work.channels - {task}))
    case StreamEnds(thread) => s.(crew := s.crew.(streams := s.crew.streams - {thread}))
    case SourceHangsUp(source) =>
      if source in s.sources then s.(sources := s.sources[source := s.sources[source].(listening := false)]) else s
    case TimePasses(ms) => s.(now := s.now + ms)
  }

  /** An arm that is not ready cannot be taken, and after a panic nothing happens any more. */
  function Step(s: State, event: Event): State {
    if s.crashed then s
    else match event
      case Take(arm) =>
        if !Ready(s, arm) then s
        else
          var s1 := Handle(s, arm);
          if s1.crashed then s1 else Settle(s1)
      case _ => Outside(s, event)
  }

  function Run(s: State, events: seq<Event>): State {
    if events == [] then s else Step(Run(s, events[..|events| - 1]), events[|events| - 1])
  }
}
