/** What every run of the scheduler keeps: no stale shares, and no thread left without work. */
module SchedulerSafety {
  import opened Options
  import opened Extranonces
  import opened Jobs
  import opened SchedulerState

  // ------------------------------------------------- reading a transcript

  /** The scheduler takes up a job it can work on, that is, one whose merkle root is computed. */
  ghost predicate Delivers(m: Message, job: JobTemplate) {
    m.Received? && !m.event.ClearJobs? && m.event.job == job && job.merkleRoot.Computed?
  }

  /** The message ends the validity of all work delivered before it. */
  ghost predicate Invalidates(m: Message) {
    m.Received? && (m.event.ClearJobs? || (m.event.ReplaceJob? && m.event.job.merkleRoot.Computed?))
  }

  ghost predicate DeliveredAt(wire: seq<Message>, j: nat, i: nat, job: JobTemplate) {
    j < i <= |wire| && Delivers(wire[j], job) && forall k :: j < k < i ==> !Invalidates(wire[k])
  }

  /** Before message `i`, `job` was delivered at or after the latest invalidation. */
  ghost predicate Live(wire: seq<Message>, i: nat, job: JobTemplate) {
    exists j: nat :: DeliveredAt(wire, j, i, job)
  }

  ghost predicate Justified(wire: seq<Message>, i: nat, jobId: string) {
    exists job :: Live(wire, i, job) && job.id == jobId
  }

  /** Every share the source was sent belongs to a job that was live when it was sent. */
  ghost predicate NoStaleShare(wire: seq<Message>) {
    forall i: nat :: i < |wire| && wire[i].Sent? && wire[i].command.SubmitShare? ==>
      Justified(wire, i, wire[i].command.share.jobId)
  }

  /** The job a transcript leaves for threads that turn up later. */
  ghost function Cached(wire: seq<Message>): Option<JobTemplate> {
    if wire == [] then None
    else match wire[|wire| - 1]
      case Sent(_) => Cached(wire[..|wire| - 1])
      case Received(ClearJobs) => None
      case Received(event) => if event.job.merkleRoot.Computed? then Some(event.job) else Cached(wire[..|wire| - 1])
  }

  lemma LiveStable(wire: seq<Message>, m: Message, i: nat, job: JobTemplate)
    requires i <= |wire|
    ensures Live(wire + [m], i, job) <==> Live(wire, i, job)
  {
    forall j: nat ensures DeliveredAt(wire + [m], j, i, job) <==> DeliveredAt(wire, j, i, job) {
      assert forall k :: 0 <= k < i ==> (wire + [m])[k] == wire[k];
    }
  }

  lemma LiveAfter(wire: seq<Message>, m: Message, job: JobTemplate)
    ensures !Invalidates(m) && Live(wire, |wire|, job) ==> Live(wire + [m], |wire| + 1, job)
    ensures Delivers(m, job) ==> Live(wire + [m], |wire| + 1, job)
  {
    if Delivers(m, job) {
      assert DeliveredAt(wire + [m], |wire|, |wire| + 1, job);
    } else if !Invalidates(m) && Live(wire, |wire|, job) {
      var j: nat :| DeliveredAt(wire, j, |wire|, job);
      assert DeliveredAt(wire + [m], j, |wire| + 1, job);
    }
  }

  lemma NoStaleExtends(wire: seq<Message>, m: Message)
    requires NoStaleShare(wire)
    requires m.Sent? && m.command.SubmitShare? ==> Justified(wire, |wire|, m.command.share.jobId)
    ensures NoStaleShare(wire + [m])
  {
    var longer := wire + [m];
    forall i: nat | i < |longer| && longer[i].Sent? && longer[i].command.SubmitShare?
      ensures Justified(longer, i, longer[i].command.share.jobId)
    {
      var job :| Live(wire, i, job) && job.id == longer[i].command.share.jobId;
      LiveStable(wire, m, i, job);
    }
  }

  // ------------------------------------------------------------ invariants

  ghost predicate SourceOk(source: SourceEntry) {
    && NoStaleShare(source.wire)
    && source.lastJob == Cached(source.wire)
    && (source.lastJob.Some? ==>
          && source.lastJob.value.merkleRoot.Computed?
          && WellFormedJob(source.lastJob.value)
          && Live(source.wire, |source.wire|, source.lastJob.value))
  }

  ghost predicate SourcesOk(sources: map<SourceId, SourceEntry>) {
    forall id :: id in sources ==> SourceOk(sources[id])
  }

  /** A task names a registered source, a present thread, and a job still live at that source. */
  ghost predicate TaskOk(sources: map<SourceId, SourceEntry>, present: set<ThreadId>, task: TaskEntry) {
    && task.thread in present
    && task.source in sources
    && Live(sources[task.source].wire, |sources[task.source].wire|, task.template)
  }

  /** Every task is in order, and every share channel names a task on the books. */
  ghost predicate WorkOk(w: Work, sources: map<SourceId, SourceEntry>, present: set<ThreadId>) {
    && (forall id :: id in w.tasks ==> id < w.nextTask && TaskOk(sources, present, w.tasks[id]))
    && (forall id :: id in w.channels ==> id in w.tasks)
  }

  ghost predicate CrewOk(crew: Crew) {
    && crew.streams <= crew.threads.Keys
    && (forall id :: id in crew.threads ==> id < |crew.registry|)
  }

  ghost predicate Inv(s: State) {
    && SourcesOk(s.sources)
    && (forall id :: id in s.sources ==> id < s.nextSource)
    && WorkOk(s.work, s.sources, s.crew.threads.Keys)
    && CrewOk(s.crew)
  }

  // ------------------------------------------------------- the fragments

  /** Jobs live at a source before are live at it after. */
  ghost predicate StaysLive(a: SourceEntry, b: SourceEntry) {
    forall job :: Live(a.wire, |a.wire|, job) ==> Live(b.wire, |b.wire|, job)
  }

  lemma SendKeeps(source: SourceEntry, command: SourceCommand)
    requires SourceOk(source)
    requires command.SubmitShare? ==> Justified(source.wire, |source.wire|, command.share.jobId)
    ensures SourceOk(SendTo(source, command)) && StaysLive(source, SendTo(source, command))
  {
    var m := Sent(command);
    if source.listening {
      NoStaleExtends(source.wire, m);
      forall job | Live(source.wire, |source.wire|, job) ensures Live(source.wire + [m], |source.wire| + 1, job) {
        LiveAfter(source.wire, m, job);
      }
      assert (source.wire + [m])[..|source.wire|] == source.wire;
    }
  }

  /** Work stays in order when every source keeps live what was live. */
  lemma SourcesGrow(w: Work, sources: map<SourceId, SourceEntry>, sources': map<SourceId, SourceEntry>,
                    present: set<ThreadId>)
    requires WorkOk(w, sources, present)
    requires forall id :: id in sources ==> id in sources' && StaysLive(sources[id], sources'[id])
    ensures WorkOk(w, sources', present)
  {
    forall id | id in w.tasks ensures TaskOk(sources', present, w.tasks[id]) {
      assert TaskOk(sources, present, w.tasks[id]);
    }
  }

  lemma BroadcastKeeps(s: State)
    requires Inv(s)
    ensures Inv(Broadcast(s))
  {
    var rate := ExpectedHashrate(s.crew);
    forall id | id in s.sources
      ensures SourceOk(TellAll(s.sources, rate)[id]) && StaysLive(s.sources[id], TellAll(s.sources, rate)[id])
    {
      SendKeeps(s.sources[id], UpdateHashRate(rate));
    }
    SourcesGrow(s.work, s.sources, TellAll(s.sources, rate), s.crew.threads.Keys);
  }

  lemma OfferKeeps(w: Work, mode: AssignMode, source: SourceId, job: JobTemplate, thread: ThreadId,
                   range: ExtranonceRange, accepted: bool, sources: map<SourceId, SourceEntry>, present: set<ThreadId>)
    requires WorkOk(w, sources, present) && TaskOk(sources, present, TaskEntry(source, job, thread))
    ensures WorkOk(Offer(w, mode, source, job, thread, range, accepted), sources, present)
  {
  }

  lemma {:induction false} OfferAllKeeps(w: Work, mode: AssignMode, source: SourceId, job: JobTemplate,
                                         ids: seq<ThreadId>, ranges: seq<ExtranonceRange>, refused: set<ThreadId>,
                                         sources: map<SourceId, SourceEntry>, present: set<ThreadId>)
    requires WorkOk(w, sources, present) && |ids| == |ranges|
    requires forall id :: id in ids ==> TaskOk(sources, present, TaskEntry(source, job, id))
    ensures WorkOk(OfferAll(w, mode, source, job, ids, ranges, refused), sources, present)
    decreases |ids|
  {
    if ids != [] {
      var w1 := Offer(w, mode, source, job, ids[0], ranges[0], ids[0] !in refused);
      OfferKeeps(w, mode, source, job, ids[0], ranges[0], ids[0] !in refused, sources, present);
      OfferAllKeeps(w1, mode, source, job, ids[1..], ranges[1..], refused, sources, present);
    }
  }

  lemma {:induction false} OfferCachedKeeps(w: Work, sources: map<SourceId, SourceEntry>, present: set<ThreadId>,
                           thread: ThreadId, order: seq<SourceId>, refused: set<SourceId>)
    requires WorkOk(w, sources, present) && SourcesOk(sources) && thread in present
    ensures WorkOk(OfferCached(w, sources, thread, order, refused), sources, present)
    decreases |order|
  {
    if order != [] {
      var source := order[0];
      var w1 := w;
      if source in sources && sources[source].lastJob.Some? {
        assert SourceOk(sources[source]);
        var job := sources[source].lastJob.value;
        var range := job.merkleRoot.template.extranonceRange;
        w1 := Offer(w, Update, source, job, thread, range, source !in refused);
        OfferKeeps(w, Update, source, job, thread, range, source !in refused, sources, present);
      }
      OfferCachedKeeps(w1, sources, present, thread, order[1..], refused);
    }
  }

  // -------------------------------------------------------- source events

  /** The job a source event leaves in the cache. */
  ghost function CacheAfter(source: SourceEntry, event: SourceEvent): Option<JobTemplate> {
    if event.ClearJobs? then None
    else if event.job.merkleRoot.Computed? then Some(event.job)
    else source.lastJob
  }

  /** A source's entry once an event of its own has been taken up. */
  ghost function Taken(source: SourceEntry, event: SourceEvent): SourceEntry {
    SourceEntry(CacheAfter(source, event), source.listening, source.wire + [Received(event)])
  }

  lemma TakenKeeps(source: SourceEntry, event: SourceEvent)
    requires SourceOk(source) && WellFormedEvent(event)
    ensures SourceOk(Taken(source, event))
    ensures !Invalidates(Received(event)) ==> StaysLive(source, Taken(source, event))
    ensures !event.ClearJobs? && event.job.merkleRoot.Computed? ==>
              Live(Taken(source, event).wire, |Taken(source, event).wire|, event.job)
  {
    var m := Received(event);
    NoStaleExtends(source.wire, m);
    assert (source.wire + [m])[..|source.wire|] == source.wire;
    if !event.ClearJobs? {
      LiveAfter(source.wire, m, event.job);
    }
    forall job | !Invalidates(m) && Live(source.wire, |source.wire|, job)
      ensures Live(source.wire + [m], |source.wire| + 1, job)
    {
      LiveAfter(source.wire, m, job);
    }
  }

  /** The sources once an event of one of them has been taken up. */
  ghost function SourcesAfter(s: State, source: SourceId, event: SourceEvent): map<SourceId, SourceEntry>
    requires source in s.sources
  {
    s.sources[source := Taken(s.sources[source], event)]
  }

  lemma SourcesAfterIs(s: State, source: SourceId, event: SourceEvent)
    requires source in s.sources
    ensures Cache(Deliver(s, source, event).sources, source, CacheAfter(s.sources[source], event)) ==
              SourcesAfter(s, source, event)
    ensures CacheAfter(s.sources[source], event) == s.sources[source].lastJob ==>
              Deliver(s, source, event).sources == SourcesAfter(s, source, event)
  {
  }

  /** What remains on the books once an event is taken up: all of it, or other sources' work only. */
  ghost function WorkAfter(s: State, source: SourceId, event: SourceEvent): Work {
    if Invalidates(Received(event)) then RemoveTasksWhere(s.work, OfSource(source)) else s.work
  }

  lemma TakeUp(s: State, source: SourceId, event: SourceEvent)
    requires Inv(s) && source in s.sources && WellFormedEvent(event)
    ensures Inv(s.(sources := SourcesAfter(s, source, event), work := WorkAfter(s, source, event)))
  {
    TakenKeeps(s.sources[source], event);
    var sources', w', present := SourcesAfter(s, source, event), WorkAfter(s, source, event), s.crew.threads.Keys;
    forall id | id in w'.tasks ensures TaskOk(sources', present, w'.tasks[id]) {
      assert TaskOk(s.sources, present, s.work.tasks[id]);
    }
  }

  /** With no thread present there is no task, so returning before the removal leaves nothing stale. */
  lemma NoThreadsNoTasks(s: State, source: SourceId)
    requires Inv(s) && s.crew.threads == map[]
    ensures RemoveTasksWhere(s.work, OfSource(source)) == s.work
  {
    assert forall id :: id in s.work.tasks ==> TaskOk(s.sources, s.crew.threads.Keys, s.work.tasks[id]);
    assert s.work.tasks == map[] && s.work.channels == map[];
    assert RemoveTasksWhere(s.work, OfSource(source)).tasks == map[];
    assert RemoveTasksWhere(s.work, OfSource(source)).channels == map[];
  }

  ghost function ModeOf(event: SourceEvent): AssignMode
    requires !event.ClearJobs?
  {
    if event.ReplaceJob? then Replace else Update
  }

  /** A panic empties the books; otherwise they are those a round of offers leaves. */
  lemma AssignedWorkOk(d: State, w: Work, sources: map<SourceId, SourceEntry>, mode: AssignMode, source: SourceId,
                       job: JobTemplate, order: seq<ThreadId>, refused: set<ThreadId>)
    requires Enumerates(order, d.crew.threads.Keys) && WellFormedJob(job) && job.merkleRoot.Computed?
    requires w == if mode == Replace then RemoveTasksWhere(d.work, OfSource(source)) else d.work
    requires d.crew.threads == map[] ==> w == d.work
    requires WorkOk(w, sources, d.crew.threads.Keys)
    requires forall id :: id in d.crew.threads ==> TaskOk(sources, d.crew.threads.Keys, TaskEntry(source, job, id))
    ensures WorkOk(AssignJob(d, mode, source, job, order, refused).work, sources, d.crew.threads.Keys)
  {
    var ids := Eligible(d.crew.threads, order);
    if d.crew.threads != map[] && !TooHard(d, source, job) && ids != [] {
      match SplitParts(job.merkleRoot.template.extranonceRange, |ids|) {
        case None =>
        case Some(ranges) => OfferAllKeeps(w, mode, source, job, ids, ranges, refused, sources, d.crew.threads.Keys);
      }
    }
  }

  /** Handling a job touches nothing but the cache, the books and, by a panic, the end of the run. */
  lemma AssignFrame(d: State, mode: AssignMode, source: SourceId, job: JobTemplate, order: seq<ThreadId>,
                    refused: set<ThreadId>)
    requires Enumerates(order, d.crew.threads.Keys) && WellFormedJob(job)
    ensures var s' := AssignJob(d, mode, source, job, order, refused);
            && s'.sources == (if job.merkleRoot.Computed? then Cache(d.sources, source, Some(job)) else d.sources)
            && s'.crew == d.crew && s'.nextSource == d.nextSource
            && (job.merkleRoot.Fixed? ==> s'.work == d.work)
  {
  }

  lemma InvOfParts(s: State, s': State, sources: map<SourceId, SourceEntry>)
    requires SourcesOk(sources) && (forall id :: id in sources ==> id < s.nextSource) && CrewOk(s.crew)
    requires WorkOk(s'.work, sources, s.crew.threads.Keys)
    requires s'.sources == sources && s'.crew == s.crew && s'.nextSource == s.nextSource
    ensures Inv(s')
  {
  }

  lemma AssignKeeps(s: State, source: SourceId, event: SourceEvent, order: seq<ThreadId>, refused: set<ThreadId>)
    requires Inv(s) && source in s.sources && WellFormedEvent(event) && Enumerates(order, s.crew.threads.Keys)
    requires !event.ClearJobs?
    ensures Inv(AssignJob(Deliver(s, source, event), ModeOf(event), source, event.job, order, refused))
  {
    var d, sources' := Deliver(s, source, event), SourcesAfter(s, source, event);
    TakeUp(s, source, event);
    SourcesAfterIs(s, source, event);
    AssignFrame(d, ModeOf(event), source, event.job, order, refused);
    if event.job.merkleRoot.Computed? {
      if s.crew.threads == map[] {
        NoThreadsNoTasks(s, source);
      }
      TakenKeeps(s.sources[source], event);
      AssignedWorkOk(d, WorkAfter(s, source, event), sources', ModeOf(event), source, event.job, order, refused);
    }
    InvOfParts(s, AssignJob(d, ModeOf(event), source, event.job, order, refused), sources');
  }

  lemma ClearKeeps(s: State, source: SourceId)
    requires Inv(s) && source in s.sources
    ensures Inv(Clear(Deliver(s, source, ClearJobs), source))
  {
    TakeUp(s, source, ClearJobs);
    SourcesAfterIs(s, source, ClearJobs);
  }

  // ---------------------------------------------------------- other arms

  lemma ShareKeeps(s: State, task: TaskId, share: Share)
    requires Inv(s)
    ensures Inv(HandleShare(s, task, share))
  {
    var s' := HandleShare(s, task, share);
    if s' != s {
      var entry := s.work.tasks[task];
      var command := SubmitShare(SourceShare(entry.template.id, share.nonce, share.ntime, share.version,
                                             share.extranonce));
      var source := s.sources[entry.source];
      assert TaskOk(s.sources, s.crew.threads.Keys, entry);
      assert Justified(source.wire, |source.wire|, command.share.jobId);
      SendKeeps(source, command);
      SourcesGrow(s.work, s.sources, s'.sources, s.crew.threads.Keys);
    }
  }

  lemma ReportKeeps(s: State, thread: ThreadId, rate: u64, order: seq<SourceId>, refused: set<SourceId>)
    requires Inv(s)
    ensures Inv(ExpectedReport(s, thread, rate, order, refused))
  {
    if thread in s.crew.threads {
      var s1 := s.(crew := Declare(s.crew, thread, rate));
      assert s1.crew.threads.Keys == s.crew.threads.Keys;
      OfferCachedKeeps(s.work, s.sources, s.crew.threads.Keys, thread, order, refused);
      var s2 := if s.crew.threads[thread].expected.None?
        then s1.(work := OfferCached(s1.work, s1.sources, thread, order, refused)) else s1;
      BroadcastKeeps(s2);
    }
  }

  lemma RegisterSourceKeeps(s: State)
    requires Inv(s)
    ensures Inv(RegisterSource(s))
  {
    var s1 := s.(sources := s.sources[s.nextSource := SourceEntry(None, true, [])], nextSource := s.nextSource + 1);
    SourcesGrow(s.work, s.sources, s1.sources, s.crew.threads.Keys);
    BroadcastKeeps(s1);
  }

  lemma RegistrationKeeps(s: State, registration: ThreadRegistration)
    requires Inv(s)
    ensures Inv(Handle(s, Registration(registration)))
  {
    BroadcastKeeps(s);
    match registration {
      case Thread(token) =>
        var crew' := Enlist(s.crew, token);
        forall id | id in s.work.tasks ensures TaskOk(s.sources, crew'.threads.Keys, s.work.tasks[id]) {
          assert TaskOk(s.sources, s.crew.threads.Keys, s.work.tasks[id]);
        }
      case InitialEnumerationComplete =>
    }
  }

  lemma SettleKeeps(s: State)
    requires Inv(s)
    ensures Inv(Settle(s))
  {
    if |s.crew.streams| != s.crew.lastThreadCount {
      var s1 := s.(crew := Muster(s.crew), work := RemoveTasksWhere(s.work, WithoutStream(s.crew.streams)));
      forall id | id in s1.work.tasks ensures TaskOk(s.sources, s1.crew.threads.Keys, s1.work.tasks[id]) {
        assert TaskOk(s.sources, s.crew.threads.Keys, s.work.tasks[id]);
      }
      BroadcastKeeps(s1);
    }
  }

  lemma HandleKeeps(s: State, arm: Arm)
    requires Inv(s) && Ready(s, arm)
    ensures Inv(Handle(s, arm))
  {
    match arm {
      case SourceRegistered => RegisterSourceKeeps(s);
      case FromSource(source, event, order, refused) =>
        if event.ClearJobs? {
          ClearKeeps(s, source);
        } else {
          AssignKeeps(s, source, event, order, refused);
        }
      case ShareReady(task) => ShareKeeps(s.(work := Popped(s.work, task)), task, s.work.channels[task][0]);
      case ExpectedHashRate(thread, rate, order, refused) => ReportKeeps(s, thread, rate, order, refused);
      case Registration(registration) => RegistrationKeeps(s, registration);
      case GateTimeout => BroadcastKeeps(s);
      case Housekeeping =>
    }
  }

  lemma OutsideKeeps(s: State, event: Event)
    requires Inv(s) && !event.Take?
    ensures Inv(Outside(s, event))
  {
    if event.SourceHangsUp? {
      SourcesGrow(s.work, s.sources, Outside(s, event).sources, s.crew.threads.Keys);
    }
  }

  lemma StepKeeps(s: State, event: Event)
    requires Inv(s)
    ensures Inv(Step(s, event))
  {
    if event.Take? {
      if Ready(s, event.arm) {
        HandleKeeps(s, event.arm);
        SettleKeeps(Handle(s, event.arm));
      }
    } else {
      OutsideKeeps(s, event);
    }
  }

  lemma {:induction false} RunKeeps(events: seq<Event>)
    ensures Inv(Run(Initial, events))
  {
    if events != [] {
      RunKeeps(events[..|events| - 1]);
      StepKeeps(Run(Initial, events[..|events| - 1]), events[|events| - 1]);
    }
  }

  // -------------------------------------------------------- main results

  /**
   * Over any run, every share sent to a source belongs to a job the source delivered at
   * or after its latest ClearJobs or accepted ReplaceJob; and the same holds of every
   * task still on the books, whose source is registered and whose thread is present.
   */
  lemma NoStaleWork(events: seq<Event>, source: SourceId)
    ensures var s := Run(Initial, events);
            && (source in s.sources ==> NoStaleShare(s.sources[source].wire))
            && (forall id :: id in s.work.channels ==> id in s.work.tasks)
            && (forall id :: id in s.work.tasks ==> TaskOk(s.sources, s.crew.threads.Keys, s.work.tasks[id]))
  {
    RunKeeps(events);
    var s := Run(Initial, events);
    if source in s.sources {
      assert SourceOk(s.sources[source]);
    }
  }
}
