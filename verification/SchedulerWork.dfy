/** How work reaches threads: nobody eligible is passed over, and one round never overlaps. */
module SchedulerWork {
  import opened Options
  import opened Extranonces
  import opened Jobs
  import opened Merkle
  import opened SchedulerState
  import opened SchedulerSafety

  // ------------------------------------------------------------- coverage

  /** The latest task offered to a thread for a source. */
  ghost function LastOffer(handoffs: seq<Handoff>, thread: ThreadId, source: SourceId): Option<Handoff> {
    if handoffs == [] then None
    else
      var h := handoffs[|handoffs| - 1];
      if h.thread == thread && h.source == source then Some(h)
      else LastOffer(handoffs[..|handoffs| - 1], thread, source)
  }

  /** The thread was last offered this very job by the source, and unless it refused, the task is on the books. */
  ghost predicate Holds(w: Work, thread: ThreadId, source: SourceId, job: JobTemplate) {
    match LastOffer(w.handoffs, thread, source)
    case None => false
    case Some(h) =>
      && h.task.template == job
      && (h.taskId.Some? ==> h.taskId.value in w.tasks && w.tasks[h.taskId.value] == TaskEntry(source, job, thread))
  }

  /** Every thread that has reported holds the job each source currently has out. */
  ghost predicate Covered(s: State) {
    forall thread, source ::
      thread in s.crew.threads && s.crew.threads[thread].expected.Some? && source in s.sources
          && s.sources[source].lastJob.Some? ==>
        Holds(s.work, thread, source, s.sources[source].lastJob.value)
  }

  /** Ids of tasks on the books have been handed out. */
  ghost predicate Numbered(w: Work) {
    forall id :: id in w.tasks ==> id < w.nextTask
  }

  /** What a thread holds for a source is the same after as before. */
  ghost predicate SameHoldings(w: Work, w': Work, thread: ThreadId, source: SourceId) {
    forall job :: Holds(w, thread, source, job) ==> Holds(w', thread, source, job)
  }

  lemma OfferHolds(w: Work, mode: AssignMode, source: SourceId, job: JobTemplate, thread: ThreadId,
                   range: ExtranonceRange, accepted: bool)
    requires Numbered(w)
    ensures var w' := Offer(w, mode, source, job, thread, range, accepted);
            && Numbered(w') && Holds(w', thread, source, job)
            && forall t, s2 :: t != thread || s2 != source ==> SameHoldings(w, w', t, s2)
  {
    var w' := Offer(w, mode, source, job, thread, range, accepted);
    assert w'.handoffs[..|w'.handoffs| - 1] == w.handoffs;
  }

  lemma {:induction false} OfferAllHolds(w: Work, mode: AssignMode, source: SourceId, job: JobTemplate,
                                         ids: seq<ThreadId>, ranges: seq<ExtranonceRange>, refused: set<ThreadId>)
    requires Numbered(w) && |ids| == |ranges|
    ensures var w' := OfferAll(w, mode, source, job, ids, ranges, refused);
            && Numbered(w')
            && (forall id :: id in ids ==> Holds(w', id, source, job))
            && (forall t, s2 :: t !in ids || s2 != source ==> SameHoldings(w, w', t, s2))
    decreases |ids|
  {
    if ids != [] {
      var w1 := Offer(w, mode, source, job, ids[0], ranges[0], ids[0] !in refused);
      var w' := OfferAll(w, mode, source, job, ids, ranges, refused);
      OfferHolds(w, mode, source, job, ids[0], ranges[0], ids[0] !in refused);
      OfferAllHolds(w1, mode, source, job, ids[1..], ranges[1..], refused);
      assert forall id :: id in ids <==> id == ids[0] || id in ids[1..];
      assert ids[0] !in ids[1..] ==> SameHoldings(w1, w', ids[0], source);
      forall t, s2 | t !in ids || s2 != source ensures SameHoldings(w, w', t, s2) {
        assert SameHoldings(w, w1, t, s2) && SameHoldings(w1, w', t, s2);
      }
    }
  }

  lemma {:induction false} OfferCachedHolds(w: Work, sources: map<SourceId, SourceEntry>, thread: ThreadId,
                                            order: seq<SourceId>, refused: set<SourceId>)
    requires Numbered(w) && SourcesOk(sources)
    ensures var w' := OfferCached(w, sources, thread, order, refused);
            && Numbered(w')
            && (forall id :: id in order && id in sources && sources[id].lastJob.Some? ==>
                Holds(w', thread, id, sources[id].lastJob.value))
            && (forall t, s2 :: t != thread || s2 !in order ==> SameHoldings(w, w', t, s2))
    decreases |order|
  {
    if order != [] {
      var id := order[0];
      var w' := OfferCached(w, sources, thread, order, refused);
      assert forall x :: x in order <==> x == id || x in order[1..];
      if id in sources && sources[id].lastJob.Some? {
        assert SourceOk(sources[id]);
        var job := sources[id].lastJob.value;
        var range := job.merkleRoot.template.extranonceRange;
        var w1 := Offer(w, Update, id, job, thread, range, id !in refused);
        OfferHolds(w, Update, id, job, thread, range, id !in refused);
        OfferCachedHolds(w1, sources, thread, order[1..], refused);
        assert id !in order[1..] ==> SameHoldings(w1, w', thread, id);
        forall t, s2 | t != thread || s2 !in order ensures SameHoldings(w, w', t, s2) {
          assert SameHoldings(w, w1, t, s2) && SameHoldings(w1, w', t, s2);
        }
      } else {
        OfferCachedHolds(w, sources, thread, order[1..], refused);
      }
    }
  }

  /** Removing tasks leaves what a thread holds for a source, if none of those tasks is among them. */
  lemma RemoveSpares(w: Work, p: TaskEntry -> bool, thread: ThreadId, source: SourceId)
    requires forall job :: !p(TaskEntry(source, job, thread))
    ensures SameHoldings(w, RemoveTasksWhere(w, p), thread, source)
  {
  }

  /** Coverage survives when no job and no eligible thread is new, and threads hold what they held. */
  lemma CoveredFrame(s: State, s': State)
    requires Covered(s)
    requires forall thread, source ::
               thread in s'.crew.threads && source in s'.sources && s'.sources[source].lastJob.Some? ==>
               SameHoldings(s.work, s'.work, thread, source)
    requires forall id :: id in s'.crew.threads && s'.crew.threads[id].expected.Some? ==>
               id in s.crew.threads && s.crew.threads[id].expected.Some?
    requires forall id :: id in s'.sources && s'.sources[id].lastJob.Some? ==>
               id in s.sources && s.sources[id].lastJob == s'.sources[id].lastJob
    ensures Covered(s')
  {
  }

  lemma AssignCovers(s: State, source: SourceId, event: SourceEvent, order: seq<ThreadId>, refused: set<ThreadId>)
    requires Covered(s) && Numbered(s.work) && source in s.sources && WellFormedEvent(event)
             && Enumerates(order, s.crew.threads.Keys)
    requires !event.ClearJobs?
    ensures var s' := AssignJob(Deliver(s, source, event), ModeOf(event), source, event.job, order, refused);
            s'.crashed || Covered(s')
  {
    var s' := AssignJob(Deliver(s, source, event), ModeOf(event), source, event.job, order, refused);
    SourcesAfterIs(s, source, event);
    assert s'.sources == SourcesAfter(s, source, event);
    assert s'.crew == s.crew;
    if event.job.merkleRoot.Fixed? {
      CoveredFrame(s, s');
    } else if !s'.crashed {
      var ids := Eligible(s.crew.threads, order);
      if s.crew.threads != map[] && ids != [] {
        RoundCovers(s, s', WorkAfter(s, source, event), source, event, ids, refused);
      } else {
        assert forall thread :: thread in s.crew.threads && s.crew.threads[thread].expected.Some? ==> thread in ids;
      }
    }
  }

  lemma RoundCovers(s: State, s': State, w: Work, source: SourceId, event: SourceEvent, ids: seq<ThreadId>,
                    refused: set<ThreadId>)
    requires Covered(s) && Numbered(s.work) && source in s.sources && WellFormedEvent(event)
    requires !event.ClearJobs? && event.job.merkleRoot.Computed? && w == WorkAfter(s, source, event)
    requires s'.sources == SourcesAfter(s, source, event) && s'.crew == s.crew
    requires SplitParts(event.job.merkleRoot.template.extranonceRange, |ids|).Some?
    requires s'.work == OfferAll(w, ModeOf(event), source, event.job, ids,
                                 SplitParts(event.job.merkleRoot.template.extranonceRange, |ids|).value, refused)
    requires forall id :: id in ids <==> id in s.crew.threads && s.crew.threads[id].expected.Some?
    ensures Covered(s')
  {
    OfferAllHolds(w, ModeOf(event), source, event.job, ids,
                  SplitParts(event.job.merkleRoot.template.extranonceRange, |ids|).value, refused);
    forall thread, id | thread in ids && id in s'.sources && s'.sources[id].lastJob.Some?
      ensures Holds(s'.work, thread, id, s'.sources[id].lastJob.value)
    {
      if id != source {
        RemoveSpares(s.work, OfSource(source), thread, id);
        assert SameHoldings(w, s'.work, thread, id);
      }
    }
  }

  lemma ReportCovers(s: State, thread: ThreadId, rate: u64, order: seq<SourceId>, refused: set<SourceId>)
    requires Inv(s) && Covered(s) && Enumerates(order, s.sources.Keys)
    ensures Covered(ExpectedReport(s, thread, rate, order, refused))
  {
    var s' := ExpectedReport(s, thread, rate, order, refused);
    if thread in s.crew.threads {
      OfferCachedHolds(s.work, s.sources, thread, order, refused);
      forall t, id | t in s'.crew.threads && s'.crew.threads[t].expected.Some? && id in s'.sources
          && s'.sources[id].lastJob.Some?
        ensures Holds(s'.work, t, id, s'.sources[id].lastJob.value)
      {
        assert s'.sources[id].lastJob == s.sources[id].lastJob;
        if t != thread {
          assert SameHoldings(s.work, OfferCached(s.work, s.sources, thread, order, refused), t, id);
        } else if s.crew.threads[thread].expected.None? {
          assert id in order;
        }
      }
    }
  }

  lemma ClearCovers(s: State, source: SourceId)
    requires Covered(s) && source in s.sources
    ensures Covered(Clear(Deliver(s, source, ClearJobs), source))
  {
    var s' := Clear(Deliver(s, source, ClearJobs), source);
    SourcesAfterIs(s, source, ClearJobs);
    forall thread, id | id != source ensures SameHoldings(s.work, s'.work, thread, id) {
      RemoveSpares(s.work, OfSource(source), thread, id);
    }
    CoveredFrame(s, s');
  }

  lemma RegisterSourceCovers(s: State)
    requires Covered(s)
    ensures Covered(RegisterSource(s))
  {
    CoveredFrame(s, RegisterSource(s));
  }

  lemma ShareCovers(s: State, popped: Work, task: TaskId, share: Share)
    requires Covered(s) && popped.handoffs == s.work.handoffs && popped.tasks == s.work.tasks
    ensures Covered(HandleShare(s.(work := popped), task, share))
  {
    CoveredFrame(s, HandleShare(s.(work := popped), task, share));
  }

  lemma TimeoutCovers(s: State)
    requires Covered(s)
    ensures Covered(OpenByTimeout(s))
  {
    CoveredFrame(s, OpenByTimeout(s));
  }

  lemma RegistrationCovers(s: State, registration: ThreadRegistration)
    requires Covered(s)
    ensures Covered(Handle(s, Registration(registration)))
  {
    CoveredFrame(s, Handle(s, Registration(registration)));
  }

  /** A thread that stays keeps its tasks. */
  lemma SettleCovers(s: State)
    requires Covered(s)
    ensures Covered(Settle(s))
  {
    forall thread, source | thread in Settle(s).crew.threads
      ensures SameHoldings(s.work, Settle(s).work, thread, source)
    {
      if |s.crew.streams| != s.crew.lastThreadCount {
        RemoveSpares(s.work, WithoutStream(s.crew.streams), thread, source);
      }
    }
    CoveredFrame(s, Settle(s));
  }

  lemma OutsideCovers(s: State, event: Event)
    requires Covered(s) && !event.Take?
    ensures Covered(Outside(s, event))
  {
    CoveredFrame(s, Outside(s, event));
  }

  lemma HandleCovers(s: State, arm: Arm)
    requires Inv(s) && Covered(s) && Ready(s, arm)
    ensures Handle(s, arm).crashed || Covered(Handle(s, arm))
  {
    match arm {
      case FromSource(source, e, order, refused) =>
        if e.ClearJobs? { ClearCovers(s, source); } else { AssignCovers(s, source, e, order, refused); }
      case ExpectedHashRate(thread, rate, order, refused) => ReportCovers(s, thread, rate, order, refused);
      case SourceRegistered => RegisterSourceCovers(s);
      case ShareReady(task) => ShareCovers(s, Popped(s.work, task), task, s.work.channels[task][0]);
      case Registration(registration) => RegistrationCovers(s, registration);
      case GateTimeout => TimeoutCovers(s);
      case Housekeeping =>
    }
  }

  lemma StepCovers(s: State, event: Event)
    requires Inv(s) && (s.crashed || Covered(s))
    ensures Step(s, event).crashed || Covered(Step(s, event))
  {
    if !s.crashed {
      if event.Take? {
        if Ready(s, event.arm) {
          HandleCovers(s, event.arm);
          if !Handle(s, event.arm).crashed {
            SettleCovers(Handle(s, event.arm));
          }
        }
      } else {
        OutsideCovers(s, event);
      }
    }
  }

  /**
   * No thread is passed over: in every reachable state, every present thread that has
   * reported was last offered, by each source, exactly the job its transcript says it has
   * out, and that task is on the books unless the thread refused it.
   */
  lemma {:induction false} NoThreadPassedOver(events: seq<Event>)
    ensures var s := Run(Initial, events);
            s.crashed ||
            forall thread, source ::
              thread in s.crew.threads && s.crew.threads[thread].expected.Some? && source in s.sources
                  && Cached(s.sources[source].wire).Some? ==>
                Holds(s.work, thread, source, Cached(s.sources[source].wire).value)
  {
    RunCovers(events);
    RunKeeps(events);
    var s := Run(Initial, events);
    assert forall source :: source in s.sources ==> SourceOk(s.sources[source]);
  }

  lemma {:induction false} RunCovers(events: seq<Event>)
    ensures Run(Initial, events).crashed || Covered(Run(Initial, events))
  {
    if events != [] {
      var before := events[..|events| - 1];
      RunCovers(before);
      RunKeeps(before);
      StepCovers(Run(Initial, before), events[|events| - 1]);
    }
  }

  // ---------------------------------------------------------- one round

  /** The offer hands `range` of the job to `thread`, and is booked unless it was refused. */
  ghost predicate IsRoundOffer(h: Handoff, w: Work, mode: AssignMode, source: SourceId, job: JobTemplate,
                          thread: ThreadId, range: ExtranonceRange, refused: bool)
  {
    h.mode == mode && IsPart(h, w, source, job, thread, range, refused)
  }

  /** The offers one call makes, in order: one per eligible thread, each with its own part. */
  lemma {:induction false} OffersOfRound(w: Work, mode: AssignMode, source: SourceId, job: JobTemplate,
                                         ids: seq<ThreadId>, ranges: seq<ExtranonceRange>, refused: set<ThreadId>)
    requires |ids| == |ranges|
    ensures var w' := OfferAll(w, mode, source, job, ids, ranges, refused);
            && |w'.handoffs| == |w.handoffs| + |ids| && w.handoffs <= w'.handoffs && w.nextTask <= w'.nextTask
            && (forall id :: id in w.tasks && id < w.nextTask ==> id in w'.tasks && w'.tasks[id] == w.tasks[id])
            && (forall id :: id in w'.tasks && id < w.nextTask ==> id in w.tasks)
            && forall k :: 0 <= k < |ids| ==>
                 IsRoundOffer(w'.handoffs[|w.handoffs| + k], w', mode, source, job, ids[k], ranges[k],
                              ids[k] in refused)
    decreases |ids|
  {
    if ids != [] {
      var w1 := Offer(w, mode, source, job, ids[0], ranges[0], ids[0] !in refused);
      var w' := OfferAll(w, mode, source, job, ids, ranges, refused);
      OffersOfRound(w1, mode, source, job, ids[1..], ranges[1..], refused);
      forall k | 0 <= k < |ids|
        ensures IsRoundOffer(w'.handoffs[|w.handoffs| + k], w', mode, source, job, ids[k], ranges[k], ids[k] in refused)
      {
        if k > 0 {
          assert IsRoundOffer(w'.handoffs[|w1.handoffs| + (k - 1)], w', mode, source, job, ids[1..][k - 1],
                              ranges[1..][k - 1], ids[1..][k - 1] in refused);
        }
      }
    }
  }

  /** The offers an assignment adds to those made before. */
  ghost function RoundOf(s: State, s': State): seq<Handoff> {
    if |s.work.handoffs| <= |s'.work.handoffs| then s'.work.handoffs[|s.work.handoffs|..] else []
  }

  /** The offer is of one part of the job's range, and is booked unless it was refused. */
  ghost predicate IsPart(h: Handoff, w: Work, source: SourceId, job: JobTemplate, thread: ThreadId,
                         range: ExtranonceRange, refused: bool) {
    && h.thread == thread && h.source == source && h.task == HashTask(job, range, range.Start(), job.time)
    && (h.taskId.Some? <==> !refused)
    && (h.taskId.Some? ==> h.taskId.value in w.tasks && w.tasks[h.taskId.value] == TaskEntry(source, job, thread))
  }

  /** The books an assignment starts offering from. */
  ghost function Cleared(w: Work, mode: AssignMode, source: SourceId): Work {
    if mode == Replace then RemoveTasksWhere(w, OfSource(source)) else w
  }

  lemma AssignOffers(s: State, mode: AssignMode, source: SourceId, job: JobTemplate, order: seq<ThreadId>,
                     refused: set<ThreadId>)
    requires Enumerates(order, s.crew.threads.Keys) && WellFormedJob(job) && job.merkleRoot.Computed?
    requires !AssignJob(s, mode, source, job, order, refused).crashed && Eligible(s.crew.threads, order) != []
    ensures var ids := Eligible(s.crew.threads, order);
            && |ids| <= job.merkleRoot.template.extranonceRange.Len()
            && AssignJob(s, mode, source, job, order, refused).work
            == OfferAll(Cleared(s.work, mode, source), mode, source, job, ids,
                        Parts(job.merkleRoot.template.extranonceRange, |ids|), refused)
  {
    var ids := Eligible(s.crew.threads, order);
    assert ids[0] in ids;
  }

  /** One assignment offers each eligible thread its own part of an exact split of the job's range. */
  lemma RoundShape(s: State, mode: AssignMode, source: SourceId, job: JobTemplate, order: seq<ThreadId>,
                   refused: set<ThreadId>)
    requires Enumerates(order, s.crew.threads.Keys) && WellFormedJob(job) && job.merkleRoot.Computed?
    requires !AssignJob(s, mode, source, job, order, refused).crashed && Eligible(s.crew.threads, order) != []
    ensures var s' := AssignJob(s, mode, source, job, order, refused);
            var ids, round := Eligible(s.crew.threads, order), RoundOf(s, s');
            && |round| == |ids| <= job.merkleRoot.template.extranonceRange.Len()
            && forall i :: 0 <= i < |round| ==>
                 IsRoundOffer(round[i], s'.work, mode, source, job, ids[i],
                              Parts(job.merkleRoot.template.extranonceRange, |ids|)[i], ids[i] in refused)
  {
    AssignOffers(s, mode, source, job, order, refused);
    var ids := Eligible(s.crew.threads, order);
    OffersOfRound(Cleared(s.work, mode, source), mode, source, job, ids,
                  Parts(job.merkleRoot.template.extranonceRange, |ids|), refused);
  }

  /**
   * The work of one assignment never overlaps: coinbases built by two of its offers differ,
   * whatever extranonces the threads roll to.
   */
  lemma RoundDisjoint(s: State, mode: AssignMode, source: SourceId, job: JobTemplate, order: seq<ThreadId>,
                      refused: set<ThreadId>,
                      i: nat, j: nat, a: Extranonce, b: Extranonce)
    requires Enumerates(order, s.crew.threads.Keys) && WellFormedJob(job) && job.merkleRoot.Computed?
    requires !AssignJob(s, mode, source, job, order, refused).crashed && Eligible(s.crew.threads, order) != []
    requires var round := RoundOf(s, AssignJob(s, mode, source, job, order, refused));
             i < |round| && j < |round| && i != j
             && round[i].task.extranonceRange.Contains(a) && round[j].task.extranonceRange.Contains(b)
    ensures Coinbase(job.merkleRoot.template, a) != Coinbase(job.merkleRoot.template, b)
  {
    RoundShape(s, mode, source, job, order, refused);
    var range, n := job.merkleRoot.template.extranonceRange, |Eligible(s.crew.threads, order)|;
    SplitPartition(range, n);
    SplitCoversOnce(range, n, a);
    if Coinbase(job.merkleRoot.template, a) == Coinbase(job.merkleRoot.template, b) {
      CoinbaseInjective(job.merkleRoot.template, a, b);
    }
  }

  /**
   * The work of one assignment misses nothing: every extranonce of the job is in one of its
   * offers, and when no thread refuses, in a task on the books.
   */
  lemma RoundComplete(s: State, mode: AssignMode, source: SourceId, job: JobTemplate, order: seq<ThreadId>,
                      refused: set<ThreadId>, e: Extranonce)
    requires Enumerates(order, s.crew.threads.Keys) && WellFormedJob(job) && job.merkleRoot.Computed?
    requires !AssignJob(s, mode, source, job, order, refused).crashed && Eligible(s.crew.threads, order) != []
    requires job.merkleRoot.template.extranonceRange.Contains(e)
    ensures var s' := AssignJob(s, mode, source, job, order, refused);
            exists i :: 0 <= i < |RoundOf(s, s')| &&
              var h := RoundOf(s, s')[i];
              && h.task.extranonceRange.Contains(e)
              && (h.thread !in refused ==>
                    && h.taskId.Some? && h.taskId.value in s'.work.tasks
                    && s'.work.tasks[h.taskId.value] == TaskEntry(source, job, h.thread))
  {
    RoundShape(s, mode, source, job, order, refused);
    var range, n := job.merkleRoot.template.extranonceRange, |Eligible(s.crew.threads, order)|;
    SplitCoversOnce(range, n, e);
    var i :| 0 <= i < n && Parts(range, n)[i].Contains(e);
    var h := RoundOf(s, AssignJob(s, mode, source, job, order, refused))[i];
    assert h.task.extranonceRange.Contains(e);
  }

  // ------------------------------------------------ header-only replacement

  ghost predicate HasTask(w: Work, source: SourceId, id: TaskId) {
    id in w.tasks && w.tasks[id].source == source
  }

  lemma ReplaceDropsOld(s: State, source: SourceId, job: JobTemplate, order: seq<ThreadId>, refused: set<ThreadId>,
                        id: TaskId)
    requires Inv(s) && source in s.sources && WellFormedJob(job) && Enumerates(order, s.crew.threads.Keys)
    requires job.merkleRoot.Computed? && HasTask(s.work, source, id)
    ensures !HasTask(AssignJob(Deliver(s, source, ReplaceJob(job)), Replace, source, job, order, refused).work, source,
                     id)
  {
    assert TaskOk(s.sources, s.crew.threads.Keys, s.work.tasks[id]);
    AssignDropsOld(Deliver(s, source, ReplaceJob(job)), source, job, order, refused, id);
  }

  lemma AssignDropsOld(d: State, source: SourceId, job: JobTemplate, order: seq<ThreadId>, refused: set<ThreadId>,
                       id: TaskId)
    requires Enumerates(order, d.crew.threads.Keys) && WellFormedJob(job) && job.merkleRoot.Computed?
    requires d.crew.threads != map[] && id < d.work.nextTask && HasTask(d.work, source, id)
    ensures !HasTask(AssignJob(d, Replace, source, job, order, refused).work, source, id)
  {
    var ids, w := Eligible(d.crew.threads, order), RemoveTasksWhere(d.work, OfSource(source));
    assert id !in w.tasks && id < w.nextTask;
    if ids != [] && SplitParts(job.merkleRoot.template.extranonceRange, |ids|).Some? {
      OffersOfRound(w, Replace, source, job, ids, SplitParts(job.merkleRoot.template.extranonceRange, |ids|).value,
                    refused);
    }
  }

  /**
   * A ReplaceJob is documented to invalidate all earlier work of its source. After one is
   * handled no earlier task of the source is left exactly when the job is not header-only,
   * or there was no such task: a header-only job is refused before anything is removed.
   */
  lemma ReplaceInvalidatesExactly(s: State, source: SourceId, job: JobTemplate, order: seq<ThreadId>,
                                  refused: set<ThreadId>)
    requires Inv(s) && Ready(s, FromSource(source, ReplaceJob(job), order, refused))
    ensures var s' := Handle(s, FromSource(source, ReplaceJob(job), order, refused));
            (forall id: nat :: HasTask(s.work, source, id) ==> !HasTask(s'.work, source, id))
            <==> (job.merkleRoot.Computed? || forall id: nat :: !HasTask(s.work, source, id))
  {
    var s' := Handle(s, FromSource(source, ReplaceJob(job), order, refused));
    if job.merkleRoot.Computed? {
      forall id: nat | HasTask(s.work, source, id) ensures !HasTask(s'.work, source, id) {
        ReplaceDropsOld(s, source, job, order, refused, id);
      }
    } else {
      assert s'.work == s.work;
    }
  }

  // ---------------------------------------------------------- late shares

  lemma {:induction false} OfferAllKeepsOld(w: Work, mode: AssignMode, source: SourceId, job: JobTemplate,
                                            ids: seq<ThreadId>, ranges: seq<ExtranonceRange>, refused: set<ThreadId>,
                                            id: TaskId)
    requires |ids| == |ranges| && id < w.nextTask && id in w.tasks && id in w.channels
    ensures var w' := OfferAll(w, mode, source, job, ids, ranges, refused);
            id in w'.tasks && w'.tasks[id] == w.tasks[id] && id in w'.channels && w'.channels[id] == w.channels[id]
    decreases |ids|
  {
    if ids != [] {
      OfferAllKeepsOld(Offer(w, mode, source, job, ids[0], ranges[0], ids[0] !in refused), mode, source, job, ids[1..],
                       ranges[1..], refused, id);
    }
  }

  /** The share, as its source gets it for a task. */
  ghost function AsSubmitted(task: TaskEntry, share: Share): Message {
    Sent(SubmitShare(SourceShare(task.template.id, share.nonce, share.ntime, share.version, share.extranonce)))
  }

  /** Task `id` and its channel are as before. */
  ghost predicate Kept(w: Work, w': Work, id: TaskId)
    requires id in w.tasks && id in w.channels
  {
    && id in w'.tasks && w'.tasks[id] == w.tasks[id]
    && id in w'.channels && w'.channels[id] == w.channels[id]
  }

  /** The task is kept, and a share of it that meets its target goes to the source. */
  ghost predicate StillSubmits(s: State, s': State, id: TaskId, share: Share)
    requires id in s.work.tasks && id in s.work.channels
  {
    var task := s.work.tasks[id];
    && Kept(s.work, s'.work, id)
    && task.source in s'.sources
    && (share.hash <= task.template.shareTarget && s'.sources[task.source].listening ==>
          HandleShare(s', id, share).sources[task.source].wire ==
              s'.sources[task.source].wire + [AsSubmitted(task, share)])
  }

  /**
   * An UpdateJob leaves earlier work valid, in every reachable state: after the whole turn the
   * task of a thread whose stream has not ended is still there, and late shares of it are
   * submitted. Only a panic takes the books away.
   */
  lemma LateShareStillSubmitted(events: seq<Event>, s: State, arm: Arm, id: TaskId, share: Share)
    requires s == Run(Initial, events) && arm.FromSource? && arm.event.UpdateJob? && Ready(s, arm)
    requires id in s.work.tasks && id in s.work.channels && s.work.tasks[id].thread in s.crew.streams
    requires !Step(s, Take(arm)).crashed
    ensures StillSubmits(s, Step(s, Take(arm)), id, share)
  {
    RunKeeps(events);
    assert TaskOk(s.sources, s.crew.threads.Keys, s.work.tasks[id]);
    var d, s1 := Deliver(s, arm.source, arm.event), Handle(s, arm);
    UpdateKeepsTask(d, arm.source, arm.event.job, arm.order, arm.refused, id);
    AssignFrame(d, Update, arm.source, arm.event.job, arm.order, arm.refused);
    SettleKeepsTask(s1, id);
    ShareForwarded(Settle(s1), id, share);
  }

  lemma UpdateKeepsTask(s: State, source: SourceId, job: JobTemplate, order: seq<ThreadId>, refused: set<ThreadId>,
                        id: TaskId)
    requires Enumerates(order, s.crew.threads.Keys) && WellFormedJob(job)
    requires id < s.work.nextTask && id in s.work.tasks && id in s.work.channels
    requires !AssignJob(s, Update, source, job, order, refused).crashed
    ensures Kept(s.work, AssignJob(s, Update, source, job, order, refused).work, id)
  {
    if job.merkleRoot.Computed? && s.crew.threads != map[] {
      var ids := Eligible(s.crew.threads, order);
      if ids != [] && SplitParts(job.merkleRoot.template.extranonceRange, |ids|).Some? {
        OfferAllKeepsOld(s.work, Update, source, job, ids,
                         SplitParts(job.merkleRoot.template.extranonceRange, |ids|).value, refused, id);
      }
    }
  }

  lemma SettleKeepsTask(s: State, id: TaskId)
    requires id in s.work.tasks && id in s.work.channels && s.work.tasks[id].thread in s.crew.streams
    ensures Kept(s.work, Settle(s).work, id) && Settle(s).sources.Keys == s.sources.Keys
  {
  }

  lemma ShareForwarded(s: State, id: TaskId, share: Share)
    requires id in s.work.tasks && s.work.tasks[id].source in s.sources
    ensures var task := s.work.tasks[id];
            share.hash <= task.template.shareTarget && s.sources[task.source].listening ==>
              HandleShare(s, id, share).sources[task.source].wire ==
                  s.sources[task.source].wire + [AsSubmitted(task, share)]
  {
  }
}
