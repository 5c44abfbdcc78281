/** Whom work is offered to and what it leaves alone: rounds over threads, late threads, other sources' tasks. */
module SchedulerOffers {
  import opened Options
  import opened Extranonces
  import opened Jobs
  import opened SchedulerState
  import opened SchedulerSafety
  import opened SchedulerWork

  // ---------------------------------------------------------- one round

  ghost predicate Reported(threads: map<ThreadId, ThreadEntry>, id: ThreadId) {
    id in threads && threads[id].expected.Some?
  }

  ghost predicate Distinct(ids: seq<ThreadId>) {
    forall i, j :: 0 <= i < j < |ids| ==> ids[i] != ids[j]
  }

  lemma DistinctCons(id: ThreadId, rest: seq<ThreadId>)
    requires Distinct(rest) && id !in rest
    ensures Distinct([id] + rest)
  {
  }

  lemma {:induction false} EligibleDistinct(threads: map<ThreadId, ThreadEntry>, order: seq<ThreadId>)
    requires forall id :: id in order ==> id in threads
    requires Distinct(order)
    ensures Distinct(Eligible(threads, order))
  {
    if order != [] {
      EligibleDistinct(threads, order[1..]);
      if threads[order[0]].expected.Some? {
        assert order[0] !in order[1..];
        DistinctCons(order[0], Eligible(threads, order[1..]));
      } else {
        assert Eligible(threads, order) == Eligible(threads, order[1..]);
      }
    }
  }

  /** One assignment makes one offer to every thread that has reported, and none to any other. */
  lemma RoundReachesEachOnce(s: State, mode: AssignMode, source: SourceId, job: JobTemplate, order: seq<ThreadId>,
                             refused: set<ThreadId>)
    requires Enumerates(order, s.crew.threads.Keys) && WellFormedJob(job) && job.merkleRoot.Computed?
    requires !AssignJob(s, mode, source, job, order, refused).crashed && Eligible(s.crew.threads, order) != []
    ensures var round := RoundOf(s, AssignJob(s, mode, source, job, order, refused));
            && (forall id :: Reported(s.crew.threads, id) <==> exists i :: 0 <= i < |round| && round[i].thread == id)
            && (forall i, j :: 0 <= i < j < |round| ==> round[i].thread != round[j].thread)
  {
    RoundShape(s, mode, source, job, order, refused);
    EligibleDistinct(s.crew.threads, order);
    var ids, round := Eligible(s.crew.threads, order), RoundOf(s, AssignJob(s, mode, source, job, order, refused));
    assert forall i :: 0 <= i < |round| ==> round[i].thread == ids[i];
    OneOfferEach(s.crew.threads, ids, round);
  }

  lemma OneOfferEach(threads: map<ThreadId, ThreadEntry>, ids: seq<ThreadId>, round: seq<Handoff>)
    requires |ids| == |round| && Distinct(ids) && forall i :: 0 <= i < |round| ==> round[i].thread == ids[i]
    requires forall id :: Reported(threads, id) <==> id in ids
    ensures forall id :: Reported(threads, id) <==> exists i :: 0 <= i < |round| && round[i].thread == id
    ensures forall i, j :: 0 <= i < j < |round| ==> round[i].thread != round[j].thread
  {
    forall id | id in ids ensures exists i :: 0 <= i < |round| && round[i].thread == id {
      var i :| 0 <= i < |ids| && ids[i] == id;
      assert round[i].thread == id;
    }
  }

  // ---------------------------------------------------------- late threads

  /** An offer of a source's cached job to a thread that has just become eligible: all of its extranonces. */
  ghost predicate LateOffer(h: Handoff, w: Work, sources: map<SourceId, SourceEntry>, thread: ThreadId,
                            refused: set<SourceId>)
  {
    && HasJob(sources, h.source) && h.mode == Update
    && var job := sources[h.source].lastJob.value;
       IsPart(h, w, h.source, job, thread, job.merkleRoot.template.extranonceRange, h.source in refused)
  }

  ghost predicate HasJob(sources: map<SourceId, SourceEntry>, source: SourceId) {
    source in sources && sources[source].lastJob.Some? && sources[source].lastJob.value.merkleRoot.Computed?
  }

  ghost predicate LateRound(w: Work, w': Work, sources: map<SourceId, SourceEntry>, thread: ThreadId,
                            order: seq<SourceId>, refused: set<SourceId>)
  {
    && w.handoffs <= w'.handoffs && w.nextTask <= w'.nextTask
    && (forall id :: id in w.tasks && id < w.nextTask ==> id in w'.tasks && w'.tasks[id] == w.tasks[id])
    && (forall i :: |w.handoffs| <= i < |w'.handoffs| ==>
          w'.handoffs[i].source in order && LateOffer(w'.handoffs[i], w', sources, thread, refused))
    && (forall i, j :: |w.handoffs| <= i < j < |w'.handoffs| ==> w'.handoffs[i].source != w'.handoffs[j].source)
    && (forall id :: id in order && HasJob(sources, id) ==>
          exists i :: |w.handoffs| <= i < |w'.handoffs| && w'.handoffs[i].source == id)
  }

  lemma {:induction false} OfferCachedRound(w: Work, sources: map<SourceId, SourceEntry>, thread: ThreadId,
                                            order: seq<SourceId>, refused: set<SourceId>)
    requires forall i, j :: 0 <= i < j < |order| ==> order[i] != order[j]
    ensures LateRound(w, OfferCached(w, sources, thread, order, refused), sources, thread, order, refused)
    decreases |order|
  {
    if order != [] {
      var source, rest := order[0], order[1..];
      assert source !in rest && forall id :: id in order <==> id == source || id in rest;
      var w' := OfferCached(w, sources, thread, order, refused);
      if HasJob(sources, source) {
        var job := sources[source].lastJob.value;
        var w1 := Offer(w, Update, source, job, thread, job.merkleRoot.template.extranonceRange, source !in refused);
        OfferCachedRound(w1, sources, thread, rest, refused);
        LateFirst(w, w1, w', sources, thread, source, rest, refused);
      } else {
        OfferCachedRound(w, sources, thread, rest, refused);
      }
    }
  }

  lemma LateFirst(w: Work, w1: Work, w': Work, sources: map<SourceId, SourceEntry>, thread: ThreadId, source: SourceId,
                  rest: seq<SourceId>, refused: set<SourceId>)
    requires HasJob(sources, source) && source !in rest
    requires var job := sources[source].lastJob.value;
             w1 == Offer(w, Update, source, job, thread, job.merkleRoot.template.extranonceRange, source !in refused)
    requires LateRound(w1, w', sources, thread, rest, refused)
    ensures LateRound(w, w', sources, thread, [source] + rest, refused)
  {
    var n := |w.handoffs|;
    assert w'.handoffs[n] == w1.handoffs[n];
    assert LateOffer(w'.handoffs[n], w', sources, thread, refused);
    forall id | id in [source] + rest && HasJob(sources, id)
      ensures exists i :: n <= i < |w'.handoffs| && w'.handoffs[i].source == id
    {
      if id == source {
        assert w'.handoffs[n].source == id;
      } else {
        var i :| |w1.handoffs| <= i < |w'.handoffs| && w'.handoffs[i].source == id;
      }
    }
  }

  /**
   * A thread's first report gets it, from each source that has a job out, that job with all
   * of its extranonces, once each; a later report changes nothing about the work.
   */
  lemma LateThreadGetsAll(events: seq<Event>, arm: Arm)
    requires Ready(Run(Initial, events), arm) && arm.ExpectedHashRate?
    ensures var s := Run(Initial, events);
            var w' := Handle(s, arm).work;
            && arm.thread in s.crew.threads
            && (s.crew.threads[arm.thread].expected.None? ==>
                  LateRound(s.work, w', s.sources, arm.thread, arm.sourceOrder, arm.unable))
            && (s.crew.threads[arm.thread].expected.Some? ==> w' == s.work)
  {
    RunKeeps(events);
    var s := Run(Initial, events);
    OfferCachedRound(s.work, s.sources, arm.thread, arm.sourceOrder, arm.unable);
  }

  // ---------------------------------------------------------- other sources

  /** The tasks of every source but `source` are as before, and so are their channels. */
  ghost predicate OthersSpared(w: Work, w': Work, source: SourceId) {
    forall id :: id in w.tasks && w.tasks[id].source != source ==>
      && id in w'.tasks && w'.tasks[id] == w.tasks[id]
      && (id in w.channels ==> id in w'.channels && w'.channels[id] == w.channels[id])
  }

  lemma {:induction false} OfferAllSpares(w: Work, mode: AssignMode, source: SourceId, job: JobTemplate,
                                          ids: seq<ThreadId>, ranges: seq<ExtranonceRange>, refused: set<ThreadId>)
    requires |ids| == |ranges| && Numbered(w)
    ensures OthersSpared(w, OfferAll(w, mode, source, job, ids, ranges, refused), source)
    decreases |ids|
  {
    if ids != [] {
      var w1 := Offer(w, mode, source, job, ids[0], ranges[0], ids[0] !in refused);
      OfferAllSpares(w1, mode, source, job, ids[1..], ranges[1..], refused);
    }
  }

  lemma AssignSpares(s: State, mode: AssignMode, source: SourceId, job: JobTemplate, order: seq<ThreadId>,
                     refused: set<ThreadId>)
    requires Enumerates(order, s.crew.threads.Keys) && WellFormedJob(job) && Numbered(s.work)
    requires !AssignJob(s, mode, source, job, order, refused).crashed
    ensures OthersSpared(s.work, AssignJob(s, mode, source, job, order, refused).work, source)
  {
    if job.merkleRoot.Computed? && s.crew.threads != map[] && Eligible(s.crew.threads, order) != [] {
      AssignOffers(s, mode, source, job, order, refused);
      var ids := Eligible(s.crew.threads, order);
      OfferAllSpares(Cleared(s.work, mode, source), mode, source, job, ids,
                     Parts(job.merkleRoot.template.extranonceRange, |ids|), refused);
    }
  }

  /** A header-only job is recorded on the transcript, and changes nothing else. */
  lemma HeaderOnlyIgnored(s: State, arm: Arm)
    requires Ready(s, arm) && arm.FromSource? && !arm.event.ClearJobs? && arm.event.job.merkleRoot.Fixed?
    ensures var s' := Handle(s, arm);
            && s'.(sources := s.sources) == s && s'.sources.Keys == s.sources.Keys
            && (forall id :: id in s.sources && id != arm.source ==> s'.sources[id] == s.sources[id])
            && s'.sources[arm.source] ==
                 s.sources[arm.source].(wire := s.sources[arm.source].wire + [Received(arm.event)])
  {
  }

  /** In every reachable state, an event of one source leaves the work of every other as it was, short of a panic. */
  lemma EventsSpareOtherSources(events: seq<Event>, arm: Arm)
    requires Ready(Run(Initial, events), arm) && arm.FromSource? && !Handle(Run(Initial, events), arm).crashed
    ensures OthersSpared(Run(Initial, events).work, Handle(Run(Initial, events), arm).work, arm.source)
  {
    RunKeeps(events);
    var s := Run(Initial, events);
    var d := Deliver(s, arm.source, arm.event);
    if !arm.event.ClearJobs? {
      AssignSpares(d, ModeOf(arm.event), arm.source, arm.event.job, arm.order, arm.refused);
    }
  }
}
