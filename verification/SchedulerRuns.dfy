/** Building runs step by step, and one in which the scheduler leaves work it was told to replace. */
module SchedulerRuns {
  import opened Options
  import opened Extranonces
  import opened Jobs
  import opened SchedulerState
  import Difficulties

  // ----------------------------------------------- header-only replacement

  const FIRST: JobTemplate :=
    JobTemplate("first", [], VersionTemplate(0, 0), 0, Difficulties.TARGET_MAX, 0,
                Computed(MerkleRootTemplate([], [], ExtranonceRange(0, 255, 1), [], [])))
  const SECOND: JobTemplate := FIRST.(id := "second", merkleRoot := Fixed([]))
  const SHARE: Share := Share(1, 1, 0, 0, None)

  const UPDATE: Arm := FromSource(0, UpdateJob(FIRST), [0], {})
  const REPLACE: Arm := FromSource(0, ReplaceJob(SECOND), [0], {})

  /** One source with its transcript, and one thread that has reported or not. */
  ghost predicate Crewed(s: State, wire: seq<Message>, last: Option<JobTemplate>, rate: Option<u64>) {
    && s.sources.Keys == {0} && s.sources[0] == SourceEntry(last, true, wire)
    && s.crew.threads.Keys == {0} && s.crew.threads[0] == ThreadEntry(rate)
    && s.crew.streams == {0} && s.crew.lastThreadCount == 1
    && s.startup.gate == Gate(1, if rate.None? then 0 else 1, false, false) && !s.crashed
  }

  ghost predicate Idle(s: State) {
    s.work.tasks == map[] && s.work.channels == map[] && s.work.nextTask == 0
  }

  /** The thread works for the first job, and its shares wait in `queue`. */
  ghost predicate Working(s: State, queue: seq<Share>) {
    && 0 in s.work.tasks && s.work.tasks[0] == TaskEntry(0, FIRST, 0)
    && 0 in s.work.channels && s.work.channels[0] == queue
  }

  lemma SourceJoins(s: State)
    requires s == Initial
    ensures var s' := Step(s, Take(SourceRegistered));
            s'.sources.Keys == {0} && s'.sources[0] == SourceEntry(None, true, []) && Idle(s') && s'.crew == s.crew
                && s'.startup == s.startup && !s'.crashed
  {
  }

  lemma ThreadJoins(s: State)
    requires s.sources.Keys == {0} && s.sources[0] == SourceEntry(None, true, []) && Idle(s)
    requires s.crew == Initial.crew && s.startup == Initial.startup && !s.crashed
    ensures var s' := Step(s, Take(Registration(Thread(7)))); Crewed(s', [], None, None) && Idle(s')
  {
    var arm := Registration(Thread(7));
    assert Handle(s, arm).crew.streams == {0};
  }

  lemma ThreadReports(s: State)
    requires Crewed(s, [], None, None) && Idle(s)
    ensures var s' := Step(s, Take(ExpectedHashRate(0, 5, [0], {}))); Crewed(s', [], None, Some(5)) && Idle(s')
  {
    var arm := ExpectedHashRate(0, 5, [0], {});
    assert Ready(s, arm);
    assert [0][1..] == [];
  }

  lemma FirstAssigned(s: State)
    requires Crewed(s, [], None, Some(5)) && Idle(s)
    ensures var s' := Step(s, Take(UPDATE));
            && Crewed(s', [Received(UpdateJob(FIRST))], Some(FIRST), Some(5))
            && Working(s', [])
  {
    assert Ready(s, UPDATE);
    FirstTaken(Deliver(s, 0, UpdateJob(FIRST)), [Received(UpdateJob(FIRST))]);
  }

  lemma FirstTaken(s: State, wire: seq<Message>)
    requires Crewed(s, wire, None, Some(5)) && Idle(s) && Enumerates([0], s.crew.threads.Keys)
    ensures var s' := AssignJob(s, Update, 0, FIRST, [0], {}); Crewed(s', wire, Some(FIRST), Some(5)) && Working(s', [])
  {
    Difficulties.EasyAtEveryRate(FIRST.shareTarget, ExpectedHashrate(s.crew));
    OneEligible(s.crew.threads);
    var ranges := OnePart();
    OneTask(s.work, ranges);
  }

  lemma OneEligible(threads: map<ThreadId, ThreadEntry>)
    requires threads.Keys == {0} && threads[0] == ThreadEntry(Some(5))
    ensures Eligible(threads, [0]) == [0]
  {
    assert [0][1..] == [];
  }

  lemma OnePart() returns (ranges: seq<ExtranonceRange>)
    ensures |ranges| == 1 && SplitParts(ExtranonceRange(0, 255, 1), 1) == Some(ranges)
  {
    ranges := Parts(ExtranonceRange(0, 255, 1), 1);
  }

  lemma OneTask(w: Work, ranges: seq<ExtranonceRange>)
    requires |ranges| == 1 && w.nextTask == 0
    ensures var w' := OfferAll(w, Update, 0, FIRST, [0], ranges, {});
            && 0 in w'.tasks && w'.tasks[0] == TaskEntry(0, FIRST, 0) && 0 in w'.channels && w'.channels[0] == []
  {
    assert [0][1..] == [] && ranges[1..] == [];
  }

  lemma ReplaceRefused(s: State)
    requires Crewed(s, [Received(UpdateJob(FIRST))], Some(FIRST), Some(5)) && Working(s, [])
    ensures var s' := Step(s, Take(REPLACE));
            Crewed(s', [Received(UpdateJob(FIRST)), Received(ReplaceJob(SECOND))], Some(FIRST), Some(5))
                && Working(s', [])
  {
    assert Ready(s, REPLACE);
  }

  lemma ShareQueued(s: State, wire: seq<Message>)
    requires Crewed(s, wire, Some(FIRST), Some(5)) && Working(s, [])
    ensures var s' := Step(s, ShareSent(0, SHARE)); Crewed(s', wire, Some(FIRST), Some(5)) && Working(s', [SHARE])
  {
  }

  lemma ShareSubmitted(s: State, wire: seq<Message>)
    requires Crewed(s, wire, Some(FIRST), Some(5)) && Working(s, [SHARE])
    ensures var s' := Step(s, Take(ShareReady(0)));
            Crewed(s', wire + [Sent(SubmitShare(SourceShare("first", 1, 0, 0, None)))], Some(FIRST), Some(5))
  {
    assert Ready(s, ShareReady(0));
  }

  lemma RunSnoc(events: seq<Event>, e: Event)
    ensures Run(Initial, events + [e]) == Step(Run(Initial, events), e)
  {
    assert (events + [e])[..|events|] == events;
  }

  /** The state after these events, one at a time. */
  ghost predicate Leads(events: seq<Event>, s: State) {
    Run(Initial, events) == s
  }

  lemma Onward(events: seq<Event>, s: State, e: Event)
    requires Leads(events, s)
    ensures Leads(events + [e], Step(s, e))
  {
    RunSnoc(events, e);
  }

  lemma Go(events: seq<Event>, s: State, e: Event) returns (events': seq<Event>, s': State)
    requires Leads(events, s)
    ensures Leads(events', s') && s' == Step(s, e)
  {
    Onward(events, s, e);
    events', s' := events + [e], Step(s, e);
  }

  lemma Begin() returns (events: seq<Event>, s: State)
    ensures Leads(events, s) && Crewed(s, [Received(UpdateJob(FIRST))], Some(FIRST), Some(5)) && Working(s, [])
  {
    SourceJoins(Initial);
    events, s := Go([], Initial, Take(SourceRegistered));
    ThreadJoins(s);
    events, s := Go(events, s, Take(Registration(Thread(7))));
    ThreadReports(s);
    events, s := Go(events, s, Take(ExpectedHashRate(0, 5, [0], {})));
    FirstAssigned(s);
    events, s := Go(events, s, Take(UPDATE));
  }

  /**
   * The documented invalidation fails for a header-only job: in this run a source replaces
   * its job by one, and is then sent a share of the job it replaced. No step of it panics.
   */
  lemma StaleShareAfterHeaderOnly() returns (events: seq<Event>, s: State)
    ensures Leads(events, s) && !s.crashed && s.sources.Keys == {0}
    ensures s.sources[0].wire == [Received(UpdateJob(FIRST)), Received(ReplaceJob(SECOND)),
                                  Sent(SubmitShare(SourceShare(FIRST.id, 1, 0, 0, None)))]
  {
    events, s := Begin();
    ReplaceRefused(s);
    events, s := Go(events, s, Take(REPLACE));
    var wire := [Received(UpdateJob(FIRST)), Received(ReplaceJob(SECOND))];
    ShareQueued(s, wire);
    events, s := Go(events, s, ShareSent(0, SHARE));
    ShareSubmitted(s, wire);
    events, s := Go(events, s, Take(ShareReady(0)));
  }
}
