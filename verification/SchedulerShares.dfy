/** Where the shares a source is sent come from: a task whose own job is valid at that moment. */
module SchedulerShares {
  import opened Options
  import opened Extranonces
  import opened Jobs
  import opened SchedulerState
  import opened SchedulerSafety
  import opened SchedulerWork

  ghost predicate IsShare(m: Message) {
    m.Sent? && m.command.SubmitShare?
  }

  /** The transcript has grown, but by no share. */
  ghost predicate Quiet(before: seq<Message>, after: seq<Message>) {
    before <= after && forall i :: |before| <= i < |after| ==> !IsShare(after[i])
  }

  ghost function WireOf(sources: map<SourceId, SourceEntry>, source: SourceId): seq<Message> {
    if source in sources then sources[source].wire else []
  }

  /** No source's transcript has grown by a share. */
  ghost predicate AllQuiet(sources: map<SourceId, SourceEntry>, sources': map<SourceId, SourceEntry>) {
    forall source :: Quiet(WireOf(sources, source), WireOf(sources', source))
  }

  lemma QuietThen(a: map<SourceId, SourceEntry>, b: map<SourceId, SourceEntry>, c: map<SourceId, SourceEntry>)
    requires AllQuiet(a, b) && AllQuiet(b, c)
    ensures AllQuiet(a, c)
  {
    forall source ensures Quiet(WireOf(a, source), WireOf(c, source)) {
      assert Quiet(WireOf(a, source), WireOf(b, source)) && Quiet(WireOf(b, source), WireOf(c, source));
    }
  }

  lemma TellingIsQuiet(sources: map<SourceId, SourceEntry>, rate: nat)
    ensures AllQuiet(sources, TellAll(sources, rate))
  {
  }

  lemma SettlingIsQuiet(s: State)
    ensures AllQuiet(s.sources, Settle(s).sources)
  {
    TellingIsQuiet(s.sources, ExpectedHashrate(Muster(s.crew)));
  }

  lemma SourceArmIsQuiet(s: State, source: SourceId, event: SourceEvent, order: seq<ThreadId>, refused: set<ThreadId>)
    requires Ready(s, FromSource(source, event, order, refused))
    ensures AllQuiet(s.sources, Handle(s, FromSource(source, event, order, refused)).sources)
  {
    var d := Deliver(s, source, event);
    if !event.ClearJobs? {
      AssignFrame(d, ModeOf(event), source, event.job, order, refused);
    }
  }

  lemma RegisteringIsQuiet(s: State)
    requires forall id :: id in s.sources ==> id < s.nextSource
    ensures AllQuiet(s.sources, RegisterSource(s).sources)
  {
    var sources := s.sources[s.nextSource := SourceEntry(None, true, [])];
    TellingIsQuiet(sources, ExpectedHashrate(s.crew));
    QuietThen(s.sources, sources, TellAll(sources, ExpectedHashrate(s.crew)));
  }

  lemma RegistrationIsQuiet(s: State, registration: ThreadRegistration)
    ensures AllQuiet(s.sources, Handle(s, Registration(registration)).sources)
  {
    TellingIsQuiet(s.sources, ExpectedHashrate(s.crew));
  }

  lemma ReportIsQuiet(s: State, thread: ThreadId, rate: u64, order: seq<SourceId>, refused: set<SourceId>)
    ensures AllQuiet(s.sources, ExpectedReport(s, thread, rate, order, refused).sources)
  {
    TellingIsQuiet(s.sources, ExpectedHashrate(Declare(s.crew, thread, rate)));
  }

  lemma ArmIsQuiet(s: State, arm: Arm)
    requires Inv(s) && Ready(s, arm) && !arm.ShareReady?
    ensures AllQuiet(s.sources, Handle(s, arm).sources)
  {
    match arm {
      case SourceRegistered => RegisteringIsQuiet(s);
      case FromSource(source, event, order, refused) => SourceArmIsQuiet(s, source, event, order, refused);
      case ExpectedHashRate(thread, rate, order, refused) => ReportIsQuiet(s, thread, rate, order, refused);
      case Registration(registration) => RegistrationIsQuiet(s, registration);
      case GateTimeout => TellingIsQuiet(s.sources, ExpectedHashrate(s.crew));
      case Housekeeping =>
    }
  }

  /** In any step but one that takes a share, no source is sent one. */
  lemma OthersAreQuiet(s: State, event: Event)
    requires Inv(s) && !(event.Take? && event.arm.ShareReady?)
    ensures AllQuiet(s.sources, Step(s, event).sources)
  {
    if event.Take? && !s.crashed && Ready(s, event.arm) {
      ArmIsQuiet(s, event.arm);
      SettlingIsQuiet(Handle(s, event.arm));
      QuietThen(s.sources, Handle(s, event.arm).sources, Settle(Handle(s, event.arm)).sources);
    }
  }

  /** The share at the front of task `id`'s channel is for a job of `source` that is valid now, and meets its target. */
  ghost predicate Submits(s: State, id: TaskId, source: SourceId, m: Message) {
    && Ready(s, ShareReady(id)) && id in s.work.tasks && source in s.sources
    && var task, share := s.work.tasks[id], s.work.channels[id][0];
       && task.source == source && share.hash <= task.template.shareTarget
       && Live(s.sources[source].wire, |s.sources[source].wire|, task.template)
       && m == AsSubmitted(task, share)
  }

  /** A step that takes a share sends it to the task's source or to nobody. */
  lemma ShareArm(s: State, id: TaskId, source: SourceId)
    requires Inv(s) && Ready(s, ShareReady(id))
    ensures var wire, wire' := WireOf(s.sources, source), WireOf(Handle(s, ShareReady(id)).sources, source);
            wire' == wire || exists m :: wire' == wire + [m] && Submits(s, id, source, m)
  {
    if id in s.work.tasks {
      var task, share := s.work.tasks[id], s.work.channels[id][0];
      assert TaskOk(s.sources, s.crew.threads.Keys, task);
      if WireOf(Handle(s, ShareReady(id)).sources, source) != WireOf(s.sources, source) {
        assert Submits(s, id, source, AsSubmitted(task, share));
      }
    }
  }

  /** Event `k` of the run sent share `m` to `source`, as message `i` of its transcript. */
  ghost predicate SentBy(events: seq<Event>, k: nat, source: SourceId, wire: seq<Message>, m: Message)
    requires k < |events|
  {
    && events[k].Take? && events[k].arm.ShareReady?
    && WireOf(Run(Initial, events[..k]).sources, source) == wire
    && Submits(Run(Initial, events[..k]), events[k].arm.task, source, m)
  }

  /** Whatever shares a step adds to the transcript come from the task the step serves. */
  ghost predicate Grows(s: State, event: Event, source: SourceId, wire: seq<Message>, wire': seq<Message>) {
    && wire <= wire'
    && forall i :: |wire| <= i < |wire'| && IsShare(wire'[i]) ==>
         i == |wire| && event.Take? && event.arm.ShareReady? && Submits(s, event.arm.task, source, wire'[i])
  }

  lemma StepGrows(s: State, event: Event, source: SourceId)
    requires Inv(s)
    ensures Grows(s, event, source, WireOf(s.sources, source), WireOf(Step(s, event).sources, source))
  {
    if event.Take? && event.arm.ShareReady? {
      if !s.crashed && Ready(s, event.arm) {
        ShareArm(s, event.arm.task, source);
        SettlingIsQuiet(Handle(s, event.arm));
        assert Quiet(WireOf(Handle(s, event.arm).sources, source), WireOf(Step(s, event).sources, source));
      }
    } else {
      OthersAreQuiet(s, event);
      assert Quiet(WireOf(s.sources, source), WireOf(Step(s, event).sources, source));
    }
  }

  lemma SentEarlier(before: seq<Event>, event: Event, k: nat, source: SourceId, wire: seq<Message>, m: Message)
    requires k < |before| && SentBy(before, k, source, wire, m)
    ensures SentBy(before + [event], k, source, wire, m)
  {
    assert (before + [event])[..k] == before[..k];
  }

  lemma SentNow(before: seq<Event>, event: Event, source: SourceId, m: Message)
    requires event.Take? && event.arm.ShareReady? && Submits(Run(Initial, before), event.arm.task, source, m)
    ensures SentBy(before + [event], |before|, source, WireOf(Run(Initial, before).sources, source), m)
  {
    assert (before + [event])[..|before|] == before;
  }

  /**
   * Over any run, every share a source was sent was taken from the channel of a task of that
   * source which was then on the books, met that task's target, and the task's own job was
   * delivered at or after the invalidation latest before it; ids play no part.
   */
  lemma {:induction false} SharesComeFromLiveTasks(events: seq<Event>, source: SourceId, i: nat)
    requires var wire := WireOf(Run(Initial, events).sources, source); i < |wire| && IsShare(wire[i])
    ensures var wire := WireOf(Run(Initial, events).sources, source);
            exists k: nat :: k < |events| && SentBy(events, k, source, wire[..i], wire[i])
  {
    if events != [] {
      var before, event := events[..|events| - 1], events[|events| - 1];
      assert events == before + [event];
      var s := Run(Initial, before);
      var wire, wire' := WireOf(s.sources, source), WireOf(Run(Initial, events).sources, source);
      RunKeeps(before);
      StepGrows(s, event, source);
      if i < |wire| {
        SharesComeFromLiveTasks(before, source, i);
        var k: nat :| k < |before| && SentBy(before, k, source, wire[..i], wire[i]);
        assert wire'[..i] == wire[..i];
        SentEarlier(before, event, k, source, wire[..i], wire[i]);
      } else {
        assert wire'[..i] == wire;
        SentNow(before, event, source, wire'[i]);
      }
    }
  }
}
