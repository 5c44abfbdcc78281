/** What one turn of the event loop does about threads whose streams ended, and what it tells the sources. */
module SchedulerTurns {
  import opened Options
  import opened Extranonces
  import opened Jobs
  import opened SchedulerState
  import opened SchedulerSafety
  import opened SchedulerShares
  import opened SchedulerStartup
  import opened SchedulerWork
  import opened SchedulerRuns
  import Backplane
  import SchedulerRates

  // -------------------------------------------------------- disconnections

  /** The arm left the number of streams different from the count the scheduler goes by. */
  ghost predicate CountChanged(crew: Crew) {
    |crew.streams| != crew.lastThreadCount
  }

  /** Only threads with a stream are left, each as it was. */
  ghost predicate OnlyLive(before: Crew, after: Crew) {
    && after.threads.Keys == after.streams == before.streams
    && forall id :: id in after.threads ==> id in before.threads && after.threads[id] == before.threads[id]
  }

  /** Exactly the tasks of threads with a stream are left, each with its channel as it was. */
  ghost predicate OnlyLiveWork(before: Work, after: Work, streams: set<ThreadId>) {
    && (forall id :: id in after.tasks <==> id in before.tasks && before.tasks[id].thread in streams)
    && (forall id :: id in after.tasks ==> after.tasks[id] == before.tasks[id])
    && (forall id :: id in after.channels <==> id in before.channels && id in after.tasks)
    && (forall id :: id in after.channels ==> after.channels[id] == before.channels[id])
    && after.nextTask == before.nextTask && after.handoffs == before.handoffs
  }

  /**
   * What a turn in state `s`, whose arm led to `s1`, leaves as `s'`: the count is that of the
   * streams; where it had changed, the threads and the work are those with a stream, and
   * every source that listens is told their rate; where it had not, nothing more happens.
   */
  ghost predicate Settled(s1: State, s': State) {
    && s'.crew.lastThreadCount == |s'.crew.streams|
    && (if CountChanged(s1.crew) then
          && OnlyLive(s1.crew, s'.crew) && OnlyLiveWork(s1.work, s'.work, s1.crew.streams)
          && AllTold(s1.sources, s'.sources, ExpectedHashrate(s'.crew))
        else s' == s1)
    && s'.startup == s1.startup && s'.now == s1.now && s'.nextSource == s1.nextSource
    && s'.crew.registry == s1.crew.registry && s'.crew.reporters == s1.crew.reporters
  }

  /** The source was sent these messages if it listens, and none if it does not; nothing else about it changed. */
  ghost predicate WasSent(before: SourceEntry, after: SourceEntry, messages: seq<Message>) {
    && after.wire == before.wire + (if before.listening then messages else [])
    && after.lastJob == before.lastJob && after.listening == before.listening
  }

  ghost predicate AllTold(before: map<SourceId, SourceEntry>, after: map<SourceId, SourceEntry>, rate: nat) {
    && after.Keys == before.Keys
    && forall id :: id in before ==> WasSent(before[id], after[id], [Sent(UpdateHashRate(rate))])
  }

  /** One turn, in a state that keeps the invariant. */
  lemma TurnSettles(s: State, arm: Arm)
    requires Inv(s) && !s.crashed && Ready(s, arm) && !Step(s, Take(arm)).crashed
    ensures Settled(Handle(s, arm), Step(s, Take(arm)))
  {
    HandleKeeps(s, arm);
    SettlingIs(Handle(s, arm));
  }

  lemma SettlingIs(s1: State)
    requires Inv(s1)
    ensures Settled(s1, Settle(s1))
  {
  }

  /** In every reachable state, every turn that does not panic ends so. */
  lemma DisconnectionsCleared(events: seq<Event>, arm: Arm)
    ensures var s := Run(Initial, events);
            !s.crashed && Ready(s, arm) && !Step(s, Take(arm)).crashed ==> Settled(Handle(s, arm), Step(s, Take(arm)))
  {
    RunKeeps(events);
    var s := Run(Initial, events);
    if !s.crashed && Ready(s, arm) && !Step(s, Take(arm)).crashed {
      TurnSettles(s, arm);
    }
  }
  /** A registration re-bases the count: it is never taken for a disconnection, and hides one not yet noticed. */
  lemma RegistrationRebases(s: State, token: nat)
    requires Inv(s)
    ensures var s1 := Handle(s, Registration(Thread(token)));
            && s1.crew.streams == s.crew.streams + {|s.crew.registry|} && |s1.crew.streams| == |s.crew.streams| + 1
            && s1.crew.threads == s.crew.threads[|s.crew.registry| := ThreadEntry(None)]
            && !CountChanged(s1.crew)
  {
    HandleEffects(s, Registration(Thread(token)));
    assert |s.crew.registry| !in s.crew.streams;
  }

  /** Threads are counted as they join: no registration is taken while a stream has ended unnoticed. */
  ghost predicate JoinsCounted(events: seq<Event>) {
    forall k: nat :: k < |events| && events[k].Take? && events[k].arm.Registration? ==>
      !CountChanged(Run(Initial, events[..k]).crew)
  }

  lemma StepCounts(s: State, event: Event)
    requires CrewOk(s.crew) && s.crew.lastThreadCount == |s.crew.threads|
    requires event.Take? && event.arm.Registration? ==> !CountChanged(s.crew)
    ensures var s' := Step(s, event);
            && s'.crew.lastThreadCount == |s'.crew.threads|
            && (event.Take? && !s'.crashed && Ready(s, event.arm) ==> s'.crew.threads.Keys == s'.crew.streams)
  {
    var s' := Step(s, event);
    if event.Take? && !s.crashed && Ready(s, event.arm) {
      HandleEffects(s, event.arm);
      var s1 := Handle(s, event.arm);
      CrewCounts(s.crew, event.arm, CrewAfter(s, event.arm), s);
      if !s1.crashed {
        SettleCounts(s1);
      }
    }
  }

  lemma SettleCounts(s1: State)
    requires s1.crew.streams <= s1.crew.threads.Keys && s1.crew.lastThreadCount == |s1.crew.threads|
    ensures var s' := Settle(s1);
            s'.crew.lastThreadCount == |s'.crew.threads| && s'.crew.threads.Keys == s'.crew.streams
  {
    var s' := Settle(s1);
    SameSize(s1.crew.streams, s1.crew.threads.Keys);
    assert |s1.crew.threads| == |s1.crew.threads.Keys|;
    if CountChanged(s1.crew) {
      assert s'.crew.threads.Keys == s1.crew.streams;
      assert |s'.crew.threads| == |s'.crew.threads.Keys|;
    }
  }

  lemma CrewCounts(crew: Crew, arm: Arm, crew': Crew, s: State)
    requires crew == s.crew && CrewOk(crew) && crew.lastThreadCount == |crew.threads| && crew' == CrewAfter(s, arm)
    requires arm.Registration? ==> !CountChanged(crew)
    ensures crew'.lastThreadCount == |crew'.threads| && crew'.streams <= crew'.threads.Keys
  {
    SameSize(crew.streams, crew.threads.Keys);
    assert |crew.threads| == |crew.threads.Keys| && |crew'.threads| == |crew'.threads.Keys|;
    match arm {
      case Registration(Thread(token)) =>
        var id := |crew.registry|;
        assert crew'.threads.Keys == crew.threads.Keys + {id};
      case ExpectedHashRate(thread, rate, _, _) => assert crew'.threads.Keys == crew.threads.Keys;
      case _ =>
    }
  }

  lemma SameSize(a: set<ThreadId>, b: set<ThreadId>)
    requires a <= b
    ensures |a| == |b| <==> a == b
  {
    Backplane.SubsetSize(a, b);
  }

  /** Then every turn leaves exactly the threads whose streams have not ended. */
  lemma {:induction false} NoThreadLingers(events: seq<Event>)
    requires JoinsCounted(events)
    ensures var s := Run(Initial, events);
            && s.crew.lastThreadCount == |s.crew.threads|
            && (events != [] && events[|events| - 1].Take? && !s.crashed
                && Ready(Run(Initial, events[..|events| - 1]), events[|events| - 1].arm) ==>
                  s.crew.threads.Keys == s.crew.streams)
  {
    if events != [] {
      var before, event := events[..|events| - 1], events[|events| - 1];
      assert forall k: nat :: k < |before| ==> before[..k] == events[..k];
      NoThreadLingers(before);
      RunKeeps(before);
      StepCounts(Run(Initial, before), event);
    }
  }

  /**
   * Without that a thread can linger: here one ends while another joins, and the first is
   * still listed, and counted among the threads a job is split over.
   */
  lemma ThreadLingers() returns (events: seq<Event>, s: State)
    ensures Leads(events, s) && !s.crashed
    ensures s.crew.threads.Keys == {0, 1} && s.crew.streams == {1} && s.crew.lastThreadCount == 1
    ensures s.crew.threads[0].expected == Some(5)
  {
    var join, report := Take(Registration(Thread(7))), Take(ExpectedHashRate(0, 5, [], {}));
    FirstJoins(Initial);
    events, s := Go([], Initial, join);
    FirstReports(s);
    events, s := Go(events, s, report);
    events, s := Go(events, s, StreamEnds(0));
    LeavingUnnoticed(s);
    events, s := Go(events, s, join);
  }

  lemma FirstJoins(s: State)
    requires s == Initial
    ensures var s' := Step(s, Take(Registration(Thread(7))));
            && !s'.crashed && s'.crew.threads == map[0 := ThreadEntry(None)] && s'.crew.streams == {0}
            && |s'.crew.registry| == 1 && s'.crew.lastThreadCount == 1 && s'.sources == map[]
  {
    assert Enlist(s.crew, 7).streams == {0};
  }

  lemma FirstReports(s: State)
    requires !s.crashed && s.crew.threads == map[0 := ThreadEntry(None)] && s.crew.streams == {0}
    requires |s.crew.registry| == 1 && s.crew.lastThreadCount == 1 && s.sources == map[]
    ensures var s' := Step(s, Take(ExpectedHashRate(0, 5, [], {})));
            && !s'.crashed && s'.crew.threads == map[0 := ThreadEntry(Some(5))] && s'.crew.streams == {0}
            && |s'.crew.registry| == 1
  {
    assert Ready(s, ExpectedHashRate(0, 5, [], {}));
  }

  lemma LeavingUnnoticed(s: State)
    requires !s.crashed && s.crew.streams == {} && s.crew.threads == map[0 := ThreadEntry(Some(5))]
    requires |s.crew.registry| == 1
    ensures var s' := Step(s, Take(Registration(Thread(7))));
            && !s'.crashed && s'.crew.threads.Keys == {0, 1} && s'.crew.streams == {1} && s'.crew.lastThreadCount == 1
            && s'.crew.threads[0].expected == Some(5)
  {
    assert Enlist(s.crew, 7).streams == {1};
    assert Enlist(s.crew, 7).threads.Keys == {0, 1};
  }

  // ----------------------------------------------------------- transcripts

  /** What the arm adds to a source's transcript whether or not the source listens. */
  ghost function Heard(arm: Arm, id: SourceId): seq<Message> {
    if arm.FromSource? && arm.source == id then [Received(arm.event)] else []
  }

  /** The share the arm sends to a source: that of its own task, if it meets the task's target. */
  ghost function Submitted(s: State, arm: Arm, id: SourceId): seq<Message>
    requires Ready(s, arm)
  {
    if arm.ShareReady? && arm.task in s.work.tasks && s.work.tasks[arm.task].source == id
       && s.work.channels[arm.task][0].hash <= s.work.tasks[arm.task].template.shareTarget
    then [AsSubmitted(s.work.tasks[arm.task], s.work.channels[arm.task][0])]
    else []
  }

  /** The arms after which sources are told the rate, if the gate is then open. */
  ghost predicate Announces(s: State, arm: Arm) {
    match arm
    case SourceRegistered => true
    case ExpectedHashRate(thread, _, _, _) => thread in s.crew.threads
    case Registration(r) => r.InitialEnumerationComplete?
    case GateTimeout => true
    case _ => false
  }

  ghost function Told(s: State, s1: State, arm: Arm): seq<Message> {
    if Announces(s, arm) && s1.startup.gate.open then [Sent(UpdateHashRate(ExpectedHashrate(s1.crew)))] else []
  }

  /** A source's entry before the arm; a new source has heard and sent nothing. */
  ghost function EntryOf(sources: map<SourceId, SourceEntry>, id: SourceId): SourceEntry {
    if id in sources then sources[id] else SourceEntry(None, true, [])
  }

  ghost predicate Grown(s: State, s1: State, arm: Arm, id: SourceId)
    requires Ready(s, arm) && id in s1.sources
  {
    var a, b := EntryOf(s.sources, id), s1.sources[id];
    && b.listening == a.listening
    && b.wire == a.wire + Heard(arm, id) + if a.listening then Submitted(s, arm, id) + Told(s, s1, arm) else []
  }

  /** Everything an arm puts on a transcript. */
  ghost predicate AllGrown(s: State, s1: State, arm: Arm)
    requires Ready(s, arm)
  {
    && s1.sources.Keys == s.sources.Keys + (if arm.SourceRegistered? then {s.nextSource} else {})
    && forall id :: id in s1.sources ==> Grown(s, s1, arm, id)
  }

  lemma RegisterGrows(s: State)
    requires s.nextSource !in s.sources
    ensures AllGrown(s, Handle(s, SourceRegistered), SourceRegistered)
  {
  }

  lemma SourceArmGrows(s: State, arm: Arm)
    requires Ready(s, arm) && arm.FromSource?
    ensures AllGrown(s, Handle(s, arm), arm)
  {
    var d := Deliver(s, arm.source, arm.event);
    if !arm.event.ClearJobs? {
      AssignFrame(d, ModeOf(arm.event), arm.source, arm.event.job, arm.order, arm.refused);
    }
    assert d.sources.Keys == s.sources.Keys;
  }

  lemma ShareGrows(s: State, arm: Arm)
    requires Inv(s) && Ready(s, arm) && arm.ShareReady?
    ensures AllGrown(s, Handle(s, arm), arm)
  {
    var share, s1 := s.work.channels[arm.task][0], Handle(s, arm);
    var task := s.work.tasks[arm.task];
    assert TaskOk(s.sources, s.crew.threads.Keys, task);
    ShareHandled(s.(work := Popped(s.work, arm.task)), arm.task, share);
    forall id | id in s1.sources ensures Grown(s, s1, arm, id) {
      SubmissionGrows(s, s1, arm, id);
    }
  }

  lemma SubmissionGrows(s: State, s1: State, arm: Arm, id: SourceId)
    requires Ready(s, arm) && arm.ShareReady? && arm.task in s.work.tasks && id in s.sources && id in s1.sources
    requires WasSent(s.sources[id], s1.sources[id], Submitted(s, arm, id))
    ensures Grown(s, s1, arm, id)
  {
  }

  lemma ShareHandled(s: State, id: TaskId, share: Share)
    requires id in s.work.tasks && s.work.tasks[id].source in s.sources
    ensures var task := s.work.tasks[id];
            var out := if share.hash <= task.template.shareTarget then [AsSubmitted(task, share)] else [];
            && HandleShare(s, id, share).sources.Keys == s.sources.Keys
            && WasSent(s.sources[task.source], HandleShare(s, id, share).sources[task.source], out)
            && forall other :: other in s.sources && other != task.source ==>
                 HandleShare(s, id, share).sources[other] == s.sources[other]
  {
  }

  lemma ReportGrows(s: State, arm: Arm)
    requires Ready(s, arm) && arm.ExpectedHashRate?
    ensures AllGrown(s, Handle(s, arm), arm)
  {
  }

  lemma OtherArmGrows(s: State, arm: Arm)
    requires Ready(s, arm) && (arm.Registration? || arm.GateTimeout? || arm.Housekeeping?)
    ensures AllGrown(s, Handle(s, arm), arm)
  {
  }

  lemma ArmGrows(s: State, arm: Arm)
    requires Inv(s) && Ready(s, arm)
    ensures AllGrown(s, Handle(s, arm), arm)
  {
    match arm {
      case SourceRegistered => RegisterGrows(s);
      case FromSource(_, _, _, _) => SourceArmGrows(s, arm);
      case ShareReady(_) => ShareGrows(s, arm);
      case ExpectedHashRate(_, _, _, _) => ReportGrows(s, arm);
      case _ => OtherArmGrows(s, arm);
    }
  }

  /** In every reachable state, an arm adds to the transcripts this and nothing else. */
  lemma TranscriptsExact(events: seq<Event>, arm: Arm)
    ensures var s := Run(Initial, events); Ready(s, arm) ==> AllGrown(s, Handle(s, arm), arm)
  {
    RunKeeps(events);
    if Ready(Run(Initial, events), arm) {
      ArmGrows(Run(Initial, events), arm);
    }
  }

  // --------------------------------------------------------------- silence

  ghost predicate IsRate(m: Message) {
    m.Sent? && m.command.UpdateHashRate?
  }

  /** No source is told a rate on the way from one set of transcripts to the other. */
  ghost predicate TellsNobody(before: map<SourceId, SourceEntry>, after: map<SourceId, SourceEntry>) {
    forall id :: id in after ==>
      && WireOf(before, id) <= after[id].wire
      && forall i :: |WireOf(before, id)| <= i < |after[id].wire| ==> !IsRate(after[id].wire[i])
  }

  /** A step that ends with the gate holding, and whose arm leaves the number of streams unchanged, tells nobody. */
  lemma HoldingIsSilent(s: State, event: Event)
    requires Inv(s) && !Step(s, event).startup.gate.open
    requires event.Take? && Ready(s, event.arm) ==> !CountChanged(Handle(s, event.arm).crew)
    ensures TellsNobody(s.sources, Step(s, event).sources)
  {
    if event.Take? {
      if !s.crashed && Ready(s, event.arm) {
        ArmGrows(s, event.arm);
        SilentArm(s, Handle(s, event.arm), event.arm);
      }
    } else {
      OutsideWires(s, event);
    }
  }

  /** The messages a turn adds to a source's transcript tell it a rate. */
  ghost predicate TellsRate(before: seq<Message>, after: seq<Message>) {
    exists i :: |before| <= i < |after| && IsRate(after[i])
  }

  /**
   * In every reachable state, a turn that leaves the gate holding tells a source that listens
   * a rate exactly when it notices a change in the number of streams.
   */
  lemma HoldingTellsExactlyWhen(events: seq<Event>, arm: Arm, id: SourceId)
    ensures var s := Run(Initial, events);
            var s' := Step(s, Take(arm));
            !s.crashed && Ready(s, arm) && !s'.crashed && !s'.startup.gate.open
            && id in s'.sources && s'.sources[id].listening ==>
              (TellsRate(WireOf(s.sources, id), s'.sources[id].wire) <==> CountChanged(Handle(s, arm).crew))
  {
    RunKeeps(events);
    var s := Run(Initial, events);
    var s' := Step(s, Take(arm));
    if !s.crashed && Ready(s, arm) && !s'.crashed && !s'.startup.gate.open
       && id in s'.sources && s'.sources[id].listening
    {
      TurnSettles(s, arm);
      ArmGrows(s, arm);
      HoldingTurn(s, Handle(s, arm), s', arm, id);
    }
  }

  lemma HoldingTurn(s: State, s1: State, s': State, arm: Arm, id: SourceId)
    requires Ready(s, arm) && AllGrown(s, s1, arm) && Settled(s1, s') && !s'.startup.gate.open
    requires id in s'.sources && s'.sources[id].listening
    ensures TellsRate(WireOf(s.sources, id), s'.sources[id].wire) <==> CountChanged(s1.crew)
  {
    SilentArm(s, s1, arm);
    var wire, wire1, wire' := WireOf(s.sources, id), WireOf(s1.sources, id), s'.sources[id].wire;
    if CountChanged(s1.crew) {
      assert WasSent(s1.sources[id], s'.sources[id], [Sent(UpdateHashRate(ExpectedHashrate(s'.crew)))]);
      assert IsRate(wire'[|wire1|]);
    }
  }

  /** Here a thread leaves while the gate waits for the marker, and the source is told a rate. */
  lemma ToldWhileHolding() returns (events: seq<Event>, s: State)
    ensures Leads(events, s) && !s.crashed && !s.startup.gate.open
    ensures s.sources.Keys == {0} && s.sources[0].wire == [Sent(UpdateHashRate(0))]
  {
    SourceJoins(Initial);
    events, s := Go([], Initial, Take(SourceRegistered));
    ThreadJoins(s);
    events, s := Go(events, s, Take(Registration(Thread(7))));
    ThreadReports(s);
    events, s := Go(events, s, Take(ExpectedHashRate(0, 5, [0], {})));
    events, s := Go(events, s, StreamEnds(0));
    LeavingNoticed(s);
    events, s := Go(events, s, Take(Housekeeping));
  }

  lemma LeavingNoticed(s: State)
    requires s.sources.Keys == {0} && s.sources[0] == SourceEntry(None, true, []) && !s.crashed && !s.startup.gate.open
    requires s.crew.streams == {} && s.crew.lastThreadCount == 1
    ensures var s' := Step(s, Take(Housekeeping));
            && !s'.crashed && !s'.startup.gate.open && s'.sources.Keys == {0}
            && s'.sources[0].wire == [Sent(UpdateHashRate(0))]
  {
    assert Muster(s.crew).threads == map[];
    SchedulerRates.NoRate(|s.crew.registry|);
  }

  lemma SilentArm(s: State, s1: State, arm: Arm)
    requires Ready(s, arm) && AllGrown(s, s1, arm) && !s1.startup.gate.open
    ensures TellsNobody(s.sources, s1.sources)
  {
    forall id | id in s1.sources
      ensures WireOf(s.sources, id) <= s1.sources[id].wire
      ensures forall i :: |WireOf(s.sources, id)| <= i < |s1.sources[id].wire| ==> !IsRate(s1.sources[id].wire[i])
    {
      assert Grown(s, s1, arm, id);
    }
  }

  lemma OutsideWires(s: State, event: Event)
    requires !event.Take?
    ensures Outside(s, event).sources.Keys == s.sources.Keys
    ensures forall id :: id in s.sources ==> Outside(s, event).sources[id].wire == s.sources[id].wire
  {
  }

  lemma CountStays(s: State, event: Event)
    requires Inv(s) && !CountChanged(s.crew) && !event.StreamEnds?
    ensures !CountChanged(Step(s, event).crew)
    ensures event.Take? && Ready(s, event.arm) ==> !CountChanged(Handle(s, event.arm).crew)
  {
    if event.Take? && Ready(s, event.arm) {
      HandleEffects(s, event.arm);
    }
  }

  /** In a run in which no stream ends, no source has been told any rate while the gate holds. */
  lemma {:induction false} SilentWhileHolding(events: seq<Event>)
    requires forall k :: 0 <= k < |events| ==> !events[k].StreamEnds?
    ensures var s := Run(Initial, events);
            && !CountChanged(s.crew)
            && (!s.startup.gate.open ==>
                  forall id, i :: id in s.sources && 0 <= i < |s.sources[id].wire| ==> !IsRate(s.sources[id].wire[i]))
  {
    if events != [] {
      var before, event := events[..|events| - 1], events[|events| - 1];
      var s := Run(Initial, before);
      SilentWhileHolding(before);
      RunKeeps(before);
      CountStays(s, event);
      GateIsOneShot(s, event);
      if !Step(s, event).startup.gate.open {
        HoldingIsSilent(s, event);
      }
    }
  }
}
