/** The start-up protocol, from the transports through the backplane to the gate. */
module SchedulerStartup {
  import opened Options
  import opened Extranonces
  import opened Jobs
  import opened SchedulerState
  import opened SchedulerSafety
  import Backplane

  ghost predicate Marked(regs: seq<ThreadRegistration>) {
    exists k :: 0 <= k < |regs| && regs[k] == InitialEnumerationComplete
  }

  /** The tokens registered before the first marker. */
  ghost function Starters(regs: seq<ThreadRegistration>): seq<nat> {
    if regs == [] then []
    else if Marked(regs[..|regs| - 1]) then Starters(regs[..|regs| - 1])
    else Backplane.Tokens(regs)
  }

  lemma MarkedSnoc(regs: seq<ThreadRegistration>, r: ThreadRegistration)
    ensures Marked(regs + [r]) <==> Marked(regs) || r.InitialEnumerationComplete?
    ensures Backplane.Tokens(regs + [r]) == Backplane.Tokens(regs) + if r.Thread? then [r.token] else []
    ensures Starters(regs + [r]) == if Marked(regs) then Starters(regs) else Backplane.Tokens(regs + [r])
  {
    var more := regs + [r];
    assert more[..|regs|] == regs && more[|regs|] == r;
    assert forall k :: 0 <= k < |regs| ==> more[k] == regs[k];
  }

  lemma {:induction false} StartersFirst(regs: seq<ThreadRegistration>)
    ensures Starters(regs) <= Backplane.Tokens(regs)
  {
    if regs != [] {
      StartersFirst(regs[..|regs| - 1]);
    }
  }

  // ------------------------------------------------------------ invariant

  /** What the crew's records say about who is here and who has reported. */
  ghost predicate RecordsOk(crew: Crew, registrations: seq<ThreadRegistration>) {
    && crew.registry == Backplane.Tokens(registrations)
    && crew.reporters <= Backplane.Below(|crew.registry|)
    && forall id :: id in crew.threads ==> (crew.threads[id].expected.Some? <==> id in crew.reporters)
  }

  /** While it holds, the gate counts registrations and first reports, and has something to wait for. */
  ghost predicate HoldingOk(startup: Startup, crew: Crew) {
    && startup.gate.registered == |crew.registry|
    && startup.gate.reported == |crew.reporters|
    && (startup.gate.enumerationComplete <==> Marked(startup.registrations))
    && (startup.gate.enumerationComplete ==> startup.gate.reported < startup.gate.registered)
  }

  /** Once open for another reason than the timeout, every starting thread has reported. */
  ghost predicate OpenOk(startup: Startup, crew: Crew) {
    && Marked(startup.registrations)
    && forall id :: 0 <= id < |Starters(startup.registrations)| ==> id in crew.reporters
  }

  ghost predicate GateOk(startup: Startup, crew: Crew) {
    && RecordsOk(crew, startup.registrations)
    && (!startup.gate.open ==> HoldingOk(startup, crew) && !startup.timedOut)
    && (startup.gate.open && !startup.timedOut ==> OpenOk(startup, crew))
    && (startup.deadline.Some? || startup.timedOut ==> Marked(startup.registrations))
  }

  lemma EveryoneReported(crew: Crew)
    requires crew.reporters <= Backplane.Below(|crew.registry|) && |crew.reporters| >= |crew.registry|
    ensures forall id :: 0 <= id < |crew.registry| ==> id in crew.reporters
  {
    Backplane.SubsetSize(crew.reporters, Backplane.Below(|crew.registry|));
  }

  // ------------------------------------------------------------- the arms

  /** What an arm does to the gate and its records. */
  ghost function StartupAfter(s: State, arm: Arm): Startup {
    match arm
    case Registration(r) =>
      var gate := if r.Thread? then s.startup.gate.Registered() else s.startup.gate.EnumerationComplete();
      Startup(gate,
              if r.Thread? || gate.open then s.startup.deadline else Some(s.now + GATE_TIMEOUT_MS),
              s.startup.registrations + [r],
              s.startup.timedOut)
    case ExpectedHashRate(thread, _, _, _) =>
      if thread in s.crew.threads && s.crew.threads[thread].expected.None?
      then s.startup.(gate := s.startup.gate.Reported())
      else s.startup
    case GateTimeout => Startup(s.startup.gate.Timeout(), None, s.startup.registrations, true)
    case _ => s.startup
  }

  /** What an arm does to the crew. */
  ghost function CrewAfter(s: State, arm: Arm): Crew {
    match arm
    case Registration(Thread(token)) => Enlist(s.crew, token)
    case ExpectedHashRate(thread, rate, _, _) =>
      if thread in s.crew.threads then Declare(s.crew, thread, rate) else s.crew
    case _ => s.crew
  }

  lemma HandleEffects(s: State, arm: Arm)
    requires Ready(s, arm)
    ensures Handle(s, arm).startup == StartupAfter(s, arm) && Handle(s, arm).crew == CrewAfter(s, arm)
  {
    match arm {
      case FromSource(source, event, order, refused) => SourceArmEffects(s, source, event, order, refused);
      case Registration(registration) => RegistrationEffects(s, registration);
      case ExpectedHashRate(thread, rate, order, refused) => ReportEffects(s, thread, rate, order, refused);
      case _ =>
    }
  }

  lemma SourceArmEffects(s: State, source: SourceId, event: SourceEvent, order: seq<ThreadId>, refused: set<ThreadId>)
    requires Ready(s, FromSource(source, event, order, refused))
    ensures var s' := Handle(s, FromSource(source, event, order, refused)); s'.startup == s.startup && s'.crew == s.crew
  {
  }

  lemma RegistrationEffects(s: State, registration: ThreadRegistration)
    ensures var s', arm := Handle(s, Registration(registration)), Registration(registration);
            s'.startup == StartupAfter(s, arm) && s'.crew == CrewAfter(s, arm)
  {
  }

  lemma ReportEffects(s: State, thread: ThreadId, rate: u64, order: seq<SourceId>, refused: set<SourceId>)
    ensures var s' := ExpectedReport(s, thread, rate, order, refused);
            var arm := ExpectedHashRate(thread, rate, order, refused);
            s'.startup == StartupAfter(s, arm) && s'.crew == CrewAfter(s, arm)
  {
  }

  lemma RegisterThreadGate(startup: Startup, crew: Crew, token: nat)
    requires CrewOk(crew) && GateOk(startup, crew)
    ensures GateOk(startup.(gate := startup.gate.Registered(),
                            registrations := startup.registrations + [Thread(token)]),
                   Enlist(crew, token))
  {
    MarkedSnoc(startup.registrations, Thread(token));
    StartersFirst(startup.registrations);
  }

  lemma FinishEnumerationGate(startup: Startup, crew: Crew, deadline: Option<nat>)
    requires GateOk(startup, crew)
    ensures GateOk(Startup(startup.gate.EnumerationComplete(), deadline,
                           startup.registrations + [InitialEnumerationComplete], startup.timedOut), crew)
  {
    MarkedSnoc(startup.registrations, InitialEnumerationComplete);
    StartersFirst(startup.registrations + [InitialEnumerationComplete]);
    if |crew.reporters| >= |crew.registry| {
      EveryoneReported(crew);
    }
  }

  lemma ReportGate(startup: Startup, crew: Crew, thread: ThreadId, rate: u64)
    requires CrewOk(crew) && GateOk(startup, crew) && thread in crew.threads
    ensures GateOk(if crew.threads[thread].expected.None?
                   then startup.(gate := startup.gate.Reported()) else startup, Declare(crew, thread, rate))
  {
    var crew' := Declare(crew, thread, rate);
    assert thread in crew.reporters ==> crew'.reporters == crew.reporters;
    StartersFirst(startup.registrations);
    if |crew'.reporters| >= |crew'.registry| {
      EveryoneReported(crew');
    }
  }

  lemma HandleGate(s: State, arm: Arm)
    requires CrewOk(s.crew) && GateOk(s.startup, s.crew) && Ready(s, arm)
    ensures GateOk(StartupAfter(s, arm), CrewAfter(s, arm))
  {
    match arm {
      case Registration(Thread(token)) => RegisterThreadGate(s.startup, s.crew, token);
      case Registration(InitialEnumerationComplete) =>
        FinishEnumerationGate(s.startup, s.crew, StartupAfter(s, arm).deadline);
      case ExpectedHashRate(thread, rate, order, refused) =>
        if thread in s.crew.threads {
          ReportGate(s.startup, s.crew, thread, rate);
        }
      case _ =>
    }
  }

  /** The gate's records after any step; settling only ever removes threads. */
  lemma StepEffects(s: State, event: Event)
    ensures var s' := Step(s, event);
            && (s.crashed ==> s' == s)
            && var taken := event.Take? && !s.crashed && Ready(s, event.arm);
            && s'.startup == (if taken then StartupAfter(s, event.arm) else s.startup)
            && var crew := if taken then CrewAfter(s, event.arm) else s.crew;
               && s'.crew.registry == crew.registry && s'.crew.reporters == crew.reporters
               && forall id :: id in s'.crew.threads ==> id in crew.threads && s'.crew.threads[id] == crew.threads[id]
  {
    if event.Take? && Ready(s, event.arm) {
      HandleEffects(s, event.arm);
    }
  }

  lemma StepGate(s: State, event: Event)
    requires CrewOk(s.crew) && GateOk(s.startup, s.crew)
    ensures GateOk(Step(s, event).startup, Step(s, event).crew)
  {
    StepEffects(s, event);
    if event.Take? && Ready(s, event.arm) {
      HandleGate(s, event.arm);
    }
  }

  lemma {:induction false} RunGate(events: seq<Event>)
    ensures GateOk(Run(Initial, events).startup, Run(Initial, events).crew)
  {
    if events != [] {
      var before := events[..|events| - 1];
      RunGate(before);
      RunKeeps(before);
      StepGate(Run(Initial, before), events[|events| - 1]);
    }
  }

  // -------------------------------------------------------------- results

  /**
   * A step that opens the gate other than by timeout finds every thread registered so far
   * among those that have reported, even those that have left since.
   */
  lemma OpensWhenAllReported(events: seq<Event>, event: Event)
    ensures var s, s' := Run(Initial, events), Step(Run(Initial, events), event);
            !s.startup.gate.open && s'.startup.gate.open && !s'.startup.timedOut ==>
              Marked(s'.startup.registrations) && forall id :: 0 <= id < |s'.crew.registry| ==> id in s'.crew.reporters
  {
    RunGate(events);
    RunKeeps(events);
    var s := Run(Initial, events);
    var s' := Step(s, event);
    if !s.startup.gate.open && s'.startup.gate.open && !s'.startup.timedOut {
      StepEffects(s, event);
      OpeningArm(s, event.arm);
    }
  }

  lemma OpeningArm(s: State, arm: Arm)
    requires CrewOk(s.crew) && GateOk(s.startup, s.crew) && !s.startup.gate.open && Ready(s, arm)
    requires StartupAfter(s, arm).gate.open && !StartupAfter(s, arm).timedOut
    ensures Marked(StartupAfter(s, arm).registrations)
    ensures forall id :: 0 <= id < |CrewAfter(s, arm).registry| ==> id in CrewAfter(s, arm).reporters
  {
    HandleGate(s, arm);
    if arm.ExpectedHashRate? {
      EveryoneReported(Declare(s.crew, arm.thread, arm.rate));
    } else {
      EveryoneReported(s.crew);
    }
  }

  /** A gate that still holds after the marker is waiting for a thread that has registered and not reported. */
  lemma HoldsForAReason(events: seq<Event>)
    ensures var s := Run(Initial, events);
            !s.startup.gate.open && Marked(s.startup.registrations) ==>
              exists id :: 0 <= id < |s.crew.registry| && id !in s.crew.reporters
  {
    RunGate(events);
    var s := Run(Initial, events);
    if !s.startup.gate.open && Marked(s.startup.registrations)
       && forall id :: 0 <= id < |s.crew.registry| ==> id in s.crew.reporters
    {
      Backplane.SubsetSize(Backplane.Below(|s.crew.registry|), s.crew.reporters);
    }
  }

  /** Once open the gate stays open, and it opens by timeout only after the marker's deadline. */
  lemma GateIsOneShot(s: State, event: Event)
    ensures s.startup.gate.open ==> Step(s, event).startup.gate.open
    ensures Step(s, event).startup.timedOut && !s.startup.timedOut ==>
              !s.startup.gate.open && s.startup.deadline.Some? && s.startup.deadline.value <= s.now
  {
    StepEffects(s, event);
  }

  /** The registration channel's items that a run has taken, in order. */
  ghost function Taken(events: seq<Event>): seq<ThreadRegistration> {
    if events == [] then []
    else Taken(events[..|events| - 1]) + match events[|events| - 1]
      case Take(Registration(r)) => [r]
      case _ => []
  }

  lemma {:induction false} RecordedIsTaken(events: seq<Event>)
    ensures Run(Initial, events).startup.registrations <= Taken(events)
    ensures !Run(Initial, events).crashed ==> Run(Initial, events).startup.registrations == Taken(events)
  {
    if events != [] {
      var before := events[..|events| - 1];
      RecordedIsTaken(before);
      StepRecords(Run(Initial, before), events[|events| - 1]);
    }
  }

  lemma StepRecords(s: State, event: Event)
    ensures Step(s, event).startup.registrations ==
            s.startup.registrations + match event
              case Take(Registration(r)) => if s.crashed then [] else [r]
              case _ => []
    ensures s.crashed ==> Step(s, event).crashed
  {
    StepEffects(s, event);
  }

  /** Tokens on a prefix of the channel are a prefix of those on the channel. */
  lemma {:induction false} TokensGrow(regs: seq<ThreadRegistration>, more: seq<ThreadRegistration>)
    requires regs <= more
    ensures Backplane.Tokens(regs) <= Backplane.Tokens(more)
  {
    if regs == more {
    } else {
      TokensGrow(regs, more[..|more| - 1]);
    }
  }

  /**
   * Every device's threads join the scheduler, hotplugged ones too: the threads it has
   * registered are the first of those announced to the backplane, in order, and all of them
   * once it has taken all the backplane sent.
   */
  lemma EveryThreadJoins(transportCount: nat, incoming: seq<Backplane.Incoming>, events: seq<Event>)
    requires Taken(events) <= Backplane.Output(transportCount, incoming)
    ensures Run(Initial, events).crew.registry <= Backplane.Announced(incoming)
    ensures Taken(events) == Backplane.Output(transportCount, incoming) && !Run(Initial, events).crashed ==>
              Run(Initial, events).crew.registry == Backplane.Announced(incoming)
  {
    RunGate(events);
    RecordedIsTaken(events);
    Backplane.EveryThreadRegistered(transportCount, incoming);
    TokensGrow(Run(Initial, events).startup.registrations, Backplane.Output(transportCount, incoming));
  }

  /** A thread ahead of the first marker is a starter, under the id it was registered with. */
  lemma {:induction false} AheadOfMarker(regs: seq<ThreadRegistration>, at: nat) returns (id: nat)
    requires at < |regs| && regs[at].Thread?
    requires forall m :: 0 <= m <= at ==> !regs[m].InitialEnumerationComplete?
    ensures id < |Starters(regs)| && Starters(regs)[id] == regs[at].token
    ensures Starters(regs) <= Backplane.Tokens(regs)
  {
    StartersFirst(regs);
    var before := regs[..|regs| - 1];
    if at == |regs| - 1 {
      assert !Marked(before);
      id := |Backplane.Tokens(before)|;
    } else {
      id := AheadOfMarker(before, at);
      if !Marked(before) {
        StartersFirst(before);
      }
    }
  }

  /**
   * End to end: let the scheduler have taken any prefix of what the backplane sent for the
   * transports' events so far. If the gate is open and no timeout forced it, then every
   * thread of every starting device is registered and has reported its hashrate.
   */
  lemma StartersReportBeforeOpening(transportCount: nat, incoming: seq<Backplane.Incoming>, events: seq<Event>, k: nat,
                                    i: nat)
      returns (id: ThreadId)
    requires forall j :: 0 <= j < |incoming| ==> incoming[j].transport < transportCount
    requires Taken(events) <= Backplane.Output(transportCount, incoming)
    requires Backplane.Starting(incoming, k) && i < |incoming[k].event.threads|
    requires var s := Run(Initial, events); s.startup.gate.open && !s.startup.timedOut
    ensures var s := Run(Initial, events);
            id < |s.crew.registry| && s.crew.registry[id] == incoming[k].event.threads[i] && id in s.crew.reporters
  {
    RunGate(events);
    RecordedIsTaken(events);
    var regs := Run(Initial, events).startup.registrations;
    var sent := Backplane.Output(transportCount, incoming);
    var at := Backplane.StartersPrecedeMarker(transportCount, incoming, k, i);
    var m :| 0 <= m < |regs| && regs[m] == InitialEnumerationComplete;
    assert regs <= sent;
    assert sent[m] == regs[m];
    assert regs[at] == sent[at];
    id := AheadOfMarker(regs, at);
  }
}
