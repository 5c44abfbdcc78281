/** When the scheduler panics: exactly which steps do, runs that never do, and runs that reach each panic. */
module SchedulerPanics {
  import opened Options
  import opened Extranonces
  import opened Jobs
  import opened Wide
  import opened SchedulerState
  import opened SchedulerSafety
  import opened SchedulerStartup
  import opened SchedulerRuns
  import SchedulerRates
  import Difficulties
  import Backplane

  // ---------------------------------------------------------- exactly when

  /** An assignment panics exactly on a job too hard for the threads there are, or too narrow for the eligible ones. */
  lemma PanicExactly(s: State, mode: AssignMode, source: SourceId, job: JobTemplate, order: seq<ThreadId>,
                     refused: set<ThreadId>)
    requires Enumerates(order, s.crew.threads.Keys) && WellFormedJob(job) && !s.crashed && source in s.sources
    ensures AssignJob(s, mode, source, job, order, refused).crashed <==>
            job.merkleRoot.Computed? &&
            (|| Difficulties.BeyondDuration(job.shareTarget, ExpectedHashrate(s.crew))
             || |Eligible(s.crew.threads, order)| > job.merkleRoot.template.extranonceRange.Len())
  {
    var ids := Eligible(s.crew.threads, order);
    if s.crew.threads == map[] {
      SchedulerRates.NoRate(|s.crew.registry|);
      assert forall id :: id in ids ==> id in s.crew.threads;
      assert ids == [];
    }
  }

  /** The arm takes up a job that is worked on. */
  predicate BringsWork(arm: Arm) {
    arm.FromSource? && !arm.event.ClearJobs? && arm.event.job.merkleRoot.Computed?
  }

  /** Its job takes the threads longer, to one share, than a `Duration` holds. */
  ghost predicate Overdue(s: State, arm: Arm) {
    BringsWork(arm) && Difficulties.BeyondDuration(arm.event.job.shareTarget, ExpectedHashrate(s.crew))
  }

  /** Its job goes to more eligible threads than it has extranonces. */
  ghost predicate Overcrowded(s: State, arm: Arm)
    requires Ready(s, arm)
  {
    BringsWork(arm) && |Eligible(s.crew.threads, arm.order)| > arm.event.job.merkleRoot.template.extranonceRange.Len()
  }

  ghost predicate Panics(s: State, event: Event) {
    event.Take? && Ready(s, event.arm) && (Overdue(s, event.arm) || Overcrowded(s, event.arm))
  }

  /** Of all that can happen in a run, only such an arm panics. */
  lemma StepPanicsExactly(s: State, event: Event)
    requires !s.crashed
    ensures Step(s, event).crashed <==> Panics(s, event)
  {
    if event.Take? && Ready(s, event.arm) && event.arm.FromSource? && !event.arm.event.ClearJobs? {
      var arm := event.arm;
      PanicExactly(Deliver(s, arm.source, arm.event), ModeOf(arm.event), arm.source, arm.event.job, arm.order,
                   arm.refused);
    }
  }

  /** Event `k` found the scheduler running and was such an arm. */
  ghost predicate PanickedAt(events: seq<Event>, k: nat)
    requires k < |events|
  {
    !Run(Initial, events[..k]).crashed && Panics(Run(Initial, events[..k]), events[k])
  }

  lemma SamePanic(before: seq<Event>, event: Event, k: nat)
    requires k < |before|
    ensures PanickedAt(before, k) <==> PanickedAt(before + [event], k)
  {
    assert (before + [event])[..k] == before[..k];
  }

  lemma PanickedLast(before: seq<Event>, event: Event)
    ensures PanickedAt(before + [event], |before|) <==>
            !Run(Initial, before).crashed && Step(Run(Initial, before), event).crashed
  {
    assert (before + [event])[..|before|] == before;
    if !Run(Initial, before).crashed {
      StepPanicsExactly(Run(Initial, before), event);
    }
  }

  /** A run has panicked exactly when one of its events was such an arm, in the state it found. */
  lemma {:induction false} RunPanicsExactly(events: seq<Event>)
    ensures Run(Initial, events).crashed <==> exists k: nat :: k < |events| && PanickedAt(events, k)
  {
    if events != [] {
      var before, event := events[..|events| - 1], events[|events| - 1];
      assert events == before + [event];
      RunPanicsExactly(before);
      RunSnoc(before, event);
      PanickedLast(before, event);
      forall k: nat | k < |before| ensures PanickedAt(before, k) <==> PanickedAt(events, k) {
        SamePanic(before, event, k);
      }
    }
  }

  // ---------------------------------------------------------- never

  /** How many threads join over these events. */
  function Joining(events: seq<Event>): nat {
    if events == [] then 0
    else
      var last := events[|events| - 1];
      var joins := last.Take? && last.arm.Registration? && last.arm.registration.Thread?;
      Joining(events[..|events| - 1]) + if joins then 1 else 0
  }

  /** A job that is easy enough at every hashrate, and has an extranonce for each of `n` threads. */
  predicate Easy(arm: Arm, n: nat) {
    BringsWork(arm) && WellFormedJob(arm.event.job) ==>
      && (arm.event.job.shareTarget == 0 || 0x1_0000_0000 * arm.event.job.shareTarget > Difficulties.TARGET_MAX)
      && n <= arm.event.job.merkleRoot.template.extranonceRange.Len()
  }

  lemma {:induction false} EligibleBound(threads: map<ThreadId, ThreadEntry>, order: seq<ThreadId>)
    requires forall id :: id in order ==> id in threads
    ensures |Eligible(threads, order)| <= |order|
  {
    if order != [] {
      EligibleBound(threads, order[1..]);
    }
  }

  lemma {:induction false} DistinctBound(order: seq<ThreadId>, n: nat)
    requires forall i :: 0 <= i < |order| ==> order[i] < n
    requires forall i, j :: 0 <= i < j < |order| ==> order[i] != order[j]
    ensures |order| <= n
  {
    var ids := set i | 0 <= i < |order| :: order[i];
    Distinct(order, ids);
    Backplane.SubsetSize(ids, Backplane.Below(n));
  }

  lemma {:induction false} Distinct(order: seq<ThreadId>, ids: set<ThreadId>)
    requires ids == set i | 0 <= i < |order| :: order[i]
    requires forall i, j :: 0 <= i < j < |order| ==> order[i] != order[j]
    ensures |ids| == |order|
  {
    if order != [] {
      var front, last := order[..|order| - 1], order[|order| - 1];
      var rest := set i | 0 <= i < |front| :: front[i];
      Distinct(front, rest);
      assert ids == rest + {last};
    }
  }

  lemma NoPanicStep(s: State, event: Event, n: nat)
    requires Inv(s) && !s.crashed && |s.crew.registry| <= n && (event.Take? ==> Easy(event.arm, n))
    ensures !Step(s, event).crashed
  {
    StepPanicsExactly(s, event);
    if Panics(s, event) {
      var arm := event.arm;
      Difficulties.EasyAtEveryRate(arm.event.job.shareTarget, ExpectedHashrate(s.crew));
      EligibleBound(s.crew.threads, arm.order);
      DistinctBound(arm.order, |s.crew.registry|);
      assert false;
    }
  }

  lemma RegistryGrows(s: State, event: Event)
    ensures |Step(s, event).crew.registry| <= |s.crew.registry| + Joining([event])
  {
    if event.Take? && !s.crashed && Ready(s, event.arm) {
      HandleEffects(s, event.arm);
    }
  }

  lemma {:induction false} RegistryBound(events: seq<Event>)
    ensures |Run(Initial, events).crew.registry| <= Joining(events)
  {
    if events != [] {
      RegistryBound(events[..|events| - 1]);
      RegistryGrows(Run(Initial, events[..|events| - 1]), events[|events| - 1]);
    }
  }

  /**
   * A run never panics if at most `n` threads join it, every job it is handed has at least
   * that many extranonces, and none has a difficulty of 2^32 or more, save those of target nought.
   */
  lemma {:induction false} EasyRunsNeverPanic(events: seq<Event>, n: nat)
    requires Joining(events) <= n
    requires forall k :: 0 <= k < |events| && events[k].Take? ==> Easy(events[k].arm, n)
    ensures !Run(Initial, events).crashed
  {
    if events != [] {
      var before := events[..|events| - 1];
      EasyRunsNeverPanic(before, n);
      RunKeeps(before);
      RegistryBound(before);
      NoPanicStep(Run(Initial, before), events[|events| - 1], n);
    }
  }

  // ---------------------------------------------------------- reaching them

  /** One source without a job, and `n` threads that have all reported `rate`. */
  ghost predicate Gathered(s: State, n: nat, rate: u64) {
    && s.sources.Keys == {0} && s.sources[0].lastJob == None
    && s.crew.threads.Keys == Backplane.Below(n)
    && (forall id :: id in s.crew.threads ==> s.crew.threads[id].expected == Some(rate))
    && s.crew.streams == Backplane.Below(n) && s.crew.lastThreadCount == n == |s.crew.registry|
    && !s.crashed
  }

  /** The same with one thread more, which has not reported yet. */
  ghost predicate NewComer(s: State, n: nat, rate: u64) {
    && s.sources.Keys == {0} && s.sources[0].lastJob == None
    && s.crew.threads.Keys == Backplane.Below(n + 1)
    && (forall id :: id in s.crew.threads && id != n ==> s.crew.threads[id].expected == Some(rate))
    && s.crew.streams == Backplane.Below(n + 1) && s.crew.lastThreadCount == n + 1 == |s.crew.registry|
    && !s.crashed
  }

  lemma Joined(s: State, n: nat, rate: u64)
    requires Gathered(s, n, rate)
    ensures NewComer(Step(s, Take(Registration(Thread(n)))), n, rate)
  {
    var crew := Enlist(s.crew, n);
    GrownCrew(s.crew, crew, n);
    assert Handle(s, Registration(Thread(n))).crew == crew;
    assert Handle(s, Registration(Thread(n))).sources == s.sources;
  }

  lemma GrownCrew(crew: Crew, crew': Crew, n: nat)
    requires crew' == Enlist(crew, n) && |crew.registry| == n
    requires crew.threads.Keys == Backplane.Below(n) && crew.streams == Backplane.Below(n)
    ensures crew'.threads.Keys == crew'.streams == Backplane.Below(n + 1) && crew'.lastThreadCount == n + 1
  {
    assert Backplane.Below(n + 1) == Backplane.Below(n) + {n};
  }

  lemma Reported(s: State, n: nat, rate: u64)
    requires NewComer(s, n, rate)
    ensures Gathered(Step(s, Take(ExpectedHashRate(n, rate, [0], {}))), n + 1, rate)
  {
    assert Ready(s, ExpectedHashRate(n, rate, [0], {}));
    assert Declare(s.crew, n, rate).threads.Keys == Backplane.Below(n + 1);
  }

  lemma {:induction false} Gather(n: nat, rate: u64) returns (events: seq<Event>, s: State)
    ensures Leads(events, s) && Gathered(s, n, rate)
  {
    if n == 0 {
      SourceJoins(Initial);
      events, s := Go([], Initial, Take(SourceRegistered));
    } else {
      events, s := Gather(n - 1, rate);
      Joined(s, n - 1, rate);
      events, s := Go(events, s, Take(Registration(Thread(n - 1))));
      Reported(s, n - 1, rate);
      events, s := Go(events, s, Take(ExpectedHashRate(n - 1, rate, [0], {})));
    }
  }

  lemma {:induction false} EqualRates(threads: map<ThreadId, ThreadEntry>, n: nat, rate: u64)
    requires forall id :: 0 <= id < n ==> id in threads && threads[id].expected == Some(rate)
    ensures RateBelow(threads, n) == n * rate
  {
    if n > 0 {
      EqualRates(threads, n - 1, rate);
    }
  }

  function InOrder(n: nat): (order: seq<ThreadId>)
    ensures |order| == n && forall i :: 0 <= i < n ==> order[i] == i
  {
    seq(n, (i: nat) => i)
  }

  lemma {:induction false} AllEligible(threads: map<ThreadId, ThreadEntry>, order: seq<ThreadId>)
    requires forall id :: id in order ==> id in threads && threads[id].expected.Some?
    ensures Eligible(threads, order) == order
  {
    if order != [] {
      AllEligible(threads, order[1..]);
      assert order == [order[0]] + order[1..];
    }
  }

  lemma InOrderEnumerates(n: nat)
    ensures Enumerates(InOrder(n), Backplane.Below(n)) && forall id :: id in InOrder(n) ==> id in Backplane.Below(n)
  {
    forall id | id in Backplane.Below(n) ensures id in InOrder(n) {
      assert InOrder(n)[id] == id;
    }
  }

  /**
   * For any job, any number of threads and any hashrate of each, some run without a panic
   * leads to the point where the job is taken up; each panic awaits it under its own condition.
   */
  lemma Assembled(job: JobTemplate, n: nat, rate: u64) returns (events: seq<Event>, s: State, arm: Arm)
    requires WellFormedJob(job) && job.merkleRoot.Computed?
    ensures Leads(events, s) && !s.crashed && |s.crew.threads| == n
    ensures Ready(s, arm) && BringsWork(arm) && arm.event.job == job
    ensures Overdue(s, arm) <==> Difficulties.BeyondDuration(job.shareTarget, n * rate % U64_SIZE)
    ensures Overcrowded(s, arm) <==> n > job.merkleRoot.template.extranonceRange.Len()
    ensures Step(s, Take(arm)).crashed <==> Overdue(s, arm) || Overcrowded(s, arm)
  {
    events, s := Gather(n, rate);
    arm := FromSource(0, UpdateJob(job), InOrder(n), {});
    Facing(s, n, rate, arm);
    StepPanicsExactly(s, Take(arm));
  }

  lemma Facing(s: State, n: nat, rate: u64, arm: Arm)
    requires Gathered(s, n, rate) && arm.FromSource? && arm.source == 0 && arm.event.UpdateJob?
             && arm.order == InOrder(n)
    requires WellFormedJob(arm.event.job) && arm.event.job.merkleRoot.Computed?
    ensures Ready(s, arm) && |s.crew.threads| == n
    ensures Overdue(s, arm) <==> Difficulties.BeyondDuration(arm.event.job.shareTarget, n * rate % U64_SIZE)
    ensures Overcrowded(s, arm) <==> n > arm.event.job.merkleRoot.template.extranonceRange.Len()
  {
    GatheredCrew(s, n, rate);
  }

  lemma GatheredCrew(s: State, n: nat, rate: u64)
    requires Gathered(s, n, rate)
    ensures Enumerates(InOrder(n), s.crew.threads.Keys) && |s.crew.threads| == n
    ensures Eligible(s.crew.threads, InOrder(n)) == InOrder(n)
    ensures ExpectedHashrate(s.crew) == n * rate % U64_SIZE
  {
    InOrderEnumerates(n);
    AllEligible(s.crew.threads, InOrder(n));
    EqualRates(s.crew.threads, n, rate);
    assert |s.crew.threads| == |s.crew.threads.Keys|;
  }

  /** A slot of one byte and 257 threads of a terahash a second: a panic over the split, of a job of difficulty one. */
  lemma PanicOn257Threads() returns (events: seq<Event>, s: State, arm: Arm)
    ensures Leads(events, s) && !s.crashed && |s.crew.threads| == 257
    ensures Ready(s, arm) && !Overdue(s, arm) && Overcrowded(s, arm) && Step(s, Take(arm)).crashed
  {
    MaxCounterIs(1);
    Pow256Steps();
    var job := FIRST.(merkleRoot := Computed(MerkleRootTemplate([], [], Full(1).value, [], [])));
    events, s, arm := Assembled(job, 257, 1_000_000_000_000);
    Difficulties.EasyAtEveryRate(job.shareTarget, 257 * 1_000_000_000_000 % U64_SIZE);
  }

  lemma PanicOnOneThread(job: JobTemplate, rate: u64) returns (events: seq<Event>, s: State, arm: Arm)
    requires WellFormedJob(job) && job.merkleRoot.Computed? && Difficulties.BeyondDuration(job.shareTarget, rate)
    ensures Leads(events, s) && !s.crashed && |s.crew.threads| == 1
    ensures Ready(s, arm) && Overdue(s, arm) && !Overcrowded(s, arm) && Step(s, Take(arm)).crashed
  {
    assert 1 * rate % U64_SIZE == rate;
    events, s, arm := Assembled(job, 1, rate);
  }

  /**
   * One thread of whatever hashrate, and a job that may have all the extranonces there are,
   * of a difficulty of 2^96 or more such as a pool may set: a panic over the expected time.
   */
  lemma PanicOnHardJob(job: JobTemplate, difficulty: F64, rate: u64) returns (events: seq<Event>, s: State, arm: Arm)
    requires WellFormedJob(job) && job.merkleRoot.Computed? && rate > 0
    requires difficulty.Positive() && difficulty.Value() >= 79228162514264337593543950336.0
    requires job.shareTarget == Difficulties.OfFloat(difficulty).target > 0
    ensures Leads(events, s) && !s.crashed && |s.crew.threads| == 1
    ensures Ready(s, arm) && Overdue(s, arm) && !Overcrowded(s, arm) && Step(s, Take(arm)).crashed
  {
    Difficulties.HardAtEveryRate(difficulty, rate);
    events, s, arm := PanicOnOneThread(job, rate);
  }
}
