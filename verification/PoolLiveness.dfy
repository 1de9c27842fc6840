/** Shutdown always finishes, and an open pool never deadlocks. */
module PoolLiveness {
  import opened Common
  import opened PoolSpec
  import opened PoolInvariant
  import opened PoolHistory
  import opened PoolSafety

  // ----- a measure every step decreases once a flag is set -----

  function WorkerWeight(stage: WorkerStage): nat {
    match stage
    case Exited => 0
    case Looping => 1
    case NotifiedOfTask => 1
    case WaitingForTask => 2
    case Running(_) => 2
  }

  function SubmitWeight(stage: SubmitStage): nat {
    match stage
    case Entering => 1
    case NotifiedOfRoom => 1
    case WaitingForRoom => 2
    case _ => 0
  }

  function ShutdownWeight(numThreads: nat, stage: ShutdownStage): nat {
    match stage
    case Calling(_) => 1
    case NotifyingSubmitters => numThreads + 3
    case NotifyingWorkers => numThreads + 2
    case Joining(next) => if next <= numThreads then numThreads - next + 1 else 0
    case _ => 0
  }

  function ShutdownWeights(numThreads: nat): ShutdownStage -> nat {
    stage => ShutdownWeight(numThreads, stage)
  }

  function Measure(s: State): nat {
    3 * |s.queue| + Total(s.workers, WorkerWeight) + Total(s.submits, SubmitWeight)
    + Total(s.shutdowns, ShutdownWeights(|s.workers|))
  }

  /** The steps that start a new call; only the callers decide how many there are. */
  predicate Arrival(step: Step) {
    step.PushTask? || step.CallShutdown?
  }

  /** The steps a scheduler owes the program: neither a new call nor a spurious wake-up. */
  predicate Productive(step: Step) {
    !Arrival(step) && !step.WorkerSpurious? && !step.SubmitSpurious?
  }

  lemma WorkerStepDecreases(s: State, w: nat, to: WorkerStage, t: State)
    requires w < |s.workers| && t.workers == s.workers[w := to]
    requires t.shutdowns == s.shutdowns
    requires 3 * |t.queue| + WorkerWeight(to) < 3 * |s.queue| + WorkerWeight(s.workers[w])
    requires Total(t.submits, SubmitWeight) <= Total(s.submits, SubmitWeight)
    ensures Measure(t) < Measure(s)
  {
    TotalUpdate(s.workers, WorkerWeight, w, to);
  }

  lemma WorkerSectionDecreases(s: State, w: nat, wake: Option<nat>)
    requires Closed(s) && Enabled(s, WorkerSection(w, wake))
    ensures Measure(AfterWorkerSection(s, w, wake)) < Measure(s)
  {
    var t := AfterWorkerSection(s, w, wake);
    if WorkerGrabs(s) && wake.Some? {
      TotalUpdate(s.submits, SubmitWeight, wake.value, NotifiedOfRoom);
    }
    WorkerStepDecreases(s, w, t.workers[w], t);
  }

  lemma SubmitSectionDecreases(s: State, c: nat, wake: Option<nat>)
    requires Closed(s) && Enabled(s, SubmitSection(c, wake))
    ensures Measure(AfterSubmitSection(s, c, wake)) < Measure(s)
  {
    TotalUpdate(s.submits, SubmitWeight, c, AfterSubmitSection(s, c, wake).submits[c]);
  }

  lemma NotifyDecreases(s: State, h: nat)
    requires h < |s.shutdowns|
    ensures AtStage(s, h, NotifyingSubmitters) ==> Measure(AfterNotifyNotFull(s, h)) < Measure(s)
    ensures AtStage(s, h, NotifyingWorkers) ==> Measure(AfterNotifyNotEmpty(s, h)) < Measure(s)
  {
    var weights := ShutdownWeights(|s.workers|);
    if AtStage(s, h, NotifyingSubmitters) {
      TotalNotifyAll(s.submits, SubmitWeight, WaitingForRoom, NotifiedOfRoom);
      TotalUpdate(s.shutdowns, weights, h, NotifyingWorkers);
    }
    if AtStage(s, h, NotifyingWorkers) {
      TotalNotifyAll(s.workers, WorkerWeight, WaitingForTask, NotifiedOfTask);
      TotalUpdate(s.shutdowns, weights, h, Joining(0));
    }
  }

  lemma JoinDecreases(s: State, h: nat)
    requires OneWinner(s) && MayJoin(s, h)
    ensures Measure(AfterJoin(s, h)) < Measure(s)
  {
    assert s.winner == Some(h) && WinnerStage(s, s.shutdowns[h]);
    TotalUpdate(s.shutdowns, ShutdownWeights(|s.workers|), h, AfterJoin(s, h).shutdowns[h]);
  }

  /** Once a flag is set, every step but a new call - spurious wake-ups included - strictly
      decreases the measure. */
  lemma StepDecreases(s: State, step: Step)
    requires Inv(s) && Closed(s) && Enabled(s, step) && !Arrival(step)
    ensures Measure(Apply(s, step)) < Measure(s)
  {
    match step {
      case SubmitSection(c, wake) => SubmitSectionDecreases(s, c, wake);
      case SubmitSpurious(c) => TotalUpdate(s.submits, SubmitWeight, c, NotifiedOfRoom);
      case WorkerSection(w, wake) => WorkerSectionDecreases(s, w, wake);
      case WorkerFinish(w, threw) =>
        assert Unfulfilled(s, s.workers[w].entry);
        WorkerStepDecreases(s, w, Looping, Apply(s, step));
      case WorkerSpurious(w) => WorkerStepDecreases(s, w, NotifiedOfTask, Apply(s, step));
      case ShutdownSection(h) => TotalUpdate(s.shutdowns, ShutdownWeights(|s.workers|), h, ReturnedEarly);
      case NotifyNotFull(h) => NotifyDecreases(s, h);
      case NotifyNotEmpty(h) => NotifyDecreases(s, h);
      case JoinNext(h) => JoinDecreases(s, h);
    }
  }

  lemma ArrivalCost(s: State, step: Step)
    requires Enabled(s, step) && Arrival(step)
    ensures Measure(Apply(s, step)) == Measure(s) + 1
  {
    if step.PushTask? {
      TotalAppend(s.submits, SubmitWeight, Entering);
    } else {
      TotalAppend(s.shutdowns, ShutdownWeights(|s.workers|), Calling(step.mode));
    }
  }

  // ----- progress -----

  /** Every call is over, every worker has exited, and the winner has returned. */
  ghost predicate Quiescent(s: State) {
    && HasReturned(s)
    && (forall w :: 0 <= w < |s.workers| ==> s.workers[w] == Exited)
    && (forall c :: 0 <= c < |s.submits| ==> SubmitOver(s.submits[c]))
    && (forall h :: 0 <= h < |s.shutdowns| ==> s.shutdowns[h] == Returned || s.shutdowns[h] == ReturnedEarly)
  }

  predicate SubmitOver(stage: SubmitStage) {
    stage == Accepted || stage == RefusedAtEntry || stage == RefusedAfterWait
  }

  /** `notify_one` always has a choice. */
  lemma SomeNotify<T>(stages: seq<T>, asleep: T) returns (wake: Option<nat>)
    ensures MayNotify(stages, asleep, wake)
  {
    if At(stages, asleep) == {} {
      wake := None;
    } else {
      var i :| i in At(stages, asleep);
      wake := Some(i);
    }
  }

  lemma WorkerCanStep(s: State, w: nat) returns (step: Step)
    requires Inv(s) && w < |s.workers| && s.workers[w] != WaitingForTask && s.workers[w] != Exited
    ensures Productive(step) && Enabled(s, step)
  {
    if s.workers[w].Running? {
      assert Unfulfilled(s, s.workers[w].entry);
      step := WorkerFinish(w, false);
    } else {
      var wake := SomeNotify(s.submits, WaitingForRoom);
      step := WorkerSection(w, if WorkerGrabs(s) then wake else None);
    }
  }

  lemma SubmitCanStep(s: State, c: nat) returns (step: Step)
    requires Inv(s) && c < |s.submits| && s.submits[c] != WaitingForRoom && !SubmitOver(s.submits[c])
    ensures Productive(step) && Enabled(s, step)
  {
    var wake := SomeNotify(s.workers, WaitingForTask);
    step := SubmitSection(c, if SubmitPushes(s) then wake else None);
  }

  /** With the flag set, the winner can go on unless it waits for a worker that runs. */
  lemma WinnerCanStep(s: State) returns (step: Step)
    requires Inv(s) && Closed(s) && !HasReturned(s)
    ensures Productive(step) && Enabled(s, step)
  {
    var h := s.winner.value;
    assert WinnerStage(s, s.shutdowns[h]);
    match s.shutdowns[h] {
      case NotifyingSubmitters => step := NotifyNotFull(h);
      case NotifyingWorkers => step := NotifyNotEmpty(h);
      case Joining(next) =>
        assert At(s.workers, WaitingForTask) == {};
        if next < |s.workers| && s.workers[next] != Exited {
          step := WorkerCanStep(s, next);
        } else {
          step := JoinNext(h);
        }
    }
  }

  /** After a flag is set, some productive step is enabled until everything is over. */
  lemma ClosedProgress(s: State) returns (step: Step)
    requires Inv(s) && Closed(s) && !Quiescent(s)
    ensures Productive(step) && Enabled(s, step)
  {
    if !HasReturned(s) {
      step := WinnerCanStep(s);
    } else {
      ReturnedMeansFulfilled(s);
      if h :| 0 <= h < |s.shutdowns| && s.shutdowns[h] != Returned && s.shutdowns[h] != ReturnedEarly {
        step := ShutdownSection(h);
      } else {
        assert At(s.submits, WaitingForRoom) == {};
        var c :| 0 <= c < |s.submits| && !SubmitOver(s.submits[c]);
        step := SubmitCanStep(s, c);
      }
    }
  }

  // ----- the theorems -----

  function Arrivals(steps: seq<Step>): nat {
    if steps == [] then 0 else (if Arrival(steps[0]) then 1 else 0) + Arrivals(steps[1..])
  }

  /** A run from a shut-down pool is no longer than the measure plus two steps per new call. */
  lemma {:induction false} ShutdownRunsAreBounded(s: State, steps: seq<Step>)
    requires Inv(s) && Closed(s) && CanRun(s, steps)
    ensures |steps| + Measure(RunFrom(s, steps)) <= Measure(s) + 2 * Arrivals(steps)
    decreases |steps|
  {
    if steps != [] {
      var t := Apply(s, steps[0]);
      StepKeepsInv(s, steps[0]);
      assert CanRun(s, steps[..1]) && RunFrom(s, steps[..1]) == t by {
        assert steps[..1][1..] == [] && CanRun(t, []);
      }
      ClosedAcceptsNothing(s, steps[..1]);
      if Arrival(steps[0]) {
        ArrivalCost(s, steps[0]);
      } else {
        StepDecreases(s, steps[0]);
      }
      ShutdownRunsAreBounded(t, steps[1..]);
    }
  }

  /** Shutdown always finishes: from any reachable state with a flag set, no run with finitely
      many new calls goes on for longer than the bound, and a run that no productive step can
      extend has ended with every worker gone, every call over and the winner returned. */
  lemma {:induction false} ShutdownFinishes(numThreads: nat, queueCapacity: nat, s: State, steps: seq<Step>)
    requires Reachable(numThreads, queueCapacity, s) && Closed(s) && CanRun(s, steps)
    ensures |steps| <= Measure(s) + 2 * Arrivals(steps)
    ensures Quiescent(RunFrom(s, steps))
            || exists step :: Productive(step) && Enabled(RunFrom(s, steps), step)
  {
    ReachableInv(numThreads, queueCapacity, s);
    ShutdownRunsAreBounded(s, steps);
    RunKeepsInv(s, steps);
    ClosedAcceptsNothing(s, steps);
    if !Quiescent(RunFrom(s, steps)) {
      var step := ClosedProgress(RunFrom(s, steps));
    }
  }

  /** No productive step is left to take. */
  ghost predicate Stuck(s: State) {
    forall step :: Productive(step) ==> !Enabled(s, step)
  }

  /** gracefulShutdown finishes the queued work. Take a run in which a call of gracefulShutdown
      was the first shutdown call to lock the mutex, and let it go on until it cannot: every
      caller has returned, and every task accepted before holds its own outcome if and only if
      the pool has a worker or nothing was accepted. */
  lemma GracefulShutdownCompletes(numThreads: nat, queueCapacity: nat, before: seq<Step>, after: seq<Step>, h: nat)
    requires CanRun(Init(numThreads, queueCapacity), before) && CanRun(Init(numThreads, queueCapacity), before + after)
    requires FirstToLock(before) == Some(h) && h < |ShutdownCalls(before)| && ShutdownCalls(before)[h] == Graceful
    requires Stuck(After(numThreads, queueCapacity, before + after))
    ensures var s, t := After(numThreads, queueCapacity, before), After(numThreads, queueCapacity, before + after);
            && Quiescent(t) && AtStage(t, h, Returned) && t.accepted == s.accepted
            && (AllFulfilled(numThreads, queueCapacity, before + after, s.accepted) <==>
                  numThreads >= 1 || s.accepted == [])
  {
    var s := After(numThreads, queueCapacity, before);
    FlagsFollowFirstCall(numThreads, queueCapacity, before);
    RunSplit(Init(numThreads, queueCapacity), before, after);
    ShutdownFinishes(numThreads, queueCapacity, s, after);
    ClosedAcceptsNothing(s, after);
    FlagsFollowFirstCall(numThreads, queueCapacity, before + after);
    GracefulReturnMeansDone(numThreads, queueCapacity, before + after, h);
  }

  /** immediateShutdown drops what no worker had popped when it locked the mutex and completes
      the rest: in a run that cannot go on, the completed prefix and the dropped suffix are the
      ones fixed at that moment. */
  lemma ImmediateShutdownCompletes(numThreads: nat, queueCapacity: nat, before: seq<Step>, after: seq<Step>, h: nat)
    requires CanRun(Init(numThreads, queueCapacity), before) && CanRun(Init(numThreads, queueCapacity), before + after)
    requires FirstToLock(before) == Some(h) && h < |ShutdownCalls(before)| && ShutdownCalls(before)[h] == Immediate
    requires Stuck(After(numThreads, queueCapacity, before + after))
    ensures var s, t := After(numThreads, queueCapacity, before), After(numThreads, queueCapacity, before + after);
            && Quiescent(t) && AtStage(t, h, Returned) && t.taken == s.taken && t.dropped == s.dropped
            && AllFulfilled(numThreads, queueCapacity, before + after, s.taken) && s.accepted == s.taken + s.dropped
  {
    var s := After(numThreads, queueCapacity, before);
    FlagsFollowFirstCall(numThreads, queueCapacity, before);
    RunSplit(Init(numThreads, queueCapacity), before, after);
    ShutdownFinishes(numThreads, queueCapacity, s, after);
    ReachableInv(numThreads, queueCapacity, s);
    ClosedAcceptsNothing(s, after);
    ImmediateFixesTaken(s, after);
    FlagsFollowFirstCall(numThreads, queueCapacity, before + after);
    ImmediateReturnSplitsTasks(numThreads, queueCapacity, before + after, h);
  }

  /** immediateShutdown takes effect at once: the tasks queued when the first shutdown call to
      lock the mutex is one of immediateShutdown are dropped, all of them and no others. */
  lemma ImmediateDropsTheQueue(numThreads: nat, queueCapacity: nat, before: seq<Step>, after: seq<Step>, h: nat)
    requires CanRun(Init(numThreads, queueCapacity), before) && Enabled(After(numThreads, queueCapacity, before), ShutdownSection(h))
    requires FirstToLock(before) == None
    requires h < |ShutdownCalls(before)| && ShutdownCalls(before)[h] == Immediate
    requires CanRun(Apply(After(numThreads, queueCapacity, before), ShutdownSection(h)), after)
    ensures var s, t := After(numThreads, queueCapacity, before),
                        RunFrom(Apply(After(numThreads, queueCapacity, before), ShutdownSection(h)), after);
            t.dropped == s.queue && t.taken == s.taken && t.queue == []
  {
    var init, s := Init(numThreads, queueCapacity), After(numThreads, queueCapacity, before);
    FlagsFollowFirstCall(numThreads, queueCapacity, before);
    RunKeepsModes(init, [], before);
    assert [] + ShutdownCalls(before) == ShutdownCalls(before);
    ReachableInv(numThreads, queueCapacity, s);
    var t := Apply(s, ShutdownSection(h));
    StepKeepsInv(s, ShutdownSection(h));
    RunKeepsInv(t, after);
    ImmediateFixesTaken(t, after);
  }

  lemma {:induction false} ImmediateFixesTaken(s: State, steps: seq<Step>)
    requires s.immediate && CanRun(s, steps)
    ensures var t := RunFrom(s, steps); t.immediate && t.taken == s.taken && t.dropped == s.dropped && t.accepted == s.accepted
    decreases |steps|
  {
    if steps != [] {
      ImmediateStep(s, steps[0]);
      ImmediateFixesTaken(Apply(s, steps[0]), steps[1..]);
    }
  }

  lemma ImmediateStep(s: State, step: Step)
    requires s.immediate && Enabled(s, step)
    ensures var t := Apply(s, step); t.immediate && t.taken == s.taken && t.dropped == s.dropped && t.accepted == s.accepted
  {
  }

  /** A scheduler that keeps taking productive steps gets there within the measure. */
  lemma {:induction false} ShutdownCanFinish(s: State) returns (steps: seq<Step>)
    requires Inv(s) && Closed(s)
    ensures CanRun(s, steps) && |steps| <= Measure(s) && Quiescent(RunFrom(s, steps))
    ensures forall k :: 0 <= k < |steps| ==> Productive(steps[k])
    decreases Measure(s)
  {
    if Quiescent(s) {
      steps := [];
    } else {
      var step := ClosedProgress(s);
      var t := Apply(s, step);
      StepKeepsInv(s, step);
      StepDecreases(s, step);
      assert CanRun(s, [step]) && RunFrom(s, [step]) == t by {
        assert [step][1..] == [] && CanRun(t, []);
      }
      ClosedAcceptsNothing(s, [step]);
      var rest := ShutdownCanFinish(t);
      steps := [step] + rest;
      assert steps[1..] == rest;
    }
  }

  // ----- the open pool -----

  function OpenWorkerWeight(stage: WorkerStage): nat {
    match stage
    case Running(_) => 2
    case Looping => 1
    case NotifiedOfTask => 1
    case _ => 0
  }

  function OpenSubmitWeight(stage: SubmitStage): nat {
    match stage
    case Entering => 5
    case NotifiedOfRoom => 5
    case WaitingForRoom => 4
    case _ => 0
  }

  function OpenShutdownWeight(stage: ShutdownStage): nat {
    if stage.Calling? then 1 else 0
  }

  /** What an open pool has left to do: a push outweighs the task it queues and the worker it
      wakes, a pop the task it starts and the submitter it wakes, and a thread awake one asleep. */
  function OpenMeasure(s: State): nat {
    3 * |s.queue| + Total(s.workers, OpenWorkerWeight) + Total(s.submits, OpenSubmitWeight)
    + Total(s.shutdowns, OpenShutdownWeight)
  }

  lemma OpenWorkerSection(s: State, w: nat, wake: Option<nat>)
    requires !Closed(s) && Enabled(s, WorkerSection(w, wake))
    ensures OpenMeasure(AfterWorkerSection(s, w, wake)) < OpenMeasure(s)
  {
    var t := AfterWorkerSection(s, w, wake);
    TotalUpdate(s.workers, OpenWorkerWeight, w, t.workers[w]);
    if WorkerGrabs(s) && wake.Some? {
      TotalUpdate(s.submits, OpenSubmitWeight, wake.value, NotifiedOfRoom);
    }
  }

  lemma OpenSubmitSection(s: State, c: nat, wake: Option<nat>)
    requires !Closed(s) && Enabled(s, SubmitSection(c, wake))
    ensures OpenMeasure(AfterSubmitSection(s, c, wake)) < OpenMeasure(s)
  {
    var t := AfterSubmitSection(s, c, wake);
    TotalUpdate(s.submits, OpenSubmitWeight, c, t.submits[c]);
    if SubmitPushes(s) && wake.Some? {
      TotalUpdate(s.workers, OpenWorkerWeight, wake.value, NotifiedOfTask);
    }
  }

  /** While the pool stays open, every productive step decreases the measure. */
  lemma OpenStepDecreases(s: State, step: Step)
    requires Inv(s) && Productive(step) && Enabled(s, step) && !Closed(Apply(s, step))
    ensures OpenMeasure(Apply(s, step)) < OpenMeasure(s)
  {
    match step {
      case SubmitSection(c, wake) => OpenSubmitSection(s, c, wake);
      case WorkerSection(w, wake) => OpenWorkerSection(s, w, wake);
      case WorkerFinish(w, threw) =>
        assert Unfulfilled(s, s.workers[w].entry);
        TotalUpdate(s.workers, OpenWorkerWeight, w, Looping);
      case _ =>
    }
  }

  /** What a step that is not productive adds, itself included: a new pushTask call five units,
      a new shutdown call and a spurious wake-up one each. */
  function Extra(step: Step): nat {
    match step
    case PushTask(_) => 6
    case CallShutdown(_) => 2
    case SubmitSpurious(_) => 2
    case WorkerSpurious(_) => 2
    case _ => 0
  }

  function Extras(steps: seq<Step>): nat {
    if steps == [] then 0 else Extra(steps[0]) + Extras(steps[1..])
  }

  lemma OpenExtra(s: State, step: Step)
    requires Enabled(s, step) && !Productive(step)
    ensures 1 + OpenMeasure(Apply(s, step)) == OpenMeasure(s) + Extra(step)
  {
    match step {
      case PushTask(_) => TotalAppend(s.submits, OpenSubmitWeight, Entering);
      case CallShutdown(mode) => TotalAppend(s.shutdowns, OpenShutdownWeight, Calling(mode));
      case SubmitSpurious(c) => TotalUpdate(s.submits, OpenSubmitWeight, c, NotifiedOfRoom);
      case WorkerSpurious(w) => TotalUpdate(s.workers, OpenWorkerWeight, w, NotifiedOfTask);
    }
  }

  /** A run that leaves the pool open is no longer than the measure at its start and what its
      new calls and spurious wake-ups add: the threads cannot keep each other busy for ever. */
  lemma {:induction false} OpenRunsAreBounded(s: State, steps: seq<Step>)
    requires Inv(s) && CanRun(s, steps) && !Closed(RunFrom(s, steps))
    ensures |steps| + OpenMeasure(RunFrom(s, steps)) <= OpenMeasure(s) + Extras(steps)
    decreases |steps|
  {
    if steps != [] {
      var t := Apply(s, steps[0]);
      StepKeepsInv(s, steps[0]);
      if Closed(t) {
        ClosedAcceptsNothing(t, steps[1..]);
      }
      OpenRunsAreBounded(t, steps[1..]);
      if Productive(steps[0]) {
        OpenStepDecreases(s, steps[0]);
      } else {
        OpenExtra(s, steps[0]);
      }
    }
  }

  /** An open pool with at least one worker and one slot never deadlocks: while a task is
      queued or running or a pushTask call is not over, a productive step is enabled. */
  lemma OpenPoolNeverDeadlocks(numThreads: nat, queueCapacity: nat, s: State)
    requires Reachable(numThreads, queueCapacity, s) && !Closed(s)
    requires numThreads >= 1 && queueCapacity >= 1
    requires s.queue != [] || (exists w :: 0 <= w < |s.workers| && s.workers[w].Running?)
             || (exists c :: 0 <= c < |s.submits| && !SubmitOver(s.submits[c]))
    ensures exists step :: Productive(step) && Enabled(s, step)
  {
    ReachableInv(numThreads, queueCapacity, s);
    OpenPoolIsAwake(numThreads, queueCapacity, s);
    if w :| 0 <= w < |s.workers| && s.workers[w] != WaitingForTask {
      var step := WorkerCanStep(s, w);
    } else {
      var c :| 0 <= c < |s.submits| && !SubmitOver(s.submits[c]);
      if s.submits[c] == WaitingForRoom {
        assert c in At(s.submits, WaitingForRoom);
        assert At(s.submits, NotifiedOfRoom) != {};
        c :| c in At(s.submits, NotifiedOfRoom);
      }
      var step := SubmitCanStep(s, c);
    }
  }

  /** In an open pool with nothing productive to do, the queue is empty, no task runs and every
      pushTask call was accepted. */
  lemma NothingLeftOpen(numThreads: nat, queueCapacity: nat, s: State)
    requires numThreads >= 1 && queueCapacity >= 1 && Reachable(numThreads, queueCapacity, s) && !Closed(s) && Stuck(s)
    ensures s.queue == [] && forall w :: 0 <= w < |s.workers| ==> !s.workers[w].Running?
    ensures forall c :: 0 <= c < |s.submits| ==> s.submits[c] == Accepted
  {
    if s.queue != [] || (exists w :: 0 <= w < |s.workers| && s.workers[w].Running?)
       || (exists c :: 0 <= c < |s.submits| && !SubmitOver(s.submits[c])) {
      OpenPoolNeverDeadlocks(numThreads, queueCapacity, s);
    }
    forall c | 0 <= c < |s.submits| ensures s.submits[c] == Accepted {
      assert SubmitOver(s.submits[c]);
      if s.submits[c] != Accepted {
        RefusalsMeanClosed(numThreads, queueCapacity, s, c);
      }
    }
  }

  /** Without a slot nothing is ever accepted. */
  lemma {:induction false} NoSlotNoPush(s: State, steps: seq<Step>)
    requires s.capacity == 0 && s.accepted == [] && CanRun(s, steps)
    ensures RunFrom(s, steps).accepted == []
    decreases |steps|
  {
    if steps != [] {
      NoSlotNoPush(Apply(s, steps[0]), steps[1..]);
    }
  }

  /** Every pushTask call of the run returned its future, and every promise holds its task's
      own outcome. */
  ghost predicate AllServed(numThreads: nat, queueCapacity: nat, steps: seq<Step>)
    requires CanRun(Init(numThreads, queueCapacity), steps)
  {
    var s, pushed := After(numThreads, queueCapacity, steps), Pushed(steps);
    && |s.submits| == |pushed|
    && (forall c :: 0 <= c < |pushed| ==> s.submits[c] == Accepted && Entry(c, pushed[c]) in s.accepted)
    && AllFulfilled(numThreads, queueCapacity, steps, s.accepted)
  }

  lemma OpenPoolServesAll(numThreads: nat, queueCapacity: nat, steps: seq<Step>)
    requires numThreads >= 1 && queueCapacity >= 1 && CanRun(Init(numThreads, queueCapacity), steps)
    requires !Closed(After(numThreads, queueCapacity, steps)) && Stuck(After(numThreads, queueCapacity, steps))
    ensures AllServed(numThreads, queueCapacity, steps)
  {
    var s := After(numThreads, queueCapacity, steps);
    AfterIsReachable(numThreads, queueCapacity, steps);
    NothingLeftOpen(numThreads, queueCapacity, s);
    QueueIsFifo(numThreads, queueCapacity, s);
    TasksArePushed(numThreads, queueCapacity, steps);
    forall k | 0 <= k < |s.accepted|
      ensures s.accepted[k].call < |s.promises| && Fulfilled(s.promises[s.accepted[k].call], s.accepted[k].task)
    {
      assert s.accepted == s.taken && Settled(s, s.taken[k]);
      assert forall w: nat :: !HeldBy(s, s.taken[k], w);
    }
    FulfilledAsRun(numThreads, queueCapacity, steps, s.accepted);
  }

  /** Without a worker or without a slot, no accepted task gets its outcome. */
  lemma NothingFulfilled(numThreads: nat, queueCapacity: nat, steps: seq<Step>)
    requires numThreads == 0 || queueCapacity == 0
    requires CanRun(Init(numThreads, queueCapacity), steps) && !Closed(After(numThreads, queueCapacity, steps))
    ensures var s := After(numThreads, queueCapacity, steps);
            AllFulfilled(numThreads, queueCapacity, steps, s.accepted) ==> s.accepted == []
  {
    var s := After(numThreads, queueCapacity, steps);
    ReachableInv(numThreads, queueCapacity, s);
    if queueCapacity == 0 {
      NoSlotNoPush(Init(numThreads, queueCapacity), steps);
    } else if s.accepted != [] {
      assert s.accepted[0] == s.queue[0] && Unfulfilled(s, s.queue[0]);
    }
  }

  /** So a pool without a worker or a slot that was called leaves some call unserved. */
  lemma SomeoneUnserved(numThreads: nat, queueCapacity: nat, steps: seq<Step>)
    requires numThreads == 0 || queueCapacity == 0
    requires CanRun(Init(numThreads, queueCapacity), steps) && !Closed(After(numThreads, queueCapacity, steps))
    ensures AllServed(numThreads, queueCapacity, steps) ==> Pushed(steps) == []
  {
    hide AllFulfilled, RunFrom, CanRun;
    var s := After(numThreads, queueCapacity, steps);
    assert AllServed(numThreads, queueCapacity, steps) && Pushed(steps) != [] ==> s.submits[0] == Accepted && s.accepted != [];
    NothingFulfilled(numThreads, queueCapacity, steps);
  }

  /** An open pool does all its work: a run that leaves the pool open and that no productive
      step extends has served every pushTask call if and only if the pool has a worker and a
      slot, or there was no call. */
  lemma OpenPoolFinishesItsWork(numThreads: nat, queueCapacity: nat, steps: seq<Step>)
    requires CanRun(Init(numThreads, queueCapacity), steps)
    requires !Closed(After(numThreads, queueCapacity, steps)) && Stuck(After(numThreads, queueCapacity, steps))
    ensures AllServed(numThreads, queueCapacity, steps) <==>
            (numThreads >= 1 && queueCapacity >= 1) || Pushed(steps) == []
  {
    if numThreads >= 1 && queueCapacity >= 1 {
      OpenPoolServesAll(numThreads, queueCapacity, steps);
    } else {
      SomeoneUnserved(numThreads, queueCapacity, steps);
      NoCallsNothingAccepted(numThreads, queueCapacity, steps);
    }
  }

  lemma NoCallsNothingAccepted(numThreads: nat, queueCapacity: nat, steps: seq<Step>)
    requires CanRun(Init(numThreads, queueCapacity), steps)
    ensures var s := After(numThreads, queueCapacity, steps);
            |s.submits| == |Pushed(steps)| && (Pushed(steps) == [] ==> s.accepted == [])
  {
    var s := After(numThreads, queueCapacity, steps);
    TasksArePushed(numThreads, queueCapacity, steps);
    ReachableInv(numThreads, queueCapacity, s);
    assert s.accepted != [] ==> OwnEntry(s, s.accepted[0]);
  }
}
