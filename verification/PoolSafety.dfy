/** What holds after every run of the pool, whatever the interleaving. */
module PoolSafety {
  import opened Common
  import opened PoolSpec
  import opened PoolInvariant
  import opened PoolHistory

  lemma {:induction false} RunKeepsInv(s: State, steps: seq<Step>)
    requires Inv(s) && CanRun(s, steps)
    ensures Inv(RunFrom(s, steps))
    decreases |steps|
  {
    if steps != [] {
      StepKeepsInv(s, steps[0]);
      RunKeepsInv(Apply(s, steps[0]), steps[1..]);
    }
  }

  lemma {:induction false} RunKeepsSizes(s: State, steps: seq<Step>)
    requires CanRun(s, steps)
    ensures |RunFrom(s, steps).workers| == |s.workers|
    ensures RunFrom(s, steps).capacity == s.capacity
    decreases |steps|
  {
    if steps != [] {
      RunKeepsSizes(Apply(s, steps[0]), steps[1..]);
    }
  }

  /** The states that some run of a fresh pool ends in. */
  ghost predicate Reachable(numThreads: nat, queueCapacity: nat, s: State) {
    exists steps ::
      CanRun(Init(numThreads, queueCapacity), steps) && RunFrom(Init(numThreads, queueCapacity), steps) == s
  }

  lemma InitReachable(numThreads: nat, queueCapacity: nat)
    ensures Reachable(numThreads, queueCapacity, Init(numThreads, queueCapacity))
  {
    assert CanRun(Init(numThreads, queueCapacity), []);
  }

  lemma StepReachable(numThreads: nat, queueCapacity: nat, s: State, step: Step)
    requires Reachable(numThreads, queueCapacity, s) && Enabled(s, step)
    ensures Reachable(numThreads, queueCapacity, Apply(s, step))
  {
    var t := Apply(s, step);
    assert [step][1..] == [] && CanRun(t, []);
    assert CanRun(s, [step]) && RunFrom(s, [step]) == t;
    RunReachable(numThreads, queueCapacity, s, [step]);
  }

  lemma RunReachable(numThreads: nat, queueCapacity: nat, s: State, rest: seq<Step>)
    requires Reachable(numThreads, queueCapacity, s) && CanRun(s, rest)
    ensures Reachable(numThreads, queueCapacity, RunFrom(s, rest))
  {
    var init := Init(numThreads, queueCapacity);
    var steps :| CanRun(init, steps) && RunFrom(init, steps) == s;
    RunSplit(init, steps, rest);
    assert CanRun(init, steps + rest);
  }

  /** Every reachable state satisfies the invariant. */
  lemma ReachableInv(numThreads: nat, queueCapacity: nat, s: State)
    requires Reachable(numThreads, queueCapacity, s)
    ensures Inv(s) && |s.workers| == numThreads && s.capacity == queueCapacity
  {
    var init := Init(numThreads, queueCapacity);
    var steps :| CanRun(init, steps) && RunFrom(init, steps) == s;
    InitInv(numThreads, queueCapacity);
    RunKeepsInv(init, steps);
    RunKeepsSizes(init, steps);
  }

  /** The queue is a bounded FIFO: workers pop tasks in push order, nothing is lost or
      invented, and an immediate shutdown drops exactly the tail no worker had popped.
      Each pushTask call that returned its future is in that order once, no other call is. */
  lemma QueueIsFifo(numThreads: nat, queueCapacity: nat, s: State)
    requires Reachable(numThreads, queueCapacity, s)
    ensures s.accepted == s.taken + s.queue + s.dropped
    ensures |s.queue| <= queueCapacity
    ensures s.dropped != [] ==> s.immediate && s.queue == []
    ensures forall j, k :: 0 <= j < k < |s.accepted| ==> s.accepted[j].call != s.accepted[k].call
    ensures |s.tasks| == |s.submits|
    ensures forall c :: 0 <= c < |s.submits| ==>
              (s.submits[c] == Accepted <==> Entry(c, s.tasks[c]) in s.accepted)
  {
    ReachableInv(numThreads, queueCapacity, s);
    forall c | 0 <= c < |s.submits|
      ensures s.submits[c] == Accepted <==> Entry(c, s.tasks[c]) in s.accepted
    {
      if s.submits[c] == Accepted {
        var k :| 0 <= k < |s.accepted| && s.accepted[k].call == c;
        assert OwnEntry(s, s.accepted[k]);
        assert s.accepted[k] == Entry(c, s.tasks[c]);
      }
      if k :| 0 <= k < |s.accepted| && s.accepted[k] == Entry(c, s.tasks[c]) {
        assert OwnEntry(s, s.accepted[k]);
      }
    }
  }

  /** Once a flag is set it stays set, nothing more is accepted, and the winner stays. */
  lemma {:induction false} ClosedAcceptsNothing(s: State, steps: seq<Step>)
    requires Closed(s) && CanRun(s, steps)
    ensures var t := RunFrom(s, steps);
            t.accepted == s.accepted && t.graceful == s.graceful && t.immediate == s.immediate &&
            t.winner == s.winner
    decreases |steps|
  {
    if steps != [] {
      var t := Apply(s, steps[0]);
      assert t.accepted == s.accepted && t.graceful == s.graceful && t.immediate == s.immediate && t.winner == s.winner;
      ClosedAcceptsNothing(t, steps[1..]);
    }
  }

  ghost predicate RefusedMeansClosed(s: State) {
    forall c :: 0 <= c < |s.submits| && (s.submits[c] == RefusedAtEntry || s.submits[c] == RefusedAfterWait) ==>
      Closed(s)
  }

  lemma {:induction false} RunKeepsRefusals(s: State, steps: seq<Step>)
    requires RefusedMeansClosed(s) && CanRun(s, steps)
    ensures RefusedMeansClosed(RunFrom(s, steps))
    decreases |steps|
  {
    if steps != [] {
      RunKeepsRefusals(Apply(s, steps[0]), steps[1..]);
    }
  }

  /** pushTask throws only when a shutdown has begun. */
  lemma RefusalsMeanClosed(numThreads: nat, queueCapacity: nat, s: State, c: nat)
    requires Reachable(numThreads, queueCapacity, s) && c < |s.submits|
    requires s.submits[c] == RefusedAtEntry || s.submits[c] == RefusedAfterWait
    ensures Closed(s) && c !in Calls(s.accepted) && c < |s.promises| && s.promises[c] == Unset
  {
    ReachableInv(numThreads, queueCapacity, s);
    var init := Init(numThreads, queueCapacity);
    var steps :| CanRun(init, steps) && RunFrom(init, steps) == s;
    RunKeepsRefusals(init, steps);
    assert forall k :: 0 <= k < |s.accepted| ==> OwnEntry(s, s.accepted[k]);
  }

  /** A promise is set at most once: whatever a run finds set it leaves as it is, and the
      process never dies of setting a promise twice. */
  lemma {:induction false} PromisesSetOnce(s: State, steps: seq<Step>, c: nat)
    requires Inv(s) && CanRun(s, steps) && c < |s.promises| && s.promises[c] != Unset
    ensures c < |RunFrom(s, steps).promises| && RunFrom(s, steps).promises[c] == s.promises[c]
    ensures !RunFrom(s, steps).terminated
    decreases |steps|
  {
    if steps != [] {
      var t := Apply(s, steps[0]);
      StepKeepsInv(s, steps[0]);
      SetPromiseStays(s, steps[0], c);
      PromisesSetOnce(t, steps[1..], c);
    }
  }

  lemma SetPromiseStays(s: State, step: Step, c: nat)
    requires Inv(s) && Enabled(s, step) && c < |s.promises| && s.promises[c] != Unset
    ensures c < |Apply(s, step).promises| && Apply(s, step).promises[c] == s.promises[c]
  {
    if step.WorkerFinish? {
      assert Unfulfilled(s, s.workers[step.worker].entry);
    } else if step.ShutdownSection? {
      forall k | 0 <= k < |s.queue| ensures s.queue[k].call != c {
        assert Unfulfilled(s, s.queue[k]);
      }
    }
  }

  ghost predicate HasReturned(s: State) {
    s.winner.Some? && AtStage(s, s.winner.value, Returned)
  }

  /** The run holds a task body that throws, run by a worker holding the entry of call `c`. */
  predicate Threw(s: State, steps: seq<Step>, c: nat)
    requires CanRun(s, steps)
    decreases |steps|
  {
    steps != [] && (Throws(s, steps[0], c) || Threw(Apply(s, steps[0]), steps[1..], c))
  }

  /** A promise holds an exception exactly when its own task body threw. */
  lemma {:induction false} ExceptionsWereThrown(s: State, steps: seq<Step>, c: nat)
    requires Inv(s) && CanRun(s, steps)
    ensures |s.promises| <= |RunFrom(s, steps).promises|
    ensures c < |RunFrom(s, steps).promises| ==>
              (RunFrom(s, steps).promises[c] == Exception <==>
                (c < |s.promises| && s.promises[c] == Exception) || Threw(s, steps, c))
    decreases |steps|
  {
    if steps != [] {
      StepKeepsInv(s, steps[0]);
      StepExceptions(s, steps[0]);
      ExceptionsWereThrown(Apply(s, steps[0]), steps[1..], c);
    }
  }

  /** A run whose task bodies all return normally throws nothing. */
  lemma {:induction false} NothingThrew(s: State, steps: seq<Step>, c: nat)
    requires CanRun(s, steps) && forall w: nat :: WorkerFinish(w, true) !in steps
    ensures !Threw(s, steps, c)
    decreases |steps|
  {
    if steps != [] {
      assert steps[0] in steps && forall step :: step in steps[1..] ==> step in steps;
      NothingThrew(Apply(s, steps[0]), steps[1..], c);
    }
  }

  lemma AfterIsReachable(numThreads: nat, queueCapacity: nat, steps: seq<Step>)
    requires CanRun(Init(numThreads, queueCapacity), steps)
    ensures Reachable(numThreads, queueCapacity, After(numThreads, queueCapacity, steps))
    ensures Inv(After(numThreads, queueCapacity, steps))
  {
    ReachableInv(numThreads, queueCapacity, After(numThreads, queueCapacity, steps));
  }

  /** After the run each entry's promise holds what its own task, the argument of the entry's
      pushTask call, came to: its own id and the processed name, or an exception if and only if
      its own body threw in the run. */
  ghost predicate AllFulfilled(numThreads: nat, queueCapacity: nat, steps: seq<Step>, entries: seq<Entry>)
    requires CanRun(Init(numThreads, queueCapacity), steps)
  {
    var s, pushed := After(numThreads, queueCapacity, steps), Pushed(steps);
    forall k :: 0 <= k < |entries| ==>
      var call := entries[k].call;
      && call < |s.promises| && call < |pushed|
      && s.promises[call] ==
           if Threw(Init(numThreads, queueCapacity), steps, call) then Exception
           else Value(Result(pushed[call].id, "Processed: " + pushed[call].taskName))
  }

  /** A promise some worker set holds exactly the outcome of its own task in the run. */
  lemma FulfilledAsRun(numThreads: nat, queueCapacity: nat, steps: seq<Step>, entries: seq<Entry>)
    requires CanRun(Init(numThreads, queueCapacity), steps)
    requires var s := After(numThreads, queueCapacity, steps);
             forall k :: 0 <= k < |entries| ==>
               entries[k] in s.accepted &&
               entries[k].call < |s.promises| && Fulfilled(s.promises[entries[k].call], entries[k].task)
    ensures AllFulfilled(numThreads, queueCapacity, steps, entries)
  {
    var init := Init(numThreads, queueCapacity);
    var s := After(numThreads, queueCapacity, steps);
    InitInv(numThreads, queueCapacity);
    RunKeepsInv(init, steps);
    TasksArePushed(numThreads, queueCapacity, steps);
    forall k | 0 <= k < |entries|
      ensures var e := entries[k];
              && e.call < |Pushed(steps)| && e.task == Pushed(steps)[e.call]
              && s.promises[e.call] == Outcome(e.task, Threw(init, steps, e.call))
    {
      assert OwnEntry(s, entries[k]);
      ExceptionsWereThrown(init, steps, entries[k].call);
    }
  }

  /** In a run whose task bodies all return normally, the outcome of a call is a result with the
      id and the processed name of the task it was called with. */
  lemma NormalBodiesGiveResults(numThreads: nat, queueCapacity: nat, steps: seq<Step>, entries: seq<Entry>)
    requires CanRun(Init(numThreads, queueCapacity), steps) && forall w: nat :: WorkerFinish(w, true) !in steps
    requires AllFulfilled(numThreads, queueCapacity, steps, entries)
    ensures var s, pushed := After(numThreads, queueCapacity, steps), Pushed(steps);
            forall k :: 0 <= k < |entries| ==>
              var call := entries[k].call;
              && call < |s.promises| && call < |pushed| && s.promises[call].Value?
              && s.promises[call].res.id == pushed[call].id
              && s.promises[call].res.resultField == "Processed: " + pushed[call].taskName
  {
    forall k | 0 <= k < |entries|
      ensures After(numThreads, queueCapacity, steps).promises[entries[k].call].Value?
    {
      NothingThrew(Init(numThreads, queueCapacity), steps, entries[k].call);
    }
  }

  /** With every worker gone, each popped task has its outcome. */
  lemma ReturnedMeansFulfilled(s: State)
    requires Inv(s) && HasReturned(s)
    ensures forall k :: 0 <= k < |s.taken| ==>
              s.taken[k].call < |s.promises| && Fulfilled(s.promises[s.taken[k].call], s.taken[k].task)
    ensures s.workers != [] ==> s.queue == []
    ensures forall w :: 0 <= w < |s.workers| ==> s.workers[w] == Exited
  {
    assert WinnerStage(s, s.shutdowns[s.winner.value]);
    forall k | 0 <= k < |s.taken|
      ensures s.taken[k].call < |s.promises| && Fulfilled(s.promises[s.taken[k].call], s.taken[k].task)
    {
      assert Settled(s, s.taken[k]);
      assert forall w: nat :: !HeldBy(s, s.taken[k], w);
    }
    if s.workers != [] {
      assert s.workers[0] == Exited;
    }
  }

  /** The call that returned, other than early, is the one that shut the pool down. */
  lemma ReturnedCallWon(numThreads: nat, queueCapacity: nat, steps: seq<Step>, h: nat)
    requires CanRun(Init(numThreads, queueCapacity), steps) && AtStage(After(numThreads, queueCapacity, steps), h, Returned)
    ensures var s := After(numThreads, queueCapacity, steps);
            && HasReturned(s) && h < |ShutdownCalls(steps)|
            && (s.graceful <==> ShutdownCalls(steps)[h] == Graceful)
            && (s.immediate <==> ShutdownCalls(steps)[h] == Immediate)
  {
    ReachableInv(numThreads, queueCapacity, After(numThreads, queueCapacity, steps));
    FlagsFollowFirstCall(numThreads, queueCapacity, steps);
  }

  /** When a call of gracefulShutdown has returned, other than early, every accepted task has
      its promise set to its own outcome - its id and name, or an exception exactly if its body
      threw - if and only if the pool has a worker or nothing was accepted. With a worker,
      nothing is queued or dropped either. */
  lemma GracefulReturnMeansDone(numThreads: nat, queueCapacity: nat, steps: seq<Step>, h: nat)
    requires CanRun(Init(numThreads, queueCapacity), steps)
    requires AtStage(After(numThreads, queueCapacity, steps), h, Returned)
    requires h < |ShutdownCalls(steps)| && ShutdownCalls(steps)[h] == Graceful
    ensures var s := After(numThreads, queueCapacity, steps);
            && (AllFulfilled(numThreads, queueCapacity, steps, s.accepted) <==> numThreads >= 1 || s.accepted == [])
            && (numThreads >= 1 ==> s.queue == [] && s.dropped == [] && s.accepted == s.taken)
  {
    var s := After(numThreads, queueCapacity, steps);
    ReturnedCallWon(numThreads, queueCapacity, steps, h);
    ReachableInv(numThreads, queueCapacity, s);
    ReturnedMeansFulfilled(s);
    if numThreads >= 1 {
      assert s.accepted == s.taken;
      FulfilledAsRun(numThreads, queueCapacity, steps, s.accepted);
    } else {
      assert s.accepted == s.queue;
      if s.queue != [] {
        assert Unfulfilled(s, s.queue[0]);
      }
    }
  }

  /** The failing case is real: with no worker, gracefulShutdown returns with the task still
      queued and its promise unset. */
  lemma GracefulReturnStrandsTask(task: Task) returns (steps: seq<Step>)
    ensures CanRun(Init(0, 1), steps) && ShutdownCalls(steps) == [Graceful]
    ensures var s := After(0, 1, steps);
            && AtStage(s, 0, Returned)
            && s.queue == [Entry(0, task)] && s.accepted == s.queue && s.promises == [Unset]
  {
    steps := Stranded(task);
    steps := ThenReturned(steps);
  }

  /** A run goes on with one more step. */
  lemma Extend(numThreads: nat, queueCapacity: nat, steps: seq<Step>, step: Step)
    requires CanRun(Init(numThreads, queueCapacity), steps) && Enabled(After(numThreads, queueCapacity, steps), step)
    ensures CanRun(Init(numThreads, queueCapacity), steps + [step])
    ensures After(numThreads, queueCapacity, steps + [step]) == Apply(After(numThreads, queueCapacity, steps), step)
    ensures ShutdownCalls(steps + [step]) == ShutdownCalls(steps) + CallBy(step)
  {
    var s := After(numThreads, queueCapacity, steps);
    assert [step][1..] == [] && CanRun(Apply(s, step), []);
    assert CanRun(s, [step]) && RunFrom(s, [step]) == Apply(s, step);
    RunSplit(Init(numThreads, queueCapacity), steps, [step]);
    CallsConcat(steps, [step]);
    CallOfOne(step);
  }

  lemma Stranded(task: Task) returns (steps: seq<Step>)
    ensures CanRun(Init(0, 1), steps) && ShutdownCalls(steps) == []
    ensures var s := After(0, 1, steps);
            && !Closed(s) && !s.terminated && s.workers == [] && s.shutdowns == []
            && s.queue == [Entry(0, task)] && s.accepted == s.queue && s.promises == [Unset]
  {
    steps := [];
    Extend(0, 1, steps, PushTask(task));
    steps := steps + [PushTask(task)];
    Extend(0, 1, steps, SubmitSection(0, None));
    steps := steps + [SubmitSection(0, None)];
  }

  lemma ThenReturned(start: seq<Step>) returns (steps: seq<Step>)
    requires CanRun(Init(0, 1), start) && ShutdownCalls(start) == []
    requires var s := After(0, 1, start); !Closed(s) && !s.terminated && s.workers == [] && s.shutdowns == []
    ensures CanRun(Init(0, 1), steps) && ShutdownCalls(steps) == [Graceful]
    ensures var s, t := After(0, 1, start), After(0, 1, steps);
            AtStage(t, 0, Returned) && t.queue == s.queue && t.accepted == s.accepted && t.promises == s.promises
  {
    steps := start;
    Extend(0, 1, steps, CallShutdown(Graceful));
    steps := steps + [CallShutdown(Graceful)];
    Extend(0, 1, steps, ShutdownSection(0));
    steps := steps + [ShutdownSection(0)];
    steps := ThenJoined(steps);
  }

  lemma ThenJoined(start: seq<Step>) returns (steps: seq<Step>)
    requires CanRun(Init(0, 1), start)
    requires var s := After(0, 1, start); !s.terminated && s.workers == [] && s.shutdowns == [NotifyingSubmitters]
    ensures CanRun(Init(0, 1), steps) && ShutdownCalls(steps) == ShutdownCalls(start)
    ensures var s, t := After(0, 1, start), After(0, 1, steps);
            AtStage(t, 0, Returned) && t.queue == s.queue && t.accepted == s.accepted && t.promises == s.promises
  {
    steps := start;
    Extend(0, 1, steps, NotifyNotFull(0));
    steps := steps + [NotifyNotFull(0)];
    Extend(0, 1, steps, NotifyNotEmpty(0));
    steps := steps + [NotifyNotEmpty(0)];
    Extend(0, 1, steps, JoinNext(0));
    steps := steps + [JoinNext(0)];
  }

  /** When a call of immediateShutdown has returned, other than early, the accepted tasks are a
      prefix that was completed, each with its own outcome, followed by a dropped suffix whose
      promises are broken: no task is both and none is neither. */
  lemma ImmediateReturnSplitsTasks(numThreads: nat, queueCapacity: nat, steps: seq<Step>, h: nat)
    requires CanRun(Init(numThreads, queueCapacity), steps)
    requires AtStage(After(numThreads, queueCapacity, steps), h, Returned)
    requires h < |ShutdownCalls(steps)| && ShutdownCalls(steps)[h] == Immediate
    ensures var s := After(numThreads, queueCapacity, steps);
            && s.accepted == s.taken + s.dropped
            && AllFulfilled(numThreads, queueCapacity, steps, s.taken)
            && forall k :: 0 <= k < |s.dropped| ==>
                 s.dropped[k].call < |s.promises| && s.promises[s.dropped[k].call] == Broken
  {
    hide Inv, AllFulfilled, RunFrom, CanRun, ShutdownCalls, Pushed;
    var s := After(numThreads, queueCapacity, steps);
    ReturnedCallWon(numThreads, queueCapacity, steps, h);
    AfterIsReachable(numThreads, queueCapacity, steps);
    ReturnedMeansFulfilled(s);
    TakenThenDropped(s);
    FulfilledAsRun(numThreads, queueCapacity, steps, s.taken);
  }

  /** After an immediate shutdown the accepted tasks are those taken and those dropped. */
  lemma TakenThenDropped(s: State)
    requires Inv(s) && s.immediate
    ensures s.accepted == s.taken + s.dropped
    ensures forall k :: 0 <= k < |s.taken| ==> s.taken[k] in s.accepted
    ensures forall k :: 0 <= k < |s.dropped| ==>
              s.dropped[k].call < |s.promises| && s.promises[s.dropped[k].call] == Broken
  {
    assert s.queue == [];
    forall k | 0 <= k < |s.taken| ensures s.taken[k] in s.accepted {
      assert s.accepted[k] == s.taken[k];
    }
  }

  /** Only immediateShutdown drops tasks. */
  lemma NothingDroppedWithoutImmediate(numThreads: nat, queueCapacity: nat, steps: seq<Step>)
    requires CanRun(Init(numThreads, queueCapacity), steps) && CallShutdown(Immediate) !in steps
    ensures var s := After(numThreads, queueCapacity, steps);
            && !s.immediate && s.dropped == [] && s.accepted == s.taken + s.queue
            && forall c :: 0 <= c < |s.promises| ==> s.promises[c] != Broken
  {
    var s := After(numThreads, queueCapacity, steps);
    ReachableInv(numThreads, queueCapacity, s);
    FlagsFollowFirstCall(numThreads, queueCapacity, steps);
    CallsOfMode(steps, Immediate);
    NotDroppedNotBroken(s);
  }

  /** Only the promises of dropped tasks are broken. */
  lemma NotDroppedNotBroken(s: State)
    requires Inv(s) && s.dropped == []
    ensures forall c :: 0 <= c < |s.promises| ==> s.promises[c] != Broken
  {
    forall c | 0 <= c < |s.promises| && c in Calls(s.accepted) ensures s.promises[c] != Broken {
      var k :| 0 <= k < |s.accepted| && s.accepted[k].call == c;
      if k < |s.taken| {
        TakenNotBroken(s, k);
      } else {
        assert s.accepted[k] == s.queue[k - |s.taken|] && Unfulfilled(s, s.queue[k - |s.taken|]);
      }
    }
  }

  lemma TakenNotBroken(s: State, k: nat)
    requires Inv(s) && k < |s.taken|
    ensures s.taken[k].call < |s.promises| && s.promises[s.taken[k].call] != Broken
  {
    assert Settled(s, s.taken[k]);
    if !Fulfilled(s.promises[s.taken[k].call], s.taken[k].task) {
      var w: nat :| HeldBy(s, s.taken[k], w);
      assert Unfulfilled(s, s.workers[w].entry);
    }
  }

  /** No wake-up is lost while the pool is open: a worker sleeps only if every queued task
      has a woken worker coming, a submitter only if every free slot has a woken submitter
      coming; so with a worker and a queued task, some worker is not asleep. */
  lemma OpenPoolIsAwake(numThreads: nat, queueCapacity: nat, s: State)
    requires Reachable(numThreads, queueCapacity, s) && !Closed(s)
    ensures At(s.workers, WaitingForTask) != {} ==> |s.queue| <= |At(s.workers, NotifiedOfTask)|
    ensures At(s.submits, WaitingForRoom) != {} ==>
              queueCapacity - |s.queue| <= |At(s.submits, NotifiedOfRoom)|
    ensures s.queue != [] && numThreads >= 1 ==>
              exists w :: 0 <= w < |s.workers| && s.workers[w] != WaitingForTask
  {
    ReachableInv(numThreads, queueCapacity, s);
    if s.queue != [] && numThreads >= 1 && s.workers[0] == WaitingForTask {
      assert 0 in At(s.workers, WaitingForTask);
      assert At(s.workers, NotifiedOfTask) != {};
      var w :| w in At(s.workers, NotifiedOfTask);
    }
  }

  /** After a flag is set, whoever still sleeps has its notify_all ahead. */
  lemma ClosedPoolWakesSleepers(numThreads: nat, queueCapacity: nat, s: State)
    requires Reachable(numThreads, queueCapacity, s) && Closed(s)
    ensures At(s.submits, WaitingForRoom) != {} ==> NotifyPending(s, NotifyingSubmitters)
    ensures At(s.workers, WaitingForTask) != {} ==>
              NotifyPending(s, NotifyingSubmitters) || NotifyPending(s, NotifyingWorkers)
  {
    ReachableInv(numThreads, queueCapacity, s);
  }
}
