/** What the pool's state says of a run, read off the steps of the run alone: the tasks that
    were pushed, the modes that were called, who shut the pool down, and how each pushTask
    call was decided. */
module PoolHistory {
  import opened Common
  import opened PoolSpec
  import opened PoolInvariant

  function PushedBy(step: Step): seq<Task> {
    if step.PushTask? then [step.task] else []
  }

  /** The arguments of the pushTask calls of a run, in order. */
  function Pushed(steps: seq<Step>): seq<Task> {
    if steps == [] then [] else PushedBy(steps[0]) + Pushed(steps[1..])
  }

  function CallBy(step: Step): seq<Mode> {
    if step.CallShutdown? then [step.mode] else []
  }

  /** The shutdown calls of a run, in order: which of the two functions each one is. */
  function ShutdownCalls(steps: seq<Step>): seq<Mode> {
    if steps == [] then [] else CallBy(steps[0]) + ShutdownCalls(steps[1..])
  }

  /** The shutdown call that locked the mutex first. */
  function FirstToLock(steps: seq<Step>): Option<nat> {
    if steps == [] then None
    else if steps[0].ShutdownSection? then Some(steps[0].call)
    else FirstToLock(steps[1..])
  }

  /** Whether call `c` has been through its locked part at least once. */
  ghost predicate HasLocked(steps: seq<Step>, c: nat) {
    exists wake :: SubmitSection(c, wake) in steps
  }

  // ----- the arguments -----

  lemma StepPushes(s: State, step: Step)
    requires Enabled(s, step)
    ensures Apply(s, step).tasks == s.tasks + PushedBy(step)
  {
    assert s.tasks + [] == s.tasks;
  }

  lemma {:induction false} RunPushes(s: State, steps: seq<Step>)
    requires CanRun(s, steps)
    ensures RunFrom(s, steps).tasks == s.tasks + Pushed(steps)
    decreases |steps|
  {
    hide Apply, Enabled, PushedBy;
    if steps == [] {
      assert s.tasks + [] == s.tasks;
    } else {
      StepPushes(s, steps[0]);
      RunPushes(Apply(s, steps[0]), steps[1..]);
      Reassociate(s.tasks, PushedBy(steps[0]), Pushed(steps[1..]));
    }
  }

  /** The c-th pushTask call keeps the task it was called with. */
  lemma TasksArePushed(numThreads: nat, queueCapacity: nat, steps: seq<Step>)
    requires CanRun(Init(numThreads, queueCapacity), steps)
    ensures After(numThreads, queueCapacity, steps).tasks == Pushed(steps)
  {
    RunPushes(Init(numThreads, queueCapacity), steps);
    assert [] + Pushed(steps) == Pushed(steps);
  }

  // ----- the modes -----

  /** `modes` lists the shutdown calls so far. A call that has not locked yet is of its mode;
      the flag that is set is the one of the winner's mode, and no flag is set without one. */
  ghost predicate OfModes(s: State, modes: seq<Mode>) {
    && |s.shutdowns| == |modes|
    && (forall h :: 0 <= h < |modes| && s.shutdowns[h].Calling? ==> s.shutdowns[h].mode == modes[h])
    && (s.winner.Some? ==> s.winner.value < |modes|)
    && (s.graceful <==> s.winner.Some? && modes[s.winner.value] == Graceful)
    && (s.immediate <==> s.winner.Some? && modes[s.winner.value] == Immediate)
  }

  lemma StepKeepsModes(s: State, modes: seq<Mode>, step: Step)
    requires OfModes(s, modes) && Enabled(s, step)
    ensures OfModes(Apply(s, step), modes + CallBy(step))
    ensures Apply(s, step).winner ==
            if s.winner == None && step.ShutdownSection? then Some(step.call) else s.winner
  {
    assert modes + [] == modes;
  }

  lemma {:induction false} RunKeepsModes(s: State, modes: seq<Mode>, steps: seq<Step>)
    requires OfModes(s, modes) && CanRun(s, steps)
    ensures OfModes(RunFrom(s, steps), modes + ShutdownCalls(steps))
    ensures RunFrom(s, steps).winner == if s.winner == None then FirstToLock(steps) else s.winner
    decreases |steps|
  {
    hide Apply, Enabled, OfModes, CallBy;
    if steps == [] {
      assert modes + [] == modes;
    } else {
      StepKeepsModes(s, modes, steps[0]);
      RunKeepsModes(Apply(s, steps[0]), modes + CallBy(steps[0]), steps[1..]);
      Reassociate(modes, CallBy(steps[0]), ShutdownCalls(steps[1..]));
    }
  }

  /** The first shutdown call to lock the mutex wins. The graceful flag is set exactly when it
      is a call of gracefulShutdown, the immediate flag exactly when it is one of
      immediateShutdown. */
  lemma FlagsFollowFirstCall(numThreads: nat, queueCapacity: nat, steps: seq<Step>)
    requires CanRun(Init(numThreads, queueCapacity), steps)
    ensures var s, first, modes := After(numThreads, queueCapacity, steps), FirstToLock(steps), ShutdownCalls(steps);
            && s.winner == first && |s.shutdowns| == |modes|
            && (first.Some? ==> first.value < |modes|)
            && (s.graceful <==> first.Some? && modes[first.value] == Graceful)
            && (s.immediate <==> first.Some? && modes[first.value] == Immediate)
  {
    RunKeepsModes(Init(numThreads, queueCapacity), [], steps);
    assert [] + ShutdownCalls(steps) == ShutdownCalls(steps);
  }

  lemma {:induction false} CallsOfMode(steps: seq<Step>, mode: Mode)
    ensures mode in ShutdownCalls(steps) <==> CallShutdown(mode) in steps
  {
    if steps != [] {
      CallsOfMode(steps[1..], mode);
      assert steps == [steps[0]] + steps[1..];
    }
  }

  lemma {:induction false} CallsConcat(a: seq<Step>, b: seq<Step>)
    ensures ShutdownCalls(a + b) == ShutdownCalls(a) + ShutdownCalls(b)
    decreases |a|
  {
    hide CallBy;
    if a == [] {
      assert a + b == b;
      assert [] + ShutdownCalls(b) == ShutdownCalls(b);
    } else {
      assert (a + b)[1..] == a[1..] + b && (a + b)[0] == a[0];
      CallsConcat(a[1..], b);
      Reassociate(CallBy(a[0]), ShutdownCalls(a[1..]), ShutdownCalls(b));
    }
  }

  lemma CallOfOne(step: Step)
    ensures ShutdownCalls([step]) == CallBy(step)
  {
    assert [step][1..] == [] && CallBy(step) + [] == CallBy(step);
  }

  // ----- how a pushTask call is decided -----

  lemma StepEnters(s: State, step: Step, c: nat)
    requires |s.tasks| == |s.submits| && Enabled(s, step)
    ensures |Apply(s, step).tasks| == |Apply(s, step).submits| && |s.submits| <= |Apply(s, step).submits|
    ensures c < |Apply(s, step).submits| ==>
              (Apply(s, step).submits[c] == Entering <==>
                (c >= |s.submits| || s.submits[c] == Entering) && !(step.SubmitSection? && step.call == c))
  {
  }

  /** A call is at its entry exactly until it locks the mutex for the first time. */
  lemma {:induction false} EntersOnce(s: State, steps: seq<Step>, c: nat)
    requires |s.tasks| == |s.submits| && CanRun(s, steps)
    ensures |RunFrom(s, steps).tasks| == |RunFrom(s, steps).submits|
    ensures c < |RunFrom(s, steps).submits| ==>
              (RunFrom(s, steps).submits[c] == Entering <==>
                (c >= |s.submits| || s.submits[c] == Entering) && !HasLocked(steps, c))
    decreases |steps|
  {
    if steps != [] {
      var t := Apply(s, steps[0]);
      StepEnters(s, steps[0], c);
      EntersOnce(t, steps[1..], c);
      assert steps == [steps[0]] + steps[1..];
      assert HasLocked(steps, c) <==> (steps[0].SubmitSection? && steps[0].call == c) || HasLocked(steps[1..], c);
    }
  }

  /** What a pass through the locked part of pushTask comes to, read off the run before it. It
      pushes exactly when nobody has begun a shutdown and there is room. It throws exactly when
      somebody has - as a refusal at entry on its first pass, as a closing during the wait on a
      later one - and sleeps otherwise. */
  lemma SubmitDecides(numThreads: nat, queueCapacity: nat, before: seq<Step>, c: nat, wake: Option<nat>)
    requires CanRun(Init(numThreads, queueCapacity), before)
    requires Enabled(After(numThreads, queueCapacity, before), SubmitSection(c, wake))
    ensures var s := After(numThreads, queueCapacity, before);
            Apply(s, SubmitSection(c, wake)).submits[c] ==
              if FirstToLock(before).Some? then
                if HasLocked(before, c) then RefusedAfterWait else RefusedAtEntry
              else if |s.queue| < queueCapacity then Accepted
              else WaitingForRoom
  {
    FlagsFollowFirstCall(numThreads, queueCapacity, before);
    EntersOnce(Init(numThreads, queueCapacity), before, c);
    CapacityStays(Init(numThreads, queueCapacity), before);
  }

  lemma {:induction false} CapacityStays(s: State, steps: seq<Step>)
    requires CanRun(s, steps)
    ensures RunFrom(s, steps).capacity == s.capacity
    decreases |steps|
  {
    if steps != [] {
      CapacityStays(Apply(s, steps[0]), steps[1..]);
    }
  }

  /** Once decided, a call stays decided. */
  lemma {:induction false} DecisionStays(s: State, steps: seq<Step>, c: nat)
    requires CanRun(s, steps) && c < |s.submits|
    requires s.submits[c] == Accepted || s.submits[c] == RefusedAtEntry || s.submits[c] == RefusedAfterWait
    ensures c < |RunFrom(s, steps).submits| && RunFrom(s, steps).submits[c] == s.submits[c]
    decreases |steps|
  {
    if steps != [] {
      DecisionStays(Apply(s, steps[0]), steps[1..], c);
    }
  }
}
