/** The thread pool as the object the source declares, with its fields updated in place.
    Each method is one atomic step of one thread and is proved to take the state machine
    of PoolSpec through the same step; which thread runs next is up to the caller. */
module ThreadPool {
  import opened Common
  import opened PoolSpec
  import opened PoolInvariant

  lemma Carry(before: State, step: Step, after: State)
    requires Enabled(before, step) && after == Apply(before, step)
    ensures Inv(before) ==> Inv(after)
  {
    if Inv(before) {
      StepKeepsInv(before, step);
    }
  }

  /** What a shutdown call finds in an open pool. */
  lemma OpenQueue(s: State)
    requires Inv(s)
    ensures !s.terminated && (!s.immediate ==> s.dropped == [])
    ensures forall k :: 0 <= k < |s.queue| ==> s.queue[k].call < |s.promises|
  {
    assert forall k :: 0 <= k < |s.queue| ==> Unfulfilled(s, s.queue[k]);
  }

  class Pool {
    const maxQueueSize: nat
    var workers: seq<WorkerStage>
    var taskQueue: seq<Entry>
    var isImmediateShutdown: bool
    var isGracefulShutdown: bool
    // the pushTask and shutdown calls in progress or over, with their tasks and promises
    var tasks: seq<Task>
    var submits: seq<SubmitStage>
    var promises: seq<Promise>
    var shutdowns: seq<ShutdownStage>
    var terminated: bool
    // history
    ghost var accepted: seq<Entry>
    ghost var taken: seq<Entry>
    ghost var dropped: seq<Entry>
    ghost var winner: Option<nat>

    ghost function Abs(): State
      reads this
    {
      State(maxQueueSize, taskQueue, isGracefulShutdown, isImmediateShutdown, workers, tasks, submits,
            promises, shutdowns, terminated, accepted, taken, dropped, winner)
    }

    ghost predicate Valid()
      reads this
    {
      Inv(Abs())
    }

    constructor (numThreads: nat, queueCapacity: nat)
      ensures Valid() && Abs() == Init(numThreads, queueCapacity)
    {
      maxQueueSize := queueCapacity;
      workers, taskQueue, isImmediateShutdown, isGracefulShutdown := [], [], false, false;
      tasks, submits, promises, shutdowns, terminated := [], [], [], [], false;
      accepted, taken, dropped, winner := [], [], [], None;
      new;
      for i := 0 to numThreads
        invariant Abs() == Init(i, queueCapacity)
      {
        workers := workers + [Looping];
      }
      InitInv(numThreads, queueCapacity);
    }

    /** `notify_one` on cvNotFull: wakes one sleeping submitter, if there is one. */
    method NotifyOneSubmitter() returns (wake: Option<nat>)
      modifies this`submits
      ensures MayNotify(old(submits), WaitingForRoom, wake)
      ensures submits == NotifyOne(old(submits), NotifiedOfRoom, wake)
    {
      var sleepers := At(submits, WaitingForRoom);
      wake := None;
      if sleepers != {} {
        var c :| c in sleepers;
        wake := Some(c);
        submits := submits[c := NotifiedOfRoom];
      }
    }

    /** `notify_one` on cvNotEmpty: wakes one sleeping worker, if there is one. */
    method NotifyOneWorker() returns (wake: Option<nat>)
      modifies this`workers
      ensures MayNotify(old(workers), WaitingForTask, wake)
      ensures workers == NotifyOne(old(workers), NotifiedOfTask, wake)
    {
      var sleepers := At(workers, WaitingForTask);
      wake := None;
      if sleepers != {} {
        var w :| w in sleepers;
        wake := Some(w);
        workers := workers[w := NotifiedOfTask];
      }
    }

    method NotifyAllSubmitters()
      modifies this`submits
      ensures submits == NotifyAll(old(submits), WaitingForRoom, NotifiedOfRoom)
    {
      for c := 0 to |submits|
        invariant |submits| == old(|submits|)
        invariant forall k :: 0 <= k < |submits| ==>
          submits[k] == if k < c && old(submits)[k] == WaitingForRoom then NotifiedOfRoom else old(submits)[k]
      {
        if submits[c] == WaitingForRoom {
          submits := submits[c := NotifiedOfRoom];
        }
      }
    }

    method NotifyAllWorkers()
      modifies this`workers
      ensures workers == NotifyAll(old(workers), WaitingForTask, NotifiedOfTask)
    {
      for w := 0 to |workers|
        invariant |workers| == old(|workers|)
        invariant forall k :: 0 <= k < |workers| ==>
          workers[k] == if k < w && old(workers)[k] == WaitingForTask then NotifiedOfTask else old(workers)[k]
      {
        if workers[w] == WaitingForTask {
          workers := workers[w := NotifiedOfTask];
        }
      }
    }

    /** One pass of worker `w` through the locked part of workerLoop. */
    method WorkerSection(w: nat) returns (wake: Option<nat>)
      requires !terminated && MayLock(Abs(), w)
      modifies this
      ensures Enabled(old(Abs()), Step.WorkerSection(w, wake))
      ensures Abs() == Apply(old(Abs()), Step.WorkerSection(w, wake))
      ensures old(Valid()) ==> Valid()
    {
      ghost var before := Abs();
      wake := None;
      if taskQueue == [] && !isImmediateShutdown && !isGracefulShutdown {
        workers := workers[w := WaitingForTask];
      } else if isImmediateShutdown {
        workers := workers[w := Exited];
      } else if isGracefulShutdown && taskQueue == [] {
        workers := workers[w := Exited];
      } else {
        var grabbedTask := taskQueue[0];
        workers := workers[w := Running(grabbedTask)];
        taskQueue := taskQueue[1..];
        taken := taken + [grabbedTask];
        wake := NotifyOneSubmitter();
      }
      assert Abs() == AfterWorkerSection(before, w, wake);
      Carry(before, Step.WorkerSection(w, wake), Abs());
    }

    /** Worker `w` runs its task and sets the promise: to the result, or to the exception
        its body threw. */
    method RunTask(w: nat, threw: bool)
      requires !terminated && w < |workers| && workers[w].Running? && workers[w].entry.call < |promises|
      modifies this
      ensures var e := old(workers[w].entry);
              old(promises[workers[w].entry.call]) == Unset ==>
                workers == old(workers)[w := Looping] &&
                promises == old(promises)[e.call :=
                  if threw then Exception else Value(Result(e.task.id, "Processed: " + e.task.taskName))]
      ensures Enabled(old(Abs()), WorkerFinish(w, threw))
      ensures Abs() == Apply(old(Abs()), WorkerFinish(w, threw))
      ensures old(Valid()) ==> Valid()
    {
      ghost var before := Abs();
      var grabbedTask := workers[w].entry;
      if promises[grabbedTask.call] != Unset {
        terminated := true;
      } else if threw {
        promises := promises[grabbedTask.call := Exception];
        workers := workers[w := Looping];
      } else {
        var res := Result(grabbedTask.task.id, "Processed: " + grabbedTask.task.taskName);
        promises := promises[grabbedTask.call := Value(res)];
        workers := workers[w := Looping];
      }
      Carry(before, WorkerFinish(w, threw), Abs());
    }

    /** A pushTask call starts: its promise and future exist, the mutex is not locked yet. */
    method PushTask(task: Task) returns (call: nat)
      requires !terminated
      modifies this
      ensures call == old(|submits|) && tasks == old(tasks) + [task] && promises == old(promises) + [Unset]
      ensures Abs() == Apply(old(Abs()), Step.PushTask(task))
      ensures old(Valid()) ==> Valid()
    {
      ghost var before := Abs();
      call := |submits|;
      tasks, submits, promises := tasks + [task], submits + [Entering], promises + [Unset];
      Carry(before, Step.PushTask(task), Abs());
    }

    /** One pass of pushTask call `c` through its locked part. */
    method SubmitSection(c: nat) returns (wake: Option<nat>)
      requires !terminated && MaySubmit(Abs(), c)
      modifies this
      ensures Enabled(old(Abs()), Step.SubmitSection(c, wake))
      ensures Abs() == Apply(old(Abs()), Step.SubmitSection(c, wake))
      ensures old(Valid()) ==> Valid()
    {
      ghost var before := Abs();
      wake := None;
      if submits[c] == Entering && (isGracefulShutdown || isImmediateShutdown) {
        submits := submits[c := RefusedAtEntry];
      } else if !(|taskQueue| < maxQueueSize || isGracefulShutdown || isImmediateShutdown) {
        submits := submits[c := WaitingForRoom];
      } else if isGracefulShutdown || isImmediateShutdown {
        submits := submits[c := RefusedAfterWait];
      } else {
        taskQueue := taskQueue + [Entry(c, tasks[c])];
        accepted := accepted + [Entry(c, tasks[c])];
        submits := submits[c := Accepted];
        wake := NotifyOneWorker();
      }
      assert Abs() == AfterSubmitSection(before, c, wake);
      Carry(before, Step.SubmitSection(c, wake), Abs());
    }

    method CallShutdown(mode: Mode) returns (h: nat)
      requires !terminated
      modifies this
      ensures h == old(|shutdowns|)
      ensures Abs() == Apply(old(Abs()), Step.CallShutdown(mode))
      ensures old(Valid()) ==> Valid()
    {
      ghost var before := Abs();
      h := |shutdowns|;
      shutdowns := shutdowns + [Calling(mode)];
      Carry(before, Step.CallShutdown(mode), Abs());
    }

    /** The locked part of gracefulShutdown and immediateShutdown. */
    method ShutdownSection(h: nat)
      requires Valid() && h < |shutdowns| && shutdowns[h].Calling?
      modifies this
      ensures var open, mode := !old(isGracefulShutdown) && !old(isImmediateShutdown), old(shutdowns[h].mode);
              && isGracefulShutdown == (old(isGracefulShutdown) || (open && mode == Graceful))
              && isImmediateShutdown == (old(isImmediateShutdown) || (open && mode == Immediate))
              && taskQueue == (if open && mode == Immediate then [] else old(taskQueue))
      ensures Abs() == Apply(old(Abs()), Step.ShutdownSection(h))
      ensures Valid()
    {
      hide Inv;
      ghost var before := Abs();
      OpenQueue(before);
      if isGracefulShutdown || isImmediateShutdown {
        shutdowns := shutdowns[h := ReturnedEarly];
      } else {
        if shutdowns[h].mode == Graceful {
          isGracefulShutdown := true;
        } else {
          isImmediateShutdown := true;
          DropQueue();
        }
        winner := Some(h);
        shutdowns := shutdowns[h := NotifyingSubmitters];
      }
      assert Abs() == AfterShutdownSection(before, h);
      Carry(before, Step.ShutdownSection(h), Abs());
    }

    /** Pops every queued pair; the popped promise is destroyed unset. */
    method DropQueue()
      requires dropped == [] && forall k :: 0 <= k < |taskQueue| ==> taskQueue[k].call < |promises|
      modifies this`taskQueue, this`promises, this`dropped
      ensures taskQueue == [] && dropped == old(taskQueue)
      ensures promises == BreakAll(old(promises), old(taskQueue))
    {
      ghost var queued := taskQueue;
      while taskQueue != []
        invariant queued == dropped + taskQueue
        invariant promises == BreakAll(old(promises), dropped) && |promises| == old(|promises|)
        invariant forall k :: 0 <= k < |taskQueue| ==> taskQueue[k].call < |promises|
      {
        var popped := taskQueue[0];
        CallsAppend(dropped, popped);
        promises := promises[popped.call := Broken];
        taskQueue := taskQueue[1..];
        dropped := dropped + [popped];
      }
    }

    /** `cvNotFull.notify_all()`, made after the mutex was released. */
    method NotifyNotFull(h: nat)
      requires !terminated && AtStage(Abs(), h, NotifyingSubmitters)
      modifies this
      ensures Abs() == Apply(old(Abs()), Step.NotifyNotFull(h))
      ensures old(Valid()) ==> Valid()
    {
      ghost var before := Abs();
      NotifyAllSubmitters();
      shutdowns := shutdowns[h := NotifyingWorkers];
      Carry(before, Step.NotifyNotFull(h), Abs());
    }

    /** `cvNotEmpty.notify_all()`, made after the mutex was released. */
    method NotifyNotEmpty(h: nat)
      requires !terminated && AtStage(Abs(), h, NotifyingWorkers)
      modifies this
      ensures Abs() == Apply(old(Abs()), Step.NotifyNotEmpty(h))
      ensures old(Valid()) ==> Valid()
    {
      ghost var before := Abs();
      NotifyAllWorkers();
      shutdowns := shutdowns[h := Joining(0)];
      Carry(before, Step.NotifyNotEmpty(h), Abs());
    }

    /** One turn of the join loop: the next worker has exited, or none is left to join. */
    method JoinNext(h: nat)
      requires !terminated && MayJoin(Abs(), h)
      modifies this
      ensures Abs() == Apply(old(Abs()), Step.JoinNext(h))
      ensures old(Valid()) ==> Valid()
    {
      ghost var before := Abs();
      var next := shutdowns[h].next;
      shutdowns := shutdowns[h := if next < |workers| then Joining(next + 1) else Returned];
      Carry(before, Step.JoinNext(h), Abs());
    }

    /** A sleeper may wake up without being notified. */
    method WakeSubmitterSpuriously(c: nat)
      requires !terminated && c < |submits| && submits[c] == WaitingForRoom
      modifies this
      ensures Abs() == Apply(old(Abs()), SubmitSpurious(c))
      ensures old(Valid()) ==> Valid()
    {
      ghost var before := Abs();
      submits := submits[c := NotifiedOfRoom];
      Carry(before, SubmitSpurious(c), Abs());
    }

    method WakeWorkerSpuriously(w: nat)
      requires !terminated && w < |workers| && workers[w] == WaitingForTask
      modifies this
      ensures Abs() == Apply(old(Abs()), WorkerSpurious(w))
      ensures old(Valid()) ==> Valid()
    {
      ghost var before := Abs();
      workers := workers[w := NotifiedOfTask];
      Carry(before, WorkerSpurious(w), Abs());
    }
  }
}
