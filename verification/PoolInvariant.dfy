/** What every step of the pool keeps, and the safety of whole runs. */
module PoolInvariant {
  import opened Common
  import opened PoolSpec

  // ----- the invariant -----

  /** Conservation: what was pushed is, in push order, what workers popped, then what is
      still queued, then what an immediate shutdown threw away. */
  ghost predicate Conserved(s: State) {
    && s.accepted == s.taken + s.queue + s.dropped
    && |s.queue| <= s.capacity
    && (!s.immediate ==> s.dropped == [])
    && (s.immediate ==> s.queue == [])
    && !(s.immediate && s.graceful)
    && (s.taken != [] ==> s.workers != [])
  }

  /** Each accepted entry belongs to one pushTask call, which returned its future and
      whose own task it carries; conversely each such call has an entry. */
  ghost predicate OwnEntries(s: State) {
    && |s.tasks| == |s.submits| == |s.promises|
    && (forall k :: 0 <= k < |s.accepted| ==> OwnEntry(s, s.accepted[k]))
    && (forall j, k :: 0 <= j < k < |s.accepted| ==> s.accepted[j].call != s.accepted[k].call)
    && (forall c :: 0 <= c < |s.submits| && s.submits[c] == Accepted ==> c in Calls(s.accepted))
  }

  ghost predicate OwnEntry(s: State, e: Entry) {
    && e.call < |s.tasks| && e.call < |s.submits|
    && e.task == s.tasks[e.call]
    && s.submits[e.call] == Accepted
  }

  /** What a worker leaves in the promise of `task`: its own id and name, or the exception its
      body threw. */
  function Outcome(task: Task, threw: bool): Promise {
    if threw then Exception else Value(Processed(task))
  }

  /** A promise that was set by a worker that ran its own task. */
  ghost predicate Fulfilled(p: Promise, task: Task) {
    p == Outcome(task, p == Exception)
  }

  /** The step is a task body that throws, run by a worker holding the entry of call `c`. */
  predicate Throws(s: State, step: Step, c: nat) {
    step.WorkerFinish? && step.threw && step.worker < |s.workers| && s.workers[step.worker].Running?
    && s.workers[step.worker].entry.call == c
  }

  /** Each worker in its task body holds a popped entry nobody else holds, with the promise
      still unset. */
  ghost predicate Holding(s: State) {
    && !s.terminated
    && (forall w :: 0 <= w < |s.workers| && s.workers[w].Running? ==>
          s.workers[w].entry in s.taken && Unfulfilled(s, s.workers[w].entry))
    && (forall v, w :: 0 <= v < w < |s.workers| && s.workers[v].Running? && s.workers[w].Running? ==>
          s.workers[v].entry != s.workers[w].entry)
  }

  ghost predicate Unfulfilled(s: State, e: Entry) {
    e.call < |s.promises| && s.promises[e.call] == Unset
  }

  ghost predicate HeldBy(s: State, e: Entry, w: nat) {
    w < |s.workers| && s.workers[w] == Running(e)
  }

  /** A popped entry is being run by a worker or its promise is set to its own outcome;
      a queued one is unset, a dropped one broken. */
  ghost predicate Promises(s: State) {
    && (forall k :: 0 <= k < |s.taken| ==> Settled(s, s.taken[k]))
    && (forall k :: 0 <= k < |s.queue| ==> Unfulfilled(s, s.queue[k]))
    && (forall k :: 0 <= k < |s.dropped| ==>
          s.dropped[k].call < |s.promises| && s.promises[s.dropped[k].call] == Broken)
    && (forall c :: 0 <= c < |s.promises| && c !in Calls(s.accepted) ==> s.promises[c] == Unset)
  }

  ghost predicate Settled(s: State, e: Entry) {
    && e.call < |s.promises|
    && (Fulfilled(s.promises[e.call], e.task) || exists w :: HeldBy(s, e, w))
  }

  /** A flag is set exactly when one call won. It alone goes past its critical section, and
      it has joined only workers that exited. */
  ghost predicate OneWinner(s: State) {
    && (Closed(s) <==> s.winner.Some?)
    && (s.winner.Some? ==> s.winner.value < |s.shutdowns| && WinnerStage(s, s.shutdowns[s.winner.value]))
    && (forall h :: 0 <= h < |s.shutdowns| && s.winner != Some(h) ==>
          s.shutdowns[h].Calling? || s.shutdowns[h] == ReturnedEarly)
  }

  ghost predicate WinnerStage(s: State, stage: ShutdownStage) {
    match stage
    case NotifyingSubmitters => true
    case NotifyingWorkers => true
    case Joining(next) => next <= |s.workers| && ExitedUpTo(s, next)
    case Returned => ExitedUpTo(s, |s.workers|)
    case _ => false
  }

  ghost predicate ExitedUpTo(s: State, n: nat) {
    forall w :: 0 <= w < n && w < |s.workers| ==> s.workers[w] == Exited
  }

  /** A worker leaves its loop only after a flag was set, with nothing left to pop. */
  ghost predicate ExitsAreFinal(s: State) {
    forall w :: 0 <= w < |s.workers| && s.workers[w] == Exited ==> Closed(s) && s.queue == []
  }

  /** No wake-up is lost. While the pool is open, a worker sleeps only if each queued task
      has a woken worker on its way to it, and a submitter only if each free slot has a woken
      submitter; after a flag is set, a sleeper still has its notify_all to come. */
  ghost predicate NoLostWakeup(s: State) {
    && (!Closed(s) ==>
          && (At(s.workers, WaitingForTask) != {} ==> |s.queue| <= |At(s.workers, NotifiedOfTask)|)
          && (At(s.submits, WaitingForRoom) != {} ==>
                s.capacity - |s.queue| <= |At(s.submits, NotifiedOfRoom)|))
    && (Closed(s) ==>
          && (At(s.workers, WaitingForTask) != {} ==> NotifyPending(s, NotifyingSubmitters) || NotifyPending(s, NotifyingWorkers))
          && (At(s.submits, WaitingForRoom) != {} ==> NotifyPending(s, NotifyingSubmitters)))
  }

  ghost predicate NotifyPending(s: State, stage: ShutdownStage) {
    s.winner.Some? && AtStage(s, s.winner.value, stage)
  }

  ghost predicate Inv(s: State) {
    && Conserved(s)
    && OwnEntries(s)
    && Holding(s)
    && Promises(s)
    && OneWinner(s)
    && ExitsAreFinal(s)
    && NoLostWakeup(s)
  }

  lemma InitInv(numThreads: nat, queueCapacity: nat)
    ensures Inv(Init(numThreads, queueCapacity))
  {
  }

  // ----- every step keeps it -----

  lemma StepKeepsConserved(s: State, step: Step)
    requires Conserved(s) && Enabled(s, step)
    ensures Conserved(Apply(s, step))
  {
    match step {
      case SubmitSection(c, wake) => SubmitConserves(s, c, wake);
      case WorkerSection(w, wake) => WorkerConserves(s, w, wake);
      case ShutdownSection(h) => ShutdownConserves(s, h);
      case _ => SameQueueConserves(s, Apply(s, step));
    }
  }

  lemma SameQueueConserves(s: State, t: State)
    requires Conserved(s)
    requires t.accepted == s.accepted && t.taken == s.taken && t.queue == s.queue && t.dropped == s.dropped
    requires t.capacity == s.capacity && t.immediate == s.immediate && t.graceful == s.graceful
    requires |t.workers| == |s.workers|
    ensures Conserved(t)
  {
  }

  lemma SubmitConserves(s: State, c: nat, wake: Option<nat>)
    requires Conserved(s) && Enabled(s, SubmitSection(c, wake))
    ensures Conserved(AfterSubmitSection(s, c, wake))
  {
    if SubmitPushes(s) {
      var e := Entry(c, s.tasks[c]);
      assert s.taken + s.queue + [] + [e] == s.taken + (s.queue + [e]) + [];
    }
  }

  lemma WorkerConserves(s: State, w: nat, wake: Option<nat>)
    requires Conserved(s) && Enabled(s, WorkerSection(w, wake))
    ensures Conserved(AfterWorkerSection(s, w, wake))
  {
    if WorkerGrabs(s) {
      assert s.queue == [s.queue[0]] + s.queue[1..];
      assert s.taken + s.queue == s.taken + [s.queue[0]] + s.queue[1..];
    }
  }

  lemma ShutdownConserves(s: State, h: nat)
    requires Conserved(s) && Enabled(s, ShutdownSection(h))
    ensures Conserved(AfterShutdownSection(s, h))
  {
    assert s.taken + s.queue + [] == s.taken + [] + s.queue;
  }

  /** Popped entries and queued entries belong to different calls. */
  lemma TakenApartFromQueue(s: State, e: Entry, k: nat)
    requires Conserved(s) && OwnEntries(s) && e in s.taken && k < |s.queue|
    ensures e.call != s.queue[k].call
  {
    var j :| 0 <= j < |s.taken| && s.taken[j] == e;
    assert s.accepted[j] == e && s.accepted[|s.taken| + k] == s.queue[k];
  }

  lemma TakenApart(s: State, d: Entry, e: Entry)
    requires Conserved(s) && OwnEntries(s) && d in s.taken && e in s.taken && d != e
    ensures d.call != e.call
  {
    var j :| 0 <= j < |s.taken| && s.taken[j] == d;
    var k :| 0 <= k < |s.taken| && s.taken[k] == e;
    assert s.accepted[j] == d && s.accepted[k] == e;
  }

  lemma AcceptedCall(s: State, e: Entry)
    requires Conserved(s) && (e in s.taken || e in s.queue || e in s.dropped)
    ensures e in s.accepted && e.call in Calls(s.accepted)
  {
  }

  lemma CallsAppend(entries: seq<Entry>, e: Entry)
    ensures Calls(entries + [e]) == Calls(entries) + {e.call}
  {
    var both := entries + [e];
    assert both[|entries|] == e;
    forall k | 0 <= k < |entries| ensures entries[k].call in Calls(both) {
      assert both[k] == entries[k];
    }
  }

  lemma StepKeepsOwnEntries(s: State, step: Step)
    requires Conserved(s) && OwnEntries(s) && Holding(s) && Enabled(s, step)
    ensures OwnEntries(Apply(s, step))
  {
    if step.SubmitSection? && SubmitPushes(s) {
      PushKeepsOwnEntries(s, step.call, step.wake);
    } else if !step.PushTask? {
      SameAcceptedCalls(s, step);
      SameAcceptedKeepsOwnEntries(s, Apply(s, step));
    }
  }

  /** Only a push gives a call the stage Accepted. */
  lemma SameAcceptedCalls(s: State, step: Step)
    requires Enabled(s, step) && !step.PushTask? && !(step.SubmitSection? && SubmitPushes(s))
    ensures var t := Apply(s, step);
            && t.accepted == s.accepted && t.tasks == s.tasks
            && |t.promises| == |s.promises| && |t.submits| == |s.submits|
            && forall c :: 0 <= c < |s.submits| ==> (t.submits[c] == Accepted <==> s.submits[c] == Accepted)
  {
  }

  lemma SameAcceptedKeepsOwnEntries(s: State, t: State)
    requires OwnEntries(s)
    requires t.accepted == s.accepted && t.tasks == s.tasks && |t.promises| == |s.promises|
    requires |t.submits| == |s.submits|
    requires forall c :: 0 <= c < |s.submits| ==> (t.submits[c] == Accepted <==> s.submits[c] == Accepted)
    ensures OwnEntries(t)
  {
    forall k | 0 <= k < |t.accepted| ensures OwnEntry(t, t.accepted[k]) {
      assert OwnEntry(s, s.accepted[k]);
    }
  }

  lemma PushKeepsOwnEntries(s: State, c: nat, wake: Option<nat>)
    requires OwnEntries(s) && MaySubmit(s, c) && SubmitPushes(s) && MayNotify(s.workers, WaitingForTask, wake)
    ensures OwnEntries(AfterSubmitSection(s, c, wake))
  {
    var e := Entry(c, s.tasks[c]);
    var t := AfterSubmitSection(s, c, wake);
    CallsAppend(s.accepted, e);
    forall k | 0 <= k < |t.accepted| ensures OwnEntry(t, t.accepted[k]) {
      assert k < |s.accepted| ==> OwnEntry(s, s.accepted[k]);
    }
    forall k | 0 <= k < |s.accepted| ensures s.accepted[k].call != c {
      assert OwnEntry(s, s.accepted[k]);
    }
  }

  lemma StepKeepsHolding(s: State, step: Step)
    requires Inv(s) && Enabled(s, step)
    ensures Holding(Apply(s, step))
  {
    match step {
      case WorkerSection(w, wake) =>
        if WorkerGrabs(s) {
          GrabKeepsHolding(s, w, wake);
        } else {
          SameRunningKeepsHolding(s, Apply(s, step));
        }
      case WorkerFinish(w, threw) => FinishKeepsHolding(s, w, threw);
      case ShutdownSection(h) => ShutdownKeepsHolding(s, h);
      case _ => SameRunningKeepsHolding(s, Apply(s, step));
    }
  }

  lemma SameRunningKeepsHolding(s: State, t: State)
    requires Holding(s) && !t.terminated && t.taken == s.taken && s.promises <= t.promises
    requires |t.workers| == |s.workers|
    requires forall w :: 0 <= w < |t.workers| && t.workers[w].Running? ==> s.workers[w] == t.workers[w]
    ensures Holding(t)
  {
    forall w | 0 <= w < |t.workers| && t.workers[w].Running? ensures Unfulfilled(t, t.workers[w].entry) {
      assert Unfulfilled(s, s.workers[w].entry);
    }
  }

  lemma GrabKeepsHolding(s: State, w: nat, wake: Option<nat>)
    requires Conserved(s) && OwnEntries(s) && Holding(s) && Promises(s)
    requires MayLock(s, w) && WorkerGrabs(s) && MayNotify(s.submits, WaitingForRoom, wake)
    ensures Holding(AfterWorkerSection(s, w, wake))
  {
    var t := AfterWorkerSection(s, w, wake);
    assert s.queue[0] == t.taken[|s.taken|];
    assert Unfulfilled(s, s.queue[0]);
    forall v | 0 <= v < |s.workers| && v != w && s.workers[v].Running?
      ensures s.workers[v].entry in t.taken && s.workers[v].entry != s.queue[0]
    {
      TakenApartFromQueue(s, s.workers[v].entry, 0);
    }
  }

  lemma FinishKeepsHolding(s: State, w: nat, threw: bool)
    requires Conserved(s) && OwnEntries(s) && Holding(s)
    requires w < |s.workers| && s.workers[w].Running? && s.workers[w].entry.call < |s.promises|
    ensures Holding(AfterFinish(s, w, threw))
  {
    var e := s.workers[w].entry;
    assert Unfulfilled(s, e);
    var t := AfterFinish(s, w, threw);
    forall v | 0 <= v < |t.workers| && t.workers[v].Running?
      ensures t.workers[v].entry in t.taken && Unfulfilled(t, t.workers[v].entry)
    {
      assert Unfulfilled(s, s.workers[v].entry);
      TakenApart(s, e, s.workers[v].entry);
    }
  }

  lemma ShutdownKeepsHolding(s: State, h: nat)
    requires Conserved(s) && OwnEntries(s) && Holding(s) && h < |s.shutdowns| && s.shutdowns[h].Calling?
    ensures Holding(AfterShutdownSection(s, h))
  {
    var t := AfterShutdownSection(s, h);
    forall v | 0 <= v < |t.workers| && t.workers[v].Running?
      ensures Unfulfilled(t, t.workers[v].entry)
    {
      assert Unfulfilled(s, s.workers[v].entry);
      forall k | 0 <= k < |s.queue| ensures s.queue[k].call != s.workers[v].entry.call {
        TakenApartFromQueue(s, s.workers[v].entry, k);
      }
    }
  }

  lemma StepKeepsPromises(s: State, step: Step)
    requires Inv(s) && Enabled(s, step)
    ensures Promises(Apply(s, step))
    ensures forall c :: 0 <= c < |s.promises| ==>
              c < |Apply(s, step).promises| &&
              (Apply(s, step).promises[c] == Exception <==> s.promises[c] == Exception || Throws(s, step, c))
  {
    match step {
      case PushTask(task) => PushTaskKeepsPromises(s, task);
      case SubmitSection(c, wake) => SubmitKeepsPromises(s, c, wake);
      case WorkerSection(w, wake) => WorkerKeepsPromises(s, w, wake);
      case WorkerFinish(w, threw) => FinishKeepsPromises(s, w, threw);
      case ShutdownSection(h) => ShutdownKeepsPromises(s, h);
      case _ => SameHoldersKeepPromises(s, Apply(s, step));
    }
    StepExceptions(s, step);
  }

  /** A step leaves exactly one kind of new exception: that of the body it ran. */
  lemma StepExceptions(s: State, step: Step)
    requires Inv(s) && Enabled(s, step)
    ensures |s.promises| <= |Apply(s, step).promises|
    ensures forall c :: 0 <= c < |Apply(s, step).promises| ==>
              (Apply(s, step).promises[c] == Exception <==>
                (c < |s.promises| && s.promises[c] == Exception) || Throws(s, step, c))
  {
    if step.WorkerFinish? {
      assert Unfulfilled(s, s.workers[step.worker].entry);
    } else if step.ShutdownSection? {
      forall k | 0 <= k < |s.queue| ensures s.promises[s.queue[k].call] == Unset {
        assert Unfulfilled(s, s.queue[k]);
      }
    }
  }

  /** A worker that takes a new stage without touching its entry leaves promises settled. */
  lemma SameHoldersKeepPromises(s: State, t: State)
    requires Promises(s)
    requires t.taken == s.taken && t.queue == s.queue && t.dropped == s.dropped
    requires t.accepted == s.accepted && t.promises == s.promises
    requires |t.workers| == |s.workers|
    requires forall w :: 0 <= w < |s.workers| && s.workers[w].Running? ==> t.workers[w] == s.workers[w]
    ensures Promises(t)
  {
    forall k | 0 <= k < |t.taken| ensures Settled(t, t.taken[k]) {
      SettledStays(s, t, s.taken[k]);
    }
    forall k | 0 <= k < |t.queue| ensures Unfulfilled(t, t.queue[k]) {
      assert Unfulfilled(s, s.queue[k]);
    }
  }

  lemma SettledStays(s: State, t: State, e: Entry)
    requires Settled(s, e)
    requires |t.promises| >= |s.promises| && t.promises[e.call] == s.promises[e.call]
    requires |t.workers| == |s.workers|
    requires forall w :: 0 <= w < |s.workers| && s.workers[w].Running? ==> t.workers[w] == s.workers[w]
    ensures Settled(t, e)
  {
    if !Fulfilled(s.promises[e.call], e.task) {
      var w :| HeldBy(s, e, w);
      assert HeldBy(t, e, w);
    }
  }

  lemma PushTaskKeepsPromises(s: State, task: Task)
    requires Conserved(s) && OwnEntries(s) && Promises(s)
    ensures Promises(AfterPushTask(s, task))
  {
    var t := AfterPushTask(s, task);
    forall k | 0 <= k < |t.taken| ensures Settled(t, t.taken[k]) {
      assert Settled(s, s.taken[k]);
      SettledStays(s, t, s.taken[k]);
    }
    forall k | 0 <= k < |t.queue| ensures Unfulfilled(t, t.queue[k]) {
      assert Unfulfilled(s, s.queue[k]);
    }
  }

  lemma SubmitKeepsPromises(s: State, c: nat, wake: Option<nat>)
    requires Conserved(s) && OwnEntries(s) && Promises(s)
    requires Enabled(s, SubmitSection(c, wake))
    ensures Promises(AfterSubmitSection(s, c, wake))
  {
    var t := AfterSubmitSection(s, c, wake);
    forall k | 0 <= k < |t.taken| ensures Settled(t, t.taken[k]) {
      SettledStays(s, t, s.taken[k]);
    }
    if SubmitPushes(s) {
      CallsAppend(s.accepted, Entry(c, s.tasks[c]));
      forall k | 0 <= k < |s.accepted| ensures s.accepted[k].call != c {
        assert OwnEntry(s, s.accepted[k]);
      }
      assert Unfulfilled(s, Entry(c, s.tasks[c]));
    }
    forall k | 0 <= k < |t.queue| ensures Unfulfilled(t, t.queue[k]) {
      assert k < |s.queue| ==> Unfulfilled(s, s.queue[k]);
    }
  }

  lemma WorkerKeepsPromises(s: State, w: nat, wake: Option<nat>)
    requires Promises(s) && Enabled(s, WorkerSection(w, wake))
    ensures Promises(AfterWorkerSection(s, w, wake))
  {
    var t := AfterWorkerSection(s, w, wake);
    if WorkerGrabs(s) {
      assert Unfulfilled(s, s.queue[0]);
      assert HeldBy(t, s.queue[0], w);
    }
    forall k | 0 <= k < |t.taken| ensures Settled(t, t.taken[k]) {
      if k < |s.taken| {
        SettledStays(s, t, s.taken[k]);
      }
    }
    forall k | 0 <= k < |t.queue| ensures Unfulfilled(t, t.queue[k]) {
      assert Unfulfilled(s, s.queue[k]);
      assert WorkerGrabs(s) ==> Unfulfilled(s, s.queue[k + 1]);
    }
  }

  lemma FinishKeepsPromises(s: State, w: nat, threw: bool)
    requires Conserved(s) && OwnEntries(s) && Holding(s) && Promises(s)
    requires w < |s.workers| && s.workers[w].Running? && s.workers[w].entry.call < |s.promises|
    ensures Promises(AfterFinish(s, w, threw))
  {
    var e := s.workers[w].entry;
    assert Unfulfilled(s, e);
    var t := AfterFinish(s, w, threw);
    AcceptedCall(s, e);
    forall k | 0 <= k < |t.taken| ensures Settled(t, t.taken[k]) {
      var d := s.taken[k];
      assert Settled(s, d);
      if d != e {
        TakenApart(s, d, e);
        if !Fulfilled(s.promises[d.call], d.task) {
          var v :| HeldBy(s, d, v);
          assert HeldBy(t, d, v);
        }
      }
    }
    forall k | 0 <= k < |t.queue| ensures Unfulfilled(t, t.queue[k]) {
      assert Unfulfilled(s, s.queue[k]);
      TakenApartFromQueue(s, e, k);
    }
    forall k | 0 <= k < |t.dropped| ensures t.promises[t.dropped[k].call] == Broken {
      assert s.promises[s.dropped[k].call] == Broken;
    }
  }

  lemma ShutdownKeepsPromises(s: State, h: nat)
    requires Conserved(s) && OwnEntries(s) && Promises(s) && h < |s.shutdowns| && s.shutdowns[h].Calling?
    ensures Promises(AfterShutdownSection(s, h))
  {
    var t := AfterShutdownSection(s, h);
    forall k | 0 <= k < |t.taken| ensures Settled(t, t.taken[k]) {
      assert Settled(s, s.taken[k]);
      forall j | 0 <= j < |s.queue| ensures s.queue[j].call != s.taken[k].call {
        TakenApartFromQueue(s, s.taken[k], j);
      }
      SettledStays(s, t, s.taken[k]);
    }
    forall k | 0 <= k < |t.queue| ensures Unfulfilled(t, t.queue[k]) {
      assert Unfulfilled(s, s.queue[k]);
    }
    forall k | 0 <= k < |s.queue| ensures s.queue[k].call < |s.promises| && s.queue[k].call in Calls(s.accepted) {
      assert Unfulfilled(s, s.queue[k]);
      AcceptedCall(s, s.queue[k]);
    }
  }

  lemma StepKeepsOneWinner(s: State, step: Step)
    requires OneWinner(s) && Enabled(s, step)
    ensures OneWinner(Apply(s, step))
  {
    if step.CallShutdown? || !OfShutdown(step) {
      NoProgressKeepsOneWinner(s, Apply(s, step));
    }
  }

  lemma NoProgressKeepsOneWinner(s: State, t: State)
    requires OneWinner(s)
    requires t.winner == s.winner && t.graceful == s.graceful && t.immediate == s.immediate
    requires s.shutdowns <= t.shutdowns
    requires forall h :: |s.shutdowns| <= h < |t.shutdowns| ==> t.shutdowns[h].Calling?
    requires |t.workers| == |s.workers|
    requires forall w :: 0 <= w < |s.workers| && s.workers[w] == Exited ==> t.workers[w] == Exited
    ensures OneWinner(t)
  {
  }

  lemma StepKeepsExitsAreFinal(s: State, step: Step)
    requires ExitsAreFinal(s) && Conserved(s) && Enabled(s, step)
    ensures ExitsAreFinal(Apply(s, step))
  {
  }

  lemma StepKeepsNoLostWakeup(s: State, step: Step)
    requires OneWinner(s) && NoLostWakeup(s) && Enabled(s, step)
    ensures NoLostWakeup(Apply(s, step))
  {
    match step {
      case SubmitSection(c, wake) => SubmitKeepsNoLostWakeup(s, c, wake);
      case WorkerSection(w, wake) => WorkerKeepsNoLostWakeup(s, w, wake);
      case PushTask(task) => PushTaskKeepsNoLostWakeup(s, task);
      case SubmitSpurious(c) => SubmitSpuriousKeepsNoLostWakeup(s, c);
      case WorkerFinish(w, threw) => FinishKeepsNoLostWakeup(s, w, threw);
      case WorkerSpurious(w) => WorkerSpuriousKeepsNoLostWakeup(s, w);
      case CallShutdown(_) => FewerSleepersKeepNoLostWakeup(s, Apply(s, step));
      case _ => ShutdownKeepsNoLostWakeup(s, step);
    }
  }

  lemma PushTaskKeepsNoLostWakeup(s: State, task: Task)
    requires OneWinner(s) && NoLostWakeup(s)
    ensures NoLostWakeup(AfterPushTask(s, task))
  {
    AtAppend(s.submits, Entering, WaitingForRoom);
    AtAppend(s.submits, Entering, NotifiedOfRoom);
    FewerSleepersKeepNoLostWakeup(s, AfterPushTask(s, task));
  }

  lemma SubmitSpuriousKeepsNoLostWakeup(s: State, c: nat)
    requires OneWinner(s) && NoLostWakeup(s) && Enabled(s, SubmitSpurious(c))
    ensures NoLostWakeup(Apply(s, SubmitSpurious(c)))
  {
    AtUpdate(s.submits, c, NotifiedOfRoom, WaitingForRoom);
    AtUpdate(s.submits, c, NotifiedOfRoom, NotifiedOfRoom);
    FewerSleepersKeepNoLostWakeup(s, Apply(s, SubmitSpurious(c)));
  }

  lemma FinishKeepsNoLostWakeup(s: State, w: nat, threw: bool)
    requires OneWinner(s) && NoLostWakeup(s) && Enabled(s, WorkerFinish(w, threw))
    ensures NoLostWakeup(AfterFinish(s, w, threw))
  {
    AtUpdate(s.workers, w, Looping, WaitingForTask);
    AtUpdate(s.workers, w, Looping, NotifiedOfTask);
    FewerSleepersKeepNoLostWakeup(s, AfterFinish(s, w, threw));
  }

  lemma WorkerSpuriousKeepsNoLostWakeup(s: State, w: nat)
    requires OneWinner(s) && NoLostWakeup(s) && Enabled(s, WorkerSpurious(w))
    ensures NoLostWakeup(Apply(s, WorkerSpurious(w)))
  {
    AtUpdate(s.workers, w, NotifiedOfTask, WaitingForTask);
    AtUpdate(s.workers, w, NotifiedOfTask, NotifiedOfTask);
    FewerSleepersKeepNoLostWakeup(s, Apply(s, WorkerSpurious(w)));
  }

  /** A step with the same queue and flags keeps the guarantee when nobody falls asleep and
      no woken thread is used up. */
  lemma FewerSleepersKeepNoLostWakeup(s: State, t: State)
    requires OneWinner(s) && NoLostWakeup(s)
    requires t.queue == s.queue && t.capacity == s.capacity && t.winner == s.winner
    requires t.graceful == s.graceful && t.immediate == s.immediate && s.shutdowns <= t.shutdowns
    requires At(t.workers, WaitingForTask) <= At(s.workers, WaitingForTask)
    requires At(t.submits, WaitingForRoom) <= At(s.submits, WaitingForRoom)
    requires |At(t.workers, NotifiedOfTask)| >= |At(s.workers, NotifiedOfTask)|
    requires |At(t.submits, NotifiedOfRoom)| >= |At(s.submits, NotifiedOfRoom)|
    ensures NoLostWakeup(t)
  {
  }

  predicate OfShutdown(step: Step) {
    step.ShutdownSection? || step.NotifyNotFull? || step.NotifyNotEmpty? || step.JoinNext?
  }

  lemma ShutdownKeepsNoLostWakeup(s: State, step: Step)
    requires OneWinner(s) && NoLostWakeup(s) && Enabled(s, step) && OfShutdown(step)
    ensures NoLostWakeup(Apply(s, step))
  {
    match step {
      case ShutdownSection(h) =>
      case NotifyNotFull(h) => NobodyLeft(s.submits, WaitingForRoom, NotifiedOfRoom);
      case NotifyNotEmpty(h) => NobodyLeft(s.workers, WaitingForTask, NotifiedOfTask);
      case JoinNext(h) =>
    }
  }

  lemma NobodyLeft<T>(stages: seq<T>, asleep: T, woken: T)
    requires asleep != woken
    ensures At(NotifyAll(stages, asleep, woken), asleep) == {}
  {
  }

  /** `notify_one` after adding one unit of work keeps sleepers covered by woken threads. */
  lemma NotifyOneCovers<T>(stages: seq<T>, asleep: T, woken: T, wake: Option<nat>, work: int)
    requires asleep != woken && MayNotify(stages, asleep, wake)
    requires At(stages, asleep) != {} ==> work <= |At(stages, woken)|
    ensures var after := NotifyOne(stages, woken, wake);
            At(after, asleep) != {} ==> work + 1 <= |At(after, woken)|
  {
    if wake.Some? {
      AtUpdate(stages, wake.value, woken, asleep);
      AtUpdate(stages, wake.value, woken, woken);
    }
  }

  /** A thread that leaves the woken stage without going back to sleep uses up one unit. */
  lemma LeaveCovers<T>(stages: seq<T>, asleep: T, woken: T, i: nat, to: T, work: int)
    requires i < |stages| && stages[i] != asleep && to != asleep && to != woken
    requires At(stages, asleep) != {} ==> work <= |At(stages, woken)|
    ensures At(stages[i := to], asleep) != {} ==> work - 1 <= |At(stages[i := to], woken)|
  {
    AtUpdate(stages, i, to, asleep);
    AtUpdate(stages, i, to, woken);
  }

  lemma SubmitKeepsNoLostWakeup(s: State, c: nat, wake: Option<nat>)
    requires NoLostWakeup(s) && Enabled(s, SubmitSection(c, wake))
    ensures NoLostWakeup(AfterSubmitSection(s, c, wake))
  {
    var t := AfterSubmitSection(s, c, wake);
    AtUpdate(s.submits, c, t.submits[c], WaitingForRoom);
    AtUpdate(s.submits, c, t.submits[c], NotifiedOfRoom);
    if SubmitPushes(s) {
      LeaveCovers(s.submits, WaitingForRoom, NotifiedOfRoom, c, Accepted, s.capacity - |s.queue|);
      NotifyOneCovers(s.workers, WaitingForTask, NotifiedOfTask, wake, |s.queue|);
    }
  }

  lemma WorkerKeepsNoLostWakeup(s: State, w: nat, wake: Option<nat>)
    requires NoLostWakeup(s) && Enabled(s, WorkerSection(w, wake))
    ensures NoLostWakeup(AfterWorkerSection(s, w, wake))
  {
    var t := AfterWorkerSection(s, w, wake);
    AtUpdate(s.workers, w, t.workers[w], WaitingForTask);
    AtUpdate(s.workers, w, t.workers[w], NotifiedOfTask);
    if WorkerGrabs(s) {
      if !Closed(s) {
        LeaveCovers(s.workers, WaitingForTask, NotifiedOfTask, w, Running(s.queue[0]), |s.queue|);
        NotifyOneCovers(s.submits, WaitingForRoom, NotifiedOfRoom, wake, s.capacity - |s.queue|);
      } else if wake.Some? {
        AtUpdate(s.submits, wake.value, NotifiedOfRoom, WaitingForRoom);
      }
    }
  }

  lemma {:induction false} StepKeepsInv(s: State, step: Step)
    requires Inv(s) && Enabled(s, step)
    ensures Inv(Apply(s, step))
  {
    StepKeepsConserved(s, step);
    StepKeepsOwnEntries(s, step);
    StepKeepsHolding(s, step);
    StepKeepsPromises(s, step);
    StepKeepsOneWinner(s, step);
    StepKeepsExitsAreFinal(s, step);
    StepKeepsNoLostWakeup(s, step);
  }
}
