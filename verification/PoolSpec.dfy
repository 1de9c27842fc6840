/** The bounded thread pool as a state machine. One step is one critical section of
    `poolMutex`, one `notify_all` made after the mutex was released, one completed
    task, one joined worker, or one spurious wake-up. Every step names the thread
    that takes it, so a run is any interleaving of any number of workers, pushTask
    calls and shutdown calls. */
module PoolSpec {
  import opened Common

  datatype Task = Task(id: int, taskName: string)
  datatype Result = Result(id: int, resultField: string)

  /** The shared state of one promise. `Broken` is a promise destroyed unset. */
  datatype Promise = Unset | Value(res: Result) | Exception | Broken

  /** A queued pair: the task and the pushTask call whose promise travels with it. */
  datatype Entry = Entry(call: nat, task: Task)

  datatype WorkerStage =
    | Looping                  // about to lock the mutex
    | WaitingForTask           // asleep on cvNotEmpty
    | NotifiedOfTask           // woken on cvNotEmpty, the predicate not yet re-tested
    | Running(entry: Entry)    // outside the lock with a task in hand
    | Exited                   // left workerLoop

  datatype SubmitStage =
    | Entering                 // pushTask called, the mutex not yet locked
    | WaitingForRoom           // asleep on cvNotFull
    | NotifiedOfRoom           // woken on cvNotFull, the predicate not yet re-tested
    | Accepted                 // returned its future
    | RefusedAtEntry           // threw "Thread pool is shutting down."
    | RefusedAfterWait         // threw "Thread pool closed during wait."

  datatype Mode = Graceful | Immediate

  datatype ShutdownStage =
    | Calling(mode: Mode)      // called, the mutex not yet locked
    | NotifyingSubmitters      // flag set, cvNotFull.notify_all pending
    | NotifyingWorkers         // cvNotEmpty.notify_all pending
    | Joining(next: nat)       // workers before `next` are joined
    | Returned
    | ReturnedEarly            // found a flag already set

  /** `accepted`, `taken`, `dropped` and `winner` are history: what was pushed, popped by
      a worker and thrown away, in order, and which shutdown call set a flag. */
  datatype State = State(
    capacity: nat,
    queue: seq<Entry>,
    graceful: bool,
    immediate: bool,
    workers: seq<WorkerStage>,
    tasks: seq<Task>,
    submits: seq<SubmitStage>,
    promises: seq<Promise>,
    shutdowns: seq<ShutdownStage>,
    terminated: bool,
    accepted: seq<Entry>,
    taken: seq<Entry>,
    dropped: seq<Entry>,
    winner: Option<nat>)

  datatype Step =
    | PushTask(task: Task)
    | SubmitSection(call: nat, wake: Option<nat>)
    | SubmitSpurious(call: nat)
    | WorkerSection(worker: nat, wake: Option<nat>)
    | WorkerFinish(worker: nat, threw: bool)
    | WorkerSpurious(worker: nat)
    | CallShutdown(mode: Mode)
    | ShutdownSection(call: nat)
    | NotifyNotFull(call: nat)
    | NotifyNotEmpty(call: nat)
    | JoinNext(call: nat)

  function Init(numThreads: nat, queueCapacity: nat): State {
    State(queueCapacity, [], false, false, seq(numThreads, _ => Looping), [], [], [], [],
          false, [], [], [], None)
  }

  predicate Closed(s: State) {
    s.graceful || s.immediate
  }

  /** What a worker writes into the promise of `task`. */
  function Processed(task: Task): Result {
    Result(task.id, "Processed: " + task.taskName)
  }

  function Calls(entries: seq<Entry>): (r: set<nat>)
    ensures forall k :: 0 <= k < |entries| ==> entries[k].call in r
  {
    set k | 0 <= k < |entries| :: entries[k].call
  }

  /** Popping an entry without running it destroys its promise. */
  function BreakAll(promises: seq<Promise>, entries: seq<Entry>): (r: seq<Promise>)
    ensures |r| == |promises|
    ensures forall c :: 0 <= c < |r| ==> r[c] == if c in Calls(entries) then Broken else promises[c]
  {
    seq(|promises|, c requires 0 <= c < |promises| => if c in Calls(entries) then Broken else promises[c])
  }

  // ----- the critical section of workerLoop -----

  predicate MayLock(s: State, w: nat) {
    w < |s.workers| && (s.workers[w] == Looping || s.workers[w] == NotifiedOfTask)
  }

  /** The wait predicate of cvNotEmpty. */
  predicate WorkerProceeds(s: State) {
    s.queue != [] || Closed(s)
  }

  /** The two `break` tests. */
  predicate WorkerBreaks(s: State) {
    s.immediate || (s.graceful && s.queue == [])
  }

  predicate WorkerGrabs(s: State) {
    WorkerProceeds(s) && !WorkerBreaks(s)
  }

  function AfterWorkerSection(s: State, w: nat, wake: Option<nat>): State
    requires MayLock(s, w) && (WorkerGrabs(s) ==> MayNotify(s.submits, WaitingForRoom, wake))
  {
    if !WorkerProceeds(s) then
      s.(workers := s.workers[w := WaitingForTask])
    else if WorkerBreaks(s) then
      s.(workers := s.workers[w := Exited])
    else
      s.(workers := s.workers[w := Running(s.queue[0])],
         queue := s.queue[1..],
         taken := s.taken + [s.queue[0]],
         submits := NotifyOne(s.submits, NotifiedOfRoom, wake))
  }

  /** The task body and set_value. If the body throws, the catch clause stores the
      exception instead. Setting a promise twice throws out of the catch clause, which
      ends the process. */
  function AfterFinish(s: State, w: nat, threw: bool): State
    requires w < |s.workers| && s.workers[w].Running?
    requires s.workers[w].entry.call < |s.promises|
  {
    var e := s.workers[w].entry;
    if s.promises[e.call] != Unset then
      s.(terminated := true)
    else
      s.(promises := s.promises[e.call := if threw then Exception else Value(Processed(e.task))],
         workers := s.workers[w := Looping])
  }

  // ----- pushTask -----

  function AfterPushTask(s: State, task: Task): State {
    s.(tasks := s.tasks + [task], submits := s.submits + [Entering], promises := s.promises + [Unset])
  }

  predicate MaySubmit(s: State, c: nat) {
    c < |s.submits| && c < |s.tasks| && (s.submits[c] == Entering || s.submits[c] == NotifiedOfRoom)
  }

  /** The wait predicate of cvNotFull. */
  predicate SubmitProceeds(s: State) {
    |s.queue| < s.capacity || Closed(s)
  }

  predicate SubmitPushes(s: State) {
    SubmitProceeds(s) && !Closed(s)
  }

  function AfterSubmitSection(s: State, c: nat, wake: Option<nat>): State
    requires MaySubmit(s, c) && (SubmitPushes(s) ==> MayNotify(s.workers, WaitingForTask, wake))
  {
    if s.submits[c] == Entering && Closed(s) then
      s.(submits := s.submits[c := RefusedAtEntry])
    else if !SubmitProceeds(s) then
      s.(submits := s.submits[c := WaitingForRoom])
    else if Closed(s) then
      s.(submits := s.submits[c := RefusedAfterWait])
    else
      s.(submits := s.submits[c := Accepted],
         queue := s.queue + [Entry(c, s.tasks[c])],
         accepted := s.accepted + [Entry(c, s.tasks[c])],
         workers := NotifyOne(s.workers, NotifiedOfTask, wake))
  }

  // ----- gracefulShutdown and immediateShutdown -----

  predicate AtStage(s: State, h: nat, stage: ShutdownStage) {
    h < |s.shutdowns| && s.shutdowns[h] == stage
  }

  function AfterShutdownSection(s: State, h: nat): State
    requires h < |s.shutdowns| && s.shutdowns[h].Calling?
  {
    if Closed(s) then
      s.(shutdowns := s.shutdowns[h := ReturnedEarly])
    else
      match s.shutdowns[h].mode
      case Graceful =>
        s.(graceful := true, winner := Some(h), shutdowns := s.shutdowns[h := NotifyingSubmitters])
      case Immediate =>
        s.(immediate := true, winner := Some(h), shutdowns := s.shutdowns[h := NotifyingSubmitters],
           queue := [], dropped := s.queue, promises := BreakAll(s.promises, s.queue))
  }

  function AfterNotifyNotFull(s: State, h: nat): State
    requires AtStage(s, h, NotifyingSubmitters)
  {
    s.(submits := NotifyAll(s.submits, WaitingForRoom, NotifiedOfRoom),
       shutdowns := s.shutdowns[h := NotifyingWorkers])
  }

  function AfterNotifyNotEmpty(s: State, h: nat): State
    requires AtStage(s, h, NotifyingWorkers)
  {
    s.(workers := NotifyAll(s.workers, WaitingForTask, NotifiedOfTask),
       shutdowns := s.shutdowns[h := Joining(0)])
  }

  /** `join` returns once its worker has exited; after the last worker the call returns. */
  predicate MayJoin(s: State, h: nat) {
    h < |s.shutdowns| && s.shutdowns[h].Joining? &&
    (s.shutdowns[h].next < |s.workers| ==> s.workers[s.shutdowns[h].next] == Exited)
  }

  function AfterJoin(s: State, h: nat): State
    requires MayJoin(s, h)
  {
    var k := s.shutdowns[h].next;
    s.(shutdowns := s.shutdowns[h := if k < |s.workers| then Joining(k + 1) else Returned])
  }

  // ----- the machine -----

  /** Whether the step may be taken now. The bounds on call numbers always hold in a run; they
      keep the effects below well defined on every state. */
  predicate Enabled(s: State, step: Step) {
    !s.terminated &&
    match step
    case PushTask(_) => true
    case SubmitSection(c, wake) =>
      MaySubmit(s, c) &&
      if SubmitPushes(s) then MayNotify(s.workers, WaitingForTask, wake) else wake == None
    case SubmitSpurious(c) => c < |s.submits| && s.submits[c] == WaitingForRoom
    case WorkerSection(w, wake) =>
      MayLock(s, w) &&
      if WorkerGrabs(s) then MayNotify(s.submits, WaitingForRoom, wake) else wake == None
    case WorkerFinish(w, _) =>
      w < |s.workers| && s.workers[w].Running? && s.workers[w].entry.call < |s.promises|
    case WorkerSpurious(w) => w < |s.workers| && s.workers[w] == WaitingForTask
    case CallShutdown(_) => true
    case ShutdownSection(h) => h < |s.shutdowns| && s.shutdowns[h].Calling?
    case NotifyNotFull(h) => AtStage(s, h, NotifyingSubmitters)
    case NotifyNotEmpty(h) => AtStage(s, h, NotifyingWorkers)
    case JoinNext(h) => MayJoin(s, h)
  }

  function Apply(s: State, step: Step): State
    requires Enabled(s, step)
  {
    match step
    case PushTask(task) => AfterPushTask(s, task)
    case SubmitSection(c, wake) => AfterSubmitSection(s, c, wake)
    case SubmitSpurious(c) => s.(submits := s.submits[c := NotifiedOfRoom])
    case WorkerSection(w, wake) => AfterWorkerSection(s, w, wake)
    case WorkerFinish(w, threw) => AfterFinish(s, w, threw)
    case WorkerSpurious(w) => s.(workers := s.workers[w := NotifiedOfTask])
    case CallShutdown(mode) => s.(shutdowns := s.shutdowns + [Calling(mode)])
    case ShutdownSection(h) => AfterShutdownSection(s, h)
    case NotifyNotFull(h) => AfterNotifyNotFull(s, h)
    case NotifyNotEmpty(h) => AfterNotifyNotEmpty(s, h)
    case JoinNext(h) => AfterJoin(s, h)
  }

  /** Whether `steps` can be taken one after the other from `s`. */
  predicate CanRun(s: State, steps: seq<Step>)
    decreases |steps|
  {
    steps == [] || (Enabled(s, steps[0]) && CanRun(Apply(s, steps[0]), steps[1..]))
  }

  function RunFrom(s: State, steps: seq<Step>): State
    requires CanRun(s, steps)
    decreases |steps|
  {
    if steps == [] then s else RunFrom(Apply(s, steps[0]), steps[1..])
  }

  /** The state a run of a fresh pool ends in. */
  function After(numThreads: nat, queueCapacity: nat, steps: seq<Step>): State
    requires CanRun(Init(numThreads, queueCapacity), steps)
  {
    RunFrom(Init(numThreads, queueCapacity), steps)
  }

  lemma {:induction false} RunSplit(s: State, first: seq<Step>, rest: seq<Step>)
    ensures CanRun(s, first + rest) <==> CanRun(s, first) && CanRun(RunFrom(s, first), rest)
    ensures CanRun(s, first + rest) ==> RunFrom(s, first + rest) == RunFrom(RunFrom(s, first), rest)
    decreases |first|
  {
    if first == [] {
      assert first + rest == rest;
    } else {
      assert (first + rest)[1..] == first[1..] + rest;
      if Enabled(s, first[0]) {
        RunSplit(Apply(s, first[0]), first[1..], rest);
      }
    }
  }
}
