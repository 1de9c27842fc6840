/** The blocking bounded queue as a state machine over an unbounded history. One step is
    one locked pass of an Enqueue or Dequeue call: it either goes to sleep on the one shared
    condition variable or does its work and broadcasts. */
module QueueSpec {
  import opened Common

  datatype CallStage =
    | Called
    | Asleep       // in waiting.Wait()
    | Awake        // woken by a broadcast, the loop condition not yet re-tested
    | Done

  /** `elements[c]` is the argument of Enqueue call `c`, `answers[d]` what Dequeue call `d`
      returned. `enqueued` and `dequeued` are history, with the calls that put and took. */
  datatype State<T> = State(
    capacity: nat,
    contents: seq<T>,
    elements: seq<T>,
    enqueues: seq<CallStage>,
    dequeues: seq<CallStage>,
    answers: map<nat, T>,
    enqueued: seq<T>,
    putters: seq<nat>,
    dequeued: seq<T>,
    takers: seq<nat>)

  datatype Step<T> =
    | CallEnqueue(el: T)
    | CallDequeue
    | EnqueueSection(call: nat)
    | DequeueSection(call: nat)

  function Init<T>(capacity: nat): State<T> {
    State(capacity, [], [], [], [], map[], [], [], [], [])
  }

  /** The call may lock the mutex now. */
  predicate Ready(stages: seq<CallStage>, c: nat) {
    c < |stages| && (stages[c] == Called || stages[c] == Awake)
  }

  predicate Enabled<T>(s: State<T>, step: Step<T>) {
    match step
    case CallEnqueue(_) => true
    case CallDequeue => true
    case EnqueueSection(c) => Ready(s.enqueues, c) && c < |s.elements|
    case DequeueSection(d) => Ready(s.dequeues, d)
  }

  /** Broadcast on the shared condition variable: producers and consumers all wake. */
  function Broadcast<T>(s: State<T>): State<T> {
    s.(enqueues := NotifyAll(s.enqueues, Asleep, Awake), dequeues := NotifyAll(s.dequeues, Asleep, Awake))
  }

  function AfterEnqueue<T>(s: State<T>, c: nat): State<T>
    requires Ready(s.enqueues, c) && c < |s.elements|
  {
    if |s.contents| >= s.capacity then
      s.(enqueues := s.enqueues[c := Asleep])
    else
      Broadcast(s.(enqueues := s.enqueues[c := Done],
                   contents := s.contents + [s.elements[c]],
                   enqueued := s.enqueued + [s.elements[c]],
                   putters := s.putters + [c]))
  }

  function AfterDequeue<T>(s: State<T>, d: nat): State<T>
    requires Ready(s.dequeues, d)
  {
    if |s.contents| == 0 then
      s.(dequeues := s.dequeues[d := Asleep])
    else
      Broadcast(s.(dequeues := s.dequeues[d := Done],
                   answers := s.answers[d := s.contents[0]],
                   contents := s.contents[1..],
                   dequeued := s.dequeued + [s.contents[0]],
                   takers := s.takers + [d]))
  }

  function Apply<T>(s: State<T>, step: Step<T>): State<T>
    requires Enabled(s, step)
  {
    match step
    case CallEnqueue(el) => s.(elements := s.elements + [el], enqueues := s.enqueues + [Called])
    case CallDequeue => s.(dequeues := s.dequeues + [Called])
    case EnqueueSection(c) => AfterEnqueue(s, c)
    case DequeueSection(d) => AfterDequeue(s, d)
  }

  // ----- the invariant -----

  /** FIFO over the whole history: what was enqueued is what was dequeued, then what is
      still held, never more than the capacity. */
  ghost predicate Fifo<T>(s: State<T>) {
    s.enqueued == s.dequeued + s.contents && |s.contents| <= s.capacity
  }

  /** The k-th element put is the argument of the k-th putting call, the k-th taken is the
      answer of the k-th taking call, and no call puts or takes twice. */
  ghost predicate Attributed<T>(s: State<T>) {
    && |s.elements| == |s.enqueues|
    && |s.putters| == |s.enqueued| && |s.takers| == |s.dequeued|
    && (forall k :: 0 <= k < |s.putters| ==> DoneWith(s.enqueues, s.putters[k]) && s.elements[s.putters[k]] == s.enqueued[k])
    && (forall k :: 0 <= k < |s.takers| ==>
          DoneWith(s.dequeues, s.takers[k]) && s.takers[k] in s.answers && s.answers[s.takers[k]] == s.dequeued[k])
    && Distinct(s.putters) && Distinct(s.takers)
    && (forall c :: 0 <= c < |s.enqueues| && s.enqueues[c] == Done ==> c in s.putters)
    && (forall d :: 0 <= d < |s.dequeues| && s.dequeues[d] == Done ==> d in s.takers)
  }

  predicate DoneWith(stages: seq<CallStage>, c: nat) {
    c < |stages| && stages[c] == Done
  }

  /** A producer sleeps only on a full queue, a consumer only on an empty one. */
  ghost predicate SleepersHaveReason<T>(s: State<T>) {
    && (At(s.enqueues, Asleep) != {} ==> |s.contents| == s.capacity)
    && (At(s.dequeues, Asleep) != {} ==> s.contents == [])
  }

  ghost predicate Inv<T>(s: State<T>) {
    Fifo(s) && Attributed(s) && SleepersHaveReason(s)
  }

  lemma InitInv<T>(capacity: nat)
    ensures Inv(Init<T>(capacity))
  {
  }

  lemma NobodyAsleep(stages: seq<CallStage>)
    ensures At(NotifyAll(stages, Asleep, Awake), Asleep) == {}
  {
  }

  lemma EnqueueKeepsInv<T>(s: State<T>, c: nat)
    requires Inv(s) && Ready(s.enqueues, c) && c < |s.elements|
    ensures Inv(AfterEnqueue(s, c))
  {
    var t := AfterEnqueue(s, c);
    if |s.contents| >= s.capacity {
      AtUpdate(s.enqueues, c, Asleep, Asleep);
    } else {
      NobodyAsleep(s.enqueues[c := Done]);
      NobodyAsleep(s.dequeues);
      assert t.putters[|s.putters|] == c;
    }
  }

  lemma {:induction false} DequeueKeepsInv<T>(s: State<T>, d: nat)
    requires Inv(s) && Ready(s.dequeues, d)
    ensures Inv(AfterDequeue(s, d))
  {
    var t := AfterDequeue(s, d);
    if |s.contents| == 0 {
      AtUpdate(s.dequeues, d, Asleep, Asleep);
    } else {
      NobodyAsleep(s.enqueues);
      NobodyAsleep(s.dequeues[d := Done]);
      assert t.takers[|s.takers|] == d;
    }
  }

  lemma {:induction false} StepKeepsInv<T>(s: State<T>, step: Step<T>)
    requires Inv(s) && Enabled(s, step)
    ensures Inv(Apply(s, step))
  {
    match step {
      case CallEnqueue(el) => AtAppend(s.enqueues, Called, Asleep);
      case CallDequeue => AtAppend(s.dequeues, Called, Asleep);
      case EnqueueSection(c) => EnqueueKeepsInv(s, c);
      case DequeueSection(d) => DequeueKeepsInv(s, d);
    }
  }

  // ----- runs -----

  predicate CanRun<T>(s: State<T>, steps: seq<Step<T>>)
    decreases |steps|
  {
    steps == [] || (Enabled(s, steps[0]) && CanRun(Apply(s, steps[0]), steps[1..]))
  }

  function RunFrom<T>(s: State<T>, steps: seq<Step<T>>): State<T>
    requires CanRun(s, steps)
    decreases |steps|
  {
    if steps == [] then s else RunFrom(Apply(s, steps[0]), steps[1..])
  }

  lemma {:induction false} RunKeepsInv<T>(s: State<T>, steps: seq<Step<T>>)
    requires Inv(s) && CanRun(s, steps)
    ensures Inv(RunFrom(s, steps)) && RunFrom(s, steps).capacity == s.capacity
    decreases |steps|
  {
    if steps != [] {
      StepKeepsInv(s, steps[0]);
      RunKeepsInv(Apply(s, steps[0]), steps[1..]);
    }
  }

  function OfferedBy<T>(step: Step<T>): seq<T> {
    if step.CallEnqueue? then [step.el] else []
  }

  /** The arguments of the Enqueue calls of a run, in order. */
  function Offered<T>(steps: seq<Step<T>>): seq<T> {
    if steps == [] then [] else OfferedBy(steps[0]) + Offered(steps[1..])
  }

  /** The number of Dequeue calls of a run. */
  function Asked<T>(steps: seq<Step<T>>): nat {
    if steps == [] then 0 else (if steps[0].CallDequeue? then 1 else 0) + Asked(steps[1..])
  }

  lemma StepKeepsArguments<T>(s: State<T>, step: Step<T>)
    requires Enabled(s, step)
    ensures var t := Apply(s, step);
            && t.elements == s.elements + OfferedBy(step)
            && |t.enqueues| == |s.enqueues| + |OfferedBy(step)|
            && |t.dequeues| == |s.dequeues| + (if step.CallDequeue? then 1 else 0)
  {
    assert s.elements + [] == s.elements;
  }

  lemma {:induction false} RunKeepsArguments<T>(s: State<T>, steps: seq<Step<T>>)
    requires CanRun(s, steps)
    ensures RunFrom(s, steps).elements == s.elements + Offered(steps)
    ensures |RunFrom(s, steps).enqueues| == |s.enqueues| + |Offered(steps)|
    ensures |RunFrom(s, steps).dequeues| == |s.dequeues| + Asked(steps)
    decreases |steps|
  {
    hide Apply, Enabled, OfferedBy;
    if steps == [] {
      assert s.elements + [] == s.elements;
    } else {
      StepKeepsArguments(s, steps[0]);
      RunKeepsArguments(Apply(s, steps[0]), steps[1..]);
      Reassociate(s.elements, OfferedBy(steps[0]), Offered(steps[1..]));
    }
  }

  /** For the whole run the c-th Enqueue call brings the element it was called with. */
  lemma CallsKeepTheirArguments<T>(capacity: nat, steps: seq<Step<T>>)
    requires CanRun(Init(capacity), steps)
    ensures var s := RunFrom(Init(capacity), steps);
            s.elements == Offered(steps) && |s.enqueues| == |Offered(steps)| && |s.dequeues| == Asked(steps)
  {
    RunKeepsArguments(Init(capacity), steps);
    assert [] + Offered(steps) == Offered(steps);
  }

  /** Whatever the interleaving: the dequeued history is a prefix of the enqueued one, the
      k-th taking call got the element that the k-th putting call was called with, a sleeping
      producer means full and a sleeping consumer means empty. */
  lemma EveryRunIsFifo<T>(capacity: nat, steps: seq<Step<T>>)
    requires CanRun(Init(capacity), steps)
    ensures var s := RunFrom(Init(capacity), steps);
            && s.dequeued <= s.enqueued && |s.enqueued| <= |s.dequeued| + capacity
            && |s.putters| == |s.enqueued| && |s.takers| == |s.dequeued|
            && (forall k :: 0 <= k < |s.putters| ==>
                  s.putters[k] < |Offered(steps)| && s.enqueued[k] == Offered(steps)[s.putters[k]])
            && (forall k :: 0 <= k < |s.takers| ==>
                  s.takers[k] in s.answers && k < |s.putters| && s.putters[k] < |Offered(steps)| &&
                  s.answers[s.takers[k]] == Offered(steps)[s.putters[k]])
            && (At(s.enqueues, Asleep) != {} ==> |s.enqueued| == |s.dequeued| + capacity)
            && (At(s.dequeues, Asleep) != {} ==> s.enqueued == s.dequeued)
  {
    InitInv<T>(capacity);
    RunKeepsInv(Init(capacity), steps);
    CallsKeepTheirArguments(capacity, steps);
    var s := RunFrom(Init(capacity), steps);
    forall k | 0 <= k < |s.putters| ensures s.putters[k] < |Offered(steps)| {
      assert DoneWith(s.enqueues, s.putters[k]);
    }
    forall k | 0 <= k < |s.takers| ensures s.answers[s.takers[k]] == s.elements[s.putters[k]] {
      assert s.dequeued[k] == s.enqueued[k];
    }
  }

  ghost predicate BothAsleep<T>(s: State<T>) {
    At(s.enqueues, Asleep) != {} && At(s.dequeues, Asleep) != {}
  }

  ghost predicate ReachesBothAsleep<T>(capacity: nat, steps: seq<Step<T>>) {
    CanRun(Init(capacity), steps) && BothAsleep(RunFrom(Init(capacity), steps))
  }

  /** Producers and consumers are asleep together in some run exactly when the capacity is 0. */
  lemma BothAsleepOnlyWithoutCapacity<T(!new)>(capacity: nat, el: T)
    ensures (exists steps: seq<Step<T>> :: ReachesBothAsleep(capacity, steps)) <==> capacity == 0
  {
    if capacity == 0 {
      var steps := ZeroCapacityDeadlock(el);
      assert ReachesBothAsleep(capacity, steps);
    } else {
      forall steps: seq<Step<T>> ensures !ReachesBothAsleep(capacity, steps) {
        if CanRun(Init(capacity), steps) {
          InitInv<T>(capacity);
          RunKeepsInv(Init(capacity), steps);
        }
      }
    }
  }

  lemma ZeroCapacityDeadlock<T>(el: T) returns (steps: seq<Step<T>>)
    ensures CanRun(Init(0), steps) && BothAsleep(RunFrom(Init(0), steps))
  {
    var s0: State<T> := Init(0);
    var s1 := Apply(s0, CallEnqueue(el));
    var s2 := Apply(s1, EnqueueSection(0));
    var s3 := Apply(s2, CallDequeue);
    var s4 := Apply(s3, DequeueSection(0));
    var r3 := [Step<T>.DequeueSection(0)];
    var r2 := [Step<T>.CallDequeue] + r3;
    var r1 := [Step<T>.EnqueueSection(0)] + r2;
    steps := [CallEnqueue(el)] + r1;
    assert r3[1..] == [] && r2[1..] == r3 && r1[1..] == r2 && steps[1..] == r1;
    assert CanRun(s3, r3) && RunFrom(s3, r3) == s4;
    assert CanRun(s2, r2) && RunFrom(s2, r2) == s4;
    assert CanRun(s1, r1) && RunFrom(s1, r1) == s4;
    assert 0 in At(s4.enqueues, Asleep) && 0 in At(s4.dequeues, Asleep);
  }

  /** No call is left asleep needlessly: with some capacity, whenever both an Enqueue and a
      Dequeue call are unfinished, some unfinished call can go on. */
  lemma NoDeadlock<T>(capacity: nat, steps: seq<Step<T>>, s: State<T>, c: nat, d: nat)
    requires capacity >= 1 && CanRun(Init(capacity), steps) && s == RunFrom(Init(capacity), steps)
    requires c < |s.enqueues| && s.enqueues[c] != Done && d < |s.dequeues| && s.dequeues[d] != Done
    ensures Enabled(s, EnqueueSection(c)) || Enabled(s, DequeueSection(d))
  {
    InitInv<T>(capacity);
    RunKeepsInv(Init(capacity), steps);
    NotBothAsleep(s, c, d);
  }

  lemma NotBothAsleep<T>(s: State<T>, c: nat, d: nat)
    requires SleepersHaveReason(s) && s.capacity >= 1 && c < |s.enqueues| && d < |s.dequeues|
    ensures s.enqueues[c] != Asleep || s.dequeues[d] != Asleep
  {
    assert s.enqueues[c] == Asleep ==> c in At(s.enqueues, Asleep);
    assert s.dequeues[d] == Asleep ==> d in At(s.dequeues, Asleep);
  }

  // ----- every run ends -----

  function Unfinished(stage: CallStage): nat {
    if stage == Done then 0 else 1
  }

  function Awaken(stage: CallStage): nat {
    if stage == Called || stage == Awake then 1 else 0
  }

  function Calls<T>(s: State<T>): nat {
    |s.enqueues| + |s.dequeues|
  }

  /** The calls that are not over. */
  function Pending<T>(s: State<T>): nat {
    Total(s.enqueues, Unfinished) + Total(s.dequeues, Unfinished)
  }

  /** Those of them that are not asleep. */
  function Up<T>(s: State<T>): nat {
    Total(s.enqueues, Awaken) + Total(s.dequeues, Awaken)
  }

  /** The sum of the first `u` odd numbers. */
  function Rounds(u: nat): nat {
    if u == 0 then 0 else Rounds(u - 1) + 2 * u - 1
  }

  /** A pass that succeeds is final for its call and wakes the others once more; one that does
      not puts its call to sleep. */
  function Measure<T>(s: State<T>): nat {
    Rounds(Pending(s)) + Up(s)
  }

  /** The most steps that `n` calls can take, their arrivals included. */
  function MostSteps(n: nat): nat {
    if n == 0 then 0 else MostSteps(n - 1) + 2 * n + 1
  }

  lemma {:induction false} MostStepsIsProduct(n: nat)
    ensures MostSteps(n) == n * (n + 2)
  {
    if n > 0 {
      MostStepsIsProduct(n - 1);
      assert (n - 1) * (n + 1) == n * (n + 2) - 2 * n - 1;
    }
  }

  lemma CountsInOrder<T>(s: State<T>)
    ensures Up(s) <= Pending(s) <= Calls(s)
  {
    TotalAtMost(s.enqueues, Awaken, Unfinished);
    TotalAtMost(s.dequeues, Awaken, Unfinished);
    EachIsOne(s.enqueues);
    EachIsOne(s.dequeues);
  }

  lemma {:induction false} EachIsOne(stages: seq<CallStage>)
    ensures Total(stages, Unfinished) <= |stages|
  {
    if stages != [] {
      EachIsOne(stages[1..]);
    }
  }

  lemma Falls<T>(s: State<T>, t: State<T>)
    requires Pending(t) + 1 == Pending(s) || (Pending(t) == Pending(s) && Up(t) < Up(s))
    ensures Measure(t) < Measure(s)
  {
    CountsInOrder(t);
  }

  lemma EnqueueDecreases<T>(s: State<T>, c: nat)
    requires Ready(s.enqueues, c) && c < |s.elements|
    ensures Measure(AfterEnqueue(s, c)) < Measure(s)
  {
    var stage := if |s.contents| >= s.capacity then Asleep else Done;
    TotalUpdate(s.enqueues, Unfinished, c, stage);
    TotalUpdate(s.enqueues, Awaken, c, stage);
    TotalNotifyAll(s.enqueues[c := stage], Unfinished, Asleep, Awake);
    TotalNotifyAll(s.dequeues, Unfinished, Asleep, Awake);
    Falls(s, AfterEnqueue(s, c));
  }

  lemma DequeueDecreases<T>(s: State<T>, d: nat)
    requires Ready(s.dequeues, d)
    ensures Measure(AfterDequeue(s, d)) < Measure(s)
  {
    var stage := if |s.contents| == 0 then Asleep else Done;
    TotalUpdate(s.dequeues, Unfinished, d, stage);
    TotalUpdate(s.dequeues, Awaken, d, stage);
    TotalNotifyAll(s.dequeues[d := stage], Unfinished, Asleep, Awake);
    TotalNotifyAll(s.enqueues, Unfinished, Asleep, Awake);
    Falls(s, AfterDequeue(s, d));
  }

  /** Every locked pass decreases the measure; a new call adds no more than the bound allows. */
  lemma StepCost<T>(s: State<T>, step: Step<T>)
    requires Enabled(s, step)
    ensures 1 + Measure(Apply(s, step)) + MostSteps(Calls(s)) <= Measure(s) + MostSteps(Calls(Apply(s, step)))
  {
    CountsInOrder(s);
    match step {
      case CallEnqueue(el) =>
        TotalAppend(s.enqueues, Unfinished, Called);
        TotalAppend(s.enqueues, Awaken, Called);
      case CallDequeue =>
        TotalAppend(s.dequeues, Unfinished, Called);
        TotalAppend(s.dequeues, Awaken, Called);
      case EnqueueSection(c) => EnqueueDecreases(s, c);
      case DequeueSection(d) => DequeueDecreases(s, d);
    }
  }

  lemma {:induction false} StepsAreBounded<T>(s: State<T>, steps: seq<Step<T>>)
    requires CanRun(s, steps)
    ensures |steps| + Measure(RunFrom(s, steps)) + MostSteps(Calls(s)) <=
            Measure(s) + MostSteps(Calls(RunFrom(s, steps)))
    decreases |steps|
  {
    if steps != [] {
      StepCost(s, steps[0]);
      StepsAreBounded(Apply(s, steps[0]), steps[1..]);
    }
  }

  /** Every run ends: with n calls and any capacity it has at most n * (n + 2) steps, however
      often the broadcasts wake callers in vain. */
  lemma RunsAreBounded<T>(capacity: nat, steps: seq<Step<T>>)
    requires CanRun(Init(capacity), steps)
    ensures var n := |Offered(steps)| + Asked(steps); |steps| <= n * (n + 2)
  {
    CallsKeepTheirArguments(capacity, steps);
    StepsAreBounded(Init(capacity), steps);
    MostStepsIsProduct(Calls(RunFrom(Init(capacity), steps)));
  }

  // ----- what a run that cannot go on has done -----

  /** No call can take a locked pass. */
  ghost predicate Stuck<T>(s: State<T>) {
    && (forall c: nat :: !Enabled(s, EnqueueSection(c)))
    && (forall d: nat :: !Enabled(s, DequeueSection(d)))
  }

  function Min(a: nat, b: nat): nat {
    if a < b then a else b
  }

  /** Each putting or taking call is a different call; when all are over, they are all of them. */
  lemma PutsAndTakes<T>(s: State<T>)
    requires Inv(s)
    ensures |s.enqueued| <= |s.enqueues| && |s.dequeued| <= |s.dequeues|
    ensures (forall c :: 0 <= c < |s.enqueues| ==> s.enqueues[c] == Done) ==> |s.enqueued| == |s.enqueues|
    ensures (forall d :: 0 <= d < |s.dequeues| ==> s.dequeues[d] == Done) ==> |s.dequeued| == |s.dequeues|
  {
    forall k | 0 <= k < |s.putters| ensures s.putters[k] < |s.enqueues| {
      assert DoneWith(s.enqueues, s.putters[k]);
    }
    forall k | 0 <= k < |s.takers| ensures s.takers[k] < |s.dequeues| {
      assert DoneWith(s.dequeues, s.takers[k]);
    }
    DistinctBelow(s.putters, |s.enqueues|);
    DistinctBelow(s.takers, |s.dequeues|);
  }

  /** Whoever is left over in a run that cannot go on is asleep, for its reason. */
  lemma LeftoversSleep<T>(s: State<T>)
    requires Inv(s) && Stuck(s)
    ensures forall c :: 0 <= c < |s.enqueues| && s.enqueues[c] != Done ==>
              s.enqueues[c] == Asleep && |s.contents| == s.capacity
    ensures forall d :: 0 <= d < |s.dequeues| && s.dequeues[d] != Done ==>
              s.dequeues[d] == Asleep && s.contents == []
  {
    forall c | 0 <= c < |s.enqueues| && s.enqueues[c] != Done
      ensures s.enqueues[c] == Asleep && |s.contents| == s.capacity
    {
      assert !Enabled(s, EnqueueSection(c));
      assert c in At(s.enqueues, Asleep);
    }
    forall d | 0 <= d < |s.dequeues| && s.dequeues[d] != Done
      ensures s.dequeues[d] == Asleep && s.contents == []
    {
      assert !Enabled(s, DequeueSection(d));
      assert d in At(s.dequeues, Asleep);
    }
  }

  /** As many elements are put and taken as the calls and the capacity allow. */
  ghost predicate Complete<T>(s: State<T>, producers: nat, consumers: nat, capacity: nat) {
    && |s.enqueued| == Min(producers, consumers + capacity)
    && |s.dequeued| == Min(producers, consumers)
  }

  lemma StuckWithCapacity<T>(s: State<T>)
    requires Inv(s) && Stuck(s) && s.capacity >= 1
    ensures Complete(s, |s.enqueues|, |s.dequeues|, s.capacity)
  {
    LeftoversSleep(s);
    PutsAndTakes(s);
    if c :| 0 <= c < |s.enqueues| && s.enqueues[c] != Done {
      assert |s.dequeued| == |s.dequeues|;
    } else if d :| 0 <= d < |s.dequeues| && s.dequeues[d] != Done {
      assert |s.enqueued| == |s.enqueues|;
    }
  }

  /** A run that no locked pass extends has put and taken as many elements as its calls and the
      capacity allow - so all Enqueue calls or all Dequeue calls are over and the others sleep on
      a full or an empty queue - if and only if there is some capacity, or only producers, or
      only consumers. */
  lemma StuckRunsAreComplete<T>(capacity: nat, steps: seq<Step<T>>)
    requires CanRun(Init(capacity), steps) && Stuck(RunFrom(Init(capacity), steps))
    ensures var s := RunFrom(Init(capacity), steps);
            && (Complete(s, |Offered(steps)|, Asked(steps), capacity) <==>
                  capacity >= 1 || Offered(steps) == [] || Asked(steps) == 0)
            && (forall c :: 0 <= c < |s.enqueues| && s.enqueues[c] != Done ==>
                  s.enqueues[c] == Asleep && |s.contents| == capacity)
            && (forall d :: 0 <= d < |s.dequeues| && s.dequeues[d] != Done ==>
                  s.dequeues[d] == Asleep && s.contents == [])
  {
    InitInv<T>(capacity);
    RunKeepsInv(Init(capacity), steps);
    var s := RunFrom(Init(capacity), steps);
    LeftoversSleep(s);
    PutsAndTakes(s);
    CallsKeepTheirArguments(capacity, steps);
    if capacity >= 1 {
      StuckWithCapacity(s);
    } else {
      NothingPassesWithoutCapacity(Init(capacity), steps);
    }
  }

  lemma {:induction false} NothingPassesWithoutCapacity<T>(s: State<T>, steps: seq<Step<T>>)
    requires s.capacity == 0 && s.contents == [] && s.enqueued == [] && s.dequeued == [] && CanRun(s, steps)
    ensures RunFrom(s, steps).enqueued == [] && RunFrom(s, steps).dequeued == []
    decreases |steps|
  {
    if steps != [] {
      NothingPassesWithoutCapacity(Apply(s, steps[0]), steps[1..]);
    }
  }
}
