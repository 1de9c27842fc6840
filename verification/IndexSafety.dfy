/** What holds over every run of the index: iterators are linearizable snapshots, stored
    bytes never change, and Close drains. */
module IndexSafety {
  import opened Common
  import opened RecordCodec
  import opened IndexSpec
  import opened IndexInvariant

  lemma {:induction false} RunKeepsInv(s: State, steps: seq<Step>)
    requires Inv(s) && CanRun(s, steps)
    ensures Inv(RunFrom(s, steps))
    decreases |steps|
  {
    if steps != [] {
      StepKeepsInv(s, steps[0]);
      RunKeepsInv(Apply(s, steps[0]), steps[1..]);
    }
  }

  lemma ReachableInv(s: State)
    requires Reachable(s)
    ensures Inv(s)
  {
    InitInv();
    var steps :| CanRun(INIT, steps) && RunFrom(INIT, steps) == s;
    RunKeepsInv(INIT, steps);
  }

  // ----- the order of a query -----

  lemma AboveLeast(ids: set<Id>, k: int)
    requires Above(ids, k) != {}
    ensures var x := Least(Above(ids, k));
            Above(ids, k) == {x} + Above(ids, x) && |Above(ids, k)| == 1 + |Above(ids, x)|
  {
    var x := Least(Above(ids, k));
    assert Above(ids, k) == {x} + Above(ids, x);
    assert x !in Above(ids, x);
  }

  /** `t` is the first `limit` ids above `k`: matching ids in strictly increasing order, as
      many as the limit or the matching ids allow, with every other matching id after them. */
  ghost predicate IsFirst(ids: set<Id>, k: int, limit: int, t: seq<Id>) {
    && (forall i :: 0 <= i < |t| ==> t[i] in Above(ids, k))
    && (forall i, j :: 0 <= i < j < |t| ==> t[i] < t[j])
    && |t| == (if limit <= 0 then 0 else if limit <= |Above(ids, k)| then limit else |Above(ids, k)|)
    && (forall x, i :: x in Above(ids, k) && x !in t && 0 <= i < |t| ==> t[i] < x)
  }

  /** Putting the least matching id in front of the first ids above it. */
  lemma FirstCons(ids: set<Id>, k: int, limit: int, rest: seq<Id>)
    requires limit > 0 && Above(ids, k) != {} && IsFirst(ids, Least(Above(ids, k)), limit - 1, rest)
    ensures IsFirst(ids, k, limit, [Least(Above(ids, k))] + rest)
  {
    var x := Least(Above(ids, k));
    var t := [x] + rest;
    AboveLeast(ids, k);
    assert forall i :: 0 < i < |t| ==> t[i] == rest[i - 1];
    forall y, i | y in Above(ids, k) && y !in t && 0 <= i < |t| ensures t[i] < y {
      assert y != t[0];
      assert forall j :: 0 <= j < |rest| ==> rest[j] == t[j + 1];
    }
  }

  /** A query visits the first `limit` ids above minId. */
  lemma {:induction false} FirstIdsAreFirst(ids: set<Id>, k: int, limit: int)
    ensures IsFirst(ids, k, limit, FirstIds(ids, k, limit))
    decreases |Above(ids, k)|
  {
    if limit > 0 && Above(ids, k) != {} {
      AboveLeast(ids, k);
      FirstIdsAreFirst(ids, Least(Above(ids, k)), limit - 1);
      FirstCons(ids, k, limit, FirstIds(ids, Least(Above(ids, k)), limit - 1));
    }
  }

  lemma FirstTail(ids: set<Id>, k: int, limit: int, t: seq<Id>)
    requires IsFirst(ids, k, limit, t) && t != []
    ensures limit > 0 && Above(ids, k) != {} && t[0] == Least(Above(ids, k))
    ensures IsFirst(ids, t[0], limit - 1, t[1..])
  {
    assert t[0] in Above(ids, k);
    var x := Least(Above(ids, k));
    AboveLeast(ids, k);
    assert t[0] == x;
    forall y, i | y in Above(ids, x) && y !in t[1..] && 0 <= i < |t[1..]| ensures t[1..][i] < y {
      assert y !in t;
    }
  }

  /** Nothing else is: the first `limit` ids are determined. */
  lemma {:induction false} FirstIdsUnique(ids: set<Id>, k: int, limit: int, t: seq<Id>)
    requires IsFirst(ids, k, limit, t)
    ensures t == FirstIds(ids, k, limit)
    decreases |t|
  {
    if t != [] {
      FirstTail(ids, k, limit, t);
      FirstIdsUnique(ids, t[0], limit - 1, t[1..]);
    }
  }

  // ----- stored bytes -----

  lemma ExtendsTransitive(s: State, t: State, u: State)
    requires Extends(s, t) && Extends(t, u)
    ensures Extends(s, u)
  {
    SliceStays(t, u, 0, s.writeOffset);
  }

  /** Over a whole run, writeOffset never goes down and no byte below it ever changes, however
      many appends fail part-way and are written over. */
  lemma {:induction false} StoredBytesNeverChange(s: State, steps: seq<Step>)
    requires Inv(s) && CanRun(s, steps)
    ensures Extends(s, RunFrom(s, steps))
    decreases |steps|
  {
    if steps != [] {
      var t := Apply(s, steps[0]);
      StepExtends(s, steps[0]);
      StepKeepsInv(s, steps[0]);
      StoredBytesNeverChange(t, steps[1..]);
      ExtendsTransitive(s, t, RunFrom(t, steps[1..]));
    }
  }

  /** Every published offset, in the map or in an iterator, is the start of a complete record
      below writeOffset, with the id and text it was published for. */
  lemma PublishedOffsetsAreRecords(s: State)
    requires Reachable(s)
    ensures s.indexMap.Keys == s.contents.Keys
    ensures forall id :: id in s.indexMap ==> Stored(s, s.indexMap[id], id, s.contents[id])
    ensures forall q :: 0 <= q < |s.queries| ==> OffsetsOk(s, s.queries[q])
  {
    ReachableInv(s);
    forall q | 0 <= q < |s.queries| ensures OffsetsOk(s, s.queries[q]) {
      assert IterOk(s, s.queries[q]);
    }
  }

  // ----- iterators -----

  ghost predicate SnapshotTaken(s: State, q: nat) {
    q < |s.queries| && (s.queries[q].stage == QueryLeaving || s.queries[q].stage == QueryDone)
  }

  lemma StepKeepsView(s: State, step: Step, q: nat)
    requires SnapshotTaken(s, q) && Enabled(s, step)
    ensures var t := Apply(s, step);
            && SnapshotTaken(t, q)
            && t.queries[q].minId == s.queries[q].minId
            && t.queries[q].limit == s.queries[q].limit
            && t.queries[q].iter.view == s.queries[q].iter.view
  {
    if OfQuery(step) && step.query == q {
      assert step != QueryEnter(q) && step != Snapshot(q);
    }
  }

  lemma {:induction false} ViewStays(s: State, steps: seq<Step>, q: nat)
    requires SnapshotTaken(s, q) && CanRun(s, steps)
    ensures var t := RunFrom(s, steps);
            && SnapshotTaken(t, q)
            && t.queries[q].minId == s.queries[q].minId
            && t.queries[q].limit == s.queries[q].limit
            && t.queries[q].iter.view == s.queries[q].iter.view
    decreases |steps|
  {
    if steps != [] {
      StepKeepsView(s, steps[0], q);
      ViewStays(Apply(s, steps[0]), steps[1..], q);
    }
  }

  ghost predicate Drained(iter: Iter) {
    iter.cursor == |iter.fileOffsets| && iter.reading == NotReading
  }

  /** The places in the results of `q` that a failing pread produced during a run. */
  ghost function FailedNexts(s: State, steps: seq<Step>, q: nat): set<nat>
    requires CanRun(s, steps)
    decreases |steps|
  {
    if steps == [] then {}
    else
      (if steps[0] == PreadFails(q) then {|s.queries[q].iter.results|} else {})
      + FailedNexts(Apply(s, steps[0]), steps[1..], q)
  }

  /** A pread that succeeds finishes at most one Next, and never with an I/O error. */
  lemma PreadResult(iter: Iter, file: Text, n: nat)
    requires iter.reading.ReadingAt? && MayPread(file, iter.reading.pos, n)
    ensures var after := AfterPread(iter, file, n).results;
            after == iter.results || exists r :: r != IoError && after == iter.results + [r]
  {
    if AfterPread(iter, file, n).results != iter.results {
      var r :| AfterPread(iter, file, n) == Finished(iter, r) && r != IoError;
    }
  }

  /** From `before` to `after` results are only added, and those added at `failed` are the I/O
      errors among them. */
  ghost predicate Grows(before: seq<ReadResult>, after: seq<ReadResult>, failed: set<nat>) {
    && before <= after
    && (forall k :: |before| <= k < |after| ==> (after[k] == IoError <==> k in failed))
    && (forall k :: k in failed ==> |before| <= k < |after|)
  }

  lemma GrowsTwice(before: seq<ReadResult>, mid: seq<ReadResult>, after: seq<ReadResult>, first: set<nat>, rest: set<nat>)
    requires Grows(before, mid, first) && Grows(mid, after, rest)
    ensures Grows(before, after, first + rest)
  {
  }

  /** A step finishes at most one Next of `q`, with an I/O error exactly if its pread failed. */
  lemma StepResults(s: State, step: Step, q: nat)
    requires SnapshotTaken(s, q) && Enabled(s, step)
    ensures var before, after := s.queries[q].iter.results, Apply(s, step).queries[q].iter.results;
            Grows(before, after, if step == PreadFails(q) then {|before|} else {})
  {
    hide AfterPread;
    if OfQuery(step) && step.query == q {
      assert step != QueryEnter(q) && step != Snapshot(q);
      if step.Pread? {
        PreadResult(s.queries[q].iter, s.file, step.count);
      }
    }
  }

  /** Along any run a finished Next is an I/O error exactly when its pread failed. */
  lemma {:induction false} ErrorsAreFailedReads(s: State, steps: seq<Step>, q: nat)
    requires SnapshotTaken(s, q) && CanRun(s, steps)
    ensures SnapshotTaken(RunFrom(s, steps), q)
    ensures Grows(s.queries[q].iter.results, RunFrom(s, steps).queries[q].iter.results, FailedNexts(s, steps, q))
    ensures FailedNexts(s, steps, q) == {} <==> PreadFails(q) !in steps
    decreases |steps|
  {
    hide Enabled, Apply;
    if steps != [] {
      var t := Apply(s, steps[0]);
      StepKeepsView(s, steps[0], q);
      StepResults(s, steps[0], q);
      ErrorsAreFailedReads(t, steps[1..], q);
      GrowsTwice(s.queries[q].iter.results, t.queries[q].iter.results, RunFrom(s, steps).queries[q].iter.results,
                 if steps[0] == PreadFails(q) then {|s.queries[q].iter.results|} else {},
                 FailedNexts(t, steps[1..], q));
      assert steps == [steps[0]] + steps[1..];
    }
  }

  /** Iterators are linearizable snapshots. Take any reachable state, let query `q` take its
      snapshot there, and let anything happen afterwards - inserts of the same ids, failing
      appends, Close, reads split in any way. The k-th finished Next delivers the k-th of the
      first `limit` entries with id above minId of the contents at the snapshot, unless its own
      pread failed; a drained iterator has tried them all. */
  lemma IteratorsAreSnapshots(s: State, q: nat, rest: seq<Step>)
    requires Reachable(s) && Enabled(s, Snapshot(q)) && CanRun(Apply(s, Snapshot(q)), rest)
    ensures q < |RunFrom(Apply(s, Snapshot(q)), rest).queries|
    ensures var iter := RunFrom(Apply(s, Snapshot(q)), rest).queries[q].iter;
            var expected := Expected(s.contents, s.queries[q].minId, s.queries[q].limit);
            && |iter.fileOffsets| == |expected|
            && |iter.results| <= |expected|
            && (forall k :: 0 <= k < |iter.results| ==>
                  iter.results[k] == if k in FailedNexts(Apply(s, Snapshot(q)), rest, q) then IoError
                                     else Delivered(expected[k]))
            && (Drained(iter) ==> |iter.results| == |expected|)
  {
    ReachableInv(s);
    var t := Apply(s, Snapshot(q));
    StepKeepsInv(s, Snapshot(q));
    RunKeepsInv(t, rest);
    ViewStays(t, rest, q);
    ErrorsAreFailedReads(t, rest, q);
    var u := RunFrom(t, rest);
    assert IterOk(u, u.queries[q]);
  }

  ghost function AllDelivered(records: seq<Record>): (r: seq<ReadResult>)
    ensures |r| == |records|
  {
    seq(|records|, k requires 0 <= k < |records| => Delivered(records[k]))
  }

  /** The entries a query asks for, with their texts as they were inserted. */
  ghost function Entries(view: map<Id, Text>, minId: Id, limit: int): (r: seq<Record>) {
    var ids := FirstIds(view.Keys, minId, limit);
    seq(|ids|, k requires 0 <= k < |ids| => Record(ids[k], view[ids[k]]))
  }

  /** Draining an iterator yields exactly the entries of the snapshot, texts cut at their first
      newline, if and only if no pread of that iterator failed: the cursor moves on before the
      read, so a record whose read failed is skipped for good. It yields the texts as they were
      inserted if and only if, besides, none of them holds a newline. */
  lemma DrainedIteratorDelivers(s: State, q: nat, rest: seq<Step>, iter: Iter)
    requires Reachable(s) && Enabled(s, Snapshot(q)) && CanRun(Apply(s, Snapshot(q)), rest)
    requires var t := RunFrom(Apply(s, Snapshot(q)), rest); q < |t.queries| && iter == t.queries[q].iter && Drained(iter)
    ensures iter.results == AllDelivered(Expected(s.contents, s.queries[q].minId, s.queries[q].limit))
            <==> PreadFails(q) !in rest
    ensures iter.results == AllDelivered(Entries(s.contents, s.queries[q].minId, s.queries[q].limit))
            <==> PreadFails(q) !in rest &&
                 forall e :: e in Entries(s.contents, s.queries[q].minId, s.queries[q].limit) ==> NEWLINE !in e.text
  {
    IteratorsAreSnapshots(s, q, rest);
    var t := Apply(s, Snapshot(q));
    var failed := FailedNexts(t, rest, q);
    var expected := Expected(s.contents, s.queries[q].minId, s.queries[q].limit);
    var entries := Entries(s.contents, s.queries[q].minId, s.queries[q].limit);
    ErrorsAreFailedReads(t, rest, q);
    if k :| k in failed {
      assert iter.results[k] == IoError;
    }
    forall k | 0 <= k < |entries| ensures expected[k] == entries[k] <==> NEWLINE !in entries[k].text {
      CutIsWhole(entries[k].text);
    }
    if iter.results == AllDelivered(entries) {
      forall k | 0 <= k < |entries| ensures expected[k] == entries[k] {
        assert iter.results[k] == Delivered(entries[k]);
      }
    }
  }

  /** The read loop of Next cannot run on: no pread of a published record meets the end of the
      file, and each one either finishes the record or leaves the reader further on, strictly
      inside it. */
  lemma ReadLoopTerminates(s: State, q: nat, n: nat)
    requires Reachable(s) && Enabled(s, Pread(q, n))
    ensures 0 < n <= 256
    ensures var before, after := s.queries[q].iter.reading, Apply(s, Pread(q, n)).queries[q].iter.reading;
            after == NotReading ||
            (after.ReadingAt? && after.offset == before.offset && after.pos == before.pos + n &&
             exists id: Id, text :: Stored(s, after.offset, id, text) && after.pos < after.offset + |Line(id, text)|)
  {
    hide ReadAt, ParseLine, Line, Expected, FirstIds;
    ReachableInv(s);
    assert IterOk(s, s.queries[q]);
    PreadIterOk(s, s.queries[q], n);
    var id, text := RecordBeingRead(s, s.queries[q]);
    var after := AfterPread(s.queries[q].iter, s.file, n);
    if after.reading.ReadingAt? {
      NewlineInLine(s.file, after.reading.offset, after.reading.pos, id, text);
    }
  }

  /** An iterator that is closed, exhausted, or was handed out by a refused query - one with
      no next record - never delivers anything more. */
  lemma {:induction false} FinishedIteratorStays(s: State, steps: seq<Step>, q: nat)
    requires Usable(s, q) && CanRun(s, steps)
    requires !HasNext(s.queries[q].iter) && s.queries[q].iter.reading == NotReading
    ensures var t := RunFrom(s, steps);
            && Usable(t, q)
            && !HasNext(t.queries[q].iter) && t.queries[q].iter.reading == NotReading
            && t.queries[q].iter.results == s.queries[q].iter.results
    decreases |steps|
  {
    if steps != [] {
      FinishedIteratorStep(s, steps[0], q);
      FinishedIteratorStays(Apply(s, steps[0]), steps[1..], q);
    }
  }

  lemma FinishedIteratorStep(s: State, step: Step, q: nat)
    requires Usable(s, q) && Enabled(s, step)
    requires !HasNext(s.queries[q].iter) && s.queries[q].iter.reading == NotReading
    ensures var t := Apply(s, step);
            && Usable(t, q)
            && !HasNext(t.queries[q].iter) && t.queries[q].iter.reading == NotReading
            && t.queries[q].iter.results == s.queries[q].iter.results
  {
  }

  /** A query that finds the index closed is not counted, and the iterator it returns delivers
      nothing, whatever happens later. */
  lemma RefusedQueryIsEmpty(s: State, q: nat, rest: seq<Step>)
    requires Reachable(s) && s.closed && Enabled(s, QueryEnter(q)) && CanRun(Apply(s, QueryEnter(q)), rest)
    ensures Apply(s, QueryEnter(q)).inFlight == s.inFlight
    ensures var t := RunFrom(Apply(s, QueryEnter(q)), rest);
            Usable(t, q) && !HasNext(t.queries[q].iter) && t.queries[q].iter.results == []
  {
    ReachableInv(s);
    assert IterOk(s, s.queries[q]);
    FinishedIteratorStays(Apply(s, QueryEnter(q)), rest, q);
  }

  // ----- inserts -----

  /** The call has chosen its return value. */
  predicate EndsWith(s: State, i: nat, code: int) {
    i < |s.inserts| && (s.inserts[i].stage == InsertLeaving(code) || s.inserts[i].stage == InsertDone(code))
  }

  /** The step makes insert `i` return `code`. */
  predicate Chooses(s: State, step: Step, i: nat, code: int) {
    match step
    case Publish(j) => j == i && code == 0
    case InsertEnter(j) => j == i && code == 1 && s.closed
    case WriteFails(j) => j == i && code == 2
    case _ => false
  }

  ghost predicate ChosenIn(s: State, steps: seq<Step>, i: nat, code: int)
    requires CanRun(s, steps)
    decreases |steps|
  {
    steps != [] && (Chooses(s, steps[0], i, code) || ChosenIn(Apply(s, steps[0]), steps[1..], i, code))
  }

  lemma StepChooses(s: State, step: Step, i: nat, code: int)
    requires Enabled(s, step)
    ensures EndsWith(Apply(s, step), i, code) <==> EndsWith(s, i, code) || Chooses(s, step, i, code)
  {
    if !OfInsert(step) {
      assert s.inserts <= Apply(s, step).inserts;
    }
  }

  lemma {:induction false} RunChooses(s: State, steps: seq<Step>, i: nat, code: int)
    requires CanRun(s, steps)
    ensures EndsWith(RunFrom(s, steps), i, code) <==> EndsWith(s, i, code) || ChosenIn(s, steps, i, code)
    ensures code == 0 ==> (ChosenIn(s, steps, i, 0) <==> Publish(i) in steps)
    ensures code == 2 ==> (ChosenIn(s, steps, i, 2) <==> WriteFails(i) in steps)
    ensures ChosenIn(s, steps, i, code) ==> code == 0 || code == 1 || code == 2
    decreases |steps|
  {
    if steps != [] {
      StepChooses(s, steps[0], i, code);
      RunChooses(Apply(s, steps[0]), steps[1..], i, code);
      assert steps == [steps[0]] + steps[1..];
    }
  }

  // ----- Close -----

  ghost predicate CloseHasReturned(s: State) {
    exists c :: 0 <= c < |s.closers| && s.closers[c] == CloseReturned
  }

  /** `inFlight` counts the operations between enter() and leave(), and a sleeping closer has
      an operation to wait for. */
  lemma InFlightIsExact(s: State)
    requires Reachable(s)
    ensures s.inFlight == Total(s.inserts, InsertHeld) + Total(s.queries, QueryHeld)
    ensures forall c :: 0 <= c < |s.closers| && s.closers[c] == CloseAsleep ==> s.inFlight > 0
  {
    ReachableInv(s);
  }

  lemma NobodyInFlight(s: State)
    requires Inv(s) && s.inFlight == 0
    ensures forall i :: 0 <= i < |s.inserts| ==> InsertHeld(s.inserts[i]) == 0
    ensures forall q :: 0 <= q < |s.queries| ==> QueryHeld(s.queries[q]) == 0
  {
    forall i | 0 <= i < |s.inserts| ensures InsertHeld(s.inserts[i]) == 0 {
      TotalAtLeast(s.inserts, InsertHeld, i);
    }
    forall q | 0 <= q < |s.queries| ensures QueryHeld(s.queries[q]) == 0 {
      TotalAtLeast(s.queries, QueryHeld, q);
    }
  }

  /** Once some Close has returned, no operation is in flight and none gets in, and the map,
      the contents and the file never change again, whatever is called later. */
  lemma {:induction false} CloseDrains(s: State, steps: seq<Step>)
    requires Inv(s) && s.closed && s.inFlight == 0 && CanRun(s, steps)
    ensures var t := RunFrom(s, steps);
            && t.inFlight == 0 && t.closed
            && t.indexMap == s.indexMap && t.contents == s.contents
            && t.file == s.file && t.writeOffset == s.writeOffset
    decreases |steps|
  {
    if steps != [] {
      var t := Apply(s, steps[0]);
      NobodyInFlight(s);
      StepKeepsInv(s, steps[0]);
      QuietStep(s, steps[0]);
      CloseDrains(t, steps[1..]);
    }
  }

  lemma QuietStep(s: State, step: Step)
    requires s.closed && s.inFlight == 0 && Enabled(s, step)
    requires forall i :: 0 <= i < |s.inserts| ==> InsertHeld(s.inserts[i]) == 0
    requires forall q :: 0 <= q < |s.queries| ==> QueryHeld(s.queries[q]) == 0
    ensures var t := Apply(s, step);
            && t.inFlight == 0 && t.closed
            && t.indexMap == s.indexMap && t.contents == s.contents
            && t.file == s.file && t.writeOffset == s.writeOffset
  {
  }

  lemma ReturnedCloseIsFinal(s: State, steps: seq<Step>)
    requires Reachable(s) && CloseHasReturned(s) && CanRun(s, steps)
    ensures var t := RunFrom(s, steps);
            && t.inFlight == 0 && t.closed
            && t.indexMap == s.indexMap && t.contents == s.contents
            && t.file == s.file && t.writeOffset == s.writeOffset
  {
    ReachableInv(s);
    CloseDrains(s, steps);
  }

  // ----- Close is not kept waiting for ever -----

  function InsertWork(op: InsertOp): nat {
    match op.stage
    case InsertEntered => |OpLine(op)| + 4
    case Writing(_, written) => if written <= |OpLine(op)| then |OpLine(op)| - written + 3 else 3
    case Appended(_) => 2
    case InsertLeaving(_) => 1
    case _ => 0
  }

  function QueryWork(op: QueryOp): nat {
    match op.stage
    case QueryEntered => 2
    case QueryLeaving => 1
    case _ => 0
  }

  function Work(s: State): nat {
    Total(s.inserts, InsertWork) + Total(s.queries, QueryWork)
  }

  /** The steps of an operation that has entered and not left. */
  predicate Draining(step: Step) {
    step.LockAppend? || step.WriteBytes? || step.WriteFails? || step.FinishAppend? || step.Publish?
    || step.InsertLeave? || step.Snapshot? || step.QueryLeave?
  }

  /** After Close has set the flag, a step of an operation in flight leaves less work. */
  lemma DrainingStepDecreases(s: State, step: Step)
    requires Enabled(s, step) && Draining(step)
    ensures Work(Apply(s, step)) < Work(s)
  {
    var t := Apply(s, step);
    if step.Snapshot? || step.QueryLeave? {
      TotalUpdate(s.queries, QueryWork, step.query, t.queries[step.query]);
    } else {
      TotalUpdate(s.inserts, InsertWork, step.ins, t.inserts[step.ins]);
    }
  }

  lemma HolderOf<T>(ops: seq<T>, held: T -> nat) returns (i: nat)
    requires Total(ops, held) > 0
    ensures i < |ops| && held(ops[i]) > 0
    decreases |ops|
  {
    if held(ops[0]) > 0 {
      i := 0;
    } else {
      i := HolderOf(ops[1..], held);
      i := i + 1;
    }
  }

  lemma InsertCanStep(s: State, i: nat) returns (step: Step)
    requires Inv(s) && i < |s.inserts| && InsertHeld(s.inserts[i]) > 0
    requires s.inserts[i].stage.InsertEntered? ==> s.writer == None
    ensures Draining(step) && !step.WriteFails? && Enabled(s, step)
  {
    var op := s.inserts[i];
    assert AppendOk(s, i, op);
    match op.stage {
      case InsertEntered => step := LockAppend(i);
      case Writing(_, written) =>
        step := if written < |OpLine(op)| then WriteBytes(i, 1) else FinishAppend(i);
      case Appended(_) => step := Publish(i);
      case InsertLeaving(_) => step := InsertLeave(i);
    }
  }

  /** While an operation is in flight, one of them can take a step, with no lock held for ever
      and no failing write needed. */
  lemma SomeoneCanDrain(s: State) returns (step: Step)
    requires Inv(s) && s.inFlight > 0
    ensures Draining(step) && !step.WriteFails? && Enabled(s, step)
  {
    if s.writer.Some? {
      assert AppendOk(s, s.writer.value, s.inserts[s.writer.value]);
      step := InsertCanStep(s, s.writer.value);
    } else if Total(s.inserts, InsertHeld) > 0 {
      var i := HolderOf(s.inserts, InsertHeld);
      step := InsertCanStep(s, i);
    } else {
      var q := HolderOf(s.queries, QueryHeld);
      step := if s.queries[q].stage == QueryEntered then Snapshot(q) else QueryLeave(q);
    }
  }

  lemma {:induction false} ClosedMakesNoWork(s: State, steps: seq<Step>)
    requires Inv(s) && s.closed && CanRun(s, steps)
    ensures Work(RunFrom(s, steps)) + DrainingSteps(steps) <= Work(s)
    decreases |steps|
  {
    if steps != [] {
      var t := Apply(s, steps[0]);
      StepKeepsInv(s, steps[0]);
      if Draining(steps[0]) {
        DrainingStepDecreases(s, steps[0]);
      } else {
        OtherStepAddsNoWork(s, steps[0]);
      }
      ClosedMakesNoWork(t, steps[1..]);
    }
  }

  function DrainingSteps(steps: seq<Step>): nat {
    if steps == [] then 0 else (if Draining(steps[0]) then 1 else 0) + DrainingSteps(steps[1..])
  }

  lemma OtherStepAddsNoWork(s: State, step: Step)
    requires s.closed && Enabled(s, step) && !Draining(step)
    ensures Work(Apply(s, step)) == Work(s) && Apply(s, step).closed
  {
    var t := Apply(s, step);
    if step.CallInsert? {
      TotalAppend(s.inserts, InsertWork, InsertOp(step.id, step.text, InsertCalled));
    } else if step.InsertEnter? {
      TotalUpdate(s.inserts, InsertWork, step.ins, t.inserts[step.ins]);
    } else if step.CallQuery? {
      TotalAppend(s.queries, QueryWork, QueryOp(step.minId, step.limit, QueryCalled, EMPTY_ITER));
    } else if OfQuery(step) {
      TotalUpdate(s.queries, QueryWork, step.query, t.queries[step.query]);
    }
  }

  /** After Close has set the flag, every run holds at most `Work(s)` steps of operations in
      flight, and while one is in flight such a step is enabled; when none is, every closer
      that has not returned can go on to return. */
  lemma CloseCannotBeBlocked(s: State, steps: seq<Step>)
    requires Reachable(s) && s.closed && CanRun(s, steps)
    ensures var t := RunFrom(s, steps);
            && DrainingSteps(steps) <= Work(s)
            && (t.inFlight > 0 ==> exists step :: Draining(step) && !step.WriteFails? && Enabled(t, step))
            && (t.inFlight <= 0 ==> forall c :: 0 <= c < |t.closers| && t.closers[c] != CloseReturned ==>
                  Enabled(t, CloseSection(c)) && Apply(t, CloseSection(c)).closers[c] == CloseReturned)
  {
    ReachableInv(s);
    ClosedMakesNoWork(s, steps);
    RunKeepsInv(s, steps);
    var t := RunFrom(s, steps);
    if t.inFlight > 0 {
      var step := SomeoneCanDrain(t);
    }
  }
}
