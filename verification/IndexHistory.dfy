/** What the index's state says of a run, read off the steps of the run alone: the arguments
    of the calls, the records published and appended, who found the index closed, and what an
    iterator delivers. */
module IndexHistory {
  import opened Common
  import opened RecordCodec
  import opened IndexSpec
  import opened IndexInvariant
  import opened IndexSafety

  datatype Put = Put(id: Id, text: Text)

  datatype Ask = Ask(minId: Id, limit: int)

  function InsertedBy(step: Step): seq<Put> {
    if step.CallInsert? then [Put(step.id, step.text)] else []
  }

  /** The arguments of the Insert calls of a run, in order. */
  function Inserted(steps: seq<Step>): seq<Put> {
    if steps == [] then [] else InsertedBy(steps[0]) + Inserted(steps[1..])
  }

  function QueriedBy(step: Step): seq<Ask> {
    if step.CallQuery? then [Ask(step.minId, step.limit)] else []
  }

  /** The arguments of the Query calls of a run, in order. */
  function Queried(steps: seq<Step>): seq<Ask> {
    if steps == [] then [] else QueriedBy(steps[0]) + Queried(steps[1..])
  }

  /** The records a run publishes, in publish order, given the arguments of the Insert calls. */
  function Published(steps: seq<Step>, args: seq<Put>): seq<Put> {
    if steps == [] then []
    else
      (if steps[0].Publish? && steps[0].ins < |args| then [args[steps[0].ins]] else [])
      + Published(steps[1..], args)
  }

  /** The records a run appends to the file, in file order. */
  function Logged(steps: seq<Step>, args: seq<Put>): seq<Put> {
    if steps == [] then []
    else
      (if steps[0].FinishAppend? && steps[0].ins < |args| then [args[steps[0].ins]] else [])
      + Logged(steps[1..], args)
  }

  function PutAll(m: map<Id, Text>, puts: seq<Put>): map<Id, Text>
    decreases |puts|
  {
    if puts == [] then m else PutAll(m[puts[0].id := puts[0].text], puts[1..])
  }

  function Lines(puts: seq<Put>): Text
    decreases |puts|
  {
    if puts == [] then [] else Line(puts[0].id, puts[0].text) + Lines(puts[1..])
  }

  // ----- the arguments -----

  /** The calls of the state with their arguments. */
  function Puts(inserts: seq<InsertOp>): (r: seq<Put>)
    ensures |r| == |inserts|
  {
    seq(|inserts|, i requires 0 <= i < |inserts| => Put(inserts[i].id, inserts[i].text))
  }

  function Asks(queries: seq<QueryOp>): (r: seq<Ask>)
    ensures |r| == |queries|
  {
    seq(|queries|, q requires 0 <= q < |queries| => Ask(queries[q].minId, queries[q].limit))
  }

  lemma StepKeepsArguments(s: State, step: Step)
    requires Enabled(s, step)
    ensures Puts(Apply(s, step).inserts) == Puts(s.inserts) + InsertedBy(step)
    ensures Asks(Apply(s, step).queries) == Asks(s.queries) + QueriedBy(step)
  {
  }

  lemma {:induction false} RunKeepsArguments(s: State, steps: seq<Step>)
    requires CanRun(s, steps)
    ensures Puts(RunFrom(s, steps).inserts) == Puts(s.inserts) + Inserted(steps)
    ensures Asks(RunFrom(s, steps).queries) == Asks(s.queries) + Queried(steps)
    decreases |steps|
  {
    hide Apply, Enabled, Puts, Asks, InsertedBy, QueriedBy;
    if steps == [] {
      assert Puts(s.inserts) + [] == Puts(s.inserts) && Asks(s.queries) + [] == Asks(s.queries);
    } else {
      StepKeepsArguments(s, steps[0]);
      RunKeepsArguments(Apply(s, steps[0]), steps[1..]);
      Reassociate(Puts(s.inserts), InsertedBy(steps[0]), Inserted(steps[1..]));
      Reassociate(Asks(s.queries), QueriedBy(steps[0]), Queried(steps[1..]));
    }
  }

  /** For the whole run the i-th insert has the id and text of the i-th Insert call, the q-th
      query the minId and limit of the q-th Query call. */
  lemma CallsKeepTheirArguments(steps: seq<Step>)
    requires CanRun(INIT, steps)
    ensures var s := RunFrom(INIT, steps);
            && |s.inserts| == |Inserted(steps)| && |s.queries| == |Queried(steps)|
            && (forall i :: 0 <= i < |s.inserts| ==>
                  s.inserts[i].id == Inserted(steps)[i].id && s.inserts[i].text == Inserted(steps)[i].text)
            && (forall q :: 0 <= q < |s.queries| ==>
                  s.queries[q].minId == Queried(steps)[q].minId && s.queries[q].limit == Queried(steps)[q].limit)
  {
    RunKeepsArguments(INIT, steps);
    assert Puts(INIT.inserts) + Inserted(steps) == Inserted(steps);
    assert Asks(INIT.queries) + Queried(steps) == Queried(steps);
    var s := RunFrom(INIT, steps);
    assert forall i :: 0 <= i < |s.inserts| ==> Puts(s.inserts)[i] == Inserted(steps)[i];
    assert forall q :: 0 <= q < |s.queries| ==> Asks(s.queries)[q] == Queried(steps)[q];
  }

  // ----- the contents and the file -----

  /** The call that a step publishes or appends, with its arguments. */
  lemma ArgumentOfCall(s: State, i: nat, steps: seq<Step>, args: seq<Put>)
    requires i < |s.inserts| && args == Puts(s.inserts) + Inserted(steps)
    ensures i < |args| && args[i] == Put(s.inserts[i].id, s.inserts[i].text)
  {
    assert args[i] == Puts(s.inserts)[i];
  }

  /** After a step the arguments of all calls are still the same list. */
  lemma SameArguments(s: State, steps: seq<Step>, args: seq<Put>)
    requires steps != [] && Enabled(s, steps[0]) && args == Puts(s.inserts) + Inserted(steps)
    ensures args == Puts(Apply(s, steps[0]).inserts) + Inserted(steps[1..])
  {
    hide Apply, Enabled, Puts, Asks, InsertedBy;
    StepKeepsArguments(s, steps[0]);
    Reassociate(Puts(s.inserts), InsertedBy(steps[0]), Inserted(steps[1..]));
  }

  lemma StepPublishes(s: State, step: Step)
    requires Enabled(s, step)
    ensures step.Publish? ==> step.ins < |s.inserts|
    ensures Apply(s, step).contents ==
            if step.Publish? then s.contents[s.inserts[step.ins].id := s.inserts[step.ins].text] else s.contents
  {
  }

  lemma {:induction false} ContentsOfRun(s: State, steps: seq<Step>, args: seq<Put>)
    requires CanRun(s, steps) && args == Puts(s.inserts) + Inserted(steps)
    ensures RunFrom(s, steps).contents == PutAll(s.contents, Published(steps, args))
    decreases |steps|
  {
    hide Apply, Enabled, Puts, Inserted;
    if steps != [] {
      SameArguments(s, steps, args);
      ContentsOfRun(Apply(s, steps[0]), steps[1..], args);
      StepPublishes(s, steps[0]);
      var rest := Published(steps[1..], args);
      if steps[0].Publish? {
        ArgumentOfCall(s, steps[0].ins, steps, args);
        assert ([args[steps[0].ins]] + rest)[1..] == rest;
      } else {
        assert [] + rest == rest;
      }
    }
  }

  /** The visible contents are the arguments of the published Insert calls, applied in publish
      order: of two inserts of one id the later published wins, wherever their records lie in
      the file. */
  lemma ContentsFollowPublishOrder(steps: seq<Step>)
    requires CanRun(INIT, steps)
    ensures RunFrom(INIT, steps).contents == PutAll(map[], Published(steps, Inserted(steps)))
  {
    assert Puts(INIT.inserts) + Inserted(steps) == Inserted(steps);
    ContentsOfRun(INIT, steps, Inserted(steps));
  }

  lemma StepLogs(s: State, step: Step)
    requires Inv(s) && Enabled(s, step)
    ensures step.FinishAppend? ==> step.ins < |s.inserts|
    ensures var t := Apply(s, step);
            && s.writeOffset <= |s.file| && t.writeOffset <= |t.file|
            && t.file[..t.writeOffset] ==
                 s.file[..s.writeOffset] + (if step.FinishAppend? then OpLine(s.inserts[step.ins]) else [])
  {
    hide Line;
    var t := Apply(s, step);
    StepExtends(s, step);
    if step.FinishAppend? {
      var line := OpLine(s.inserts[step.ins]);
      assert AppendOk(s, step.ins, s.inserts[step.ins]);
      assert line[..|line|] == line;
      assert t.file[..t.writeOffset] == s.file[..s.writeOffset] + s.file[s.writeOffset..s.writeOffset + |line|];
    } else {
      assert t.writeOffset == s.writeOffset;
      assert s.file[..s.writeOffset] + [] == s.file[..s.writeOffset];
    }
  }

  lemma LogInRange(s: State)
    requires Inv(s)
    ensures s.writeOffset <= |s.file|
  {
  }

  lemma {:induction false} LogOfRun(s: State, steps: seq<Step>, args: seq<Put>)
    requires Inv(s) && CanRun(s, steps) && args == Puts(s.inserts) + Inserted(steps)
    ensures s.writeOffset <= |s.file| && RunFrom(s, steps).writeOffset <= |RunFrom(s, steps).file|
    ensures RunFrom(s, steps).file[..RunFrom(s, steps).writeOffset] ==
            s.file[..s.writeOffset] + Lines(Logged(steps, args))
    decreases |steps|
  {
    hide Line, Apply, Enabled, Puts, Inserted, Inv;
    if steps == [] {
      LogInRange(s);
      assert s.file[..s.writeOffset] + [] == s.file[..s.writeOffset];
    } else {
      SameArguments(s, steps, args);
      StepKeepsInv(s, steps[0]);
      StepLogs(s, steps[0]);
      LogOfRun(Apply(s, steps[0]), steps[1..], args);
      var rest := Logged(steps[1..], args);
      if steps[0].FinishAppend? {
        ArgumentOfCall(s, steps[0].ins, steps, args);
        var put := args[steps[0].ins];
        assert ([put] + rest)[1..] == rest;
        assert s.file[..s.writeOffset] + (Line(put.id, put.text) + Lines(rest)) ==
               s.file[..s.writeOffset] + Line(put.id, put.text) + Lines(rest);
      } else {
        assert [] + rest == rest;
      }
    }
  }

  /** Below writeOffset the file is a log: the lines of the completed appends, end to end, in
      the order they took the write lock, with nothing left of the failed ones. */
  lemma FileIsLog(steps: seq<Step>)
    requires CanRun(INIT, steps)
    ensures var s := RunFrom(INIT, steps);
            s.writeOffset <= |s.file| && s.file[..s.writeOffset] == Lines(Logged(steps, Inserted(steps)))
  {
    hide Line, Apply, Enabled, Inserted, Logged, Lines;
    InitInv();
    assert Puts(INIT.inserts) + Inserted(steps) == Inserted(steps);
    assert INIT.file[..INIT.writeOffset] + Lines(Logged(steps, Inserted(steps))) == Lines(Logged(steps, Inserted(steps)));
    LogOfRun(INIT, steps, Inserted(steps));
  }

  // ----- who finds the index closed -----

  /** Whether `step` is taken after some Close has been through its locked part. */
  predicate AfterClosing(steps: seq<Step>, step: Step, closed: bool) {
    steps != [] && ((steps[0] == step && closed) || AfterClosing(steps[1..], step, closed || steps[0].CloseSection?))
  }

  /** The index is closed exactly from the first locked part of a Close on. */
  lemma {:induction false} ClosedByClose(s: State, steps: seq<Step>)
    requires CanRun(s, steps)
    ensures RunFrom(s, steps).closed <==> s.closed || exists c :: CloseSection(c) in steps
    decreases |steps|
  {
    if steps != [] {
      ClosedByClose(Apply(s, steps[0]), steps[1..]);
      assert steps == [steps[0]] + steps[1..];
    }
  }

  lemma {:induction false} RefusalOfRun(s: State, steps: seq<Step>, i: nat)
    requires CanRun(s, steps)
    ensures ChosenIn(s, steps, i, 1) <==> AfterClosing(steps, Step.InsertEnter(i), s.closed)
    decreases |steps|
  {
    if steps != [] {
      RefusalOfRun(Apply(s, steps[0]), steps[1..], i);
      assert Apply(s, steps[0]).closed <==> s.closed || steps[0].CloseSection?;
    }
  }

  /** The return value of an Insert that is over, read off the run: 0 exactly when its record was
      published, 2 exactly when its write failed, 1 exactly when it entered after some Close had
      been through its locked part; there is no other value. */
  lemma ReturnCodes(steps: seq<Step>, i: nat)
    requires CanRun(INIT, steps)
    requires i < |RunFrom(INIT, steps).inserts| && RunFrom(INIT, steps).inserts[i].stage.InsertDone?
    ensures var code := RunFrom(INIT, steps).inserts[i].stage.code;
            && (code == 0 <==> Publish(i) in steps)
            && (code == 1 <==> AfterClosing(steps, Step.InsertEnter(i), false))
            && (code == 2 <==> WriteFails(i) in steps)
            && (code == 0 || code == 1 || code == 2)
  {
    RunChooses(INIT, steps, i, 0);
    RunChooses(INIT, steps, i, 1);
    RunChooses(INIT, steps, i, 2);
    RunChooses(INIT, steps, i, RunFrom(INIT, steps).inserts[i].stage.code);
    RefusalOfRun(INIT, steps, i);
  }

  /** How far a query is, given whether it took its snapshot and whether it was refused. */
  predicate QueryAt(s: State, q: nat, took: bool, refused: bool) {
    if q >= |s.queries| then !took && !refused
    else
      match s.queries[q].stage
      case QueryCalled => !took && !refused
      case QueryEntered => !took && !refused
      case QueryLeaving => took && !refused
      case QueryDone => took != refused
  }

  lemma StepMovesQuery(s: State, step: Step, q: nat, took: bool, refused: bool)
    requires Enabled(s, step) && QueryAt(s, q, took, refused)
    ensures QueryAt(Apply(s, step), q, took || step == Snapshot(q), refused || (step == Step.QueryEnter(q) && s.closed))
    ensures Apply(s, step).closed <==> s.closed || step.CloseSection?
  {
  }

  lemma {:induction false} RunMovesQuery(s: State, steps: seq<Step>, q: nat, took: bool, refused: bool)
    requires CanRun(s, steps) && QueryAt(s, q, took, refused)
    ensures QueryAt(RunFrom(s, steps), q, took || Snapshot(q) in steps,
                    refused || AfterClosing(steps, Step.QueryEnter(q), s.closed))
    decreases |steps|
  {
    if steps != [] {
      var step := steps[0];
      StepMovesQuery(s, step, q, took, refused);
      RunMovesQuery(Apply(s, step), steps[1..], q, took || step == Snapshot(q),
                    refused || (step == Step.QueryEnter(q) && s.closed));
      assert steps == [step] + steps[1..];
    }
  }

  /** A query that is over took a snapshot, unless - and only if - it entered after some Close
      had been through its locked part. */
  lemma QueriesTakeSnapshots(steps: seq<Step>, q: nat)
    requires CanRun(INIT, steps) && Usable(RunFrom(INIT, steps), q)
    ensures Snapshot(q) in steps <==> !AfterClosing(steps, Step.QueryEnter(q), false)
  {
    RunMovesQuery(INIT, steps, q, false, false);
  }

  // ----- iterators -----

  predicate ClosedIterator(s: State, q: nat) {
    q < |s.queries| && s.queries[q].iter.closed
  }

  lemma PreadClosesNothing(iter: Iter, file: Text, n: nat)
    requires iter.reading.ReadingAt? && MayPread(file, iter.reading.pos, n)
    ensures AfterPread(iter, file, n).closed == iter.closed
  {
  }

  /** No iterator is closed before its query took a snapshot. */
  lemma NotClosedBeforeSnapshot(s: State, q: nat)
    requires Inv(s) && Enabled(s, Snapshot(q))
    ensures !s.queries[q].iter.closed
  {
    assert IterOk(s, s.queries[q]);
  }

  lemma StepClosesIterator(s: State, step: Step, q: nat)
    requires Inv(s) && Enabled(s, step)
    ensures ClosedIterator(Apply(s, step), q) <==> ClosedIterator(s, q) || step == CloseIterator(q)
  {
    hide Inv, AfterPread, FirstIds, OffsetsOf, Line;
    if step.Snapshot? {
      NotClosedBeforeSnapshot(s, step.query);
    } else if step.Pread? {
      PreadClosesNothing(s.queries[step.query].iter, s.file, step.count);
    }
  }

  /** An iterator is closed exactly from its Close call on. */
  lemma {:induction false} ClosedByItsClose(s: State, steps: seq<Step>, q: nat)
    requires Inv(s) && CanRun(s, steps)
    ensures ClosedIterator(RunFrom(s, steps), q) <==> ClosedIterator(s, q) || CloseIterator(q) in steps
    decreases |steps|
  {
    if steps != [] {
      StepKeepsInv(s, steps[0]);
      StepClosesIterator(s, steps[0], q);
      ClosedByItsClose(Apply(s, steps[0]), steps[1..], q);
      assert steps == [steps[0]] + steps[1..];
    }
  }

  /** A closed iterator delivers nothing more, over any later run. */
  lemma ClosedIteratorIsSilent(s: State, q: nat, rest: seq<Step>)
    requires Enabled(s, CloseIterator(q)) && CanRun(Apply(s, CloseIterator(q)), rest)
    ensures var t := RunFrom(Apply(s, CloseIterator(q)), rest);
            Usable(t, q) && !HasNext(t.queries[q].iter) && t.queries[q].iter.results == s.queries[q].iter.results
  {
    FinishedIteratorStays(Apply(s, CloseIterator(q)), rest, q);
  }

  lemma ExpectedSize(s: State, q: nat)
    requires q < |s.queries| && IterOk(s, s.queries[q])
    ensures var op := s.queries[q];
            && |op.iter.fileOffsets| == |Expected(op.iter.view, op.minId, op.limit)|
            && |op.iter.results| == op.iter.cursor - (if op.iter.reading.ReadingAt? then 1 else 0)
  {
  }

  /** HasNext answers what it should: an iterator between two Next calls has a next record
      exactly when it was not closed and fewer Next calls have finished than the query has
      entries to deliver; and exactly then can Next start. */
  lemma HasNextIsRight(steps: seq<Step>, q: nat)
    requires CanRun(INIT, steps) && Usable(RunFrom(INIT, steps), q)
    requires RunFrom(INIT, steps).queries[q].iter.reading == NotReading
    ensures var s := RunFrom(INIT, steps);
            var op := s.queries[q];
            && (HasNext(op.iter) <==>
                  CloseIterator(q) !in steps &&
                  |op.iter.results| < |FirstIds(op.iter.view.Keys, op.minId, op.limit)|)
            && (Enabled(s, StartNext(q)) <==> HasNext(op.iter))
  {
    InitInv();
    RunKeepsInv(INIT, steps);
    ClosedByItsClose(INIT, steps, q);
    assert IterOk(RunFrom(INIT, steps), RunFrom(INIT, steps).queries[q]);
    ExpectedSize(RunFrom(INIT, steps), q);
  }

  /** A reader can always go on: some pread of its next bytes is possible. */
  lemma ReaderCanGoOn(s: State, q: nat) returns (n: nat)
    requires Usable(s, q) && s.queries[q].iter.reading.ReadingAt?
    ensures Enabled(s, Pread(q, n))
  {
    n := if s.queries[q].iter.reading.pos < |s.file| then 1 else 0;
  }

  /** No Next call on the iterator of `q` can start or go on. */
  ghost predicate NextIsStuck(s: State, q: nat) {
    Usable(s, q) && !Enabled(s, StartNext(q)) && forall n: nat :: !Enabled(s, Pread(q, n))
  }

  lemma StuckMeansDrained(s: State, q: nat)
    requires Inv(s) && NextIsStuck(s, q) && !s.queries[q].iter.closed
    ensures Drained(s.queries[q].iter)
  {
    if s.queries[q].iter.reading.ReadingAt? {
      var n := ReaderCanGoOn(s, q);
    }
    assert IterOk(s, s.queries[q]);
    ExpectedSize(s, q);
  }

  /** An iterator that was not closed and with which no Next call can start or go on has been
      drained: as many Next calls have finished as the query has entries to deliver. */
  lemma StuckIteratorIsDrained(steps: seq<Step>, q: nat)
    requires CanRun(INIT, steps) && NextIsStuck(RunFrom(INIT, steps), q) && CloseIterator(q) !in steps
    ensures var op := RunFrom(INIT, steps).queries[q];
            Drained(op.iter) && |op.iter.results| == |FirstIds(op.iter.view.Keys, op.minId, op.limit)|
  {
    InitInv();
    RunKeepsInv(INIT, steps);
    ClosedByItsClose(INIT, steps, q);
    StuckMeansDrained(RunFrom(INIT, steps), q);
    assert IterOk(RunFrom(INIT, steps), RunFrom(INIT, steps).queries[q]);
    ExpectedSize(RunFrom(INIT, steps), q);
  }

  /** The same from the snapshot on. */
  lemma StuckAfterSnapshot(s: State, q: nat, rest: seq<Step>)
    requires Reachable(s) && Enabled(s, Snapshot(q)) && CanRun(Apply(s, Snapshot(q)), rest)
    requires CloseIterator(q) !in rest && NextIsStuck(RunFrom(Apply(s, Snapshot(q)), rest), q)
    ensures Drained(RunFrom(Apply(s, Snapshot(q)), rest).queries[q].iter)
  {
    ReachableInv(s);
    StepKeepsInv(s, Snapshot(q));
    RunKeepsInv(Apply(s, Snapshot(q)), rest);
    ClosedByItsClose(Apply(s, Snapshot(q)), rest, q);
    StuckMeansDrained(RunFrom(Apply(s, Snapshot(q)), rest), q);
  }

  /** The whole promise of a query, read off the run. Let query `q` take its snapshot after
      `before` and let anything happen in `rest`. Then there is one list of ids, the first
      `limit` ids above minId, in increasing order, of the contents published in `before`, where
      minId and limit are the arguments of that Query call. The k-th finished Next delivers the
      k-th of them with the text last published for it in `before`, cut at its first newline,
      unless its own pread failed. If the iterator was not closed and no Next call can start or
      go on, all of them have been tried. */
  lemma {:induction false} RunsAreLinearizable(before: seq<Step>, q: nat, rest: seq<Step>) returns (ids: seq<Id>)
    requires CanRun(INIT, before) && Enabled(RunFrom(INIT, before), Snapshot(q))
    requires CanRun(Apply(RunFrom(INIT, before), Snapshot(q)), rest)
    ensures q < |Queried(before)|
    ensures var contents := PutAll(map[], Published(before, Inserted(before)));
            var Ask(minId, limit) := Queried(before)[q];
            var s := Apply(RunFrom(INIT, before), Snapshot(q));
            var t := RunFrom(s, rest);
            && IsFirst(contents.Keys, minId, limit, ids)
            && q < |t.queries| && |t.queries[q].iter.results| <= |ids|
            && (forall k :: 0 <= k < |t.queries[q].iter.results| ==>
                  t.queries[q].iter.results[k] ==
                    if k in FailedNexts(s, rest, q) then IoError
                    else Delivered(Record(ids[k], UpToNewline(contents[ids[k]]))))
            && (CloseIterator(q) !in rest && NextIsStuck(t, q) ==> |t.queries[q].iter.results| == |ids|)
  {
    hide Apply, IterOk, NextIsStuck, PutAll, Published, FailedNexts;
    var s := RunFrom(INIT, before);
    var t := RunFrom(Apply(s, Snapshot(q)), rest);
    CallsKeepTheirArguments(before);
    ContentsFollowPublishOrder(before);
    IteratorsAreSnapshots(s, q, rest);
    var op := s.queries[q];
    ids := FirstIds(s.contents.Keys, op.minId, op.limit);
    FirstIdsAreFirst(s.contents.Keys, op.minId, op.limit);
    if CloseIterator(q) !in rest && NextIsStuck(t, q) {
      StuckAfterSnapshot(s, q, rest);
    }
  }

  // ----- nothing is left hanging -----

  /** The steps that the program owes its callers: all but new calls, a caller's closing of an
      iterator, device failures and spurious wake-ups. */
  predicate Owed(step: Step) {
    !step.CallInsert? && !step.CallQuery? && !step.CallClose? && !step.CloseIterator?
    && !step.WriteFails? && !step.PreadFails? && !step.CloserSpurious?
  }

  ghost predicate Stuck(s: State) {
    forall step :: Owed(step) ==> !Enabled(s, step)
  }

  lemma StuckInserts(s: State, i: nat)
    requires Inv(s) && Stuck(s) && s.inFlight == 0 && i < |s.inserts|
    ensures s.inserts[i].stage.InsertDone?
  {
    NobodyInFlight(s);
    assert InsertHeld(s.inserts[i]) == 0;
    assert !Enabled(s, Step.InsertEnter(i));
  }

  lemma StuckQueries(s: State, q: nat)
    requires Inv(s) && Stuck(s) && s.inFlight == 0 && q < |s.queries|
    ensures Usable(s, q) && (s.queries[q].iter.closed || Drained(s.queries[q].iter))
  {
    NobodyInFlight(s);
    assert QueryHeld(s.queries[q]) == 0;
    assert !Enabled(s, Step.QueryEnter(q));
    assert !Enabled(s, StartNext(q));
    assert forall n :: !Enabled(s, Pread(q, n));
    if !s.queries[q].iter.closed {
      StuckMeansDrained(s, q);
    }
  }

  /** When no step is owed any more, every Insert and Query is over, every iterator that was not
      closed is drained, nothing is in flight and every Close has returned. */
  lemma StuckMeansOver(s: State)
    requires Reachable(s) && Stuck(s)
    ensures s.inFlight == 0
    ensures forall i :: 0 <= i < |s.inserts| ==> s.inserts[i].stage.InsertDone?
    ensures forall q :: 0 <= q < |s.queries| ==> Usable(s, q) && (s.queries[q].iter.closed || Drained(s.queries[q].iter))
    ensures forall c :: 0 <= c < |s.closers| ==> s.closers[c] == CloseReturned
  {
    ReachableInv(s);
    if s.inFlight > 0 {
      var step := SomeoneCanDrain(s);
    }
    forall i | 0 <= i < |s.inserts| ensures s.inserts[i].stage.InsertDone? {
      StuckInserts(s, i);
    }
    forall q | 0 <= q < |s.queries| ensures Usable(s, q) && (s.queries[q].iter.closed || Drained(s.queries[q].iter)) {
      StuckQueries(s, q);
    }
    forall c | 0 <= c < |s.closers| ensures s.closers[c] == CloseReturned {
      assert !Enabled(s, CloseSection(c));
    }
  }
}
