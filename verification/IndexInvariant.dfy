/** What every step of the index keeps. */
module IndexInvariant {
  import opened Common
  import opened RecordCodec
  import opened IndexSpec

  // ----- records that stay -----

  /** A complete record of `id` and `text` starts at `offset`, below writeOffset. */
  ghost predicate Stored(s: State, offset: nat, id: Id, text: Text) {
    && offset + |Line(id, text)| <= s.writeOffset <= |s.file|
    && HoldsLine(s.file, offset, Line(id, text))
  }

  /** `t` has at least the bytes `s` had below its writeOffset. */
  ghost predicate Extends(s: State, t: State) {
    && s.writeOffset <= t.writeOffset <= |t.file|
    && s.writeOffset <= |s.file|
    && t.file[..s.writeOffset] == s.file[..s.writeOffset]
  }

  lemma SliceStays(s: State, t: State, lo: nat, hi: nat)
    requires Extends(s, t) && lo <= hi <= s.writeOffset
    ensures t.file[lo..hi] == s.file[lo..hi]
  {
    SliceOfPrefix(t.file, s.writeOffset, lo, hi);
    SliceOfPrefix(s.file, s.writeOffset, lo, hi);
  }

  lemma StoredStays(s: State, t: State, offset: nat, id: Id, text: Text)
    requires Stored(s, offset, id, text) && Extends(s, t)
    ensures Stored(t, offset, id, text)
  {
    SliceStays(s, t, offset, offset + |Line(id, text)|);
  }

  /** A stored record reads back as its id and its text up to the first newline. */
  lemma {:induction false} StoredReadsBack(s: State, offset: nat, id: Id, text: Text)
    requires Stored(s, offset, id, text)
    ensures ReadAt(s.file, offset) == Delivered(Record(id, UpToNewline(text)))
    ensures ReadAt(s.file, offset) == Delivered(Record(id, text)) <==> NEWLINE !in text
  {
    LineReadsBack(s.file, offset, id, text);
  }

  // ----- the invariant -----

  /** Exactly the holder of writeMu is writing, at writeOffset; what it wrote so far is the
      front of its line. A line whose offset is known but not yet published is complete. */
  ghost predicate Appends(s: State) {
    && s.writeOffset <= |s.file|
    && (forall i :: 0 <= i < |s.inserts| ==> AppendOk(s, i, s.inserts[i]))
  }

  ghost predicate AppendOk(s: State, i: nat, op: InsertOp) {
    && (op.stage.Writing? <==> s.writer == Some(i))
    && (op.stage.Writing? ==>
          var written := op.stage.written;
          && op.stage.offset == s.writeOffset
          && written <= |OpLine(op)|
          && s.writeOffset + written <= |s.file|
          && s.file[s.writeOffset..s.writeOffset + written] == OpLine(op)[..written])
    && (op.stage.Appended? ==> Stored(s, op.stage.offset, op.id, op.text))
  }

  ghost predicate WriterInRange(s: State) {
    s.writer.Some? ==> s.writer.value < |s.inserts|
  }

  /** The index map has an offset for exactly the ids of the abstract contents, and each is
      the start of a complete record of that id and its text. */
  ghost predicate Mapped(s: State) {
    && s.indexMap.Keys == s.contents.Keys
    && forall id :: id in s.indexMap ==> Stored(s, s.indexMap[id], id, s.contents[id])
  }

  /** What draining the iterator of `op` has to deliver. */
  ghost function Expected(view: map<Id, Text>, minId: Id, limit: int): (r: seq<Record>) {
    var ids := FirstIds(view.Keys, minId, limit);
    seq(|ids|, k requires 0 <= k < |ids| => Record(ids[k], UpToNewline(view[ids[k]])))
  }

  ghost predicate OffsetsOk(s: State, op: QueryOp) {
    var ids := FirstIds(op.iter.view.Keys, op.minId, op.limit);
    && |op.iter.fileOffsets| == |ids|
    && forall k :: 0 <= k < |ids| ==> Stored(s, op.iter.fileOffsets[k], ids[k], op.iter.view[ids[k]])
  }

  ghost predicate ResultsOk(op: QueryOp) {
    var expected := Expected(op.iter.view, op.minId, op.limit);
    && op.iter.cursor <= |expected|
    && |op.iter.results| == op.iter.cursor - (if op.iter.reading.ReadingAt? then 1 else 0)
    && forall k :: 0 <= k < |op.iter.results| ==>
         op.iter.results[k] == IoError || op.iter.results[k] == Delivered(expected[k])
  }

  /** The bytes read so far are the file's, without a newline yet. */
  ghost predicate ReadingOk(s: State, op: QueryOp) {
    op.iter.reading.ReadingAt? ==>
      var ReadingAt(offset, pos, buf) := op.iter.reading;
      && 1 <= op.iter.cursor <= |op.iter.fileOffsets|
      && offset == op.iter.fileOffsets[op.iter.cursor - 1]
      && offset <= pos < s.writeOffset <= |s.file|
      && buf == s.file[offset..pos]
      && NEWLINE !in buf
  }

  ghost predicate IterOk(s: State, op: QueryOp) {
    && OffsetsOk(s, op)
    && ResultsOk(op)
    && ReadingOk(s, op)
    && (op.stage == QueryCalled || op.stage == QueryEntered ==> op.iter == EMPTY_ITER)
  }

  ghost predicate Iterators(s: State) {
    forall q :: 0 <= q < |s.queries| ==> IterOk(s, s.queries[q])
  }

  function InsertHeld(op: InsertOp): nat {
    if op.stage.InsertCalled? || op.stage.InsertDone? then 0 else 1
  }

  function QueryHeld(op: QueryOp): nat {
    if op.stage == QueryCalled || op.stage == QueryDone then 0 else 1
  }

  /** `inFlight` is the number of operations between enter() and leave(). */
  ghost predicate Counted(s: State) {
    s.inFlight == Total(s.inserts, InsertHeld) + Total(s.queries, QueryHeld)
  }

  /** A closer sleeps only while an operation is in flight, and returns only when none is. */
  ghost predicate Closers(s: State) {
    forall c :: 0 <= c < |s.closers| ==>
      && (s.closers[c] != CloseCalled ==> s.closed)
      && (s.closers[c] == CloseAsleep ==> s.inFlight > 0)
      && (s.closers[c] == CloseReturned ==> s.inFlight == 0)
  }

  ghost predicate Inv(s: State) {
    && Appends(s)
    && WriterInRange(s)
    && Mapped(s)
    && Iterators(s)
    && Counted(s)
    && Closers(s)
  }

  lemma InitInv()
    ensures Inv(INIT)
  {
  }

  // ----- bytes below writeOffset -----

  /** No step changes a byte below writeOffset, or moves writeOffset down. */
  lemma StepExtends(s: State, step: Step)
    requires Appends(s) && Enabled(s, step)
    ensures Extends(s, Apply(s, step))
  {
    match step {
      case WriteBytes(i, n) =>
        var op := s.inserts[i];
        assert AppendOk(s, i, op);
        var t := Apply(s, step);
        var at := op.stage.offset + op.stage.written;
        assert t.file[..at] == s.file[..at];
        assert t.file[..s.writeOffset] == t.file[..at][..s.writeOffset];
        assert s.file[..s.writeOffset] == s.file[..at][..s.writeOffset];
      case FinishAppend(i) =>
        assert AppendOk(s, i, s.inserts[i]);
      case _ =>
    }
  }

  // ----- appends -----

  lemma {:induction false} StepKeepsAppends(s: State, step: Step)
    requires Appends(s) && WriterInRange(s) && Enabled(s, step)
    ensures Appends(Apply(s, step)) && WriterInRange(Apply(s, step))
  {
    StepExtends(s, step);
    match step {
      case WriteBytes(i, n) => WriteKeepsAppends(s, i, n);
      case LockAppend(i) => LockKeepsAppends(s, i);
      case WriteFails(i) => UnlockKeepsAppends(s, step);
      case FinishAppend(i) => UnlockKeepsAppends(s, step);
      case _ => QuietKeepsAppends(s, step);
    }
  }

  predicate MovesWriter(step: Step) {
    step.LockAppend? || step.WriteBytes? || step.WriteFails? || step.FinishAppend?
  }

  lemma {:induction false} QuietKeepsAppends(s: State, step: Step)
    requires Appends(s) && WriterInRange(s) && Enabled(s, step) && !MovesWriter(step)
    ensures Appends(Apply(s, step)) && WriterInRange(Apply(s, step))
  {
    var t := Apply(s, step);
    forall i | 0 <= i < |t.inserts| ensures AppendOk(t, i, t.inserts[i]) {
      if i < |s.inserts| {
        assert AppendOk(s, i, s.inserts[i]);
        SameFileAppendOk(s, t, i, s.inserts[i]);
      }
    }
  }

  lemma SameFileAppendOk(s: State, t: State, i: nat, op: InsertOp)
    requires AppendOk(s, i, op)
    requires t.file == s.file && t.writeOffset == s.writeOffset && t.writer == s.writer
    ensures AppendOk(t, i, op)
  {
  }

  lemma LockKeepsAppends(s: State, i: nat)
    requires Appends(s) && Enabled(s, LockAppend(i))
    ensures Appends(Apply(s, LockAppend(i))) && WriterInRange(Apply(s, LockAppend(i)))
  {
    var t := Apply(s, LockAppend(i));
    assert t.file[t.writeOffset..t.writeOffset + 0] == OpLine(t.inserts[i])[..0];
    forall j | 0 <= j < |t.inserts| ensures AppendOk(t, j, t.inserts[j]) {
      assert AppendOk(s, j, s.inserts[j]);
    }
  }

  /** Bytes laid right after `sofar` extend it. */
  lemma OverlayExtends(file: Text, from: nat, at: nat, sofar: Text, bytes: Text)
    requires from <= at <= |file| && file[from..at] == sofar
    ensures Overlay(file, at, bytes)[from..at + |bytes|] == sofar + bytes
  {
    var r := Overlay(file, at, bytes);
    assert r[from..at] == r[..at][from..] == file[..at][from..];
    assert r[from..at + |bytes|] == r[from..at] + r[at..at + |bytes|];
  }

  lemma WriteKeepsAppends(s: State, i: nat, n: nat)
    requires Appends(s) && WriterInRange(s) && Enabled(s, WriteBytes(i, n))
    ensures Appends(Apply(s, WriteBytes(i, n))) && WriterInRange(Apply(s, WriteBytes(i, n)))
  {
    hide Line, Overlay;
    var step := WriteBytes(i, n);
    var t := Apply(s, step);
    var op := s.inserts[i];
    assert AppendOk(s, i, op);
    StepExtends(s, step);
    var written, line := op.stage.written, OpLine(op);
    OverlayExtends(s.file, s.writeOffset, s.writeOffset + written, line[..written], line[written..written + n]);
    assert line[..written] + line[written..written + n] == line[..written + n];
    forall j | 0 <= j < |t.inserts| ensures AppendOk(t, j, t.inserts[j]) {
      assert AppendOk(s, j, s.inserts[j]);
      if s.inserts[j].stage.Appended? {
        StoredStays(s, t, s.inserts[j].stage.offset, s.inserts[j].id, s.inserts[j].text);
      }
    }
  }

  lemma UnlockKeepsAppends(s: State, step: Step)
    requires Appends(s) && WriterInRange(s) && Enabled(s, step) && (step.WriteFails? || step.FinishAppend?)
    ensures Appends(Apply(s, step)) && WriterInRange(Apply(s, step))
  {
    var t := Apply(s, step);
    StepExtends(s, step);
    assert AppendOk(s, step.ins, s.inserts[step.ins]);
    if step.FinishAppend? {
      var op := s.inserts[step.ins];
      assert OpLine(op)[..|OpLine(op)|] == OpLine(op);
    }
    forall j | 0 <= j < |t.inserts| ensures AppendOk(t, j, t.inserts[j]) {
      assert AppendOk(s, j, s.inserts[j]);
      if s.inserts[j].stage.Appended? {
        StoredStays(s, t, s.inserts[j].stage.offset, s.inserts[j].id, s.inserts[j].text);
      }
    }
  }

  // ----- the map -----

  lemma StepKeepsMapped(s: State, step: Step)
    requires Appends(s) && Mapped(s) && Enabled(s, step)
    ensures Mapped(Apply(s, step))
  {
    var t := Apply(s, step);
    StepExtends(s, step);
    if step.Publish? {
      assert AppendOk(s, step.ins, s.inserts[step.ins]);
    }
    forall id | id in t.indexMap ensures Stored(t, t.indexMap[id], id, t.contents[id]) {
      if step.Publish? && id == s.inserts[step.ins].id {
        StoredStays(s, t, s.inserts[step.ins].stage.offset, id, s.inserts[step.ins].text);
      } else {
        StoredStays(s, t, s.indexMap[id], id, s.contents[id]);
      }
    }
  }

  // ----- iterators -----

  lemma IterStays(s: State, t: State, op: QueryOp)
    requires IterOk(s, op) && Extends(s, t)
    ensures IterOk(t, op)
  {
    var ids := FirstIds(op.iter.view.Keys, op.minId, op.limit);
    forall k | 0 <= k < |ids| ensures Stored(t, op.iter.fileOffsets[k], ids[k], op.iter.view[ids[k]]) {
      StoredStays(s, t, op.iter.fileOffsets[k], ids[k], op.iter.view[ids[k]]);
    }
    if op.iter.reading.ReadingAt? {
      SliceStays(s, t, op.iter.reading.offset, op.iter.reading.pos);
    }
  }

  lemma EmptyIterOk(s: State, minId: Id, limit: int, stage: QueryStage)
    ensures IterOk(s, QueryOp(minId, limit, stage, EMPTY_ITER))
  {
  }

  lemma SnapshotIterOk(s: State, q: nat)
    requires Mapped(s) && Enabled(s, Snapshot(q))
    ensures IterOk(s, AfterSnapshot(s, q).queries[q])
  {
    var op := s.queries[q];
    var ids := FirstIds(s.indexMap.Keys, op.minId, op.limit);
    var newOp := AfterSnapshot(s, q).queries[q];
    assert newOp.iter.fileOffsets == OffsetsOf(s.indexMap, ids);
    forall k | 0 <= k < |ids| ensures Stored(s, newOp.iter.fileOffsets[k], ids[k], s.contents[ids[k]]) {
      assert ids[k] in s.indexMap;
    }
  }

  lemma StartNextIterOk(s: State, q: nat)
    requires q < |s.queries| && IterOk(s, s.queries[q]) && Enabled(s, StartNext(q))
    ensures IterOk(s, Apply(s, StartNext(q)).queries[q])
  {
    var op := s.queries[q];
    var ids := FirstIds(op.iter.view.Keys, op.minId, op.limit);
    var k := op.iter.cursor;
    assert Stored(s, op.iter.fileOffsets[k], ids[k], op.iter.view[ids[k]]);
    var after := Apply(s, StartNext(q)).queries[q];
    assert after.iter.results == op.iter.results && after.iter.view == op.iter.view;
  }

  /** The record an iterator is reading. */
  lemma RecordBeingRead(s: State, op: QueryOp) returns (id: Id, text: Text)
    requires IterOk(s, op) && op.iter.reading.ReadingAt?
    ensures Stored(s, op.iter.reading.offset, id, text)
    ensures Expected(op.iter.view, op.minId, op.limit)[op.iter.cursor - 1] == Record(id, UpToNewline(text))
  {
    var ids := FirstIds(op.iter.view.Keys, op.minId, op.limit);
    id := ids[op.iter.cursor - 1];
    text := op.iter.view[id];
  }

  /** One pread of a reader that has the file's bytes in hand: it goes on, or ends the Next call
      with what the bytes at its offset read as - the end of the file included. */
  lemma {:induction false} PreadOutcome(iter: Iter, file: Text, n: nat)
    requires iter.reading.ReadingAt? && MayPread(file, iter.reading.pos, n)
    requires iter.reading.offset <= iter.reading.pos && (iter.reading.offset < iter.reading.pos ==> iter.reading.pos <= |file|)
    requires iter.reading.buf == Between(file, iter.reading.offset, iter.reading.pos) && NEWLINE !in iter.reading.buf
    ensures var ReadingAt(offset, pos, _) := iter.reading;
            AfterPread(iter, file, n) ==
            if n == 0 || NEWLINE in Between(file, offset, pos + n) then Finished(iter, ReadAt(file, offset))
            else iter.(reading := ReadingAt(offset, pos + n, Between(file, offset, pos + n)))
  {
    hide ReadAt, ParseLine, Between, Find;
    var ReadingAt(offset, pos, buf) := iter.reading;
    if n == 0 {
      EndDecides(file, offset, pos);
    } else {
      BetweenGrows(file, offset, pos, pos + n);
      if NEWLINE in Between(file, offset, pos + n) {
        BufferDecides(file, offset, pos + n);
      }
    }
  }

  /** One pread of any length keeps an iterator on course. If it ends the Next call, it
      delivers the record that call is after, never an error. */
  lemma {:induction false} PreadIterOk(s: State, op: QueryOp, n: nat)
    requires IterOk(s, op) && op.stage == QueryDone && op.iter.reading.ReadingAt?
    requires MayPread(s.file, op.iter.reading.pos, n)
    ensures IterOk(s, op.(iter := AfterPread(op.iter, s.file, n)))
    ensures var after := AfterPread(op.iter, s.file, n);
            after.results == op.iter.results +
            if after.reading.ReadingAt? then []
            else [Delivered(Expected(op.iter.view, op.minId, op.limit)[op.iter.cursor - 1])]
  {
    hide ReadAt, ParseLine, Line, AfterPread, Expected, FirstIds;
    var id, text := RecordBeingRead(s, op);
    var after := AfterPread(op.iter, s.file, n);
    StoredReadsBack(s, op.iter.reading.offset, id, text);
    PreadOutcome(op.iter, s.file, n);
    if NEWLINE in s.file[op.iter.reading.offset..op.iter.reading.pos + n] {
      FinishedIterOk(s, op, Delivered(Record(id, UpToNewline(text))), after);
    } else {
      ContinuedIterOk(s, op, id, text, op.iter.reading.pos + n, after);
    }
  }

  lemma ContinuedIterOk(s: State, op: QueryOp, id: Id, text: Text, end: nat, after: Iter)
    requires IterOk(s, op) && op.stage == QueryDone && op.iter.reading.ReadingAt?
    requires Stored(s, op.iter.reading.offset, id, text)
    requires op.iter.reading.pos <= end <= |s.file|
    requires var seen := s.file[op.iter.reading.offset..end];
             NEWLINE !in seen && after == op.iter.(reading := ReadingAt(op.iter.reading.offset, end, seen))
    ensures IterOk(s, op.(iter := after))
  {
    NewlineInLine(s.file, op.iter.reading.offset, end, id, text);
  }

  /** A finished Next appends a result that is an I/O error or the record it was after. */
  lemma FinishedIterOk(s: State, op: QueryOp, r: ReadResult, after: Iter)
    requires IterOk(s, op) && op.stage == QueryDone && op.iter.reading.ReadingAt?
    requires r == IoError || r == Delivered(Expected(op.iter.view, op.minId, op.limit)[op.iter.cursor - 1])
    requires after == Finished(op.iter, r)
    ensures IterOk(s, op.(iter := after))
  {
  }

  predicate OfIterator(step: Step) {
    step.Snapshot? || step.StartNext? || step.Pread? || step.PreadFails?
  }

  lemma {:induction false} ChangedIterOk(s: State, step: Step)
    requires Mapped(s) && Iterators(s) && Enabled(s, step) && OfIterator(step)
    ensures IterOk(s, Apply(s, step).queries[step.query])
  {
    assert IterOk(s, s.queries[step.query]);
    match step {
      case Snapshot(q) => SnapshotIterOk(s, q);
      case StartNext(q) => StartNextIterOk(s, q);
      case Pread(q, n) => PreadIterOk(s, s.queries[q], n);
      case PreadFails(q) => FinishedIterOk(s, s.queries[q], IoError, Finished(s.queries[q].iter, IoError));
    }
  }

  lemma {:induction false} StepKeepsIterators(s: State, step: Step)
    requires Appends(s) && Mapped(s) && Iterators(s) && Enabled(s, step)
    ensures Iterators(Apply(s, step))
  {
    var t := Apply(s, step);
    StepExtends(s, step);
    if OfIterator(step) {
      ChangedIterOk(s, step);
    } else if step.CallQuery? {
      EmptyIterOk(s, step.minId, step.limit, QueryCalled);
    }
    forall q | 0 <= q < |t.queries| ensures IterOk(t, t.queries[q]) {
      if q < |s.queries| {
        assert IterOk(s, s.queries[q]);
      }
      assert IterOk(s, t.queries[q]);
      IterStays(s, t, t.queries[q]);
    }
  }

  // ----- the lifecycle -----

  lemma InsertCount(s: State, i: nat, stage: InsertStage)
    requires i < |s.inserts|
    ensures Total(SetInsert(s, i, stage).inserts, InsertHeld) + InsertHeld(s.inserts[i]) ==
            Total(s.inserts, InsertHeld) + InsertHeld(s.inserts[i].(stage := stage))
  {
    TotalUpdate(s.inserts, InsertHeld, i, s.inserts[i].(stage := stage));
  }

  lemma QueryCount(s: State, q: nat, stage: QueryStage, iter: Iter)
    requires q < |s.queries|
    ensures Total(SetQuery(s, q, stage, iter).queries, QueryHeld) + QueryHeld(s.queries[q]) ==
            Total(s.queries, QueryHeld) + QueryHeld(s.queries[q].(stage := stage))
  {
    TotalUpdate(s.queries, QueryHeld, q, s.queries[q].(stage := stage, iter := iter));
  }

  predicate OfInsert(step: Step) {
    step.InsertEnter? || step.LockAppend? || step.WriteBytes? || step.WriteFails?
    || step.FinishAppend? || step.Publish? || step.InsertLeave?
  }

  predicate OfQuery(step: Step) {
    step.QueryEnter? || step.QueryLeave? || step.CloseIterator? || OfIterator(step)
  }

  lemma StepKeepsCounted(s: State, step: Step)
    requires Counted(s) && Enabled(s, step)
    ensures Counted(Apply(s, step))
  {
    if OfInsert(step) {
      InsertKeepsCounted(s, step);
    } else if OfQuery(step) {
      QueryKeepsCounted(s, step);
    } else if step.CallInsert? {
      TotalAppend(s.inserts, InsertHeld, InsertOp(step.id, step.text, InsertCalled));
    } else if step.CallQuery? {
      TotalAppend(s.queries, QueryHeld, QueryOp(step.minId, step.limit, QueryCalled, EMPTY_ITER));
    }
  }

  lemma InsertKeepsCounted(s: State, step: Step)
    requires Counted(s) && Enabled(s, step) && OfInsert(step)
    ensures Counted(Apply(s, step))
  {
    InsertCount(s, step.ins, Apply(s, step).inserts[step.ins].stage);
  }

  lemma QueryKeepsCounted(s: State, step: Step)
    requires Counted(s) && Enabled(s, step) && OfQuery(step)
    ensures Counted(Apply(s, step))
  {
    var op := Apply(s, step).queries[step.query];
    QueryCount(s, step.query, op.stage, op.iter);
  }

  /** Whoever leaves was counted. */
  lemma LeaverIsCounted(s: State, step: Step)
    requires Counted(s) && Enabled(s, step) && (step.InsertLeave? || step.QueryLeave?)
    ensures s.inFlight >= 1
  {
    if step.InsertLeave? {
      TotalAtLeast(s.inserts, InsertHeld, step.ins);
    } else {
      TotalAtLeast(s.queries, QueryHeld, step.query);
    }
  }

  lemma StepKeepsClosers(s: State, step: Step)
    requires Counted(s) && Closers(s) && Enabled(s, step)
    ensures Closers(Apply(s, step))
  {
    if step.InsertLeave? || step.QueryLeave? {
      LeaverIsCounted(s, step);
      assert Apply(s, step).closers == Left(s).closers;
    }
  }

  lemma {:induction false} StepKeepsInv(s: State, step: Step)
    requires Inv(s) && Enabled(s, step)
    ensures Inv(Apply(s, step))
  {
    StepKeepsAppends(s, step);
    StepKeepsMapped(s, step);
    StepKeepsIterators(s, step);
    StepKeepsCounted(s, step);
    StepKeepsClosers(s, step);
  }
}
