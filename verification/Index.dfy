/** The index as the object the source declares, with its fields updated in place. Each
    step method is one atomic step of one call and is proved to take the state machine of
    IndexSpec through the same step. */
module Index {
  import opened Common
  import opened RecordCodec
  import opened IndexSpec
  import opened IndexInvariant
  import opened IndexSafety

  lemma {:induction false} Carry(before: State, step: Step, after: State)
    requires Enabled(before, step) && after == Apply(before, step)
    ensures Inv(before) ==> Inv(after)
  {
    if Inv(before) {
      StepKeepsInv(before, step);
    }
  }

  class IndexImpl {
    // FileData
    var file: Text
    var writeOffset: nat
    var writer: Option<nat>
    // the map and the lifecycle
    var indexMap: map<Id, nat>
    var inFlight: int
    var closed: bool
    // the calls in progress or over
    var inserts: seq<InsertOp>
    var queries: seq<QueryOp>
    var closers: seq<CloseStage>
    // history, kept in each snapshot
    var contents: map<Id, Text>

    ghost function Abs(): State
      reads this
    {
      State(file, writeOffset, writer, indexMap, inFlight, closed, inserts, queries, closers, contents)
    }

    ghost predicate Valid()
      reads this
    {
      Inv(Abs())
    }

    constructor ()
      ensures Valid() && Abs() == INIT
    {
      file, writeOffset, writer := [], 0, None;
      indexMap, inFlight, closed := map[], 0, false;
      inserts, queries, closers, contents := [], [], [], map[];
      new;
      InitInv();
    }

    // ----- lifecycle -----

    /** enter(): refused once closed, else counted. */
    method Enter() returns (ok: bool)
      modifies this`inFlight
      ensures ok == !closed && inFlight == old(inFlight) + (if ok then 1 else 0)
    {
      if closed {
        return false;
      }
      inFlight := inFlight + 1;
      return true;
    }

    /** leave(): the last one out wakes every sleeping closer. */
    method Leave()
      modifies this`inFlight, this`closers
      ensures inFlight == old(inFlight) - 1
      ensures closers == if inFlight == 0 then NotifyAll(old(closers), CloseAsleep, CloseWoken) else old(closers)
    {
      inFlight := inFlight - 1;
      if inFlight == 0 {
        for c := 0 to |closers|
          invariant inFlight == 0 && |closers| == old(|closers|)
          invariant forall k :: 0 <= k < |closers| ==>
            closers[k] == if k < c && old(closers)[k] == CloseAsleep then CloseWoken else old(closers)[k]
        {
          if closers[c] == CloseAsleep {
            closers := closers[c := CloseWoken];
          }
        }
        assert closers == NotifyAll(old(closers), CloseAsleep, CloseWoken);
      }
    }

    // ----- Insert -----

    method CallInsert(id: Id, text: Text) returns (i: nat)
      modifies this
      ensures i == old(|inserts|) && inserts == old(inserts) + [InsertOp(id, text, InsertCalled)]
      ensures Abs() == Apply(old(Abs()), Step.CallInsert(id, text))
      ensures old(Valid()) ==> Valid()
    {
      ghost var before := Abs();
      i := |inserts|;
      inserts := inserts + [InsertOp(id, text, InsertCalled)];
      Carry(before, Step.CallInsert(id, text), Abs());
    }

    method MoveInsert(i: nat, stage: InsertStage)
      requires i < |inserts|
      modifies this`inserts
      ensures Abs() == SetInsert(old(Abs()), i, stage)
    {
      inserts := inserts[i := inserts[i].(stage := stage)];
    }

    method InsertEnter(i: nat)
      requires i < |inserts| && inserts[i].stage == InsertCalled
      modifies this
      ensures Abs() == Apply(old(Abs()), Step.InsertEnter(i))
      ensures old(Valid()) ==> Valid()
    {
      ghost var before := Abs();
      var ok := Enter();
      MoveInsert(i, if ok then InsertEntered else InsertDone(1));
      Carry(before, Step.InsertEnter(i), Abs());
    }

    /** Locks writeMu and learns the landing offset. */
    method LockAppend(i: nat)
      requires i < |inserts| && inserts[i].stage == InsertEntered && writer == None
      modifies this
      ensures Abs() == Apply(old(Abs()), Step.LockAppend(i))
      ensures old(Valid()) ==> Valid()
    {
      ghost var before := Abs();
      writer := Some(i);
      MoveInsert(i, Writing(writeOffset, 0));
      Carry(before, Step.LockAppend(i), Abs());
    }

    /** Lays bytes over the file one by one, growing it at the end. */
    method PutBytes(at: nat, bytes: Text)
      requires at <= |file|
      modifies this`file
      ensures file == Overlay(old(file), at, bytes)
    {
      for k := 0 to |bytes|
        invariant |file| == if at + k <= old(|file|) then old(|file|) else at + k
        invariant forall j :: 0 <= j < |file| ==>
          file[j] == if at <= j < at + k then bytes[j - at] else if j < old(|file|) then old(file)[j] else NEWLINE
      {
        if at + k < |file| {
          file := file[at + k := bytes[k]];
        } else {
          file := file + [bytes[k]];
        }
      }
    }

    /** The next `n` bytes of the line reach the file. */
    method WriteBytes(i: nat, n: nat)
      requires i < |inserts| && inserts[i].stage.Writing?
      requires inserts[i].stage.offset + inserts[i].stage.written <= |file|
      requires 1 <= n && inserts[i].stage.written + n <= |OpLine(inserts[i])|
      modifies this
      ensures Abs() == Apply(old(Abs()), Step.WriteBytes(i, n))
      ensures old(Valid()) ==> Valid()
    {
      hide Line, Overlay, Inv;
      ghost var before := Abs();
      var line := OpLine(inserts[i]);
      var Writing(offset, written) := inserts[i].stage;
      PutBytes(offset + written, line[written..written + n]);
      MoveInsert(i, Writing(offset, written + n));
      Carry(before, Step.WriteBytes(i, n), Abs());
    }

    /** pwrite reports an error or a short count; what it wrote stays in the file. */
    method WriteFails(i: nat)
      requires i < |inserts| && inserts[i].stage.Writing?
      requires inserts[i].stage.offset + inserts[i].stage.written <= |file|
      requires inserts[i].stage.written <= |OpLine(inserts[i])|
      modifies this
      ensures Abs() == Apply(old(Abs()), Step.WriteFails(i))
      ensures old(Valid()) ==> Valid()
    {
      ghost var before := Abs();
      writer := None;
      MoveInsert(i, InsertLeaving(2));
      Carry(before, Step.WriteFails(i), Abs());
    }

    method FinishAppend(i: nat)
      requires i < |inserts| && inserts[i].stage.Writing?
      requires inserts[i].stage.offset + inserts[i].stage.written <= |file|
      requires inserts[i].stage.written == |OpLine(inserts[i])|
      modifies this
      ensures Abs() == Apply(old(Abs()), Step.FinishAppend(i))
      ensures old(Valid()) ==> Valid()
    {
      ghost var before := Abs();
      writeOffset := writeOffset + |OpLine(inserts[i])|;
      writer := None;
      MoveInsert(i, Appended(inserts[i].stage.offset));
      Carry(before, Step.FinishAppend(i), Abs());
    }

    /** `indexMap[id] = offset`, under the unique lock. */
    method Publish(i: nat)
      requires i < |inserts| && inserts[i].stage.Appended?
      modifies this
      ensures Abs() == Apply(old(Abs()), Step.Publish(i))
      ensures old(Valid()) ==> Valid()
    {
      ghost var before := Abs();
      indexMap := indexMap[inserts[i].id := inserts[i].stage.offset];
      contents := contents[inserts[i].id := inserts[i].text];
      MoveInsert(i, InsertLeaving(0));
      Carry(before, Step.Publish(i), Abs());
    }

    method InsertLeave(i: nat)
      requires i < |inserts| && inserts[i].stage.InsertLeaving?
      modifies this
      ensures Abs() == Apply(old(Abs()), Step.InsertLeave(i))
      ensures old(Valid()) ==> Valid()
    {
      ghost var before := Abs();
      MoveInsert(i, InsertDone(inserts[i].stage.code));
      Leave();
      Carry(before, Step.InsertLeave(i), Abs());
    }

    // ----- Query -----

    method CallQuery(minId: Id, limit: int) returns (q: nat)
      modifies this
      ensures q == old(|queries|) && queries == old(queries) + [QueryOp(minId, limit, QueryCalled, EMPTY_ITER)]
      ensures Abs() == Apply(old(Abs()), Step.CallQuery(minId, limit))
      ensures old(Valid()) ==> Valid()
    {
      ghost var before := Abs();
      q := |queries|;
      queries := queries + [QueryOp(minId, limit, QueryCalled, EMPTY_ITER)];
      Carry(before, Step.CallQuery(minId, limit), Abs());
    }

    method MoveQuery(q: nat, stage: QueryStage, iter: Iter)
      requires q < |queries|
      modifies this`queries
      ensures Abs() == SetQuery(old(Abs()), q, stage, iter)
    {
      queries := queries[q := queries[q].(stage := stage, iter := iter)];
    }

    method QueryEnter(q: nat)
      requires q < |queries| && queries[q].stage == QueryCalled
      modifies this
      ensures Abs() == Apply(old(Abs()), Step.QueryEnter(q))
      ensures old(Valid()) ==> Valid()
    {
      ghost var before := Abs();
      var ok := Enter();
      MoveQuery(q, if ok then QueryEntered else QueryDone, queries[q].iter);
      Carry(before, Step.QueryEnter(q), Abs());
    }

    /** `indexMap.upper_bound(k)`: the least id above `k`. */
    method UpperBound(k: int) returns (next: Option<Id>)
      ensures next.None? <==> Above(indexMap.Keys, k) == {}
      ensures next.Some? ==> next.value == Least(Above(indexMap.Keys, k))
    {
      var rest := indexMap.Keys;
      next := None;
      while rest != {}
        invariant rest <= indexMap.Keys
        invariant next.Some? ==> next.value in Above(indexMap.Keys, k)
        invariant forall y :: y in Above(indexMap.Keys, k) && y !in rest ==> next.Some? && next.value <= y
      {
        var x :| x in rest;
        rest := rest - {x};
        if x > k && (next.None? || x < next.value) {
          next := Some(x);
        }
      }
    }

    /** The traversal under the shared lock: at most `limit` offsets of the ids above minId. */
    method CollectOffsets(minId: Id, limit: int) returns (fileOffsets: seq<nat>)
      ensures fileOffsets == OffsetsOf(indexMap, FirstIds(indexMap.Keys, minId, limit))
    {
      fileOffsets := [];
      ghost var seen: seq<Id> := [];
      ghost var last: int := minId;
      var count := 0;
      var it := UpperBound(minId);
      while it.Some? && count < limit
        invariant count == |seen| == |fileOffsets|
        invariant forall k :: 0 <= k < |seen| ==> seen[k] in indexMap && fileOffsets[k] == indexMap[seen[k]]
        invariant seen + FirstIds(indexMap.Keys, last, limit - count) == FirstIds(indexMap.Keys, minId, limit)
        invariant it.None? <==> Above(indexMap.Keys, last) == {}
        invariant it.Some? ==> it.value == Least(Above(indexMap.Keys, last))
        decreases limit - count
      {
        ghost var rest := FirstIds(indexMap.Keys, it.value, limit - count - 1);
        assert FirstIds(indexMap.Keys, last, limit - count) == [it.value] + rest;
        assert seen + ([it.value] + rest) == seen + [it.value] + rest;
        fileOffsets := fileOffsets + [indexMap[it.value]];
        seen, last := seen + [it.value], it.value;
        count := count + 1;
        it := UpperBound(it.value);
      }
      assert seen == FirstIds(indexMap.Keys, minId, limit);
    }

    method Snapshot(q: nat)
      requires q < |queries| && queries[q].stage == QueryEntered
      modifies this
      ensures Abs() == Apply(old(Abs()), Step.Snapshot(q))
      ensures old(Valid()) ==> Valid()
    {
      ghost var before := Abs();
      var fileOffsets := CollectOffsets(queries[q].minId, queries[q].limit);
      MoveQuery(q, QueryLeaving, EMPTY_ITER.(fileOffsets := fileOffsets, view := contents));
      Carry(before, Step.Snapshot(q), Abs());
    }

    method QueryLeave(q: nat)
      requires q < |queries| && queries[q].stage == QueryLeaving
      modifies this
      ensures Abs() == Apply(old(Abs()), Step.QueryLeave(q))
      ensures old(Valid()) ==> Valid()
    {
      ghost var before := Abs();
      MoveQuery(q, QueryDone, queries[q].iter);
      Leave();
      Carry(before, Step.QueryLeave(q), Abs());
    }

    // ----- the iterator -----

    /** HasNext: between two Next calls, whether one more record is to be delivered. */
    method HasNextRecord(q: nat) returns (more: bool)
      requires Valid() && q < |queries| && queries[q].iter.reading == NotReading
      ensures var op := queries[q];
              more <==> !op.iter.closed && |op.iter.results| < |FirstIds(op.iter.view.Keys, op.minId, op.limit)|
    {
      assert IterOk(Abs(), queries[q]);
      if queries[q].iter.closed {
        return false;
      }
      return queries[q].iter.cursor < |queries[q].iter.fileOffsets|;
    }

    /** Next takes the offset under the cursor and advances before it reads. */
    method StartNext(q: nat)
      requires q < |queries| && queries[q].stage == QueryDone && queries[q].iter.reading == NotReading
      requires !queries[q].iter.closed && queries[q].iter.cursor < |queries[q].iter.fileOffsets|
      modifies this
      ensures Abs() == Apply(old(Abs()), Step.StartNext(q))
      ensures old(Valid()) ==> Valid()
    {
      ghost var before := Abs();
      var iter := queries[q].iter;
      var offset := iter.fileOffsets[iter.cursor];
      MoveQuery(q, QueryDone, iter.(cursor := iter.cursor + 1, reading := ReadingAt(offset, offset, [])));
      Carry(before, Step.StartNext(q), Abs());
    }

    /** One turn of the read loop on the `n` bytes pread got. */
    method ReadMore(iter: Iter, n: nat) returns (after: Iter)
      requires iter.reading.ReadingAt? && MayPread(file, iter.reading.pos, n)
      ensures after == AfterPread(iter, file, n)
    {
      hide ParseLine, Find, ReadAt;
      if n == 0 {
        return Finished(iter, NoNewline);
      }
      var ReadingAt(offset, pos, buf) := iter.reading;
      buf := buf + file[pos..pos + n];
      var nl := Find(buf, NEWLINE);
      if nl < |buf| {
        after := Finished(iter, ParseLine(buf[..nl]));
      } else {
        after := iter.(reading := ReadingAt(offset, pos + n, buf));
      }
    }

    /** One turn of the read loop of iterator `q`, with no lock held. */
    method Pread(q: nat, n: nat)
      requires q < |queries| && queries[q].stage == QueryDone && queries[q].iter.reading.ReadingAt?
      requires MayPread(file, queries[q].iter.reading.pos, n)
      modifies this
      ensures Abs() == Apply(old(Abs()), Step.Pread(q, n))
      ensures old(Valid()) ==> Valid()
    {
      ghost var before := Abs();
      var after := ReadMore(queries[q].iter, n);
      MoveQuery(q, QueryDone, after);
      Carry(before, Step.Pread(q, n), Abs());
    }

    method PreadFails(q: nat)
      requires q < |queries| && queries[q].stage == QueryDone && queries[q].iter.reading.ReadingAt?
      modifies this
      ensures Abs() == Apply(old(Abs()), Step.PreadFails(q))
      ensures old(Valid()) ==> Valid()
    {
      ghost var before := Abs();
      MoveQuery(q, QueryDone, Finished(queries[q].iter, IoError));
      Carry(before, Step.PreadFails(q), Abs());
    }

    method CloseIterator(q: nat)
      requires q < |queries| && queries[q].stage == QueryDone && queries[q].iter.reading == NotReading
      modifies this
      ensures Abs() == Apply(old(Abs()), Step.CloseIterator(q))
      ensures old(Valid()) ==> Valid()
    {
      ghost var before := Abs();
      MoveQuery(q, QueryDone, queries[q].iter.(closed := true));
      Carry(before, Step.CloseIterator(q), Abs());
    }

    /** What pread may return for a chunk at `pos`; -1 only on a faulty device. */
    static method PreadCount(file: Text, pos: nat, healthy: bool) returns (n: int)
      ensures n == -1 || (n >= 0 && MayPread(file, pos, n))
      ensures n == 0 ==> |file| <= pos
      ensures n > 0 ==> pos + n <= |file|
      ensures healthy ==> n >= 0
    {
      if !healthy {
        if * {
          return -1;
        }
      }
      if pos >= |file| {
        return 0;
      }
      var most := if |file| - pos < CHUNK then |file| - pos else CHUNK;
      n :| 1 <= n <= most;
    }

    /** readRecordAt on any bytes, with nobody appending meanwhile: however pread splits them,
        the result is what the bytes from `offset` on read as. */
    method ReadRecordAt(offset: nat, healthy: bool) returns (r: ReadResult)
      ensures r == ReadAt(file, offset) || (r == IoError && !healthy)
    {
      hide *;
      var buf: Text := [];
      var pos := offset;
      var nl := 0;
      BetweenNothing(file, offset);
      while true
        invariant offset <= pos && (pos > offset ==> pos <= |file|)
        invariant buf == Between(file, offset, pos)
        invariant NEWLINE !in buf
        decreases |file| - pos
      {
        var n := PreadCount(file, pos, healthy);
        if n < 0 {
          return IoError;
        }
        if n == 0 {
          EndDecides(file, offset, pos);
          return NoNewline;
        }
        BetweenGrows(file, offset, pos, pos + n);
        buf := buf + file[pos..pos + n];
        nl := Find(buf, NEWLINE);
        if nl < |buf| {
          BufferDecides(file, offset, pos + n);
          break;
        }
        pos := pos + n;
      }
      r := ParseLine(buf[..nl]);
    }

    /** readRecordAt on a stored record while others append: `files(i)` is the file as the i-th
        pread finds it. Whatever changes around the record, and however pread splits the bytes,
        the loop ends and the record is delivered, unless the device is faulty. */
    static method ReadStoredRecord(files: nat -> Text, offset: nat, healthy: bool, ghost id: Id, ghost text: Text)
      returns (r: ReadResult)
      requires forall i :: HoldsLine(files(i), offset, Line(id, text))
      ensures r == Delivered(Record(id, UpToNewline(text))) || (r == IoError && !healthy)
    {
      hide ReadAt, ParseLine, Find, Line, Between, UpToNewline;
      ghost var line := Line(id, text);
      LineNotEmpty(id, text);
      var buf: Text := [];
      var pos, turn := offset, 0;
      var nl := 0;
      while true
        invariant offset <= pos < offset + |line|
        invariant buf == line[..pos - offset]
        invariant NEWLINE !in buf
        decreases offset + |line| - pos
      {
        var file := files(turn);
        assert HoldsLine(file, offset, line);
        var n := PreadCount(file, pos, healthy);
        if n < 0 {
          return IoError;
        }
        // the end of the file is not met: pos lies inside the line
        LineGrows(file, offset, pos, pos + n, line);
        buf := buf + file[pos..pos + n];
        nl := Find(buf, NEWLINE);
        if nl < |buf| {
          LineReadsBack(file, offset, id, text);
          BufferDecides(file, offset, pos + n);
          break;
        }
        NewlineInLine(file, offset, pos + n, id, text);
        pos, turn := pos + n, turn + 1;
      }
      r := ParseLine(buf[..nl]);
    }

    /** A record in the map reads back as its id and its text up to the first newline, hence as
        it was inserted if and only if the text holds no newline. */
    method ReadPublished(id: Id) returns (r: ReadResult)
      requires Valid() && id in indexMap
      ensures id in contents && r == Delivered(Record(id, UpToNewline(contents[id])))
      ensures r == Delivered(Record(id, contents[id])) <==> NEWLINE !in contents[id]
    {
      CutIsWhole(contents[id]);
      StoredReadsBack(Abs(), indexMap[id], id, contents[id]);
      r := ReadRecordAt(indexMap[id], true);
    }

    // ----- Close -----

    method CallClose() returns (c: nat)
      modifies this
      ensures c == old(|closers|) && Abs() == Apply(old(Abs()), Step.CallClose)
      ensures old(Valid()) ==> Valid()
    {
      ghost var before := Abs();
      c := |closers|;
      closers := closers + [CloseCalled];
      Carry(before, Step.CallClose, Abs());
    }

    /** The locked part of Close: sets the flag and tests whether all operations have left. */
    method CloseSection(c: nat)
      requires c < |closers| && (closers[c] == CloseCalled || closers[c] == CloseWoken)
      modifies this
      ensures Abs() == Apply(old(Abs()), Step.CloseSection(c))
      ensures old(Valid()) ==> Valid()
    {
      ghost var before := Abs();
      closed := true;
      closers := closers[c := if inFlight == 0 then CloseReturned else CloseAsleep];
      Carry(before, Step.CloseSection(c), Abs());
    }

    method WakeCloserSpuriously(c: nat)
      requires c < |closers| && closers[c] == CloseAsleep
      modifies this
      ensures Abs() == Apply(old(Abs()), CloserSpurious(c))
      ensures old(Valid()) ==> Valid()
    {
      ghost var before := Abs();
      closers := closers[c := CloseWoken];
      Carry(before, CloserSpurious(c), Abs());
    }
  }
}
