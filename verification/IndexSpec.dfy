/** The append-only index with snapshot iterators as a state machine. One step is one
    critical section, one piece of a pwrite, one pread, or one spurious wake-up; each
    step names the call that takes it, so a run is any interleaving of inserts, queries,
    iterator reads and Close calls. */
module IndexSpec {
  import opened Common
  import opened RecordCodec

  /** A uint64_t. */
  type Id = x: nat | x < TWO_64

  const CHUNK: nat := 256

  datatype InsertStage =
    | InsertCalled
    | InsertEntered                            // counted in inFlight
    | Writing(offset: nat, written: nat)       // holds writeMu, part of the line is in the file
    | Appended(offset: nat)                    // writeOffset advanced, writeMu released
    | InsertLeaving(code: int)                 // return value chosen, leave() pending
    | InsertDone(code: int)

  datatype InsertOp = InsertOp(id: Id, text: Text, stage: InsertStage)

  datatype Reading = NotReading | ReadingAt(offset: nat, pos: nat, buf: Text)

  /** `view` and `results` are history: the index contents when the snapshot was taken, and
      what each finished Next came to. */
  datatype Iter = Iter(
    fileOffsets: seq<nat>,
    cursor: nat,
    closed: bool,
    reading: Reading,
    view: map<Id, Text>,
    results: seq<ReadResult>)

  const EMPTY_ITER := Iter([], 0, false, NotReading, map[], [])

  datatype QueryStage = QueryCalled | QueryEntered | QueryLeaving | QueryDone

  datatype QueryOp = QueryOp(minId: Id, limit: int, stage: QueryStage, iter: Iter)

  datatype CloseStage = CloseCalled | CloseAsleep | CloseWoken | CloseReturned

  /** `contents` is history: the abstract map from id to text, updated when a record is
      published in the index map. */
  datatype State = State(
    file: Text,
    writeOffset: nat,
    writer: Option<nat>,
    indexMap: map<Id, nat>,
    inFlight: int,
    closed: bool,
    inserts: seq<InsertOp>,
    queries: seq<QueryOp>,
    closers: seq<CloseStage>,
    contents: map<Id, Text>)

  datatype Step =
    | CallInsert(id: Id, text: Text)
    | InsertEnter(ins: nat)
    | LockAppend(ins: nat)
    | WriteBytes(ins: nat, count: nat)
    | WriteFails(ins: nat)
    | FinishAppend(ins: nat)
    | Publish(ins: nat)
    | InsertLeave(ins: nat)
    | CallQuery(minId: Id, limit: int)
    | QueryEnter(query: nat)
    | Snapshot(query: nat)
    | QueryLeave(query: nat)
    | StartNext(query: nat)
    | Pread(query: nat, count: nat)
    | PreadFails(query: nat)
    | CloseIterator(query: nat)
    | CallClose
    | CloseSection(closer: nat)
    | CloserSpurious(closer: nat)

  const INIT := State([], 0, None, map[], 0, false, [], [], [], map[])

  // ----- ordered traversal of the index map -----

  ghost function Above(ids: set<Id>, k: int): set<Id> {
    set x | x in ids && x > k
  }

  lemma {:induction false} LeastExists(ids: set<Id>) returns (z: Id)
    requires ids != {}
    ensures z in ids && forall y :: y in ids ==> z <= y
    decreases |ids|
  {
    var x :| x in ids;
    z := x;
    if y :| y in ids && y < x {
      z := LeastExists(ids - {x});
      assert y in ids - {x};
      forall w | w in ids ensures z <= w {
        assert w == x || w in ids - {x};
      }
    }
  }

  lemma HasLeast(ids: set<Id>)
    requires ids != {}
    ensures exists x :: x in ids && forall y :: y in ids ==> x <= y
  {
    var z := LeastExists(ids);
  }

  ghost function Least(ids: set<Id>): (x: Id)
    requires ids != {}
    ensures x in ids && forall y :: y in ids ==> x <= y
  {
    HasLeast(ids);
    var x :| x in ids && forall y :: y in ids ==> x <= y;
    x
  }

  /** The ids that iteration from `upper_bound(k)` visits while fewer than `limit` are seen. */
  ghost function FirstIds(ids: set<Id>, k: int, limit: int): (r: seq<Id>)
    ensures forall i :: 0 <= i < |r| ==> r[i] in ids && r[i] > k
    decreases |Above(ids, k)|
  {
    if limit <= 0 || Above(ids, k) == {} then []
    else
      var x := Least(Above(ids, k));
      assert Above(ids, x) < Above(ids, k) by {
        assert x in Above(ids, k) && x !in Above(ids, x);
      }
      SmallerSet(Above(ids, x), Above(ids, k));
      [x] + FirstIds(ids, x, limit - 1)
  }

  lemma SmallerSet(a: set<Id>, b: set<Id>)
    requires a < b
    ensures |a| < |b|
  {
    assert b == a + (b - a);
    assert b - a != {};
  }

  ghost function OffsetsOf(indexMap: map<Id, nat>, ids: seq<Id>): (r: seq<nat>)
    requires forall i :: 0 <= i < |ids| ==> ids[i] in indexMap
  {
    seq(|ids|, i requires 0 <= i < |ids| => indexMap[ids[i]])
  }

  // ----- effects -----

  /** `bytes` laid over `file` at `at`. */
  function Overlay(file: Text, at: nat, bytes: Text): (r: Text)
    requires at <= |file|
    ensures |r| == if at + |bytes| <= |file| then |file| else at + |bytes|
    ensures r[..at] == file[..at]
    ensures r[at..at + |bytes|] == bytes
  {
    file[..at] + bytes + (if at + |bytes| <= |file| then file[at + |bytes|..] else [])
  }

  function OpLine(op: InsertOp): Text {
    Line(op.id, op.text)
  }

  predicate InsertAt(s: State, i: nat, stage: InsertStage) {
    i < |s.inserts| && s.inserts[i].stage == stage
  }

  predicate IsWriting(s: State, i: nat) {
    && i < |s.inserts| && s.inserts[i].stage.Writing?
    && s.inserts[i].stage.offset + s.inserts[i].stage.written <= |s.file|
    && s.inserts[i].stage.written <= |OpLine(s.inserts[i])|
  }

  function SetInsert(s: State, i: nat, stage: InsertStage): State
    requires i < |s.inserts|
  {
    s.(inserts := s.inserts[i := s.inserts[i].(stage := stage)])
  }

  /** `leave()`: the last operation out wakes every sleeping closer. */
  function Left(s: State): State {
    s.(inFlight := s.inFlight - 1,
       closers := if s.inFlight - 1 == 0 then NotifyAll(s.closers, CloseAsleep, CloseWoken) else s.closers)
  }

  function SetQuery(s: State, q: nat, stage: QueryStage, iter: Iter): State
    requires q < |s.queries|
  {
    s.(queries := s.queries[q := s.queries[q].(stage := stage, iter := iter)])
  }

  predicate HasNext(iter: Iter) {
    !iter.closed && iter.cursor < |iter.fileOffsets|
  }

  /** The counts pread may return: 0 only at the end of the file, else any part of a chunk. */
  predicate MayPread(file: Text, pos: nat, n: nat) {
    if pos >= |file| then n == 0 else 1 <= n <= CHUNK && pos + n <= |file|
  }

  function Finished(iter: Iter, r: ReadResult): Iter {
    iter.(reading := NotReading, results := iter.results + [r])
  }

  function AfterPread(iter: Iter, file: Text, n: nat): Iter
    requires iter.reading.ReadingAt? && MayPread(file, iter.reading.pos, n)
  {
    if n == 0 then Finished(iter, NoNewline)
    else
      var pos := iter.reading.pos;
      var buf := iter.reading.buf + file[pos..pos + n];
      if NEWLINE in buf then Finished(iter, ParseLine(buf[..Find(buf, NEWLINE)]))
      else iter.(reading := ReadingAt(iter.reading.offset, pos + n, buf))
  }

  ghost function AfterSnapshot(s: State, q: nat): State
    requires q < |s.queries|
  {
    var op := s.queries[q];
    var ids := FirstIds(s.indexMap.Keys, op.minId, op.limit);
    SetQuery(s, q, QueryLeaving, EMPTY_ITER.(fileOffsets := OffsetsOf(s.indexMap, ids), view := s.contents))
  }

  function AfterClose(s: State, c: nat): State
    requires c < |s.closers|
  {
    s.(closed := true, closers := s.closers[c := if s.inFlight == 0 then CloseReturned else CloseAsleep])
  }

  predicate Usable(s: State, q: nat) {
    q < |s.queries| && s.queries[q].stage == QueryDone
  }

  predicate Enabled(s: State, step: Step) {
    match step
    case CallInsert(_, _) => true
    case InsertEnter(i) => InsertAt(s, i, InsertCalled)
    case LockAppend(i) => InsertAt(s, i, InsertEntered) && s.writer == None
    case WriteBytes(i, n) =>
      IsWriting(s, i) && 1 <= n && s.inserts[i].stage.written + n <= |OpLine(s.inserts[i])|
    case WriteFails(i) => IsWriting(s, i)
    case FinishAppend(i) => IsWriting(s, i) && s.inserts[i].stage.written == |OpLine(s.inserts[i])|
    case Publish(i) => i < |s.inserts| && s.inserts[i].stage.Appended?
    case InsertLeave(i) => i < |s.inserts| && s.inserts[i].stage.InsertLeaving?
    case CallQuery(_, _) => true
    case QueryEnter(q) => q < |s.queries| && s.queries[q].stage == QueryCalled
    case Snapshot(q) => q < |s.queries| && s.queries[q].stage == QueryEntered
    case QueryLeave(q) => q < |s.queries| && s.queries[q].stage == QueryLeaving
    case StartNext(q) => Usable(s, q) && HasNext(s.queries[q].iter) && s.queries[q].iter.reading == NotReading
    case Pread(q, n) =>
      Usable(s, q) && s.queries[q].iter.reading.ReadingAt? && MayPread(s.file, s.queries[q].iter.reading.pos, n)
    case PreadFails(q) => Usable(s, q) && s.queries[q].iter.reading.ReadingAt?
    case CloseIterator(q) => Usable(s, q) && s.queries[q].iter.reading == NotReading
    case CallClose => true
    case CloseSection(c) => c < |s.closers| && (s.closers[c] == CloseCalled || s.closers[c] == CloseWoken)
    case CloserSpurious(c) => c < |s.closers| && s.closers[c] == CloseAsleep
  }

  ghost function Apply(s: State, step: Step): State
    requires Enabled(s, step)
  {
    match step
    case CallInsert(id, text) => s.(inserts := s.inserts + [InsertOp(id, text, InsertCalled)])
    case InsertEnter(i) =>
      if s.closed then SetInsert(s, i, InsertDone(1))
      else SetInsert(s, i, InsertEntered).(inFlight := s.inFlight + 1)
    case LockAppend(i) => SetInsert(s, i, Writing(s.writeOffset, 0)).(writer := Some(i))
    case WriteBytes(i, n) =>
      var Writing(offset, written) := s.inserts[i].stage;
      SetInsert(s, i, Writing(offset, written + n)).(
        file := Overlay(s.file, offset + written, OpLine(s.inserts[i])[written..written + n]))
    case WriteFails(i) => SetInsert(s, i, InsertLeaving(2)).(writer := None)
    case FinishAppend(i) =>
      SetInsert(s, i, Appended(s.inserts[i].stage.offset)).(
        writer := None, writeOffset := s.writeOffset + |OpLine(s.inserts[i])|)
    case Publish(i) =>
      SetInsert(s, i, InsertLeaving(0)).(
        indexMap := s.indexMap[s.inserts[i].id := s.inserts[i].stage.offset],
        contents := s.contents[s.inserts[i].id := s.inserts[i].text])
    case InsertLeave(i) => Left(SetInsert(s, i, InsertDone(s.inserts[i].stage.code)))
    case CallQuery(minId, limit) => s.(queries := s.queries + [QueryOp(minId, limit, QueryCalled, EMPTY_ITER)])
    case QueryEnter(q) =>
      if s.closed then SetQuery(s, q, QueryDone, s.queries[q].iter)
      else SetQuery(s, q, QueryEntered, s.queries[q].iter).(inFlight := s.inFlight + 1)
    case Snapshot(q) => AfterSnapshot(s, q)
    case QueryLeave(q) => Left(SetQuery(s, q, QueryDone, s.queries[q].iter))
    case StartNext(q) =>
      var iter := s.queries[q].iter;
      var offset := iter.fileOffsets[iter.cursor];
      SetQuery(s, q, QueryDone, iter.(cursor := iter.cursor + 1, reading := ReadingAt(offset, offset, [])))
    case Pread(q, n) => SetQuery(s, q, QueryDone, AfterPread(s.queries[q].iter, s.file, n))
    case PreadFails(q) => SetQuery(s, q, QueryDone, Finished(s.queries[q].iter, IoError))
    case CloseIterator(q) => SetQuery(s, q, QueryDone, s.queries[q].iter.(closed := true))
    case CallClose => s.(closers := s.closers + [CloseCalled])
    case CloseSection(c) => AfterClose(s, c)
    case CloserSpurious(c) => s.(closers := s.closers[c := CloseWoken])
  }

  ghost predicate CanRun(s: State, steps: seq<Step>)
    decreases |steps|
  {
    steps == [] || (Enabled(s, steps[0]) && CanRun(Apply(s, steps[0]), steps[1..]))
  }

  ghost function RunFrom(s: State, steps: seq<Step>): State
    requires CanRun(s, steps)
    decreases |steps|
  {
    if steps == [] then s else RunFrom(Apply(s, steps[0]), steps[1..])
  }

  /** The states that some run of a fresh index ends in. */
  ghost predicate Reachable(s: State) {
    exists steps :: CanRun(INIT, steps) && RunFrom(INIT, steps) == s
  }
}
