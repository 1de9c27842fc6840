/** The joins that look rows up in an unordered multimap: index nested loop, classic hash,
    and Grace hash over partitions. */
module HashJoins {
  import opened Common
  import opened JoinSpec

  // ----- the unordered multimap -----

  /** std::unordered_multimap<int, Row>: any number of rows per key, in no particular order. */
  class UnorderedMultimap {
    var entries: map<int, multiset<Row>>

    constructor ()
      ensures entries == map[]
    {
      entries := map[];
    }

    function Bucket(k: int): multiset<Row>
      reads this
    {
      if k in entries then entries[k] else multiset{}
    }

    method Emplace(k: int, row: Row)
      modifies this
      ensures Bucket(k) == old(Bucket(k)) + multiset{row}
      ensures forall other :: other != k ==> Bucket(other) == old(Bucket(other))
    {
      entries := entries[k := Bucket(k) + multiset{row}];
    }

    /** The rows of one key, in whatever order the table happens to hold them. */
    method EqualRange(k: int) returns (range: Rows)
      ensures multiset(range) == Bucket(k)
    {
      range := [];
      var rest := Bucket(k);
      while rest != multiset{}
        invariant multiset(range) + rest == Bucket(k)
        decreases |rest|
      {
        var row :| row in rest;
        rest := rest - multiset{row};
        range := range + [row];
      }
    }
  }

  /** Every key finds exactly its rows of `rows`. */
  ghost predicate Indexes(table: UnorderedMultimap, rows: Rows)
    reads table
  {
    forall k :: table.Bucket(k) == multiset(KeyRows(rows, k))
  }

  lemma KeyRowsSnoc(rows: Rows, i: nat, k: int)
    requires i < |rows|
    ensures KeyRows(rows[..i + 1], k) ==
            KeyRows(rows[..i], k) + (if rows[i].key == k then [rows[i]] else [])
  {
    assert rows[..i + 1] == rows[..i] + [rows[i]];
    KeyRowsConcat(rows[..i], [rows[i]], k);
    assert KeyRows([rows[i]][1..], k) == [];
  }

  method BuildTable(rows: Rows) returns (table: UnorderedMultimap)
    ensures fresh(table) && Indexes(table, rows)
  {
    table := new UnorderedMultimap();
    for i := 0 to |rows|
      invariant Indexes(table, rows[..i])
    {
      forall k ensures KeyRows(rows[..i + 1], k) ==
                       KeyRows(rows[..i], k) + (if rows[i].key == k then [rows[i]] else []) {
        KeyRowsSnoc(rows, i, k);
      }
      table.Emplace(rows[i].key, rows[i]);
    }
    assert rows[..|rows|] == rows;
  }

  // ----- probing -----

  /** One row paired with each row of a list. */
  function PairAll(r: Row, rows: Rows): (pairs: seq<JoinedRow>)
    ensures |pairs| == |rows|
  {
    seq(|rows|, k requires 0 <= k < |rows| => JoinedRow(r, rows[k]))
  }

  lemma {:induction false} PairAllCount(r: Row, rows: Rows, x: Row, y: Row)
    ensures multiset(PairAll(r, rows))[JoinedRow(x, y)] == if x == r then multiset(rows)[y] else 0
    decreases |rows|
  {
    if rows != [] {
      PairAllCount(r, rows[1..], x, y);
      SplitFirst(rows);
      SplitFirst(PairAll(r, rows));
      assert PairAll(r, rows)[1..] == PairAll(r, rows[1..]);
    }
  }

  /** Pairing a row with its bucket, in any order, gives its matches. */
  lemma BucketGivesMatches(r: Row, inner: Rows, range: Rows)
    requires multiset(range) == multiset(KeyRows(inner, r.key))
    ensures multiset(PairAll(r, range)) == multiset(Matches(r, inner, SameKey))
  {
    var a, b := PairAll(r, range), Matches(r, inner, SameKey);
    forall x, y ensures multiset(a)[JoinedRow(x, y)] == multiset(b)[JoinedRow(x, y)] {
      PairAllCount(r, range, x, y);
      MatchesCount(r, inner, SameKey, x, y);
      KeyRowsCount(inner, r.key, y);
    }
    SamePairs(a, b);
  }

  /** In whatever order the bucket comes, the row that was probed is on the left of each pair. */
  lemma {:induction false} SameLefts(r: Row, inner: Rows, range: Rows)
    requires multiset(PairAll(r, range)) == multiset(Matches(r, inner, SameKey))
    ensures Lefts(PairAll(r, range)) == Lefts(Matches(r, inner, SameKey))
  {
    MatchesLefts(r, inner);
    assert |multiset(PairAll(r, range))| == |multiset(Matches(r, inner, SameKey))|;
  }

  lemma {:induction false} MatchesLefts(r: Row, inner: Rows)
    ensures forall k :: 0 <= k < |Matches(r, inner, SameKey)| ==> Matches(r, inner, SameKey)[k].left == r
    decreases |inner|
  {
    if inner != [] {
      MatchesLefts(r, inner[1..]);
    }
  }

  /** Probes the table with one row and emits a pair per entry found. */
  method ProbeRow(probeRow: Row, table: UnorderedMultimap, ghost build: Rows) returns (pairs: seq<JoinedRow>)
    requires Indexes(table, build)
    ensures multiset(pairs) == multiset(Matches(probeRow, build, SameKey))
    ensures Lefts(pairs) == Lefts(Matches(probeRow, build, SameKey))
  {
    var range := table.EqualRange(probeRow.key);
    pairs := [];
    for k := 0 to |range|
      invariant pairs == PairAll(probeRow, range[..k])
    {
      pairs := pairs + [JoinedRow(probeRow, range[k])];
    }
    assert range[..|range|] == range;
    BucketGivesMatches(probeRow, build, range);
    SameLefts(probeRow, build, range);
  }

  /** Classic hash join: builds a table over one side and streams the other through it. The
      result holds the pairs with equal keys, whatever order the table yields them in, probe
      row by probe row. */
  method HashJoin(probeSide: Rows, buildSide: Rows) returns (result: seq<JoinedRow>)
    ensures IsEquiJoin(result, probeSide, buildSide)
    ensures Lefts(result) == Lefts(NaiveJoin(probeSide, buildSide, SameKey))
  {
    var hashTable := BuildTable(buildSide);
    result := [];
    for i := 0 to |probeSide|
      invariant Indexes(hashTable, buildSide)
      invariant IsEquiJoin(result, probeSide[..i], buildSide)
      invariant Lefts(result) == Lefts(NaiveJoin(probeSide[..i], buildSide, SameKey))
    {
      var pairs := ProbeRow(probeSide[i], hashTable, buildSide);
      LeftsConcat(result, pairs);
      result := result + pairs;
      JoinSnoc(probeSide, i, buildSide, SameKey);
      LeftsConcat(NaiveJoin(probeSide[..i], buildSide, SameKey), Matches(probeSide[i], buildSide, SameKey));
    }
    assert probeSide[..|probeSide|] == probeSide;
  }

  /** Index nested loop join: the table plays the index over the inner side, which each outer
      row probes. */
  method IndexNestedLoopJoin(outer: Rows, inner: Rows) returns (result: seq<JoinedRow>)
    ensures IsEquiJoin(result, outer, inner)
    ensures Lefts(result) == Lefts(NaiveJoin(outer, inner, SameKey))
  {
    var index := BuildTable(inner);
    result := [];
    for i := 0 to |outer|
      invariant Indexes(index, inner)
      invariant IsEquiJoin(result, outer[..i], inner)
      invariant Lefts(result) == Lefts(NaiveJoin(outer[..i], inner, SameKey))
    {
      var pairs := ProbeRow(outer[i], index, inner);
      LeftsConcat(result, pairs);
      result := result + pairs;
      JoinSnoc(outer, i, inner, SameKey);
      LeftsConcat(NaiveJoin(outer[..i], inner, SameKey), Matches(outer[i], inner, SameKey));
    }
    assert outer[..|outer|] == outer;
  }

  // ----- partitions -----

  /** The partition of each key under the hash function `h`. */
  function PartitionOf(h: int -> nat, numPartitions: nat): (part: int -> nat)
    requires numPartitions > 0
    ensures forall k :: part(k) < numPartitions
  {
    k => h(k) % numPartitions
  }

  /** The rows of partition `p`, in their order. */
  function PartitionRows(rows: Rows, part: int -> nat, p: nat): Rows
    decreases |rows|
  {
    if rows == [] then []
    else (if part(rows[0].key) == p then [rows[0]] else []) + PartitionRows(rows[1..], part, p)
  }

  lemma {:induction false} PartitionCount(rows: Rows, part: int -> nat, p: nat, x: Row)
    ensures multiset(PartitionRows(rows, part, p))[x] == if part(x.key) == p then multiset(rows)[x] else 0
    decreases |rows|
  {
    if rows != [] {
      PartitionCount(rows[1..], part, p, x);
      SplitFirst(rows);
    }
  }

  lemma {:induction false} PartitionConcat(a: Rows, b: Rows, part: int -> nat, p: nat)
    ensures PartitionRows(a + b, part, p) == PartitionRows(a, part, p) + PartitionRows(b, part, p)
    decreases |a|
  {
    if a == [] {
      assert a + b == b;
    } else {
      assert (a + b)[1..] == a[1..] + b;
      PartitionConcat(a[1..], b, part, p);
      Reassociate(if part(a[0].key) == p then [a[0]] else [], PartitionRows(a[1..], part, p), PartitionRows(b, part, p));
    }
  }

  lemma PartitionSnoc(rows: Rows, i: nat, part: int -> nat, p: nat)
    requires i < |rows|
    ensures PartitionRows(rows[..i + 1], part, p) ==
            PartitionRows(rows[..i], part, p) + (if part(rows[i].key) == p then [rows[i]] else [])
  {
    assert rows[..i + 1] == rows[..i] + [rows[i]];
    PartitionConcat(rows[..i], [rows[i]], part, p);
    assert PartitionRows([rows[i]][1..], part, p) == [];
  }

  /** The rows of one key stay together, in their order, and no others come to them. */
  lemma {:induction false} PartitionKeyRows(rows: Rows, part: int -> nat, p: nat, k: int)
    ensures KeyRows(PartitionRows(rows, part, p), k) == if part(k) == p then KeyRows(rows, k) else []
    decreases |rows|
  {
    if rows != [] {
      PartitionKeyRows(rows[1..], part, p, k);
      var rest := PartitionRows(rows[1..], part, p);
      assert ([rows[0]] + rest)[1..] == rest && [] + rest == rest;
    }
  }

  /** What a bucket holds, in terms of the hash and the number of partitions alone. */
  lemma PartitionByHash(rows: Rows, h: int -> nat, numPartitions: nat, p: nat)
    requires p < numPartitions
    ensures var bucket := PartitionRows(rows, PartitionOf(h, numPartitions), p);
            && (forall x: Row :: multiset(bucket)[x] == if h(x.key) % numPartitions == p then multiset(rows)[x] else 0)
            && (forall x: Row :: x in bucket ==> h(x.key) % numPartitions == p)
            && (forall k :: KeyRows(bucket, k) == if h(k) % numPartitions == p then KeyRows(rows, k) else [])
  {
    var part := PartitionOf(h, numPartitions);
    var bucket := PartitionRows(rows, part, p);
    forall x: Row
      ensures multiset(bucket)[x] == if h(x.key) % numPartitions == p then multiset(rows)[x] else 0
      ensures x in bucket ==> h(x.key) % numPartitions == p
    {
      PartitionCount(rows, part, p, x);
      assert x in bucket ==> multiset(bucket)[x] > 0;
    }
    forall k ensures KeyRows(bucket, k) == if h(k) % numPartitions == p then KeyRows(rows, k) else [] {
      PartitionKeyRows(rows, part, p, k);
    }
  }

  /** partitionRows: bucket p receives, in order, exactly the rows whose key hashes to p modulo
      the number of partitions. */
  method Partition(rows: Rows, h: int -> nat, numPartitions: nat) returns (partitions: seq<Rows>)
    requires numPartitions > 0 || rows == []
    ensures |partitions| == numPartitions
    ensures forall p, x: Row :: 0 <= p < numPartitions ==>
              multiset(partitions[p])[x] == if h(x.key) % numPartitions == p then multiset(rows)[x] else 0
    ensures forall p, x: Row :: 0 <= p < numPartitions && x in partitions[p] ==> h(x.key) % numPartitions == p
    ensures forall p, k :: 0 <= p < numPartitions ==>
              KeyRows(partitions[p], k) == if h(k) % numPartitions == p then KeyRows(rows, k) else []
    ensures forall p :: 0 <= p < numPartitions ==>
              partitions[p] == PartitionRows(rows, PartitionOf(h, numPartitions), p)
  {
    partitions := seq(numPartitions, _ => []);
    for i := 0 to |rows|
      invariant |partitions| == numPartitions
      invariant forall p :: 0 <= p < numPartitions ==>
        partitions[p] == PartitionRows(rows[..i], PartitionOf(h, numPartitions), p)
    {
      ghost var part := PartitionOf(h, numPartitions);
      forall p | 0 <= p < numPartitions
        ensures PartitionRows(rows[..i + 1], part, p) ==
                PartitionRows(rows[..i], part, p) + (if part(rows[i].key) == p then [rows[i]] else [])
      {
        PartitionSnoc(rows, i, part, p);
      }
      var p := h(rows[i].key) % numPartitions;
      partitions := partitions[p := partitions[p] + [rows[i]]];
    }
    assert rows[..|rows|] == rows;
    forall p | 0 <= p < numPartitions
      ensures forall x: Row :: multiset(partitions[p])[x] == if h(x.key) % numPartitions == p then multiset(rows)[x] else 0
      ensures forall x: Row :: x in partitions[p] ==> h(x.key) % numPartitions == p
      ensures forall k :: KeyRows(partitions[p], k) == if h(k) % numPartitions == p then KeyRows(rows, k) else []
    {
      PartitionByHash(rows, h, numPartitions, p);
    }
  }

  /** All rows of the first partitions of a list of partitions. */
  function AllRows(partitions: seq<Rows>): multiset<Row> {
    if partitions == [] then multiset{}
    else AllRows(partitions[..|partitions| - 1]) + multiset(partitions[|partitions| - 1])
  }

  lemma {:induction false} AllRowsCount(partitions: seq<Rows>, rows: Rows, part: int -> nat, x: Row)
    requires forall p :: 0 <= p < |partitions| ==> partitions[p] == PartitionRows(rows, part, p)
    ensures AllRows(partitions)[x] == if part(x.key) < |partitions| then multiset(rows)[x] else 0
    decreases |partitions|
  {
    if partitions != [] {
      var p := |partitions| - 1;
      AllRowsCount(partitions[..p], rows, part, x);
      PartitionCount(rows, part, p, x);
    }
  }

  /** Partitioning conserves rows: the buckets together hold each row as often as the input. */
  lemma PartitionConserves(partitions: seq<Rows>, rows: Rows, h: int -> nat)
    requires partitions != []
    requires forall p :: 0 <= p < |partitions| ==>
               partitions[p] == PartitionRows(rows, PartitionOf(h, |partitions|), p)
    ensures AllRows(partitions) == multiset(rows)
  {
    forall x: Row ensures AllRows(partitions)[x] == multiset(rows)[x] {
      AllRowsCount(partitions, rows, PartitionOf(h, |partitions|), x);
    }
  }

  /** The pairs within one partition: those of the whole join whose key falls into it, since
      equal keys share a partition. */
  lemma {:induction false} PartitionJoinCount(probe: Rows, build: Rows, part: int -> nat, p: nat, x: Row, y: Row)
    ensures multiset(NaiveJoin(PartitionRows(probe, part, p), PartitionRows(build, part, p), SameKey))[JoinedRow(x, y)] ==
            if part(x.key) == p then multiset(NaiveJoin(probe, build, SameKey))[JoinedRow(x, y)] else 0
  {
    JoinCount(PartitionRows(probe, part, p), PartitionRows(build, part, p), SameKey, x, y);
    JoinCount(probe, build, SameKey, x, y);
    PartitionCount(probe, part, p, x);
    PartitionCount(build, part, p, y);
  }

  /** The pairs emitted once the partitions below `upTo` are done. */
  ghost predicate JoinedUpTo(result: seq<JoinedRow>, probe: Rows, build: Rows, part: int -> nat, upTo: nat) {
    forall x, y :: multiset(result)[JoinedRow(x, y)] ==
      if part(x.key) < upTo then multiset(NaiveJoin(probe, build, SameKey))[JoinedRow(x, y)] else 0
  }

  lemma JoinedOneMore(result: seq<JoinedRow>, pairs: seq<JoinedRow>, probe: Rows, build: Rows, part: int -> nat, p: nat)
    requires JoinedUpTo(result, probe, build, part, p)
    requires IsEquiJoin(pairs, PartitionRows(probe, part, p), PartitionRows(build, part, p))
    ensures JoinedUpTo(result + pairs, probe, build, part, p + 1)
  {
    forall x, y
      ensures multiset(result + pairs)[JoinedRow(x, y)] ==
        if part(x.key) < p + 1 then multiset(NaiveJoin(probe, build, SameKey))[JoinedRow(x, y)] else 0
    {
      PartitionJoinCount(probe, build, part, p, x, y);
    }
  }

  lemma JoinedAll(result: seq<JoinedRow>, probe: Rows, build: Rows, h: int -> nat, n: nat)
    requires n > 0 && JoinedUpTo(result, probe, build, PartitionOf(h, n), n)
    ensures IsEquiJoin(result, probe, build)
  {
    SamePairs(result, NaiveJoin(probe, build, SameKey));
  }

  /** The left rows of the joins of the partitions below `upTo`, partition by partition. */
  function LeftsByPartition(probe: Rows, build: Rows, part: int -> nat, upTo: nat): Rows {
    if upTo == 0 then []
    else
      LeftsByPartition(probe, build, part, upTo - 1)
      + Lefts(NaiveJoin(PartitionRows(probe, part, upTo - 1), PartitionRows(build, part, upTo - 1), SameKey))
  }

  /** Grace hash join: whatever the hash function and the number of partitions, the same pairs
      as the classic hash join, partition by partition and probe row by probe row. */
  method GraceHashJoin(probeSide: Rows, buildSide: Rows, h: int -> nat, numPartitions: nat)
    returns (result: seq<JoinedRow>)
    requires numPartitions > 0 || (probeSide == [] && buildSide == [])
    ensures IsEquiJoin(result, probeSide, buildSide)
    ensures numPartitions > 0 ==>
              Lefts(result) == LeftsByPartition(probeSide, buildSide, k => h(k) % numPartitions, numPartitions)
  {
    var probePartitions := Partition(probeSide, h, numPartitions);
    var buildPartitions := Partition(buildSide, h, numPartitions);
    result := [];
    for p := 0 to numPartitions
      invariant numPartitions == 0 ==> result == []
      invariant numPartitions > 0 ==>
        && JoinedUpTo(result, probeSide, buildSide, PartitionOf(h, numPartitions), p)
        && Lefts(result) == LeftsByPartition(probeSide, buildSide, PartitionOf(h, numPartitions), p)
    {
      var pairs := HashJoin(probePartitions[p], buildPartitions[p]);
      LeftsConcat(result, pairs);
      JoinedOneMore(result, pairs, probeSide, buildSide, PartitionOf(h, numPartitions), p);
      result := result + pairs;
    }
    if numPartitions > 0 {
      JoinedAll(result, probeSide, buildSide, h, numPartitions);
    }
  }
}
