/** The sort-merge join on arrays, with its hand-written merge sort. */
module SortMergeJoin {
  import opened JoinSpec
  import opened MergeSortSpec

  // ----- merge sort in place -----

  /** `after` is `before` with [left, right) replaced by `middle` and nothing else touched. */
  ghost predicate Spliced(before: Rows, after: Rows, left: nat, right: nat, middle: Rows) {
    && left <= right <= |before| && |middle| == right - left
    && after == before[..left] + middle + before[right..]
  }

  lemma SpliceReads(before: Rows, after: Rows, left: nat, right: nat, middle: Rows)
    requires Spliced(before, after, left, right, middle)
    ensures |after| == |before| && after[left..right] == middle
    ensures forall lo, hi :: 0 <= lo <= hi <= |before| && (hi <= left || right <= lo) ==>
              after[lo..hi] == before[lo..hi]
  {
  }

  /** Replacing two neighbouring ranges and then both together leaves one replacement. */
  lemma SpliceOver(s0: Rows, s1: Rows, s2: Rows, s3: Rows, left: nat, mid: nat, right: nat, x: Rows, y: Rows, z: Rows)
    requires Spliced(s0, s1, left, mid, x) && Spliced(s1, s2, mid, right, y) && Spliced(s2, s3, left, right, z)
    ensures s1[mid..right] == s0[mid..right] && s2[left..mid] == x && s2[mid..right] == y
    ensures Spliced(s0, s3, left, right, z)
  {
    SpliceReads(s0, s1, left, mid, x);
    SpliceReads(s1, s2, mid, right, y);
    assert s2[..left] == s1[..left] == s0[..left];
    assert s2[right..] == s1[right..] == s0[right..];
  }

  lemma MergedStep(temp: Rows, a: Rows, b: Rows, i: nat, j: nat)
    requires i < |a| && j < |b|
    ensures var (x, i', j') := if a[i].key <= b[j].key then (a[i], i + 1, j) else (b[j], i, j + 1);
            && temp + Merged(a[i..], b[j..]) == temp + [x] + Merged(a[i'..], b[j'..])
            && MergeComparisons(a[i..], b[j..]) == 1 + MergeComparisons(a[i'..], b[j'..])
  {
    assert a[i..][1..] == a[i + 1..] && b[j..][1..] == b[j + 1..];
  }

  /** Appends rows[from..to) to the temporary list. */
  method Drain(rows: array<Row>, from: nat, to: nat, temp: Rows) returns (r: Rows)
    requires from <= to <= rows.Length
    ensures r == temp + rows[from..to]
  {
    r := temp;
    for k := from to to
      invariant r == temp + rows[from..k]
    {
      assert rows[from..k + 1] == rows[from..k] + [rows[k]];
      r := r + [rows[k]];
    }
  }

  lemma MergedEnd(a: Rows, b: Rows)
    requires a == [] || b == []
    ensures Merged(a, b) == a + b && MergeComparisons(a, b) == 0
  {
  }

  /** The first loop of merge: takes the smaller head until one half is used up. */
  method MergeHeads(rows: array<Row>, left: nat, mid: nat, right: nat)
    returns (temp: Rows, i: nat, j: nat, ghost comparisons: nat)
    requires left <= mid <= right <= rows.Length
    ensures left <= i <= mid <= j <= right
    ensures temp + (rows[i..mid] + rows[j..right]) == Merged(rows[left..mid], rows[mid..right])
    ensures comparisons == MergeComparisons(rows[left..mid], rows[mid..right])
  {
    hide Merged, MergeComparisons;
    ghost var a, b := rows[left..mid], rows[mid..right];
    assert a[0..] == a && b[0..] == b;
    comparisons := 0;
    temp := [];
    i, j := left, mid;
    while i < mid && j < right
      invariant left <= i <= mid <= j <= right
      invariant temp + Merged(a[i - left..], b[j - mid..]) == Merged(a, b)
      invariant comparisons + MergeComparisons(a[i - left..], b[j - mid..]) == MergeComparisons(a, b)
      decreases mid - i + right - j
    {
      MergedStep(temp, a, b, i - left, j - mid);
      comparisons := comparisons + 1;
      if rows[i].key <= rows[j].key {
        temp := temp + [rows[i]];
        i := i + 1;
      } else {
        temp := temp + [rows[j]];
        j := j + 1;
      }
    }
    MergedEnd(a[i - left..], b[j - mid..]);
    assert a[i - left..] == rows[i..mid] && b[j - mid..] == rows[j..right];
  }

  /** The three loops of merge: the temporary list ends as the merge of the two halves. */
  method MergeToTemp(rows: array<Row>, left: nat, mid: nat, right: nat) returns (temp: Rows, ghost comparisons: nat)
    requires left <= mid <= right <= rows.Length
    ensures temp == Merged(rows[left..mid], rows[mid..right])
    ensures comparisons == MergeComparisons(rows[left..mid], rows[mid..right])
  {
    var i, j;
    temp, i, j, comparisons := MergeHeads(rows, left, mid, right);
    temp := Drain(rows, i, mid, temp);
    temp := Drain(rows, j, right, temp);
  }

  method CopyBack(rows: array<Row>, left: nat, right: nat, temp: Rows)
    requires left <= right <= rows.Length && |temp| == right - left
    modifies rows
    ensures Spliced(old(rows[..]), rows[..], left, right, temp)
  {
    for k := 0 to |temp|
      invariant forall m :: 0 <= m < rows.Length ==>
        rows[m] == if left <= m < left + k then temp[m - left] else old(rows[m])
    {
      rows[left + k] := temp[k];
    }
  }

  /** Merges the sorted halves [left, mid) and [mid, right) through a temporary list and
      copies it back; nothing outside [left, right) changes. */
  method Merge(rows: array<Row>, left: nat, mid: nat, right: nat) returns (ghost comparisons: nat)
    requires left <= mid <= right <= rows.Length
    modifies rows
    ensures Spliced(old(rows[..]), rows[..], left, right, Merged(old(rows[left..mid]), old(rows[mid..right])))
    ensures comparisons == MergeComparisons(old(rows[left..mid]), old(rows[mid..right]))
  {
    MergedLength(rows[left..mid], rows[mid..right]);
    var temp;
    temp, comparisons := MergeToTemp(rows, left, mid, right);
    CopyBack(rows, left, right, temp);
  }

  /** Sorts [left, right) by key and touches nothing else. */
  method MergeSortRange(rows: array<Row>, left: nat, right: nat) returns (ghost comparisons: nat)
    requires left <= right <= rows.Length
    modifies rows
    ensures Spliced(old(rows[..]), rows[..], left, right, MergeSorted(old(rows[left..right])))
    ensures comparisons == SortComparisons(old(rows[left..right]))
    decreases right - left
  {
    ghost var s0, all := rows[..], rows[left..right];
    if right - left <= 1 {
      assert s0 == s0[..left] + all + s0[right..];
      return 0;
    }
    var mid := left + (right - left) / 2;
    assert all[..|all| / 2] == rows[left..mid] && all[|all| / 2..] == rows[mid..right];
    var first := MergeSortRange(rows, left, mid);
    ghost var s1 := rows[..];
    SpliceReads(s0, s1, left, mid, MergeSorted(all[..|all| / 2]));
    assert rows[mid..right] == s1[mid..right] == s0[mid..right];
    var second := MergeSortRange(rows, mid, right);
    ghost var s2 := rows[..];
    SpliceReads(s1, s2, mid, right, MergeSorted(all[|all| / 2..]));
    assert rows[left..mid] == s2[left..mid] == s1[left..mid];
    assert rows[mid..right] == s2[mid..right];
    var third := Merge(rows, left, mid, right);
    SpliceOver(s0, s1, s2, rows[..], left, mid, right,
               MergeSorted(all[..|all| / 2]), MergeSorted(all[|all| / 2..]), MergeSorted(all));
    comparisons := first + second + third;
  }

  /** Sorts the whole array: sorted by key, a permutation, rows of one key in their order. */
  method MergeSort(rows: array<Row>) returns (ghost comparisons: nat)
    modifies rows
    ensures rows[..] == MergeSorted(old(rows[..]))
    ensures Sorted(rows[..]) && multiset(rows[..]) == multiset(old(rows[..]))
    ensures forall k :: KeyRows(rows[..], k) == KeyRows(old(rows[..]), k)
    ensures comparisons <= rows.Length * CeilLog2(rows.Length)
  {
    ghost var before := rows[..];
    assert rows[0..rows.Length] == before;
    comparisons := MergeSortRange(rows, 0, rows.Length);
    MergeSortedIsStableSort(before);
    MergeSortedPermutes(before);
    ComparisonsBound(before);
  }

  // ----- the merge phase -----

  lemma {:induction false} NoMatches(r: Row, inner: Rows)
    requires forall s :: s in inner ==> s.key != r.key
    ensures Matches(r, inner, SameKey) == []
    decreases |inner|
  {
    if inner != [] {
      NoMatches(r, inner[1..]);
    }
  }

  lemma {:induction false} NoPairs(outer: Rows, inner: Rows)
    requires forall r, s :: r in outer && s in inner ==> s.key != r.key
    ensures NaiveJoin(outer, inner, SameKey) == []
    decreases |outer|
  {
    if outer != [] {
      NoMatches(outer[0], inner);
      NoPairs(outer[1..], inner);
    }
  }

  /** A row matches nothing outside the run [lo, hi) of its key. */
  lemma MatchesInRun(r: Row, inner: Rows, lo: nat, hi: nat)
    requires lo <= hi <= |inner|
    requires forall b :: 0 <= b < |inner| && !(lo <= b < hi) ==> inner[b].key != r.key
    ensures Matches(r, inner, SameKey) == Matches(r, inner[lo..hi], SameKey)
  {
    assert inner == inner[..lo] + (inner[lo..hi] + inner[hi..]);
    MatchesConcat(r, inner[..lo], inner[lo..hi] + inner[hi..], SameKey);
    MatchesConcat(r, inner[lo..hi], inner[hi..], SameKey);
    NoMatches(r, inner[..lo]);
    NoMatches(r, inner[hi..]);
  }

  /** What the merge phase keeps at its two cursors: the pairs of the rows passed in `r` are
      out, and every row passed in `s` has a smaller key than every row left in `r`. */
  ghost predicate Passed(r: Rows, s: Rows, i: nat, j: nat, result: seq<JoinedRow>) {
    && i <= |r| && j <= |s|
    && result == NaiveJoin(r[..i], s, SameKey)
    && forall a, b :: i <= a < |r| && 0 <= b < j ==> s[b].key < r[a].key
  }

  /** The row under the left cursor is below everything left on the right: it has no match. */
  lemma LeftIsSmaller(r: Rows, s: Rows, i: nat, j: nat, result: seq<JoinedRow>)
    requires Sorted(r) && Sorted(s) && Passed(r, s, i, j, result)
    requires i < |r| && j < |s| && r[i].key < s[j].key
    ensures Passed(r, s, i + 1, j, result)
  {
    JoinSnoc(r, i, s, SameKey);
    NoMatches(r[i], s);
  }

  /** The row under the right cursor is below everything left on the left: it is passed. */
  lemma RightIsSmaller(r: Rows, s: Rows, i: nat, j: nat, result: seq<JoinedRow>)
    requires Sorted(r) && Sorted(s) && Passed(r, s, i, j, result)
    requires i < |r| && j < |s| && r[i].key > s[j].key
    ensures Passed(r, s, i, j + 1, result)
  {
  }

  /** With one side used up, all pairs are out. */
  lemma AllPassed(r: Rows, s: Rows, i: nat, j: nat, result: seq<JoinedRow>)
    requires Passed(r, s, i, j, result) && (i == |r| || j == |s|)
    ensures result == NaiveJoin(r, s, SameKey)
  {
    assert r == r[..i] + r[i..];
    JoinConcat(r[..i], r[i..], s, SameKey);
    NoPairs(r[i..], s);
  }

  /** The run of one key: from `from` on all rows have it, and after it none has. */
  ghost predicate IsRun(rows: Rows, from: nat, to: nat, key: int) {
    && from < to <= |rows|
    && (forall a :: from <= a < to ==> rows[a].key == key)
    && (forall a :: to <= a < |rows| ==> rows[a].key > key)
  }

  /** Emitting the cross product of two runs is emitting the pairs of the left run. */
  lemma RunsAreDone(r: Rows, s: Rows, i: nat, j: nat, iEnd: nat, jEnd: nat, result: seq<JoinedRow>)
    requires Sorted(r) && Sorted(s) && Passed(r, s, i, j, result)
    requires i < |r| && IsRun(r, i, iEnd, r[i].key) && IsRun(s, j, jEnd, r[i].key)
    ensures Passed(r, s, iEnd, jEnd, result + NaiveJoin(r[i..iEnd], s[j..jEnd], SameKey))
  {
    assert r[..iEnd] == r[..i] + r[i..iEnd];
    JoinConcat(r[..i], r[i..iEnd], s, SameKey);
    RunJoin(r[i..iEnd], s, j, jEnd);
  }

  lemma {:induction false} RunJoin(run: Rows, s: Rows, lo: nat, hi: nat)
    requires lo <= hi <= |s|
    requires forall a, b :: 0 <= a < |run| && 0 <= b < |s| && !(lo <= b < hi) ==> s[b].key != run[a].key
    ensures NaiveJoin(run, s, SameKey) == NaiveJoin(run, s[lo..hi], SameKey)
    decreases |run|
  {
    if run != [] {
      MatchesInRun(run[0], s, lo, hi);
      RunJoin(run[1..], s, lo, hi);
    }
  }

  /** The first position from `from` on whose row has another key. */
  method RunEnd(rows: array<Row>, from: nat) returns (end: nat, ghost steps: nat)
    requires from < rows.Length && Sorted(rows[..])
    ensures IsRun(rows[..], from, end, rows[from].key) && steps == end - from
  {
    end, steps := from, 0;
    while end < rows.Length && rows[end].key == rows[from].key
      invariant from <= end <= rows.Length && steps == end - from
      invariant forall a :: from <= a < end ==> rows[a].key == rows[from].key
    {
      steps := steps + 1;
      end := end + 1;
    }
    if end < rows.Length {
      ghost var all := rows[..];
      assert all[from].key <= all[end].key;
      assert forall a :: end <= a < |all| ==> all[end].key <= all[a].key;
    }
  }

  /** The inner emission loop: one left row with the right run. */
  method EmitRow(row: Row, s: array<Row>, j: nat, jEnd: nat) returns (pairs: seq<JoinedRow>, ghost steps: nat)
    requires j <= jEnd <= s.Length && forall b :: j <= b < jEnd ==> row.key == s[b].key
    ensures pairs == Matches(row, s[j..jEnd], SameKey) && steps == |pairs|
  {
    pairs, steps := [], 0;
    ghost var run := s[j..jEnd];
    for b := j to jEnd
      invariant pairs == Matches(row, run[..b - j], SameKey) && steps == |pairs|
    {
      steps := steps + 1;
      MatchesSnoc(row, run, b - j, SameKey);
      pairs := pairs + [JoinedRow(row, s[b])];
    }
    assert run[..jEnd - j] == run;
  }

  /** The emission loops over the two runs: their full cross product. */
  method EmitProduct(r: array<Row>, s: array<Row>, i: nat, iEnd: nat, j: nat, jEnd: nat)
    returns (pairs: seq<JoinedRow>, ghost steps: nat)
    requires i <= iEnd <= r.Length && j <= jEnd <= s.Length
    requires forall a, b :: i <= a < iEnd && j <= b < jEnd ==> r[a].key == s[b].key
    ensures pairs == NaiveJoin(r[i..iEnd], s[j..jEnd], SameKey) && steps == |pairs|
  {
    pairs, steps := [], 0;
    ghost var left, right := r[i..iEnd], s[j..jEnd];
    for a := i to iEnd
      invariant pairs == NaiveJoin(left[..a - i], right, SameKey) && steps == |pairs|
    {
      JoinSnoc(left, a - i, right, SameKey);
      var row;
      ghost var rowSteps;
      row, rowSteps := EmitRow(r[a], s, j, jEnd);
      pairs := pairs + row;
      steps := steps + rowSteps;
    }
    assert left[..iEnd - i] == left;
  }

  /** The merge phase over two sorted arrays: exactly the naive nested loop over them, with a
      number of traversal steps linear in the inputs and one emission per pair. */
  method MergePhase(r: array<Row>, s: array<Row>)
    returns (result: seq<JoinedRow>, ghost outerSteps: nat, ghost scanSteps: nat, ghost emitted: nat)
    requires Sorted(r[..]) && Sorted(s[..])
    ensures result == NaiveJoin(r[..], s[..], SameKey)
    ensures outerSteps + scanSteps <= 2 * (r.Length + s.Length) && emitted == |result|
    ensures r.Length <= outerSteps + scanSteps || s.Length <= outerSteps + scanSteps
  {
    result := [];
    outerSteps, scanSteps, emitted := 0, 0, 0;
    var i, j := 0, 0;
    ghost var R, S := r[..], s[..];
    while i < r.Length && j < s.Length
      invariant Passed(R, S, i, j, result)
      invariant i + j <= outerSteps + scanSteps <= 2 * (i + j) && emitted == |result|
      decreases r.Length - i + s.Length - j
    {
      outerSteps := outerSteps + 1;
      if r[i].key < s[j].key {
        LeftIsSmaller(R, S, i, j, result);
        i := i + 1;
      } else if r[i].key > s[j].key {
        RightIsSmaller(R, S, i, j, result);
        j := j + 1;
      } else {
        var iEnd, jEnd, pairs;
        ghost var iSteps, jSteps, pairSteps;
        iEnd, iSteps := RunEnd(r, i);
        jEnd, jSteps := RunEnd(s, j);
        RunsAreDone(R, S, i, j, iEnd, jEnd, result);
        assert R[i..iEnd] == r[i..iEnd] && S[j..jEnd] == s[j..jEnd];
        pairs, pairSteps := EmitProduct(r, s, i, iEnd, j, jEnd);
        result := result + pairs;
        scanSteps := scanSteps + iSteps + jSteps;
        emitted := emitted + pairSteps;
        i, j := iEnd, jEnd;
      }
    }
    AllPassed(R, S, i, j, result);
  }

  /** sortMergeJoin: sorts both inputs in place, then returns, as an exact sequence, the naive
      nested loop over the two sorted inputs. The inputs may be one and the same array. */
  method Join(r: array<Row>, s: array<Row>)
    returns (result: seq<JoinedRow>, ghost comparisons: nat, ghost traversal: nat, ghost emitted: nat)
    modifies r, s
    ensures r[..] == MergeSorted(old(r[..])) && s[..] == MergeSorted(old(s[..]))
    ensures result == NaiveJoin(r[..], s[..], SameKey)
    ensures IsEquiJoin(result, old(r[..]), old(s[..]))
    ensures comparisons <= r.Length * CeilLog2(r.Length) + s.Length * CeilLog2(s.Length)
    ensures traversal <= 2 * (r.Length + s.Length) && emitted == |result|
  {
    ghost var r0, s0 := r[..], s[..];
    ghost var comparisonsR := MergeSort(r);
    ghost var comparisonsS := MergeSort(s);
    if r == s {
      SortTwice(r0);
    }
    MergeSortedIsStableSort(r0);
    MergeSortedIsStableSort(s0);
    ghost var outerSteps, scanSteps;
    result, outerSteps, scanSteps, emitted := MergePhase(r, s);
    comparisons, traversal := comparisonsR + comparisonsS, outerSteps + scanSteps;
    MergeSortedPermutes(r0);
    MergeSortedPermutes(s0);
    JoinOfReordered(r[..], s[..], r0, s0, SameKey);
  }
}
