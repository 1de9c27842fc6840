/** What merge and mergeSort compute, as functions, and why that is the stable sort by key
    within n*ceil(log2 n) comparisons. */
module MergeSortSpec {
  import opened JoinSpec

  function Merged(a: Rows, b: Rows): (r: Rows)
    decreases |a| + |b|
  {
    if a == [] then b
    else if b == [] then a
    else if a[0].key <= b[0].key then [a[0]] + Merged(a[1..], b)
    else [b[0]] + Merged(a, b[1..])
  }

  /** The key comparisons merge makes on the way. */
  function MergeComparisons(a: Rows, b: Rows): nat
    decreases |a| + |b|
  {
    if a == [] || b == [] then 0
    else if a[0].key <= b[0].key then 1 + MergeComparisons(a[1..], b)
    else 1 + MergeComparisons(a, b[1..])
  }

  function MergeSorted(s: Rows): (r: Rows)
    decreases |s|
  {
    if |s| <= 1 then s
    else Merged(MergeSorted(s[..|s| / 2]), MergeSorted(s[|s| / 2..]))
  }

  function SortComparisons(s: Rows): nat
    decreases |s|
  {
    if |s| <= 1 then 0
    else
      var a, b := s[..|s| / 2], s[|s| / 2..];
      SortComparisons(a) + SortComparisons(b) + MergeComparisons(MergeSorted(a), MergeSorted(b))
  }

  ghost predicate Sorted(s: Rows) {
    forall i, j :: 0 <= i < j < |s| ==> s[i].key <= s[j].key
  }

  // ----- merge -----

  lemma {:induction false} MergedLength(a: Rows, b: Rows)
    ensures |Merged(a, b)| == |a| + |b|
    decreases |a| + |b|
  {
    if a != [] && b != [] {
      if a[0].key <= b[0].key {
        MergedLength(a[1..], b);
      } else {
        MergedLength(a, b[1..]);
      }
    }
  }

  /** Every merged row comes from one side or the other. */
  lemma {:induction false} MergedFrom(a: Rows, b: Rows, x: Row)
    requires x in Merged(a, b)
    ensures x in a || x in b
    decreases |a| + |b|
  {
    if a != [] && b != [] {
      if a[0].key <= b[0].key {
        if x != a[0] {
          MergedFrom(a[1..], b, x);
        }
      } else if x != b[0] {
        MergedFrom(a, b[1..], x);
      }
    }
  }

  lemma SortedCons(x: Row, rest: Rows)
    requires Sorted(rest) && forall y :: y in rest ==> x.key <= y.key
    ensures Sorted([x] + rest)
  {
  }

  /** Merging two sorted lists gives a sorted one. */
  lemma {:induction false} MergedSorted(a: Rows, b: Rows)
    requires Sorted(a) && Sorted(b)
    ensures Sorted(Merged(a, b))
    decreases |a| + |b|
  {
    if a != [] && b != [] {
      if a[0].key <= b[0].key {
        MergedSorted(a[1..], b);
        forall y | y in Merged(a[1..], b) ensures a[0].key <= y.key {
          MergedFrom(a[1..], b, y);
        }
        SortedCons(a[0], Merged(a[1..], b));
      } else {
        MergedSorted(a, b[1..]);
        forall y | y in Merged(a, b[1..]) ensures b[0].key <= y.key {
          MergedFrom(a, b[1..], y);
        }
        SortedCons(b[0], Merged(a, b[1..]));
      }
    }
  }

  lemma {:induction false} NoKeyRows(rows: Rows, k: int)
    requires forall x :: x in rows ==> x.key != k
    ensures KeyRows(rows, k) == []
    decreases |rows|
  {
    if rows != [] {
      NoKeyRows(rows[1..], k);
    }
  }

  lemma KeyRowsCons(x: Row, rest: Rows, k: int)
    ensures KeyRows([x] + rest, k) == (if x.key == k then [x] else []) + KeyRows(rest, k)
  {
    assert ([x] + rest)[1..] == rest;
  }

  /** Merging keeps the order of rows of one key: first the left ones, then the right ones. */
  lemma {:induction false} MergedStable(a: Rows, b: Rows, k: int)
    requires Sorted(a) && Sorted(b)
    ensures KeyRows(Merged(a, b), k) == KeyRows(a, k) + KeyRows(b, k)
    decreases |a| + |b|
  {
    if a != [] && b != [] {
      if a[0].key <= b[0].key {
        MergedStable(a[1..], b, k);
        KeyRowsCons(a[0], Merged(a[1..], b), k);
      } else {
        MergedStable(a, b[1..], k);
        KeyRowsCons(b[0], Merged(a, b[1..]), k);
        if b[0].key == k {
          NoKeyRows(a, k);
        }
      }
    }
  }

  lemma {:induction false} MergeComparisonsBound(a: Rows, b: Rows)
    ensures MergeComparisons(a, b) <= |a| + |b|
    decreases |a| + |b|
  {
    if a != [] && b != [] {
      if a[0].key <= b[0].key {
        MergeComparisonsBound(a[1..], b);
      } else {
        MergeComparisonsBound(a, b[1..]);
      }
    }
  }

  /** The rows of a list from the first one with key at least `k` on, in a sorted list. */
  function AtLeast(rows: Rows, k: int): nat
    decreases |rows|
  {
    if rows == [] then 0 else (if rows[0].key >= k then 1 else 0) + AtLeast(rows[1..], k)
  }

  /** The rows merge copies without comparing once one half is used up: the right half is used up
      first if its last key is the smaller one, and then what is left has greater keys. */
  function Uncompared(a: Rows, b: Rows): nat {
    if a == [] then |b|
    else if b == [] then |a|
    else if a[|a| - 1].key <= b[|b| - 1].key then AtLeast(b, a[|a| - 1].key)
    else AtLeast(a, b[|b| - 1].key + 1)
  }

  lemma {:induction false} AllAtLeast(rows: Rows, k: int)
    requires forall x :: x in rows ==> x.key >= k
    ensures AtLeast(rows, k) == |rows|
    decreases |rows|
  {
    if rows != [] {
      AllAtLeast(rows[1..], k);
    }
  }

  /** The exact number of comparisons of a merge of sorted halves: every row costs one, except
      those left over when one half is used up. */
  lemma {:induction false} MergeComparisonsExact(a: Rows, b: Rows)
    requires Sorted(a) && Sorted(b)
    ensures MergeComparisons(a, b) + Uncompared(a, b) == |a| + |b|
    decreases |a| + |b|
  {
    if a != [] && b != [] {
      var lastA, lastB := a[|a| - 1], b[|b| - 1];
      if a[0].key <= b[0].key {
        MergeComparisonsExact(a[1..], b);
        if |a| == 1 {
          AllAtLeast(b, a[0].key);
        } else {
          assert a[1..][|a| - 2] == lastA;
        }
      } else {
        MergeComparisonsExact(a, b[1..]);
        if |b| == 1 {
          AllAtLeast(a, b[0].key + 1);
        } else {
          assert b[1..][|b| - 2] == lastB;
        }
      }
    }
  }

  // ----- mergeSort -----

  /** The result is sorted by key and stable: rows of one key keep their input order. */
  lemma {:induction false} MergeSortedIsStableSort(s: Rows)
    ensures Sorted(MergeSorted(s))
    ensures forall k :: KeyRows(MergeSorted(s), k) == KeyRows(s, k)
    decreases |s|
  {
    if |s| > 1 {
      var a, b := s[..|s| / 2], s[|s| / 2..];
      MergeSortedIsStableSort(a);
      MergeSortedIsStableSort(b);
      MergedSorted(MergeSorted(a), MergeSorted(b));
      forall k ensures KeyRows(MergeSorted(s), k) == KeyRows(s, k) {
        MergedStable(MergeSorted(a), MergeSorted(b), k);
        KeyRowsConcat(a, b, k);
        assert s == a + b;
      }
    }
  }

  /** It is a permutation of the input. */
  lemma MergeSortedPermutes(s: Rows)
    ensures multiset(MergeSorted(s)) == multiset(s) && |MergeSorted(s)| == |s|
  {
    MergeSortedIsStableSort(s);
    SameKeyRowsSameRows(MergeSorted(s), s);
    assert |multiset(MergeSorted(s))| == |multiset(s)|;
  }

  lemma {:induction false} KeyRowsSorted(s: Rows)
    requires s != [] && Sorted(s)
    ensures KeyRows(s, s[0].key) != [] && KeyRows(s, s[0].key)[0] == s[0]
    ensures forall k :: k < s[0].key ==> KeyRows(s, k) == []
  {
    forall k | k < s[0].key ensures KeyRows(s, k) == [] {
      NoKeyRows(s, k);
    }
  }

  lemma SameTails(x: Row, p: Rows, q: Rows)
    ensures [x] + p == [x] + q ==> p == q
    ensures [] + p == p
  {
    assert ([x] + p)[1..] == p && ([x] + q)[1..] == q;
  }

  /** There is only one stable sort: a sorted list is determined by its rows of each key. */
  lemma {:induction false} StableSortIsUnique(a: Rows, b: Rows)
    requires Sorted(a) && Sorted(b) && forall k :: KeyRows(a, k) == KeyRows(b, k)
    ensures a == b
    decreases |a|
  {
    EmptyTogether(a, b);
    if a != [] {
      KeyRowsSorted(a);
      KeyRowsSorted(b);
      assert a[0] == b[0];
      forall k ensures KeyRows(a[1..], k) == KeyRows(b[1..], k) {
        assert KeyRows(a, k) == KeyRows(b, k);
        SameTails(a[0], KeyRows(a[1..], k), KeyRows(b[1..], k));
      }
      StableSortIsUnique(a[1..], b[1..]);
    }
  }

  lemma EmptyTogether(a: Rows, b: Rows)
    requires forall k :: KeyRows(a, k) == KeyRows(b, k)
    ensures a == [] <==> b == []
  {
    assert a != [] ==> KeyRows(a, a[0].key) != [];
    assert b != [] ==> KeyRows(b, b[0].key) != [];
  }

  /** Sorting a sorted list changes nothing. */
  lemma SortTwice(s: Rows)
    ensures MergeSorted(MergeSorted(s)) == MergeSorted(s)
  {
    MergeSortedIsStableSort(s);
    MergeSortedIsStableSort(MergeSorted(s));
    StableSortIsUnique(MergeSorted(MergeSorted(s)), MergeSorted(s));
  }

  // ----- comparisons -----

  /** The least number of halvings, rounding up, that brings n down to 1: ceil(log2 n). */
  function CeilLog2(n: nat): nat {
    if n <= 1 then 0 else 1 + CeilLog2((n + 1) / 2)
  }

  function Pow2(e: nat): nat {
    if e == 0 then 1 else 2 * Pow2(e - 1)
  }

  lemma {:induction false} CeilLog2IsLog(n: nat)
    requires n >= 1
    ensures n <= Pow2(CeilLog2(n))
    ensures n > 1 ==> Pow2(CeilLog2(n) - 1) < n
  {
    if n > 1 {
      CeilLog2IsLog((n + 1) / 2);
      if n > 2 {
        assert Pow2(CeilLog2((n + 1) / 2) - 1) < (n + 1) / 2;
      }
    }
  }

  lemma {:induction false} CeilLog2Grows(m: nat, n: nat)
    requires m <= n
    ensures CeilLog2(m) <= CeilLog2(n)
  {
    if m > 1 {
      CeilLog2Grows((m + 1) / 2, (n + 1) / 2);
    }
  }

  lemma HalvesCost(f: nat, c: nat, lf: nat, lc: nat)
    requires lf <= lc
    ensures f * lf + c * lc + (f + c) <= (f + c) * (lc + 1)
  {
    TimesGrows(f, lf, lc);
    Distribute(f, c, lc);
    Distribute(lc, 1, f + c);
  }

  lemma TimesGrows(f: nat, a: nat, b: nat)
    requires a <= b
    ensures f * a <= f * b
  {
    Distribute(a, b - a, f);
  }

  lemma CostOfHalves(f: nat, c: nat, lf: nat, lc: nat, costF: nat, costC: nat, merging: nat)
    requires lf <= lc && costF <= f * lf && costC <= c * lc && merging <= f + c
    ensures costF + costC + merging <= (f + c) * (lc + 1)
  {
    HalvesCost(f, c, lf, lc);
  }

  lemma {:induction false} MergeComparesSomething(a: Rows, b: Rows)
    requires a != [] && b != []
    ensures MergeComparisons(a, b) >= 1
  {
  }

  /** mergeSort cannot do with fewer than n - 1 comparisons. */
  lemma {:induction false} ComparisonsAtLeast(s: Rows)
    ensures |s| <= SortComparisons(s) + 1
    decreases |s|
  {
    if |s| > 1 {
      var a, b := s[..|s| / 2], s[|s| / 2..];
      ComparisonsAtLeast(a);
      ComparisonsAtLeast(b);
      MergeSortedPermutes(a);
      MergeSortedPermutes(b);
      MergeComparesSomething(MergeSorted(a), MergeSorted(b));
    }
  }

  /** mergeSort makes at most n*ceil(log2 n) key comparisons. */
  lemma {:induction false} ComparisonsBound(s: Rows)
    ensures SortComparisons(s) <= |s| * CeilLog2(|s|)
    decreases |s|
  {
    if |s| > 1 {
      var a, b := s[..|s| / 2], s[|s| / 2..];
      ComparisonsBound(a);
      ComparisonsBound(b);
      MergeSortedPermutes(a);
      MergeSortedPermutes(b);
      MergeComparisonsBound(MergeSorted(a), MergeSorted(b));
      assert |b| == (|s| + 1) / 2;
      CeilLog2Grows(|a|, |b|);
      CostOfHalves(|a|, |b|, CeilLog2(|a|), CeilLog2(|b|), SortComparisons(a), SortComparisons(b),
                   MergeComparisons(MergeSorted(a), MergeSorted(b)));
    }
  }
}
