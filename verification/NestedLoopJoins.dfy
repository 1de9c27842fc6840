/** The naive nested loop join, its block variant with the page counter, and the agreement
    of all equality joins. */
module NestedLoopJoins {
  import opened Common
  import opened JoinSpec
  import opened MergeSortSpec

  /** nestedLoopJoin calls its predicate with the inner row first. */
  function InnerFirst(condition: Condition): Condition {
    (outerRow, innerRow) => condition(innerRow, outerRow)
  }

  /** nestedLoopJoin: outer row by outer row, each pair written inner row first and tested
      inner row first - the flipped naive join, as an exact sequence; as a collection, the
      naive join with the tables exchanged. */
  method NestedLoopJoin(outer: Rows, inner: Rows, condition: Condition) returns (res: seq<JoinedRow>)
    ensures res == Flip(NaiveJoin(outer, inner, InnerFirst(condition)))
    ensures multiset(res) == multiset(NaiveJoin(inner, outer, condition))
  {
    ghost var p := InnerFirst(condition);
    res := [];
    for i := 0 to |outer|
      invariant res == Flip(NaiveJoin(outer[..i], inner, p))
    {
      ghost var before := res;
      for j := 0 to |inner|
        invariant res == before + Flip(Matches(outer[i], inner[..j], p))
      {
        MatchesSnoc(outer[i], inner, j, p);
        if condition(inner[j], outer[i]) {
          res := res + [JoinedRow(inner[j], outer[i])];
        }
      }
      assert inner[..|inner|] == inner;
      JoinSnoc(outer, i, inner, p);
    }
    assert outer[..|outer|] == outer;
    ExchangeFlips(outer, inner, p, condition);
  }

  // ----- block nested loop -----

  type Page = Rows
  type Table = seq<Page>

  function Flatten(t: Table): Rows
    decreases |t|
  {
    if t == [] then [] else t[0] + Flatten(t[1..])
  }

  lemma {:induction false} FlattenConcat(a: Table, b: Table)
    ensures Flatten(a + b) == Flatten(a) + Flatten(b)
    decreases |a|
  {
    if a == [] {
      assert a + b == b;
    } else {
      assert (a + b)[1..] == a[1..] + b;
      FlattenConcat(a[1..], b);
      Reassociate(a[0], Flatten(a[1..]), Flatten(b));
    }
  }

  lemma FlattenSnoc(t: Table, i: nat)
    requires i < |t|
    ensures Flatten(t[..i + 1]) == Flatten(t[..i]) + t[i]
  {
    assert t[..i + 1] == t[..i] + [t[i]];
    FlattenConcat(t[..i], [t[i]]);
    assert Flatten([t[i]][1..]) == [];
  }

  /** Rounded-up division. */
  function CeilDiv(m: nat, b: nat): nat
    requires b > 0
  {
    (m + b - 1) / b
  }

  /** `k` steps of `b`. */
  function Times(k: nat, b: nat): nat {
    if k == 0 then 0 else Times(k - 1, b) + b
  }

  lemma {:induction false} TimesIsProduct(k: nat, b: nat)
    ensures Times(k, b) == k * b
  {
    if k > 0 {
      TimesIsProduct(k - 1, b);
      Distribute(k - 1, 1, b);
    }
  }

  /** Rows of one outer page against one inner page: the two innermost loops. */
  method JoinPage(outerPage: Page, page: Page, condition: Condition) returns (pairs: seq<JoinedRow>)
    ensures pairs == NaiveJoin(outerPage, page, condition)
  {
    pairs := [];
    for i := 0 to |outerPage|
      invariant pairs == NaiveJoin(outerPage[..i], page, condition)
    {
      ghost var before := pairs;
      for j := 0 to |page|
        invariant pairs == before + Matches(outerPage[i], page[..j], condition)
      {
        MatchesSnoc(outerPage[i], page, j, condition);
        if condition(outerPage[i], page[j]) {
          pairs := pairs + [JoinedRow(outerPage[i], page[j])];
        }
      }
      assert page[..|page|] == page;
      JoinSnoc(outerPage, i, page, condition);
    }
    assert outerPage[..|outerPage|] == outerPage;
  }

  /** One inner page against all the pages of a block. */
  method JoinBlockWithPage(block: Table, page: Page, condition: Condition) returns (pairs: seq<JoinedRow>)
    ensures pairs == NaiveJoin(Flatten(block), page, condition)
  {
    pairs := [];
    for p := 0 to |block|
      invariant pairs == NaiveJoin(Flatten(block[..p]), page, condition)
    {
      var more := JoinPage(block[p], page, condition);
      pairs := pairs + more;
      FlattenSnoc(block, p);
      JoinConcat(Flatten(block[..p]), block[p], page, condition);
    }
    assert block[..|block|] == block;
  }

  /** The pairs of a block in the order they are emitted: inner page by inner page, and under
      each page the rows of the block in order. */
  function BlockPairs(block: Rows, inner: Table, p: Condition): seq<JoinedRow>
    decreases |inner|
  {
    if inner == [] then [] else NaiveJoin(block, inner[0], p) + BlockPairs(block, inner[1..], p)
  }

  /** The pairs of all the blocks in order. */
  function BlockedJoin(outer: Table, inner: Table, p: Condition, blockSizePages: nat): seq<JoinedRow>
    requires blockSizePages > 0 || outer == []
    decreases |outer|
  {
    if outer == [] then []
    else
      var size := Min(blockSizePages, |outer|);
      BlockPairs(Flatten(outer[..size]), inner, p) + BlockedJoin(outer[size..], inner, p, blockSizePages)
  }

  /** Whatever the order of emission, a block gives the pairs of its rows with the inner rows. */
  lemma {:induction false} BlockPairsAreJoin(block: Rows, inner: Table, p: Condition)
    ensures multiset(BlockPairs(block, inner, p)) == multiset(NaiveJoin(block, Flatten(inner), p))
    decreases |inner|
  {
    if inner == [] {
      JoinNothing(block, p);
    } else {
      BlockPairsAreJoin(block, inner[1..], p);
      JoinSplitInner(block, inner[0], Flatten(inner[1..]), p);
    }
  }

  lemma SplitAtBlock(outer: Table, size: nat, inner: Rows, p: Condition)
    requires size <= |outer|
    ensures NaiveJoin(Flatten(outer), inner, p) ==
            NaiveJoin(Flatten(outer[..size]), inner, p) + NaiveJoin(Flatten(outer[size..]), inner, p)
  {
    assert outer == outer[..size] + outer[size..];
    FlattenConcat(outer[..size], outer[size..]);
    JoinConcat(Flatten(outer[..size]), Flatten(outer[size..]), inner, p);
  }

  /** For every block size the blocks give the pairs of the naive join of the flattened tables. */
  lemma {:induction false} BlockedJoinIsJoin(outer: Table, inner: Table, p: Condition, blockSizePages: nat)
    requires blockSizePages > 0 || outer == []
    ensures multiset(BlockedJoin(outer, inner, p, blockSizePages)) == multiset(NaiveJoin(Flatten(outer), Flatten(inner), p))
    decreases |outer|
  {
    hide BlockPairs;
    if outer != [] {
      var size := Min(blockSizePages, |outer|);
      BlockPairsAreJoin(Flatten(outer[..size]), inner, p);
      BlockedJoinIsJoin(outer[size..], inner, p, blockSizePages);
      SplitAtBlock(outer, size, Flatten(inner), p);
    }
  }

  /** With a single inner page the emission order is that of the naive join itself. */
  lemma {:induction false} OneInnerPage(outer: Table, page: Page, p: Condition, blockSizePages: nat)
    requires blockSizePages > 0 || outer == []
    ensures BlockedJoin(outer, [page], p, blockSizePages) == NaiveJoin(Flatten(outer), page, p)
    decreases |outer|
  {
    if outer != [] {
      var size := Min(blockSizePages, |outer|);
      OneInnerPage(outer[size..], page, p, blockSizePages);
      OnePage(Flatten(outer[..size]), page, p);
      SplitAtBlock(outer, size, page, p);
    }
  }

  /** The inner pages are read in their order. */
  lemma {:induction false} BlockPairsConcat(block: Rows, a: Table, b: Table, p: Condition)
    ensures BlockPairs(block, a + b, p) == BlockPairs(block, a, p) + BlockPairs(block, b, p)
    decreases |a|
  {
    if a == [] {
      assert a + b == b;
    } else {
      assert (a + b)[1..] == a[1..] + b;
      BlockPairsConcat(block, a[1..], b, p);
      Reassociate(NaiveJoin(block, a[0], p), BlockPairs(block, a[1..], p), BlockPairs(block, b, p));
    }
  }

  lemma OnePage(block: Rows, page: Page, p: Condition)
    ensures BlockPairs(block, [page], p) == NaiveJoin(block, page, p)
  {
    assert BlockPairs(block, [page][1..], p) == [];
  }

  /** The blocks are joined in their order: a first full block comes out before the rest. */
  lemma BlocksInOrder(first: Table, rest: Table, inner: Table, p: Condition, blockSizePages: nat)
    requires blockSizePages > 0 && |first| == blockSizePages
    ensures BlockedJoin(first + rest, inner, p, blockSizePages) ==
            BlockedJoin(first, inner, p, blockSizePages) + BlockedJoin(rest, inner, p, blockSizePages)
    ensures BlockedJoin(first, inner, p, blockSizePages) == BlockPairs(Flatten(first), inner, p)
  {
    var all := first + rest;
    assert all[..blockSizePages] == first && all[blockSizePages..] == rest;
    assert first[..blockSizePages] == first && first[blockSizePages..] == [];
  }

  /** One block against the whole inner table, reading each of its pages once. */
  method JoinBlock(block: Table, inner: Table, condition: Condition, pageIOCount: int)
    returns (pairs: seq<JoinedRow>, pageIO: int)
    ensures pairs == BlockPairs(Flatten(block), inner, condition)
    ensures pageIO == pageIOCount + |inner|
  {
    pairs, pageIO := [], pageIOCount;
    for k := 0 to |inner|
      invariant pageIO == pageIOCount + k
      invariant pairs == BlockPairs(Flatten(block), inner[..k], condition)
    {
      pageIO := pageIO + 1;
      var more := JoinBlockWithPage(block, inner[k], condition);
      pairs := pairs + more;
      assert inner[..k + 1] == inner[..k] + [inner[k]];
      BlockPairsConcat(Flatten(block), inner[..k], [inner[k]], condition);
      OnePage(Flatten(block), inner[k], condition);
    }
    assert inner[..|inner|] == inner;
  }

  lemma {:induction false} JoinNothing(outer: Rows, p: Condition)
    ensures NaiveJoin(outer, [], p) == []
    decreases |outer|
  {
    if outer != [] {
      JoinNothing(outer[1..], p);
    }
  }

  /** The pairs of the blocks before `done` are out, the others still to come. */
  ghost predicate JoinedPages(result: seq<JoinedRow>, outer: Table, done: nat, inner: Table, p: Condition,
                              blockSizePages: nat)
  {
    && done <= |outer| && (blockSizePages > 0 || outer == [])
    && result + BlockedJoin(outer[done..], inner, p, blockSizePages) == BlockedJoin(outer, inner, p, blockSizePages)
  }

  lemma NoBlockDone(outer: Table, inner: Table, p: Condition, blockSizePages: nat)
    requires blockSizePages > 0 || outer == []
    ensures JoinedPages([], outer, 0, inner, p, blockSizePages)
  {
    assert outer[0..] == outer;
  }

  lemma BlockDone(result: seq<JoinedRow>, outer: Table, from: nat, inner: Table, p: Condition, blockSizePages: nat)
    requires from < |outer| && JoinedPages(result, outer, from, inner, p, blockSizePages)
    ensures var to := Min(from + blockSizePages, |outer|);
            JoinedPages(result + BlockPairs(Flatten(outer[from..to]), inner, p), outer, to, inner, p, blockSizePages)
  {
    var to := Min(from + blockSizePages, |outer|);
    assert outer[from..][..to - from] == outer[from..to];
    assert outer[from..][to - from..] == outer[to..];
    Reassociate(result, BlockPairs(Flatten(outer[from..to]), inner, p), BlockedJoin(outer[to..], inner, p, blockSizePages));
  }

  lemma AllBlocksDone(result: seq<JoinedRow>, outer: Table, inner: Table, p: Condition, blockSizePages: nat)
    requires JoinedPages(result, outer, |outer|, inner, p, blockSizePages)
    ensures result == BlockedJoin(outer, inner, p, blockSizePages)
  {
    assert outer[|outer|..] == [];
  }

  /** The loop over the blocks. */
  method JoinBlocks(outer: Table, inner: Table, condition: Condition, blockSizePages: nat, pageIOCount: int)
    returns (result: seq<JoinedRow>, pageIO: int, ghost blocks: nat)
    requires blockSizePages > 0 || outer == []
    ensures result == BlockedJoin(outer, inner, condition, blockSizePages)
    ensures blocks > 0 ==> Times(blocks - 1, blockSizePages) < |outer|
    ensures |outer| <= Times(blocks, blockSizePages)
    ensures pageIO == pageIOCount + Times(blocks, |inner|)
  {
    hide JoinedPages, BlockedJoin, BlockPairs, Flatten;
    result, pageIO := [], pageIOCount;
    var pages := |outer|;
    var blockStart := 0;
    ghost var done := 0;
    blocks := 0;
    NoBlockDone(outer, inner, condition, blockSizePages);
    while blockStart < pages
      invariant blockStart == Times(blocks, blockSizePages) && done == Min(blockStart, pages)
      invariant blocks > 0 ==> Times(blocks - 1, blockSizePages) < pages
      invariant pageIO == pageIOCount + Times(blocks, |inner|)
      invariant JoinedPages(result, outer, done, inner, condition, blockSizePages)
      decreases pages - blockStart
    {
      var blockEnd := Min(blockStart + blockSizePages, pages);
      var pairs;
      pairs, pageIO := JoinBlock(outer[blockStart..blockEnd], inner, condition, pageIO);
      BlockDone(result, outer, blockStart, inner, condition, blockSizePages);
      result := result + pairs;
      done, blocks := blockEnd, blocks + 1;
      blockStart := blockStart + blockSizePages;
    }
    AllBlocksDone(result, outer, inner, condition, blockSizePages);
  }

  /** blockNestedLoopJoin: the pairs of the flattened tables that satisfy the predicate, outer
      row first, for every block size, emitted block by block, inner page by inner page and row
      by row; the page counter rises by M + ceil(M/B)*N. */
  method BlockNestedLoopJoin(outer: Table, inner: Table, condition: Condition, blockSizePages: nat, pageIOCount: int)
    returns (result: seq<JoinedRow>, pageIO: int)
    requires blockSizePages > 0 || outer == []
    ensures result == BlockedJoin(outer, inner, condition, blockSizePages)
    ensures multiset(result) == multiset(NaiveJoin(Flatten(outer), Flatten(inner), condition))
    ensures pageIO == pageIOCount + |outer| +
                      (if outer == [] then 0 else CeilDiv(|outer|, blockSizePages) * |inner|)
  {
    ghost var blocks;
    result, pageIO, blocks := JoinBlocks(outer, inner, condition, blockSizePages, pageIOCount + |outer|);
    BlockedJoinIsJoin(outer, inner, condition, blockSizePages);
    if outer != [] {
      BlockCount(blocks, blockSizePages, |outer|);
      TimesIsProduct(blocks, |inner|);
    }
  }

  function Min(a: nat, b: nat): nat {
    if a < b then a else b
  }

  /** The number of blocks that just cover m pages is ceil(m/b). */
  lemma BlockCount(k: nat, b: nat, m: nat)
    requires b > 0 && k > 0 && Times(k - 1, b) < m <= Times(k, b)
    ensures k == CeilDiv(m, b)
  {
    TimesIsProduct(k, b);
    TimesIsProduct(CeilDiv(m, b), b);
    QuotientBounds(m + b - 1, b);
    UniqueQuotient(CeilDiv(m, b), k, b, m + b - 1);
  }

  lemma QuotientBounds(x: nat, b: nat)
    requires b > 0
    ensures x / b * b <= x < x / b * b + b
  {
  }

  lemma UniqueQuotient(q: nat, k: nat, b: nat, x: nat)
    requires Times(q, b) <= x < Times(q, b) + b && Times(k, b) <= x < Times(k, b) + b
    ensures q == k
  {
    NoSmallerQuotient(q, k, b, x);
    NoSmallerQuotient(k, q, b, x);
  }

  lemma NoSmallerQuotient(q: nat, k: nat, b: nat, x: nat)
    requires x < Times(q, b) + b && Times(k, b) <= x
    ensures k <= q
  {
    if q < k {
      TimesGrow(q + 1, k, b);
    }
  }

  lemma {:induction false} TimesGrow(q: nat, k: nat, b: nat)
    requires q <= k
    ensures Times(q, b) <= Times(k, b)
  {
    if q < k {
      TimesGrow(q, k - 1, b);
    }
  }

  // ----- all equality joins agree -----

  /** nestedLoopJoin with key equality gives the equality join with its orientation swapped. */
  lemma NestedLoopAgrees(outer: Rows, inner: Rows, res: seq<JoinedRow>)
    requires res == Flip(NaiveJoin(outer, inner, InnerFirst(SameKey)))
    ensures IsEquiJoin(res, inner, outer) && IsEquiJoin(Flip(res), outer, inner)
  {
    ExchangeFlips(outer, inner, InnerFirst(SameKey), SameKey);
    SidesExchange(res, inner, outer);
  }

  /** Any two results that are equality joins of the same inputs hold the same pairs, and the
      result over sorted inputs is one of them. */
  lemma {:induction false} EquiJoinsAgree(a: seq<JoinedRow>, b: seq<JoinedRow>, left: Rows, right: Rows)
    requires IsEquiJoin(a, left, right) && IsEquiJoin(b, MergeSorted(left), MergeSorted(right))
    ensures multiset(a) == multiset(b)
  {
    MergeSortedPermutes(left);
    MergeSortedPermutes(right);
    JoinOfReordered(left, right, MergeSorted(left), MergeSorted(right), SameKey);
  }
}
