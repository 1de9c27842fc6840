/** The relation every join operator computes: all pairs of rows that satisfy a predicate,
    once per pair of positions. */
module JoinSpec {
  import opened Common

  datatype Row = Row(key: int, payload: string)

  datatype JoinedRow = JoinedRow(left: Row, right: Row)

  type Rows = seq<Row>
  type Condition = (Row, Row) -> bool

  predicate SameKey(a: Row, b: Row) {
    a.key == b.key
  }

  /** The pairs of one row with each row of `inner` it matches, in the order of `inner`. */
  function Matches(r: Row, inner: Rows, p: Condition): (pairs: seq<JoinedRow>)
    decreases |inner|
  {
    if inner == [] then []
    else (if p(r, inner[0]) then [JoinedRow(r, inner[0])] else []) + Matches(r, inner[1..], p)
  }

  /** The naive nested loop: each row of `outer` in order with each row of `inner` in order. */
  function NaiveJoin(outer: Rows, inner: Rows, p: Condition): (pairs: seq<JoinedRow>)
    decreases |outer|
  {
    if outer == [] then [] else Matches(outer[0], inner, p) + NaiveJoin(outer[1..], inner, p)
  }

  /** The left rows of the pairs, in order. */
  function Lefts(pairs: seq<JoinedRow>): (r: Rows)
    ensures |r| == |pairs|
  {
    seq(|pairs|, k requires 0 <= k < |pairs| => pairs[k].left)
  }

  lemma LeftsConcat(a: seq<JoinedRow>, b: seq<JoinedRow>)
    ensures Lefts(a + b) == Lefts(a) + Lefts(b)
  {
  }

  /** The same pairs with the sides exchanged. */
  function Flip(pairs: seq<JoinedRow>): (r: seq<JoinedRow>)
    ensures |r| == |pairs|
  {
    seq(|pairs|, k requires 0 <= k < |pairs| => JoinedRow(pairs[k].right, pairs[k].left))
  }

  /** `result` holds the pairs with equal keys, each as often as it should be, in any order. */
  ghost predicate IsEquiJoin(result: seq<JoinedRow>, left: Rows, right: Rows) {
    multiset(result) == multiset(NaiveJoin(left, right, SameKey))
  }

  // ----- multiplicities -----

  lemma SplitFirst<T>(s: seq<T>)
    requires s != []
    ensures multiset(s) == multiset{s[0]} + multiset(s[1..])
  {
    assert s == [s[0]] + s[1..];
  }

  lemma {:induction false} MatchesCount(r: Row, inner: Rows, p: Condition, x: Row, y: Row)
    ensures multiset(Matches(r, inner, p))[JoinedRow(x, y)] == if x == r && p(x, y) then multiset(inner)[y] else 0
    decreases |inner|
  {
    if inner != [] {
      MatchesCount(r, inner[1..], p, x, y);
      SplitFirst(inner);
    }
  }

  lemma Distribute(a: int, b: int, c: int)
    ensures (a + b) * c == a * c + b * c
    ensures c * (a + b) == c * a + c * b
  {
  }

  /** The multiplicity of a pair, kept apart from the arithmetic that uses it. */
  function PairCount(outer: Rows, inner: Rows, p: Condition, x: Row, y: Row): nat {
    if p(x, y) then multiset(outer)[x] * multiset(inner)[y] else 0
  }

  lemma PairCountStep(outer: Rows, inner: Rows, p: Condition, x: Row, y: Row)
    requires outer != []
    ensures PairCount(outer, inner, p, x, y) ==
            (if x == outer[0] && p(x, y) then multiset(inner)[y] else 0) + PairCount(outer[1..], inner, p, x, y)
  {
    SplitFirst(outer);
    var n, m := multiset(outer[1..])[x], multiset(inner)[y];
    Distribute(1, n, m);
  }

  lemma PairCountSplit(outer: Rows, a: Rows, b: Rows, p: Condition, x: Row, y: Row)
    ensures PairCount(outer, a + b, p, x, y) == PairCount(outer, a, p, x, y) + PairCount(outer, b, p, x, y)
  {
    Distribute(multiset(a)[y], multiset(b)[y], multiset(outer)[x]);
  }

  /** A pair occurs in the join as often as its rows occur together in the inputs if it
      satisfies the predicate, else not at all. */
  lemma {:induction false} JoinCount(outer: Rows, inner: Rows, p: Condition, x: Row, y: Row)
    ensures multiset(NaiveJoin(outer, inner, p))[JoinedRow(x, y)] == PairCount(outer, inner, p, x, y)
    decreases |outer|
  {
    if outer != [] {
      JoinCount(outer[1..], inner, p, x, y);
      MatchesCount(outer[0], inner, p, x, y);
      PairCountStep(outer, inner, p, x, y);
    }
  }

  /** Two lists of pairs in which every pair occurs equally often have the same pairs. */
  lemma SamePairs(a: seq<JoinedRow>, b: seq<JoinedRow>)
    requires forall x, y :: multiset(a)[JoinedRow(x, y)] == multiset(b)[JoinedRow(x, y)]
    ensures multiset(a) == multiset(b)
  {
    forall pair: JoinedRow ensures multiset(a)[pair] == multiset(b)[pair] {
      assert pair == JoinedRow(pair.left, pair.right);
    }
  }

  /** Reordering the inputs reorders the output. */
  lemma JoinOfReordered(outer: Rows, inner: Rows, outer': Rows, inner': Rows, p: Condition)
    requires multiset(outer) == multiset(outer') && multiset(inner) == multiset(inner')
    ensures multiset(NaiveJoin(outer, inner, p)) == multiset(NaiveJoin(outer', inner', p))
  {
    var a, b := NaiveJoin(outer, inner, p), NaiveJoin(outer', inner', p);
    forall x, y ensures multiset(a)[JoinedRow(x, y)] == multiset(b)[JoinedRow(x, y)] {
      JoinCount(outer, inner, p, x, y);
      JoinCount(outer', inner', p, x, y);
    }
    SamePairs(a, b);
  }

  lemma {:induction false} FlipCount(pairs: seq<JoinedRow>, x: Row, y: Row)
    ensures multiset(Flip(pairs))[JoinedRow(y, x)] == multiset(pairs)[JoinedRow(x, y)]
    decreases |pairs|
  {
    if pairs != [] {
      FlipCount(pairs[1..], x, y);
      SplitFirst(pairs);
      SplitFirst(Flip(pairs));
      assert Flip(pairs)[1..] == Flip(pairs[1..]);
    }
  }

  /** Exchanging the two inputs only flips each pair, for the mirrored predicate. */
  lemma ExchangeFlips(left: Rows, right: Rows, p: Condition, mirrored: Condition)
    requires forall x, y :: mirrored(y, x) == p(x, y)
    ensures multiset(Flip(NaiveJoin(left, right, p))) == multiset(NaiveJoin(right, left, mirrored))
  {
    var a, b := Flip(NaiveJoin(left, right, p)), NaiveJoin(right, left, mirrored);
    forall y, x ensures multiset(a)[JoinedRow(y, x)] == multiset(b)[JoinedRow(y, x)] {
      FlipCount(NaiveJoin(left, right, p), x, y);
      JoinCount(left, right, p, x, y);
      JoinCount(right, left, mirrored, y, x);
    }
    SamePairs(a, b);
  }

  lemma FlipOfSame(a: seq<JoinedRow>, b: seq<JoinedRow>)
    requires multiset(a) == multiset(b)
    ensures multiset(Flip(a)) == multiset(Flip(b))
  {
    forall y, x ensures multiset(Flip(a))[JoinedRow(y, x)] == multiset(Flip(b))[JoinedRow(y, x)] {
      FlipCount(a, x, y);
      FlipCount(b, x, y);
    }
    SamePairs(Flip(a), Flip(b));
  }

  /** An equality join with probe and build sides exchanged holds the same pairs, flipped. */
  lemma SidesExchange(result: seq<JoinedRow>, left: Rows, right: Rows)
    requires IsEquiJoin(result, left, right)
    ensures IsEquiJoin(Flip(result), right, left)
  {
    FlipOfSame(result, NaiveJoin(left, right, SameKey));
    ExchangeFlips(left, right, SameKey, SameKey);
  }

  // ----- growing a join -----

  lemma {:induction false} MatchesConcat(r: Row, a: Rows, b: Rows, p: Condition)
    ensures Matches(r, a + b, p) == Matches(r, a, p) + Matches(r, b, p)
    decreases |a|
  {
    if a == [] {
      assert a + b == b;
    } else {
      assert (a + b)[1..] == a[1..] + b;
      MatchesConcat(r, a[1..], b, p);
      Reassociate(if p(r, a[0]) then [JoinedRow(r, a[0])] else [], Matches(r, a[1..], p), Matches(r, b, p));
    }
  }

  lemma MatchesSnoc(r: Row, inner: Rows, j: nat, p: Condition)
    requires j < |inner|
    ensures Matches(r, inner[..j + 1], p) ==
            Matches(r, inner[..j], p) + (if p(r, inner[j]) then [JoinedRow(r, inner[j])] else [])
  {
    assert inner[..j + 1] == inner[..j] + [inner[j]];
    MatchesConcat(r, inner[..j], [inner[j]], p);
    assert Matches(r, [inner[j]][1..], p) == [];
  }

  lemma {:induction false} JoinConcat(a: Rows, b: Rows, inner: Rows, p: Condition)
    ensures NaiveJoin(a + b, inner, p) == NaiveJoin(a, inner, p) + NaiveJoin(b, inner, p)
    decreases |a|
  {
    if a == [] {
      assert a + b == b;
    } else {
      assert (a + b)[1..] == a[1..] + b;
      JoinConcat(a[1..], b, inner, p);
      Reassociate(Matches(a[0], inner, p), NaiveJoin(a[1..], inner, p), NaiveJoin(b, inner, p));
    }
  }

  lemma JoinSnoc(outer: Rows, i: nat, inner: Rows, p: Condition)
    requires i < |outer|
    ensures NaiveJoin(outer[..i + 1], inner, p) ==
            NaiveJoin(outer[..i], inner, p) + Matches(outer[i], inner, p)
  {
    assert outer[..i + 1] == outer[..i] + [outer[i]];
    JoinConcat(outer[..i], [outer[i]], inner, p);
    assert NaiveJoin([outer[i]], inner, p) == Matches(outer[i], inner, p) + NaiveJoin([outer[i]][1..], inner, p);
  }

  /** Cutting the inner input splits the pairs. */
  lemma {:induction false} JoinSplitInner(outer: Rows, a: Rows, b: Rows, p: Condition)
    ensures multiset(NaiveJoin(outer, a + b, p)) ==
            multiset(NaiveJoin(outer, a, p)) + multiset(NaiveJoin(outer, b, p))
  {
    var whole := NaiveJoin(outer, a + b, p);
    var parts := NaiveJoin(outer, a, p) + NaiveJoin(outer, b, p);
    forall x, y ensures multiset(whole)[JoinedRow(x, y)] == multiset(parts)[JoinedRow(x, y)] {
      JoinCount(outer, a + b, p, x, y);
      JoinCount(outer, a, p, x, y);
      JoinCount(outer, b, p, x, y);
      PairCountSplit(outer, a, b, p, x, y);
    }
    SamePairs(whole, parts);
  }

  // ----- rows of one key -----

  /** The rows with one key, in their order. */
  function KeyRows(rows: Rows, k: int): (r: Rows)
    decreases |rows|
  {
    if rows == [] then [] else (if rows[0].key == k then [rows[0]] else []) + KeyRows(rows[1..], k)
  }

  lemma {:induction false} KeyRowsConcat(a: Rows, b: Rows, k: int)
    ensures KeyRows(a + b, k) == KeyRows(a, k) + KeyRows(b, k)
    decreases |a|
  {
    if a == [] {
      assert a + b == b;
    } else {
      assert (a + b)[1..] == a[1..] + b;
      KeyRowsConcat(a[1..], b, k);
      Reassociate(if a[0].key == k then [a[0]] else [], KeyRows(a[1..], k), KeyRows(b, k));
    }
  }

  lemma {:induction false} KeyRowsCount(rows: Rows, k: int, x: Row)
    ensures multiset(KeyRows(rows, k))[x] == if x.key == k then multiset(rows)[x] else 0
    decreases |rows|
  {
    if rows != [] {
      KeyRowsCount(rows[1..], k, x);
      SplitFirst(rows);
    }
  }

  /** Lists that agree on the rows of every key have the same rows. */
  lemma SameKeyRowsSameRows(a: Rows, b: Rows)
    requires forall k :: KeyRows(a, k) == KeyRows(b, k)
    ensures multiset(a) == multiset(b)
  {
    forall x: Row ensures multiset(a)[x] == multiset(b)[x] {
      KeyRowsCount(a, x.key, x);
      KeyRowsCount(b, x.key, x);
    }
  }
}
