/** Vocabulary shared by the models: optional values, the set of threads at a given
    stage, the effect of the two notify operations on a list of stages, and totals. */
module Common {

  datatype Option<+T> = None | Some(value: T)

  /** The threads (or calls) that are at `stage`. */
  function At<T(==)>(stages: seq<T>, stage: T): (r: set<nat>)
    ensures forall i: nat :: i in r <==> i < |stages| && stages[i] == stage
  {
    set i: nat | i < |stages| && stages[i] == stage
  }

  /** Moving one thread changes the set of threads at a stage by at most that thread. */
  lemma AtUpdate<T>(stages: seq<T>, i: nat, to: T, stage: T)
    requires i < |stages|
    ensures At(stages[i := to], stage) ==
            if to == stage then At(stages, stage) + {i} else At(stages, stage) - {i}
  {
  }

  /** A thread list without a stage has nobody at it. */
  lemma AtAppend<T>(stages: seq<T>, last: T, stage: T)
    ensures At(stages + [last], stage) ==
            if last == stage then At(stages, stage) + {|stages|} else At(stages, stage)
  {
  }

  /** `notify_one` may wake `choice`: any one sleeper, or nobody when nobody sleeps. */
  predicate MayNotify<T(==)>(stages: seq<T>, asleep: T, choice: Option<nat>) {
    match choice
    case None => At(stages, asleep) == {}
    case Some(i) => i < |stages| && stages[i] == asleep
  }

  /** The stages after `notify_one` woke `choice`. */
  function NotifyOne<T>(stages: seq<T>, woken: T, choice: Option<nat>): (r: seq<T>)
    requires choice.Some? ==> choice.value < |stages|
  {
    match choice
    case None => stages
    case Some(i) => stages[i := woken]
  }

  /** The stages after `notify_all`: every sleeper is woken. */
  function NotifyAll<T(==)>(stages: seq<T>, asleep: T, woken: T): (r: seq<T>)
    ensures |r| == |stages|
    ensures forall i :: 0 <= i < |r| ==> r[i] == if stages[i] == asleep then woken else stages[i]
  {
    seq(|stages|, i requires 0 <= i < |stages| => if stages[i] == asleep then woken else stages[i])
  }

  /** The total weight of a list of stages. */
  function Total<T>(stages: seq<T>, weight: T -> nat): nat {
    if stages == [] then 0 else weight(stages[0]) + Total(stages[1..], weight)
  }

  lemma {:induction false} TotalUpdate<T>(stages: seq<T>, weight: T -> nat, i: nat, to: T)
    requires i < |stages|
    ensures Total(stages[i := to], weight) + weight(stages[i]) == Total(stages, weight) + weight(to)
  {
    if i == 0 {
      assert stages[0 := to][1..] == stages[1..];
    } else {
      assert stages[i := to][1..] == stages[1..][i - 1 := to];
      TotalUpdate(stages[1..], weight, i - 1, to);
    }
  }

  lemma {:induction false} TotalAppend<T>(stages: seq<T>, weight: T -> nat, last: T)
    ensures Total(stages + [last], weight) == Total(stages, weight) + weight(last)
  {
    if stages == [] {
      assert stages + [last] == [last];
    } else {
      assert (stages + [last])[1..] == stages[1..] + [last];
      TotalAppend(stages[1..], weight, last);
    }
  }

  /** Waking sleepers never adds weight when a woken thread weighs no more. */
  lemma {:induction false} TotalNotifyAll<T>(stages: seq<T>, weight: T -> nat, asleep: T, woken: T)
    requires weight(woken) <= weight(asleep)
    ensures Total(NotifyAll(stages, asleep, woken), weight) <= Total(stages, weight)
    ensures weight(woken) == weight(asleep) ==> Total(NotifyAll(stages, asleep, woken), weight) == Total(stages, weight)
  {
    if stages != [] {
      assert NotifyAll(stages, asleep, woken)[1..] == NotifyAll(stages[1..], asleep, woken);
      TotalNotifyAll(stages[1..], weight, asleep, woken);
    }
  }

  /** A thread that still has weight makes the total positive. */
  lemma {:induction false} TotalAtLeast<T>(stages: seq<T>, weight: T -> nat, i: nat)
    requires i < |stages|
    ensures weight(stages[i]) <= Total(stages, weight)
  {
    if i > 0 {
      TotalAtLeast(stages[1..], weight, i - 1);
    }
  }

  /** Totals compare as their weights do. */
  lemma {:induction false} TotalAtMost<T>(stages: seq<T>, small: T -> nat, large: T -> nat)
    requires forall x :: x in stages ==> small(x) <= large(x)
    ensures Total(stages, small) <= Total(stages, large)
  {
    if stages != [] {
      TotalAtMost(stages[1..], small, large);
    }
  }

  predicate Distinct<T(==)>(s: seq<T>) {
    forall j, k :: 0 <= j < k < |s| ==> s[j] != s[k]
  }

  ghost function Below(n: nat): (r: set<nat>)
    ensures |r| == n && forall i: nat :: i in r <==> i < n
  {
    if n == 0 then {} else Below(n - 1) + {n - 1}
  }

  ghost function Elements(s: seq<nat>): (r: set<nat>)
    requires Distinct(s)
    ensures |r| == |s| && forall x :: x in r <==> x in s
  {
    if s == [] then {}
    else
      assert s[0] !in s[1..];
      {s[0]} + Elements(s[1..])
  }

  /** Different numbers below `n` are at most `n`, and exactly `n` when they are all of them. */
  lemma DistinctBelow(s: seq<nat>, n: nat)
    requires Distinct(s) && forall k :: 0 <= k < |s| ==> s[k] < n
    ensures |s| <= n
    ensures (forall i: nat :: i < n ==> i in s) ==> |s| == n
  {
    SubsetSize(Elements(s), Below(n));
    if forall i: nat :: i < n ==> i in s {
      SubsetSize(Below(n), Elements(s));
    }
  }

  lemma SubsetSize<T>(a: set<T>, b: set<T>)
    requires a <= b
    ensures |a| <= |b|
  {
    assert b == a + (b - a);
  }

  lemma Reassociate<T>(a: seq<T>, b: seq<T>, c: seq<T>)
    ensures a + (b + c) == (a + b) + c
  {
  }

  /** A slice of a prefix is a slice of the whole. */
  lemma SliceOfPrefix<T>(s: seq<T>, n: nat, lo: nat, hi: nat)
    requires lo <= hi <= n <= |s|
    ensures s[..n][lo..hi] == s[lo..hi]
  {
    forall k | 0 <= k < hi - lo ensures s[..n][lo..hi][k] == s[lo..hi][k] {
    }
  }
}
