/** The ring buffer as the object the source declares: a fixed array with a head, a tail and
    a count, updated in place. Each method is one locked pass and is proved to take the
    unbounded-history machine of QueueSpec through the same step. */
module BoundedQueue {
  import opened Common
  import opened QueueSpec

  /** An index at most one lap ahead wraps by subtraction. */
  lemma Wrap(x: nat, m: nat)
    requires 0 < m && x < 2 * m
    ensures x % m == if x < m then x else x - m
  {
    if x >= m {
      assert x == 1 * m + (x - m);
    }
  }

  /** The cell of the element `i` places after the head. */
  function Slot(head: nat, i: nat, m: nat): (r: nat)
    requires head < m && i <= m
    ensures r == if head + i < m then head + i else head + i - m
  {
    Wrap(head + i, m);
    (head + i) % m
  }

  /** The `n` elements of a ring from `head` on. */
  function Ring<T>(cells: seq<T>, head: nat, n: nat): (r: seq<T>)
    requires n <= |cells| && (n > 0 ==> head < |cells|)
    ensures |r| == n
    ensures forall i :: 0 <= i < n ==> r[i] == cells[Slot(head, i, |cells|)]
  {
    seq(n, i requires 0 <= i < n => cells[Slot(head, i, |cells|)])
  }

  /** Writing the cell after the last element appends it. */
  lemma RingPush<T>(cells: seq<T>, head: nat, n: nat, el: T)
    requires n < |cells| && head < |cells|
    ensures Ring(cells[Slot(head, n, |cells|) := el], head, n + 1) == Ring(cells, head, n) + [el]
  {
  }

  /** Moving the head one cell on drops the first element. */
  lemma RingPop<T>(cells: seq<T>, head: nat, n: nat)
    requires 0 < n <= |cells| && head < |cells|
    ensures Ring(cells, head, n)[0] == cells[head]
    ensures Ring(cells, Slot(head, 1, |cells|), n - 1) == Ring(cells, head, n)[1..]
  {
    var next := Slot(head, 1, |cells|);
    forall i | 0 <= i < n - 1 ensures Slot(next, i, |cells|) == Slot(head, i + 1, |cells|) {
    }
  }

  class Queue<T(0)> {
    var data: array<T>
    var head: nat
    var tail: nat
    var count: nat
    var maxCapacity: nat
    // the calls in progress or over
    var elements: seq<T>
    var enqueues: seq<CallStage>
    var dequeues: seq<CallStage>
    // history
    ghost var answers: map<nat, T>
    ghost var enqueued: seq<T>
    ghost var putters: seq<nat>
    ghost var dequeued: seq<T>
    ghost var takers: seq<nat>

    /** `tail == (head + count) % maxCapacity` is what the source maintains with two moduli. */
    ghost predicate RingOk()
      reads this
    {
      && data.Length == maxCapacity
      && count <= maxCapacity
      && (maxCapacity > 0 ==> head < maxCapacity && tail == Slot(head, count, maxCapacity))
    }

    ghost function Abs(): State<T>
      reads this, data
      requires RingOk()
    {
      State(maxCapacity, Ring(data[..], head, count), elements, enqueues, dequeues, answers,
            enqueued, putters, dequeued, takers)
    }

    ghost predicate Valid()
      reads this, data
    {
      RingOk() && Inv(Abs())
    }

    constructor (capacity: nat)
      ensures fresh(data) && Valid() && Abs() == Init(capacity)
    {
      data := new T[capacity];
      head, tail, count, maxCapacity := 0, 0, 0, capacity;
      elements, enqueues, dequeues := [], [], [];
      answers, enqueued, putters, dequeued, takers := map[], [], [], [], [];
      new;
      InitInv<T>(capacity);
    }

    /** `waiting.Broadcast()`. */
    method WakeAll()
      modifies this`enqueues, this`dequeues
      ensures enqueues == NotifyAll(old(enqueues), Asleep, Awake)
      ensures dequeues == NotifyAll(old(dequeues), Asleep, Awake)
    {
      var e := Woken(enqueues);
      var d := Woken(dequeues);
      enqueues, dequeues := e, d;
    }

    static method Woken(stages: seq<CallStage>) returns (r: seq<CallStage>)
      ensures r == NotifyAll(stages, Asleep, Awake)
    {
      r := stages;
      for c := 0 to |stages|
        invariant |r| == |stages|
        invariant forall k :: 0 <= k < |r| ==> r[k] == if k < c && stages[k] == Asleep then Awake else stages[k]
      {
        if r[c] == Asleep {
          r := r[c := Awake];
        }
      }
      assert r == NotifyAll(stages, Asleep, Awake);
    }

    method CallEnqueue(el: T) returns (c: nat)
      requires Valid()
      modifies this
      ensures data == old(data) && Valid() && c == old(|enqueues|)
      ensures Abs() == Apply(old(Abs()), Step.CallEnqueue(el))
    {
      StepKeepsInv(Abs(), Step.CallEnqueue(el));
      c := |enqueues|;
      elements, enqueues := elements + [el], enqueues + [Called];
    }

    method CallDequeue() returns (d: nat)
      requires Valid()
      modifies this
      ensures data == old(data) && Valid() && d == old(|dequeues|)
      ensures Abs() == Apply(old(Abs()), Step<T>.CallDequeue)
    {
      StepKeepsInv(Abs(), Step<T>.CallDequeue);
      d := |dequeues|;
      dequeues := dequeues + [Called];
    }

    /** Writes at the tail and moves it on. */
    method Put(el: T)
      requires RingOk() && count < maxCapacity
      modifies this`tail, this`count, data
      ensures RingOk() && count == old(count) + 1
      ensures Ring(data[..], head, count) == old(Ring(data[..], head, count)) + [el]
    {
      RingPush(data[..], head, count, el);
      Wrap(tail + 1, maxCapacity);
      data[tail] := el;
      tail := (tail + 1) % maxCapacity;
      count := count + 1;
      assert data[..] == old(data[..])[old(tail) := el];
    }

    /** Reads at the head and moves it on. */
    method Take() returns (el: T)
      requires RingOk() && count > 0
      modifies this`head, this`count
      ensures RingOk() && count == old(count) - 1
      ensures el == old(Ring(data[..], head, count))[0]
      ensures Ring(data[..], head, count) == old(Ring(data[..], head, count))[1..]
    {
      RingPop(data[..], head, count);
      Wrap(head + 1, maxCapacity);
      el := data[head];
      head := (head + 1) % maxCapacity;
      count := count - 1;
    }

    /** One locked pass of Enqueue call `c`: sleep on a full queue, else write at the tail. */
    method EnqueueSection(c: nat)
      requires Valid() && Ready(enqueues, c)
      modifies this, data
      ensures data == old(data) && Valid()
      ensures Abs() == Apply(old(Abs()), Step<T>.EnqueueSection(c))
    {
      ghost var before := Abs();
      if count >= maxCapacity {
        enqueues := enqueues[c := Asleep];
      } else {
        Put(elements[c]);
        enqueued, putters := enqueued + [elements[c]], putters + [c];
        enqueues := enqueues[c := Done];
        WakeAll();
      }
      assert Abs() == AfterEnqueue(before, c);
      EnqueueKeepsInv(before, c);
    }

    /** One locked pass of Dequeue call `d`: sleep on an empty queue, else read at the head. */
    method DequeueSection(d: nat) returns (el: Option<T>)
      requires Valid() && Ready(dequeues, d)
      modifies this, data
      ensures data == old(data) && Valid()
      ensures Abs() == Apply(old(Abs()), Step<T>.DequeueSection(d))
      ensures el == if old(count) == 0 then None else Some(old(Abs().contents[0]))
    {
      ghost var before := Abs();
      if count == 0 {
        dequeues := dequeues[d := Asleep];
        el := None;
      } else {
        var elementRead := Take();
        answers := answers[d := elementRead];
        dequeued, takers := dequeued + [elementRead], takers + [d];
        dequeues := dequeues[d := Done];
        WakeAll();
        el := Some(elementRead);
      }
      assert Abs() == AfterDequeue(before, d);
      DequeueKeepsInv(before, d);
    }
  }
}
