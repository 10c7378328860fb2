/**
 * The two deque-backed reference models: the overwriting ring buffer (`deque(maxlen=capacity)`)
 * and the unbounded FIFO queue, with what their contents are after every run, and a circular
 * array that simulates the ring.
 */
module RingBuffer {
  import opened Options
  import opened Sequences

  datatype Op<T> = Push(item: T) | Pop | Peek

  function AfterPush<T>(items: seq<T>, capacity: nat, item: T): seq<T> {
    LastN(items + [item], capacity)
  }

  function AfterPop<T>(items: seq<T>): seq<T> {
    if items == [] then [] else items[1..]
  }

  function Front<T>(items: seq<T>): Option<T> {
    if items == [] then None else Some(items[0])
  }

  class RingReference<T> {
    const capacity: nat
    var items: seq<T>

    ghost predicate Valid()
      reads this
    {
      1 <= capacity && |items| <= capacity
    }

    constructor (requested: int)
      ensures Valid() && items == []
      ensures capacity == if requested < 1 then 1 else requested
    {
      capacity := if requested < 1 then 1 else requested;
      items := [];
    }

    /** `deque.append` with a `maxlen`: the element at the other end makes room. */
    method Push(item: T)
      requires Valid()
      modifies this
      ensures Valid() && items == AfterPush(old(items), capacity, item)
    {
      if |items| == capacity {
        items := items[1..];
      }
      items := items + [item];
    }

    method Pop() returns (result: Option<T>)
      requires Valid()
      modifies this
      ensures Valid() && items == AfterPop(old(items)) && result == Front(old(items))
    {
      if items == [] {
        return None;
      }
      result := Some(items[0]);
      items := items[1..];
    }

    method Peek() returns (result: Option<T>)
      requires Valid()
      ensures result == Front(items)
    {
      result := if items == [] then None else Some(items[0]);
    }
  }

  // ---------------------------------------------------------------- whole runs

  function Step<T>(capacity: nat, items: seq<T>, op: Op<T>): seq<T> {
    match op
    case Push(item) => AfterPush(items, capacity, item)
    case Pop => AfterPop(items)
    case Peek => items
  }

  function Run<T>(capacity: nat, ops: seq<Op<T>>): seq<T> {
    if ops == [] then [] else Step(capacity, Run(capacity, ops[..|ops| - 1]), ops[|ops| - 1])
  }

  function Pushed<T>(ops: seq<Op<T>>): seq<T> {
    if ops == [] then []
    else Pushed(ops[..|ops| - 1]) + if ops[|ops| - 1].Push? then [ops[|ops| - 1].item] else []
  }

  /** How many items a ring of this capacity holds, by counting alone. */
  function Occupancy<T>(capacity: nat, ops: seq<Op<T>>): nat {
    if ops == [] then 0
    else
      var before := Occupancy(capacity, ops[..|ops| - 1]);
      match ops[|ops| - 1]
      case Push(_) => if before + 1 < capacity then before + 1 else capacity
      case Pop => if before > 0 then before - 1 else 0
      case Peek => before
  }

  lemma {:induction false} OccupancyBounds<T>(capacity: nat, ops: seq<Op<T>>)
    requires 1 <= capacity
    ensures Occupancy(capacity, ops) <= capacity && Occupancy(capacity, ops) <= |Pushed(ops)|
  {
    if ops != [] { OccupancyBounds(capacity, ops[..|ops| - 1]); }
  }

  /** After every run the ring holds exactly the newest pushes, oldest first, as many as the
      occupancy count says: overwriting only ever costs the oldest item. */
  lemma {:induction false} HoldsNewestPushes<T>(capacity: nat, ops: seq<Op<T>>)
    requires 1 <= capacity
    ensures Run(capacity, ops) == LastN(Pushed(ops), Occupancy(capacity, ops))
  {
    if ops != [] {
      var init, op := ops[..|ops| - 1], ops[|ops| - 1];
      var pushed, n := Pushed(init), Occupancy(capacity, init);
      HoldsNewestPushes(capacity, init);
      OccupancyBounds(capacity, init);
      if op.Push? {
        PushKeepsNewest(capacity, pushed, n, op.item);
      } else {
        assert Pushed(ops) == pushed;
        PopKeepsNewest(pushed, n);
      }
    }
  }

  /** The next to leave is the oldest of the newest pushes. */
  lemma FrontIsOldest<T>(capacity: nat, ops: seq<Op<T>>)
    requires 1 <= capacity
    ensures Occupancy(capacity, ops) <= |Pushed(ops)|
    ensures Front(Run(capacity, ops)) ==
            if Occupancy(capacity, ops) == 0 then None else Some(Pushed(ops)[|Pushed(ops)| - Occupancy(capacity, ops)])
  {
    OccupancyBounds(capacity, ops);
    HoldsNewestPushes(capacity, ops);
  }

  /** One more operation: what was pushed, and how many are held. */
  lemma OneMore<T>(capacity: nat, ops: seq<Op<T>>, op: Op<T>)
    requires 1 <= capacity
    ensures Pushed(ops + [op]) == Pushed(ops) + if op.Push? then [op.item] else []
    ensures var n := Occupancy(capacity, ops);
            Occupancy(capacity, ops + [op]) ==
            if op.Push? && n < capacity then n + 1 else if op.Pop? && n > 0 then n - 1 else n
  {
    assert (ops + [op])[..|ops|] == ops;
    OccupancyBounds(capacity, ops);
  }

  lemma PopKeepsNewest<T>(pushed: seq<T>, n: nat)
    requires n <= |pushed|
    ensures AfterPop(LastN(pushed, n)) == LastN(pushed, if n > 0 then n - 1 else 0)
  {
  }

  lemma PushKeepsNewest<T>(capacity: nat, pushed: seq<T>, n: nat, x: T)
    requires n <= |pushed| && n <= capacity && 1 <= capacity
    ensures AfterPush(LastN(pushed, n), capacity, x) ==
            LastN(pushed + [x], if n < capacity then n + 1 else capacity)
  {
    LastNConcat(pushed, [x], n + 1);
    LastNConcat(LastN(pushed, n), [x], capacity);
    LastNConcat(pushed, [x], capacity);
  }

  // ---------------------------------------------------------------- a circular array

  /** A fixed array with the position of the oldest item and the number of items. */
  datatype Circular<T> = Circular(slots: seq<T>, head: nat, len: nat)

  predicate InBounds<T>(c: Circular<T>) {
    c.head < |c.slots| && c.len <= |c.slots|
  }

  function Wrap<T>(c: Circular<T>, i: nat): nat {
    if i < |c.slots| then i else i - |c.slots|
  }

  function CircularStep<T>(c: Circular<T>, op: Op<T>): Circular<T>
    requires InBounds(c)
  {
    match op
    case Push(item) =>
      var written := c.slots[Wrap(c, c.head + c.len) := item];
      if c.len < |c.slots| then Circular(written, c.head, c.len + 1)
      else Circular(written, Wrap(c, c.head + 1), c.len)
    case Pop => if c.len == 0 then c else Circular(c.slots, Wrap(c, c.head + 1), c.len - 1)
    case Peek => c
  }

  /** The items a circular array holds, oldest first. */
  ghost predicate Holds<T>(c: Circular<T>, items: seq<T>) {
    && InBounds(c) && |items| == c.len
    && forall i :: 0 <= i < c.len ==> items[i] == c.slots[Wrap(c, c.head + i)]
  }

  /** The circular array simulates the deque, operation by operation. */
  lemma CircularSimulates<T>(c: Circular<T>, items: seq<T>, op: Op<T>)
    requires Holds(c, items)
    ensures Holds(CircularStep(c, op), Step(|c.slots|, items, op))
    ensures |CircularStep(c, op).slots| == |c.slots|
    ensures Front(items) == if c.len == 0 then None else Some(c.slots[c.head])
  {
    if op.Push? {
      if c.len < |c.slots| { CircularAppends(c, items, op.item); } else { CircularOverwrites(c, items, op.item); }
    } else if op.Pop? {
      CircularRemoves(c, items);
    }
  }

  lemma CircularRemoves<T>(c: Circular<T>, items: seq<T>)
    requires Holds(c, items)
    ensures Holds(CircularStep(c, Pop), AfterPop(items))
  {
    if c.len > 0 {
      var next := CircularStep(c, Pop);
      assert next.slots == c.slots && AfterPop(items) == items[1..];
      forall i | 0 <= i < next.len ensures items[1..][i] == c.slots[Wrap(next, next.head + i)] {
        NextSlot(c, next.head, i);
        assert items[i + 1] == c.slots[Wrap(c, c.head + (i + 1))];
      }
    }
  }

  /** One further on from the next slot is one further on altogether. */
  lemma NextSlot<T>(c: Circular<T>, head: nat, i: nat)
    requires InBounds(c) && head == Wrap(c, c.head + 1) && i < |c.slots|
    ensures Wrap(c, head + i) == Wrap(c, c.head + (i + 1))
  {
  }

  lemma CircularAppends<T>(c: Circular<T>, items: seq<T>, item: T)
    requires Holds(c, items) && c.len < |c.slots|
    ensures Holds(CircularStep(c, Push(item)), AfterPush(items, |c.slots|, item))
  {
    assert AfterPush(items, |c.slots|, item) == items + [item];
  }

  lemma CircularOverwrites<T>(c: Circular<T>, items: seq<T>, item: T)
    requires Holds(c, items) && c.len == |c.slots|
    ensures Holds(CircularStep(c, Push(item)), AfterPush(items, |c.slots|, item))
  {
    assert AfterPush(items, |c.slots|, item) == items[1..] + [item];
  }
}

module Fifo {
  import opened Options

  datatype Op<T> = Enqueue(item: T) | Dequeue | Peek

  function Front<T>(items: seq<T>): Option<T> {
    if items == [] then None else Some(items[0])
  }

  class FifoReference<T> {
    var items: seq<T>

    constructor ()
      ensures items == []
    {
      items := [];
    }

    method Enqueue(item: T)
      modifies this
      ensures items == old(items) + [item]
    {
      items := items + [item];
    }

    method Dequeue() returns (result: Option<T>)
      modifies this
      ensures result == if old(items) == [] then None else Some(old(items)[0])
      ensures items == if old(items) == [] then [] else old(items)[1..]
    {
      if items == [] {
        return None;
      }
      result := Some(items[0]);
      items := items[1..];
    }

    method Peek() returns (result: Option<T>)
      ensures result == if items == [] then None else Some(items[0])
    {
      result := if items == [] then None else Some(items[0]);
    }
  }

  function Step<T>(items: seq<T>, op: Op<T>): seq<T> {
    match op
    case Enqueue(item) => items + [item]
    case Dequeue => if items == [] then [] else items[1..]
    case Peek => items
  }

  function Run<T>(ops: seq<Op<T>>): seq<T> {
    if ops == [] then [] else Step(Run(ops[..|ops| - 1]), ops[|ops| - 1])
  }

  function Enqueued<T>(ops: seq<Op<T>>): seq<T> {
    if ops == [] then []
    else Enqueued(ops[..|ops| - 1]) + if ops[|ops| - 1].Enqueue? then [ops[|ops| - 1].item] else []
  }

  /** What the dequeues returned, in order; a dequeue on an empty queue returns nothing. */
  function Dequeued<T>(ops: seq<Op<T>>): seq<T> {
    if ops == [] then []
    else
      var items := Run(ops[..|ops| - 1]);
      Dequeued(ops[..|ops| - 1]) + if ops[|ops| - 1].Dequeue? && items != [] then [items[0]] else []
  }

  /** One more operation: an enqueue arrives, and a dequeue lets one leave unless all have left. */
  lemma OneMore<T>(ops: seq<Op<T>>, op: Op<T>)
    ensures Enqueued(ops + [op]) == Enqueued(ops) + if op.Enqueue? then [op.item] else []
    ensures |Dequeued(ops + [op])| == |Dequeued(ops)| + if op.Dequeue? && |Dequeued(ops)| < |Enqueued(ops)| then 1 else 0
  {
    assert (ops + [op])[..|ops|] == ops;
    ArrivalOrderKept(ops);
  }

  /** The next to leave is the oldest arrival that has not left. */
  lemma FrontIsOldest<T>(ops: seq<Op<T>>)
    ensures Front(Run(ops)) == if |Dequeued(ops)| < |Enqueued(ops)| then Some(Enqueued(ops)[|Dequeued(ops)|]) else None
  {
    ArrivalOrderKept(ops);
    assert Run(ops) != [] ==> (Dequeued(ops) + Run(ops))[|Dequeued(ops)|] == Run(ops)[0];
  }

  /** First in, first out, over every run: what has left followed by what remains is exactly what
      was enqueued, in arrival order. */
  lemma {:induction false} ArrivalOrderKept<T>(ops: seq<Op<T>>)
    ensures Dequeued(ops) + Run(ops) == Enqueued(ops)
  {
    if ops != [] {
      var init, op := ops[..|ops| - 1], ops[|ops| - 1];
      ArrivalOrderKept(init);
      if op.Dequeue? && Run(init) != [] {
        assert Run(init) == [Run(init)[0]] + Run(init)[1..];
      }
    }
  }
}
