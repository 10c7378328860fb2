/**
 * The priority-queue reference model: a binary heap of (sign * priority, counter, item) entries.
 * The class is proved to remove, on every call, the least signed priority and among equals the
 * earliest push; the whole-run theorems (conservation, ties in push order, draining as a stable
 * sort, the max direction as the min direction negated) are about that simple queue.
 */
module PriorityQueue {
  import opened Options

  datatype Entry<T> = Entry(key: int, tick: nat, item: T)

  /** The tuple comparison. Its precondition is what keeps it from ever reaching the items. */
  predicate Less<T>(a: Entry<T>, b: Entry<T>)
    requires a.tick != b.tick
  {
    if a.key != b.key then a.key < b.key else a.tick < b.tick
  }

  ghost predicate AtMost<T>(a: Entry<T>, b: Entry<T>) {
    a.key < b.key || (a.key == b.key && a.tick <= b.tick)
  }

  ghost predicate PushOrder<T>(s: seq<Entry<T>>) {
    forall i, j :: 0 <= i < j < |s| ==> s[i].tick < s[j].tick
  }

  ghost predicate DistinctTicks<T>(s: seq<Entry<T>>) {
    forall i, j :: 0 <= i < j < |s| ==> s[i].tick != s[j].tick
  }

  // ---------------------------------------------------------------- the simple queue

  /** The entries not yet removed, in push order, and the number of pushes so far. */
  datatype Queue<T> = Queue(live: seq<Entry<T>>, counter: nat)

  ghost predicate WellFormed<T>(q: Queue<T>) {
    PushOrder(q.live) && forall i :: 0 <= i < |q.live| ==> q.live[i].tick < q.counter
  }

  /** The position of the first entry with the least key. */
  function First<T>(live: seq<Entry<T>>): (best: nat)
    requires live != []
    ensures best < |live|
    ensures forall i :: 0 <= i < |live| ==> live[best].key <= live[i].key
    ensures forall i :: 0 <= i < best ==> live[best].key < live[i].key
  {
    if |live| == 1 then 0
    else
      var init := live[..|live| - 1];
      var b := First(init);
      assert forall i :: 0 <= i < |init| ==> live[i] == init[i];
      if live[|live| - 1].key < live[b].key then |live| - 1 else b
  }

  function RemoveAt<T>(s: seq<T>, i: nat): seq<T>
    requires i < |s|
  {
    s[..i] + s[i + 1..]
  }

  function AfterPush<T>(q: Queue<T>, sign: int, priority: int, item: T): Queue<T> {
    Queue(q.live + [Entry(sign * priority, q.counter, item)], q.counter + 1)
  }

  function AfterPop<T>(q: Queue<T>): Queue<T> {
    if q.live == [] then q else Queue(RemoveAt(q.live, First(q.live)), q.counter)
  }

  function Front<T>(q: Queue<T>): Option<T> {
    if q.live == [] then None else Some(q.live[First(q.live)].item)
  }

  // ---------------------------------------------------------------- the heap

  function Parent(i: nat): nat
    requires 1 <= i
  {
    (i - 1) / 2
  }

  /** A heap but for the entry at `hole`, which may be too small for its place. */
  ghost predicate HeapAbove<T>(heap: seq<Entry<T>>, hole: nat) {
    && hole < |heap|
    && (forall i :: 1 <= i < |heap| && i != hole ==> AtMost(heap[Parent(i)], heap[i]))
    && (forall i :: 1 <= i < |heap| && Parent(i) == hole && 1 <= hole ==> AtMost(heap[Parent(hole)], heap[i]))
  }

  /** A heap but for the entry at `hole`, which may be too small or too great for its place. */
  ghost predicate HeapAround<T>(heap: seq<Entry<T>>, hole: nat) {
    && hole < |heap|
    && (forall i :: 1 <= i < |heap| && i != hole && Parent(i) != hole ==> AtMost(heap[Parent(i)], heap[i]))
    && (forall i :: 1 <= i < |heap| && Parent(i) == hole && 1 <= hole ==> AtMost(heap[Parent(hole)], heap[i]))
  }

  ghost predicate IsHeap<T>(heap: seq<Entry<T>>) {
    forall i :: 1 <= i < |heap| ==> AtMost(heap[Parent(i)], heap[i])
  }

  lemma {:induction false} RootIsLeast<T>(heap: seq<Entry<T>>, i: nat)
    requires IsHeap(heap) && i < |heap|
    ensures AtMost(heap[0], heap[i])
  {
    if i != 0 { RootIsLeast(heap, Parent(i)); }
  }

  function Swap<T>(s: seq<T>, i: nat, j: nat): seq<T>
    requires i < |s| && j < |s|
  {
    s[i := s[j]][j := s[i]]
  }

  lemma SwapKeeps<T>(s: seq<Entry<T>>, i: nat, j: nat)
    requires i < j < |s| && DistinctTicks(s)
    ensures multiset(Swap(s, i, j)) == multiset(s)
    ensures DistinctTicks(Swap(s, i, j))
  {
    SwapParts(s, i, j);
    SameParts(s[..i], s[i], s[i + 1..j], s[j], s[j + 1..]);
    SwapKeepsTicks(s, i, j);
  }

  lemma SwapParts<T>(s: seq<T>, i: nat, j: nat)
    requires i < j < |s|
    ensures s == s[..i] + ([s[i]] + (s[i + 1..j] + ([s[j]] + s[j + 1..])))
    ensures Swap(s, i, j) == s[..i] + ([s[j]] + (s[i + 1..j] + ([s[i]] + s[j + 1..])))
  {
  }

  lemma SameParts<T>(a: seq<T>, x: T, b: seq<T>, y: T, c: seq<T>)
    ensures multiset(a + ([x] + (b + ([y] + c)))) == multiset(a + ([y] + (b + ([x] + c))))
  {
  }

  lemma SwapKeepsTicks<T>(s: seq<Entry<T>>, i: nat, j: nat)
    requires i < j < |s| && DistinctTicks(s)
    ensures DistinctTicks(Swap(s, i, j))
  {
  }

  lemma SwapUp<T>(heap: seq<Entry<T>>, pos: nat)
    requires 1 <= pos && HeapAbove(heap, pos) && AtMost(heap[pos], heap[Parent(pos)])
    ensures HeapAbove(Swap(heap, Parent(pos), pos), Parent(pos))
  {
  }

  lemma SwapDown<T>(heap: seq<Entry<T>>, pos: nat, child: nat)
    requires 1 <= child < |heap| && Parent(child) == pos && HeapAround(heap, pos)
    requires forall i :: 1 <= i < |heap| && Parent(i) == pos ==> AtMost(heap[child], heap[i])
    ensures HeapAround(Swap(heap, pos, child), child)
  {
  }

  lemma SameMembers<T>(a: seq<T>, b: seq<T>, x: T)
    requires multiset(a) == multiset(b)
    ensures x in a <==> x in b
  {
    assert x in a <==> x in multiset(a);
    assert x in b <==> x in multiset(b);
  }

  lemma TicksBelow<T>(heap: seq<Entry<T>>, live: seq<Entry<T>>, counter: nat)
    requires multiset(heap) == multiset(live)
    requires forall i :: 0 <= i < |live| ==> live[i].tick < counter
    ensures forall i :: 0 <= i < |heap| ==> heap[i].tick < counter
  {
    forall i | 0 <= i < |heap| ensures heap[i].tick < counter {
      SameMembers(heap, live, heap[i]);
    }
  }

  /** The root of a heap of the live entries is the entry the simple queue removes. */
  lemma RootIsFirst<T>(heap: seq<Entry<T>>, live: seq<Entry<T>>)
    requires heap != [] && IsHeap(heap) && multiset(heap) == multiset(live) && PushOrder(live)
    ensures live != [] && heap[0] == live[First(live)]
  {
    SameMembers(heap, live, heap[0]);
    var best := live[First(live)];
    SameMembers(heap, live, best);
    var i :| 0 <= i < |heap| && heap[i] == best;
    RootIsLeast(heap, i);
    var j :| 0 <= j < |live| && live[j] == heap[0];
  }

  lemma RemoveAtMultiset<T>(s: seq<T>, i: nat)
    requires i < |s|
    ensures multiset(RemoveAt(s, i)) == multiset(s) - multiset{s[i]}
  {
    assert s == s[..i] + [s[i]] + s[i + 1..];
  }

  lemma RemoveAtOrdered<T>(s: seq<Entry<T>>, i: nat)
    requires i < |s| && PushOrder(s)
    ensures PushOrder(RemoveAt(s, i))
    ensures forall x :: x in RemoveAt(s, i) ==> x in s
  {
  }

  lemma PopLive<T>(heap: seq<Entry<T>>, q: Queue<T>)
    requires heap != [] && IsHeap(heap) && multiset(heap) == multiset(q.live) && WellFormed(q)
    ensures Front(q) == Some(heap[0].item)
    ensures WellFormed(AfterPop(q)) && AfterPop(q).counter == q.counter
    ensures multiset(AfterPop(q).live) == multiset(heap) - multiset{heap[0]}
  {
    RootIsFirst(heap, q.live);
    RemoveAtMultiset(q.live, First(q.live));
    RemoveAtOrdered(q.live, First(q.live));
  }

  /** The list `heappop` sifts down: the last entry in place of the root. */
  function LastToRoot<T>(heap: seq<T>): seq<T>
    requires 1 < |heap|
  {
    heap[..|heap| - 1][0 := heap[|heap| - 1]]
  }

  lemma LastToRootMultiset<T>(heap: seq<T>)
    requires 1 < |heap|
    ensures multiset(LastToRoot(heap)) == multiset(heap) - multiset{heap[0]}
  {
    var last, middle := heap[|heap| - 1], heap[1..|heap| - 1];
    assert heap == [heap[0]] + middle + [last];
    assert LastToRoot(heap) == [last] + middle;
  }

  lemma LastToRootHeap<T>(heap: seq<Entry<T>>)
    requires 1 < |heap| && IsHeap(heap) && DistinctTicks(heap)
    ensures HeapAround(LastToRoot(heap), 0) && DistinctTicks(LastToRoot(heap))
  {
    assert forall i :: 1 <= i < |heap| - 1 ==> LastToRoot(heap)[i] == heap[i];
  }

  ghost predicate Rearranged<T>(heap: seq<Entry<T>>, from: seq<Entry<T>>) {
    DistinctTicks(heap) && multiset(heap) == multiset(from)
  }

  /** The child to follow downwards: the smaller one. */
  function SmallerChild<T>(heap: seq<Entry<T>>, pos: nat): (child: nat)
    requires 2 * pos + 1 < |heap| && DistinctTicks(heap)
    ensures pos < child < |heap| && Parent(child) == pos
  {
    var left := 2 * pos + 1;
    if left + 1 < |heap| && !Less(heap[left], heap[left + 1]) then left + 1 else left
  }

  lemma SmallerChildIsLeast<T>(heap: seq<Entry<T>>, pos: nat)
    requires 2 * pos + 1 < |heap| && DistinctTicks(heap)
    ensures forall i :: 1 <= i < |heap| && Parent(i) == pos ==> AtMost(heap[SmallerChild(heap, pos)], heap[i])
  {
    assert forall i :: 1 <= i < |heap| && Parent(i) == pos ==> i == 2 * pos + 1 || i == 2 * pos + 2;
  }

  /** The entry at `pos` moved towards the root until its parent is not greater. */
  function SiftedUp<T>(heap: seq<Entry<T>>, pos: nat): (r: seq<Entry<T>>)
    requires pos < |heap| && DistinctTicks(heap)
    ensures Rearranged(r, heap)
    decreases pos
  {
    if pos == 0 || !Less(heap[pos], heap[Parent(pos)]) then heap
    else
      SwapKeeps(heap, Parent(pos), pos);
      SiftedUp(Swap(heap, Parent(pos), pos), Parent(pos))
  }

  lemma {:induction false} SiftedUpIsHeap<T>(heap: seq<Entry<T>>, pos: nat)
    requires HeapAbove(heap, pos) && DistinctTicks(heap)
    ensures IsHeap(SiftedUp(heap, pos))
    decreases pos
  {
    if pos > 0 && Less(heap[pos], heap[Parent(pos)]) {
      SwapKeeps(heap, Parent(pos), pos);
      SwapUp(heap, pos);
      SiftedUpIsHeap(Swap(heap, Parent(pos), pos), Parent(pos));
    }
  }

  /** The entry at `pos` moved down to a leaf along the smaller children, then back up. */
  function SiftedDown<T>(heap: seq<Entry<T>>, pos: nat): (r: seq<Entry<T>>)
    requires pos < |heap| && DistinctTicks(heap)
    ensures Rearranged(r, heap)
    decreases |heap| - pos
  {
    if |heap| <= 2 * pos + 1 then SiftedUp(heap, pos)
    else
      var child := SmallerChild(heap, pos);
      SwapKeeps(heap, pos, child);
      SiftedDown(Swap(heap, pos, child), child)
  }

  lemma {:induction false} SiftedDownIsHeap<T>(heap: seq<Entry<T>>, pos: nat)
    requires HeapAround(heap, pos) && DistinctTicks(heap)
    ensures IsHeap(SiftedDown(heap, pos))
    decreases |heap| - pos
  {
    if |heap| <= 2 * pos + 1 {
      LeafIsAbove(heap, pos);
      SiftedUpIsHeap(heap, pos);
    } else {
      var child := SmallerChild(heap, pos);
      SmallerChildIsLeast(heap, pos);
      SwapKeeps(heap, pos, child);
      SwapDown(heap, pos, child);
      SiftedDownIsHeap(Swap(heap, pos, child), child);
    }
  }

  lemma LeafIsAbove<T>(heap: seq<Entry<T>>, leaf: nat)
    requires HeapAround(heap, leaf) && |heap| <= 2 * leaf + 1
    ensures HeapAbove(heap, leaf)
  {
    assert forall i :: 1 <= i < |heap| ==> Parent(i) != leaf;
  }

  method SiftUp<T>(unsifted: seq<Entry<T>>, start: nat) returns (heap: seq<Entry<T>>)
    requires HeapAbove(unsifted, start) && DistinctTicks(unsifted)
    ensures heap == SiftedUp(unsifted, start)
    ensures IsHeap(heap) && Rearranged(heap, unsifted)
  {
    SiftedUpIsHeap(unsifted, start);
    heap := unsifted;
    var pos: nat := start;
    while pos > 0
      invariant pos < |heap| && DistinctTicks(heap) && SiftedUp(heap, pos) == SiftedUp(unsifted, start)
    {
      var parent := Parent(pos);
      if !Less(heap[pos], heap[parent]) {
        return;
      }
      SwapKeeps(heap, parent, pos);
      heap := Swap(heap, parent, pos);
      pos := parent;
    }
  }

  method SiftDown<T>(unsifted: seq<Entry<T>>) returns (heap: seq<Entry<T>>)
    requires HeapAround(unsifted, 0) && DistinctTicks(unsifted)
    ensures heap == SiftedDown(unsifted, 0)
    ensures IsHeap(heap) && Rearranged(heap, unsifted)
  {
    SiftedDownIsHeap(unsifted, 0);
    heap := unsifted;
    var pos: nat := 0;
    while 2 * pos + 1 < |heap|
      invariant HeapAround(heap, pos) && DistinctTicks(heap) && SiftedDown(heap, pos) == SiftedDown(unsifted, 0)
      decreases |heap| - pos
    {
      var child := SmallerChild(heap, pos);
      SmallerChildIsLeast(heap, pos);
      SwapKeeps(heap, pos, child);
      SwapDown(heap, pos, child);
      heap := Swap(heap, pos, child);
      pos := child;
    }
    LeafIsAbove(heap, pos);
    heap := SiftUp(heap, pos);
  }

  /** What `heappush` makes of a heap: append, then sift up. */
  function HeapPushed<T>(heap: seq<Entry<T>>, entry: Entry<T>): (r: seq<Entry<T>>)
    requires DistinctTicks(heap + [entry])
    ensures Rearranged(r, heap + [entry])
  {
    SiftedUp(heap + [entry], |heap|)
  }

  /** What `heappop` leaves: the last entry takes the place of the root and is sifted down. */
  function HeapPopped<T>(heap: seq<Entry<T>>): (r: seq<Entry<T>>)
    requires heap != [] && DistinctTicks(heap)
  {
    if |heap| == 1 then [] else SiftedDown(LastToRoot(heap), 0)
  }

  lemma HeapPushedIsHeap<T>(heap: seq<Entry<T>>, entry: Entry<T>)
    requires IsHeap(heap) && DistinctTicks(heap + [entry])
    ensures IsHeap(HeapPushed(heap, entry))
  {
    SiftedUpIsHeap(heap + [entry], |heap|);
  }

  lemma HeapPoppedIsHeap<T>(heap: seq<Entry<T>>)
    requires heap != [] && IsHeap(heap) && DistinctTicks(heap)
    ensures IsHeap(HeapPopped(heap)) && DistinctTicks(HeapPopped(heap))
    ensures multiset(HeapPopped(heap)) == multiset(heap) - multiset{heap[0]}
  {
    if |heap| == 1 {
      assert heap == [heap[0]];
    } else {
      LastToRootMultiset(heap);
      LastToRootHeap(heap);
      SiftedDownIsHeap(LastToRoot(heap), 0);
    }
  }

  method HeapPush<T>(heap: seq<Entry<T>>, entry: Entry<T>) returns (pushed: seq<Entry<T>>)
    requires IsHeap(heap) && DistinctTicks(heap + [entry])
    ensures pushed == HeapPushed(heap, entry)
    ensures IsHeap(pushed) && Rearranged(pushed, heap + [entry])
  {
    pushed := SiftUp(heap + [entry], |heap|);
  }

  method HeapPop<T>(heap: seq<Entry<T>>) returns (top: Entry<T>, rest: seq<Entry<T>>)
    requires heap != [] && IsHeap(heap) && DistinctTicks(heap)
    ensures rest == HeapPopped(heap)
    ensures top == heap[0] && IsHeap(rest) && DistinctTicks(rest)
    ensures multiset(rest) == multiset(heap) - multiset{top}
  {
    top := heap[0];
    HeapPoppedIsHeap(heap);
    if |heap| == 1 {
      rest := [];
    } else {
      LastToRootHeap(heap);
      rest := SiftDown(LastToRoot(heap));
    }
  }

  // ---------------------------------------------------------------- the array heap as a queue

  datatype ArrayHeap<T> = ArrayHeap(heap: seq<Entry<T>>, counter: nat)

  ghost predicate Represents<T>(h: ArrayHeap<T>, q: Queue<T>) {
    && IsHeap(h.heap) && TicksKept(h) && h.counter == q.counter
    && multiset(h.heap) == multiset(q.live) && WellFormed(q)
  }

  ghost predicate TicksKept<T>(h: ArrayHeap<T>) {
    DistinctTicks(h.heap) && forall i :: 0 <= i < |h.heap| ==> h.heap[i].tick < h.counter
  }

  function HeapStep<T>(sign: int, h: ArrayHeap<T>, op: Op<T>): ArrayHeap<T>
    requires TicksKept(h)
  {
    match op
    case Push(p, item) => ArrayHeap(HeapPushed(h.heap, Entry(sign * p, h.counter, item)), h.counter + 1)
    case Pop => if h.heap == [] then h else ArrayHeap(HeapPopped(h.heap), h.counter)
    case Peek => h
  }

  function HeapFront<T>(h: ArrayHeap<T>): Option<T> {
    if h.heap == [] then None else Some(h.heap[0].item)
  }

  lemma EmptyTogether<T>(h: ArrayHeap<T>, q: Queue<T>)
    requires Represents(h, q)
    ensures h.heap == [] <==> q.live == []
  {
    assert |multiset(h.heap)| == |h.heap| && |multiset(q.live)| == |q.live|;
  }

  lemma FreshTick<T>(h: ArrayHeap<T>, entry: Entry<T>)
    requires TicksKept(h) && entry.tick == h.counter
    ensures DistinctTicks(h.heap + [entry])
  {
  }

  lemma HeapPushSimulates<T>(sign: int, h: ArrayHeap<T>, q: Queue<T>, p: int, item: T)
    requires Represents(h, q)
    ensures Represents(HeapStep(sign, h, Push(p, item)), AfterPush(q, sign, p, item))
  {
    var entry := Entry(sign * p, h.counter, item);
    var after := AfterPush(q, sign, p, item);
    FreshTick(h, entry);
    HeapPushedIsHeap(h.heap, entry);
    TicksBelow(HeapPushed(h.heap, entry), after.live, after.counter);
  }

  lemma HeapPopSimulates<T>(h: ArrayHeap<T>, q: Queue<T>)
    requires Represents(h, q) && h.heap != []
    ensures Front(q) == Some(h.heap[0].item) && AfterPop(q).counter == q.counter
    ensures Represents(ArrayHeap(HeapPopped(h.heap), h.counter), AfterPop(q))
  {
    PopLive(h.heap, q);
    HeapPoppedIsHeap(h.heap);
    TicksBelow(HeapPopped(h.heap), AfterPop(q).live, q.counter);
  }

  /** The array heap shows what the queue shows, and stays a heap of the same entries. */
  lemma HeapSimulates<T>(sign: int, h: ArrayHeap<T>, q: Queue<T>, op: Op<T>)
    requires Represents(h, q)
    ensures HeapFront(h) == Front(q)
    ensures Represents(HeapStep(sign, h, op), Step(sign, q, op))
  {
    EmptyTogether(h, q);
    if h.heap != [] {
      RootIsFirst(h.heap, q.live);
    }
    if op.Push? {
      HeapPushSimulates(sign, h, q, op.priority, op.item);
    } else if op.Pop? && h.heap != [] {
      HeapPopSimulates(h, q);
    }
  }

  class PriorityQueueReference<T> {
    var heap: seq<Entry<T>>
    var counter: nat
    const sign: int
    ghost var live: seq<Entry<T>>

    ghost predicate Valid()
      reads this
    {
      Represents(ArrayHeap(heap, counter), State())
    }

    ghost function State(): Queue<T>
      reads this
    {
      Queue(live, counter)
    }

    constructor (max: bool)
      ensures Valid() && State() == Queue([], 0)
      ensures sign == if max then -1 else 1
    {
      heap, counter, live := [], 0, [];
      sign := if max then -1 else 1;
    }

    method Push(priority: int, item: T)
      requires Valid()
      modifies this
      ensures Valid()
      ensures State() == AfterPush(old(State()), sign, priority, item)
    {
      ghost var before, queue := ArrayHeap(heap, counter), State();
      var entry := Entry(sign * priority, counter, item);
      FreshTick(before, entry);
      HeapPushSimulates(sign, before, queue, priority, item);
      heap := HeapPush(heap, entry);
      live := live + [entry];
      counter := counter + 1;
      assert ArrayHeap(heap, counter) == HeapStep(sign, before, Op.Push(priority, item));
      assert State() == AfterPush(queue, sign, priority, item);
    }

    method Pop() returns (result: Option<T>)
      requires Valid()
      modifies this
      ensures Valid()
      ensures result == Front(old(State()))
      ensures State() == AfterPop(old(State()))
    {
      EmptyTogether(ArrayHeap(heap, counter), State());
      if heap == [] {
        return None;
      }
      HeapPopSimulates(ArrayHeap(heap, counter), State());
      live := AfterPop(State()).live;
      var top, rest := HeapPop(heap);
      heap := rest;
      result := Some(top.item);
    }

    method Peek() returns (result: Option<T>)
      requires Valid()
      ensures result == Front(State())
    {
      HeapSimulates(sign, ArrayHeap(heap, counter), State(), Op.Peek);
      result := if heap == [] then None else Some(heap[0].item);
    }
  }

  // ---------------------------------------------------------------- whole runs

  datatype Op<T> = Push(priority: int, item: T) | Pop | Peek

  function Step<T>(sign: int, q: Queue<T>, op: Op<T>): Queue<T> {
    match op
    case Push(p, item) => AfterPush(q, sign, p, item)
    case Pop => AfterPop(q)
    case Peek => q
  }

  function Run<T>(sign: int, ops: seq<Op<T>>): Queue<T> {
    if ops == [] then Queue([], 0)
    else Step(sign, Run(sign, ops[..|ops| - 1]), ops[|ops| - 1])
  }

  /** Every entry ever pushed, in order. */
  function Pushed<T>(sign: int, ops: seq<Op<T>>): seq<Entry<T>> {
    if ops == [] then []
    else
      var before := Pushed(sign, ops[..|ops| - 1]);
      match ops[|ops| - 1]
      case Push(p, item) => before + [Entry(sign * p, |before|, item)]
      case _ => before
  }

  /** Every entry that was popped, in the order it left. */
  function Left<T>(sign: int, ops: seq<Op<T>>): seq<Entry<T>> {
    if ops == [] then []
    else
      var live := Run(sign, ops[..|ops| - 1]).live;
      var before := Left(sign, ops[..|ops| - 1]);
      if ops[|ops| - 1].Pop? && live != [] then before + [live[First(live)]] else before
  }

  lemma {:induction false} RunWellFormed<T>(sign: int, ops: seq<Op<T>>)
    ensures WellFormed(Run(sign, ops))
    ensures Run(sign, ops).counter == |Pushed(sign, ops)|
  {
    if ops != [] {
      RunWellFormed(sign, ops[..|ops| - 1]);
      var live := Run(sign, ops[..|ops| - 1]).live;
      if live != [] { RemoveAtOrdered(live, First(live)); }
    }
  }

  /** The next to leave has the least signed priority of all that are live, and was pushed first of
      those that share it. */
  lemma FrontIsLeast<T>(sign: int, ops: seq<Op<T>>) returns (k: nat)
    requires Run(sign, ops).live != []
    ensures var live := Run(sign, ops).live;
            && k < |live| && Front(Run(sign, ops)) == Some(live[k].item)
            && forall j :: 0 <= j < |live| && j != k ==>
                 live[k].key < live[j].key || (live[k].key == live[j].key && live[k].tick < live[j].tick)
  {
    RunWellFormed(sign, ops);
    k := First(Run(sign, ops).live);
  }

  /** Conservation: at any moment every push has either left or is still live, exactly once. */
  lemma {:induction false} NothingLostOrInvented<T>(sign: int, ops: seq<Op<T>>)
    ensures multiset(Run(sign, ops).live) + multiset(Left(sign, ops)) == multiset(Pushed(sign, ops))
  {
    if ops != [] {
      var init := ops[..|ops| - 1];
      NothingLostOrInvented(sign, init);
      RunWellFormed(sign, init);
      var live := Run(sign, init).live;
      if ops[|ops| - 1].Pop? && live != [] {
        RemoveAtMultiset(live, First(live));
      }
    }
  }

  lemma {:induction false} PushedTick<T>(sign: int, ops: seq<Op<T>>, t: nat)
    requires t < |Pushed(sign, ops)|
    ensures Pushed(sign, ops)[t].tick == t
  {
    if t < |Pushed(sign, ops[..|ops| - 1])| { PushedTick(sign, ops[..|ops| - 1], t); }
  }

  /** Ties leave in push order: when an entry leaves, every earlier push of the same priority
      has left before it. */
  lemma {:induction false} TiesLeaveInPushOrder<T>(sign: int, ops: seq<Op<T>>, i: nat, earlier: Entry<T>)
    requires i < |Left(sign, ops)| && earlier in Pushed(sign, ops)
    requires earlier.key == Left(sign, ops)[i].key && earlier.tick < Left(sign, ops)[i].tick
    ensures earlier in Left(sign, ops)[..i]
  {
    var init := ops[..|ops| - 1];
    var before := Left(sign, init);
    if earlier !in Pushed(sign, init) {
      LaterThanAll(sign, ops, i, earlier);
    } else if i < |before| {
      TiesLeaveInPushOrder(sign, init, i, earlier);
      assert before[..i] == Left(sign, ops)[..i];
    } else {
      LeavesInPushOrder(sign, ops, i, earlier);
    }
  }

  /** What leaves by the last operation has no earlier tie that is still live. */
  lemma LeavesInPushOrder<T>(sign: int, ops: seq<Op<T>>, i: nat, earlier: Entry<T>)
    requires ops != [] && i == |Left(sign, ops[..|ops| - 1])| < |Left(sign, ops)|
    requires earlier in Pushed(sign, ops[..|ops| - 1])
    requires earlier.key == Left(sign, ops)[i].key && earlier.tick < Left(sign, ops)[i].tick
    ensures earlier in Left(sign, ops)[..i]
  {
    var init := ops[..|ops| - 1];
    var live, before := Run(sign, init).live, Left(sign, init);
    NothingLostOrInvented(sign, init);
    RunWellFormed(sign, init);
    FirstIsEarliest(live);
    assert earlier in multiset(live) + multiset(before);
    assert Left(sign, ops)[..i] == before;
  }

  lemma FirstIsEarliest<T>(live: seq<Entry<T>>)
    requires live != [] && PushOrder(live)
    ensures forall e :: e in live && e.key == live[First(live)].key ==> live[First(live)].tick <= e.tick
  {
  }

  /** An entry pushed by the last operation is later than every entry that has left. */
  lemma LaterThanAll<T>(sign: int, ops: seq<Op<T>>, i: nat, newest: Entry<T>)
    requires ops != [] && newest in Pushed(sign, ops) && newest !in Pushed(sign, ops[..|ops| - 1])
    requires i < |Left(sign, ops)|
    ensures Left(sign, ops)[i].tick < newest.tick
  {
    var init := ops[..|ops| - 1];
    var pushed := Pushed(sign, init);
    assert newest.tick == |pushed|;
    NothingLostOrInvented(sign, init);
    assert Left(sign, ops)[i] in multiset(Left(sign, init));
    assert Left(sign, ops)[i] in multiset(pushed);
    var t :| 0 <= t < |pushed| && pushed[t] == Left(sign, ops)[i];
    PushedTick(sign, init, t);
  }

  // ---------------------------------------------------------------- draining

  function Drain<T>(live: seq<Entry<T>>): (r: seq<Entry<T>>)
    ensures |r| == |live|
    decreases |live|
  {
    if live == [] then [] else [live[First(live)]] + Drain(RemoveAt(live, First(live)))
  }

  lemma {:induction false} DrainIsPermutation<T>(live: seq<Entry<T>>)
    ensures multiset(Drain(live)) == multiset(live)
    decreases |live|
  {
    if live != [] {
      DrainIsPermutation(RemoveAt(live, First(live)));
      RemoveAtMultiset(live, First(live));
    }
  }

  lemma DrainHeadIsLeast<T>(live: seq<Entry<T>>, j: nat)
    requires PushOrder(live) && 0 < j < |live|
    ensures AtMost(live[First(live)], Drain(RemoveAt(live, First(live)))[j - 1])
  {
    var rest := RemoveAt(live, First(live));
    RemoveAtOrdered(live, First(live));
    DrainIsPermutation(rest);
    SameMembers(Drain(rest), rest, Drain(rest)[j - 1]);
  }

  /** Draining is a stable sort: by priority, ties by push. */
  lemma {:induction false} DrainIsStablySorted<T>(live: seq<Entry<T>>, i: nat, j: nat)
    requires PushOrder(live) && i < j < |live|
    ensures AtMost(Drain(live)[i], Drain(live)[j])
    decreases |live|
  {
    var rest := RemoveAt(live, First(live));
    assert Drain(live) == [live[First(live)]] + Drain(rest);
    if i == 0 {
      DrainHeadIsLeast(live, j);
    } else {
      RemoveAtOrdered(live, First(live));
      DrainIsStablySorted(rest, i - 1, j - 1);
    }
  }

  lemma PopTakesDrainHead<T>(sign: int, all: seq<Op<T>>)
    requires all != [] && all[|all| - 1] == Pop
    requires Run(sign, all[..|all| - 1]).live != []
    ensures var before := all[..|all| - 1];
            Drain(Run(sign, before).live) ==
            Left(sign, all)[|Left(sign, before)|..] + Drain(Run(sign, all).live)
    ensures |Left(sign, all)| == |Left(sign, all[..|all| - 1])| + 1
    ensures Left(sign, all[..|all| - 1]) <= Left(sign, all)
  {
  }

  /** Popping `n` times after `ops` removes the first `n` entries of the drained order. */
  lemma {:induction false} PopsFollowDrain<T>(sign: int, ops: seq<Op<T>>, all: seq<Op<T>>)
    requires ops <= all && |all| <= |ops| + |Run(sign, ops).live|
    requires forall i :: |ops| <= i < |all| ==> all[i] == Pop
    ensures |Left(sign, all)| == |Left(sign, ops)| + |all| - |ops|
    ensures Left(sign, all) + Drain(Run(sign, all).live) == Left(sign, ops) + Drain(Run(sign, ops).live)
  {
    if |all| == |ops| {
      assert all == ops;
    } else {
      var init := all[..|all| - 1];
      PopsFollowDrain(sign, ops, init);
      assert |Drain(Run(sign, init).live)| > 0;
      PopTakesDrainHead(sign, all);
      Reassociate(Left(sign, init), Left(sign, all), Drain(Run(sign, init).live), Drain(Run(sign, all).live));
    }
  }

  lemma Reassociate<T>(a: seq<T>, b: seq<T>, c: seq<T>, d: seq<T>)
    requires a <= b && c == b[|a|..] + d
    ensures b + d == a + c
  {
  }

  /** Popping as often as there are live entries empties the queue, in stable-sort order. */
  lemma DrainingSortsStably<T>(sign: int, ops: seq<Op<T>>, all: seq<Op<T>>)
    requires ops <= all && |all| == |ops| + |Run(sign, ops).live|
    requires forall i :: |ops| <= i < |all| ==> all[i] == Pop
    ensures Run(sign, all).live == []
    ensures exists drained: seq<Entry<T>> ::
              && Left(sign, all) == Left(sign, ops) + drained
              && multiset(drained) == multiset(Run(sign, ops).live)
              && forall i, j :: 0 <= i < j < |drained| ==> AtMost(drained[i], drained[j])
  {
    var live := Run(sign, ops).live;
    RunWellFormed(sign, ops);
    PopsFollowDrain(sign, ops, all);
    DrainIsPermutation(live);
    forall i, j | 0 <= i < j < |live| ensures AtMost(Drain(live)[i], Drain(live)[j]) {
      DrainIsStablySorted(live, i, j);
    }
    assert |Drain(Run(sign, all).live)| == 0;
    assert Left(sign, all) == Left(sign, ops) + Drain(live);
  }

  // ---------------------------------------------------------------- the two directions

  function Negated<T>(ops: seq<Op<T>>): seq<Op<T>> {
    if ops == [] then []
    else
      var op := ops[|ops| - 1];
      Negated(ops[..|ops| - 1]) + [if op.Push? then Push(-op.priority, op.item) else op]
  }

  /** The max direction is the min direction on negated priorities, step for step. */
  lemma {:induction false} MaxIsMinNegated<T>(ops: seq<Op<T>>)
    ensures Run(-1, ops) == Run(1, Negated(ops))
    ensures Left(-1, ops) == Left(1, Negated(ops))
  {
    if ops != [] {
      var init := ops[..|ops| - 1];
      MaxIsMinNegated(init);
      assert Negated(ops)[..|Negated(ops)| - 1] == Negated(init);
    }
  }
}
