/**
 * The seeded operation generators of the priority queue and the ring buffer. The random source is
 * an arbitrary stream of rolls and picks, so everything below holds for every seed. The generator
 * keeps a `size` counter of its own; what makes its sequences probe the boundaries they promise is
 * that this counter is the reference's occupancy after every prefix.
 */
module Generators {
  import opened Decimals
  import opened Oracle
  import PQ = PriorityQueue
  import Ring = RingBuffer

  type PqOp = PQ.Op<string>
  type RingOp = Ring.Op<string>

  // ---------------------------------------------------------------- priority queue

  const TIE_PRIORITY := 2
  const PRIORITY_POOL := [1, 2, 2, 3, 4, 4, 5]

  function PqItem(i: nat): string {
    "item" + Decimal(i)
  }

  /** The occupancy after a sequence, by counting alone. */
  function PqSize(ops: seq<PqOp>): nat {
    if ops == [] then 0
    else
      var before := PqSize(ops[..|ops| - 1]);
      match ops[|ops| - 1]
      case Push(_, _) => before + 1
      case Pop => if before > 0 then before - 1 else 0
      case Peek => before
  }

  /** How many pops were issued against an empty queue. */
  function PqEmptyPops(ops: seq<PqOp>): nat {
    if ops == [] then 0
    else
      var init := ops[..|ops| - 1];
      PqEmptyPops(init) + if ops[|ops| - 1].Pop? && PqSize(init) == 0 then 1 else 0
  }

  function PqPushes(ops: seq<PqOp>): nat {
    if ops == [] then 0
    else PqPushes(ops[..|ops| - 1]) + if ops[|ops| - 1].Push? then 1 else 0
  }

  /** The k-th pushed item is named k, so no two pushed items share a name. */
  ghost predicate PqItemsNumbered(ops: seq<PqOp>) {
    ops == [] ||
    (PqItemsNumbered(ops[..|ops| - 1]) &&
     (ops[|ops| - 1].Push? ==> ops[|ops| - 1].item == PqItem(PqPushes(ops[..|ops| - 1]))))
  }

  lemma PqSnoc(ops: seq<PqOp>, op: PqOp)
    ensures (ops + [op])[..|ops|] == ops
  {
  }

  class PqGenerator {
    var ops: seq<PqOp>
    var size: nat
    var itemIdx: nat

    ghost predicate Valid()
      reads this
    {
      && size == PqSize(ops)
      && itemIdx == PqPushes(ops)
      && PqItemsNumbered(ops)
    }

    constructor ()
      ensures Valid() && ops == []
    {
      ops, size, itemIdx := [], 0, 0;
    }

    method Push(priority: int)
      requires Valid()
      modifies this
      ensures Valid() && ops == old(ops) + [PQ.Push(priority, PqItem(PqPushes(old(ops))))]
      ensures size == old(size) + 1
    {
      var op := PQ.Push(priority, PqItem(itemIdx));
      PqSnoc(ops, op);
      itemIdx := itemIdx + 1;
      size := size + 1;
      ops := ops + [op];
    }

    method Pop()
      requires Valid()
      modifies this
      ensures Valid() && ops == old(ops) + [PQ.Pop]
      ensures size == if old(size) == 0 then 0 else old(size) - 1
    {
      PqSnoc(ops, PQ.Pop);
      if size > 0 {
        size := size - 1;
      }
      ops := ops + [PQ.Pop];
    }

    method Peek()
      requires Valid()
      modifies this
      ensures Valid() && ops == old(ops) + [PQ.Peek]
      ensures size == old(size)
    {
      PqSnoc(ops, PQ.Peek);
      ops := ops + [PQ.Peek];
    }
  }

  function PqPrelude(): seq<PqOp> {
    [PQ.Push(TIE_PRIORITY, PqItem(0)), PQ.Push(TIE_PRIORITY, PqItem(1)), PQ.Push(TIE_PRIORITY, PqItem(2)),
     PQ.Peek, PQ.Pop]
  }

  /** The operation that a roll and a pick choose after `ops`. */
  function PqChosen(ops: seq<PqOp>, roll: real, pick: nat): PqOp {
    if roll < 0.5 || PqSize(ops) == 0
    then PQ.Push(PRIORITY_POOL[pick % |PRIORITY_POOL|], PqItem(PqPushes(ops)))
    else if roll < 0.8 then PQ.Pop
    else PQ.Peek
  }

  /** The prelude and `k` random operations. */
  function PqMixed(rolls: nat -> real, picks: nat -> nat, k: nat): seq<PqOp> {
    if k == 0 then PqPrelude()
    else
      var before := PqMixed(rolls, picks, k - 1);
      before + [PqChosen(before, rolls(k - 1), picks(k - 1))]
  }

  function PqPops(n: nat): seq<PqOp> {
    if n == 0 then [] else PqPops(n - 1) + [PQ.Pop]
  }

  function AtLeastZero(n: int): nat { if n < 0 then 0 else n }

  /** The whole generated sequence: prelude, random operations, drain, probe past empty. */
  function PqGenerated(rolls: nat -> real, picks: nat -> nat, n: int): seq<PqOp> {
    var mixed := PqMixed(rolls, picks, AtLeastZero(n - 7));
    mixed + PqPops(PqSize(mixed)) + [PQ.Pop, PQ.Peek]
  }

  method PqPreludeOps() returns (g: PqGenerator)
    ensures fresh(g) && g.Valid() && g.ops == PqPrelude()
  {
    g := new PqGenerator();
    g.Push(TIE_PRIORITY);
    g.Push(TIE_PRIORITY);
    g.Push(TIE_PRIORITY);
    g.Peek();
    g.Pop();
    PqPreludeCounts();
  }

  method PqRandomOp(g: PqGenerator, roll: real, pick: nat)
    requires g.Valid()
    modifies g
    ensures g.Valid() && g.ops == old(g.ops) + [PqChosen(old(g.ops), roll, pick)]
  {
    if roll < 0.5 || g.size == 0 {
      g.Push(PRIORITY_POOL[pick % |PRIORITY_POOL|]);
    } else if roll < 0.8 {
      g.Pop();
    } else {
      g.Peek();
    }
  }

  method PqDrain(g: PqGenerator)
    requires g.Valid()
    modifies g
    ensures g.Valid() && g.ops == old(g.ops) + PqPops(PqSize(old(g.ops)))
  {
    ghost var start, popped := g.ops, 0;
    while g.size > 0
      invariant g.Valid() && popped + g.size == PqSize(start) && g.ops == start + PqPops(popped)
      decreases g.size
    {
      g.Pop();
      popped := popped + 1;
    }
  }

  method PqSeededOps(rolls: nat -> real, picks: nat -> nat, n: int) returns (ops: seq<PqOp>)
    ensures ops == PqGenerated(rolls, picks, n)
  {
    var g := PqPreludeOps();
    var remaining := AtLeastZero(n - |g.ops| - 2);
    for i := 0 to remaining
      invariant g.Valid() && fresh(g) && g.ops == PqMixed(rolls, picks, i)
    {
      PqRandomOp(g, rolls(i), picks(i));
    }
    PqDrain(g);
    g.Pop();
    g.Peek();
    ops := g.ops;
  }

  lemma PqMixedKeeps(rolls: nat -> real, picks: nat -> nat, k: nat)
    ensures |PqMixed(rolls, picks, k)| == 5 + k && PqPrelude() <= PqMixed(rolls, picks, k)
    ensures PqEmptyPops(PqMixed(rolls, picks, k)) == 0 && PqItemsNumbered(PqMixed(rolls, picks, k))
  {
    PqPreludeCounts();
    PqMixedExtends(rolls, picks, k, PqPrelude());
    PqMixedCounts(rolls, picks, k, PqPrelude());
  }

  lemma {:induction false} PqMixedExtends(rolls: nat -> real, picks: nat -> nat, k: nat, prelude: seq<PqOp>)
    requires prelude == PqMixed(rolls, picks, 0)
    ensures |PqMixed(rolls, picks, k)| == |prelude| + k && prelude <= PqMixed(rolls, picks, k)
  {
    if k > 0 {
      PqMixedExtends(rolls, picks, k - 1, prelude);
      var before := PqMixed(rolls, picks, k - 1);
      var op := PqChosen(before, rolls(k - 1), picks(k - 1));
      assert PqMixed(rolls, picks, k) == before + [op];
    }
  }

  lemma {:induction false} PqMixedCounts(rolls: nat -> real, picks: nat -> nat, k: nat, prelude: seq<PqOp>)
    requires prelude == PqMixed(rolls, picks, 0) && PqEmptyPops(prelude) == 0 && PqItemsNumbered(prelude)
    ensures PqEmptyPops(PqMixed(rolls, picks, k)) == 0 && PqItemsNumbered(PqMixed(rolls, picks, k))
  {
    if k > 0 {
      PqMixedCounts(rolls, picks, k - 1, prelude);
      PqMixedMore(rolls, picks, k, PqMixed(rolls, picks, k - 1));
    }
  }

  lemma PqMixedMore(rolls: nat -> real, picks: nat -> nat, k: nat, before: seq<PqOp>)
    requires k > 0 && before == PqMixed(rolls, picks, k - 1) && PqEmptyPops(before) == 0 && PqItemsNumbered(before)
    ensures PqMixed(rolls, picks, k) == before + [PqChosen(before, rolls(k - 1), picks(k - 1))]
    ensures PqEmptyPops(PqMixed(rolls, picks, k)) == 0 && PqItemsNumbered(PqMixed(rolls, picks, k))
  {
    PqChosenKeeps(before, rolls(k - 1), picks(k - 1));
  }

  /** A random operation: a push when the roll is below 0.5 or nothing is live, of a priority from the pool
      and the next item; else a pop below 0.8, and else a peek. */
  lemma PqMixedAt(sign: int, rolls: nat -> real, picks: nat -> nat, k: nat)
    ensures PqMixed(rolls, picks, 0) ==
            [PQ.Push(2, "item" + Decimal(0)), PQ.Push(2, "item" + Decimal(1)), PQ.Push(2, "item" + Decimal(2)), PQ.Peek, PQ.Pop]
    ensures var before := PqMixed(rolls, picks, k);
            PqMixed(rolls, picks, k + 1) == before +
              [if rolls(k) < 0.5 || PQ.Run(sign, before).live == []
               then PQ.Push([1, 2, 2, 3, 4, 4, 5][picks(k) % 7], "item" + Decimal(PQ.Run(sign, before).counter))
               else if rolls(k) < 0.8 then PQ.Pop else PQ.Peek]
  {
    PqSizeIsOccupancy(sign, PqMixed(rolls, picks, k));
  }

  /** The whole sequence: the prelude and as many random operations as reach the length, a pop for each
      live item, a pop and a peek. */
  lemma PqGeneratedIs(sign: int, rolls: nat -> real, picks: nat -> nat, n: int)
    ensures var mixed := PqMixed(rolls, picks, if n < 7 then 0 else n - 7);
            var live := |PQ.Run(sign, mixed).live|;
            && PqGenerated(rolls, picks, n) == mixed + PqPops(live) + [PQ.Pop, PQ.Peek]
            && |PqPops(live)| == live && forall i :: 0 <= i < live ==> PqPops(live)[i] == PQ.Pop
  {
    var mixed := PqMixed(rolls, picks, if n < 7 then 0 else n - 7);
    PqSizeIsOccupancy(sign, mixed);
    PqPopsArePops(|PQ.Run(sign, mixed).live|);
  }

  lemma {:induction false} PqPopsArePops(n: nat)
    ensures |PqPops(n)| == n && forall i :: 0 <= i < n ==> PqPops(n)[i] == PQ.Pop
  {
    if n > 0 { PqPopsArePops(n - 1); }
  }

  /** A random operation never pops an empty queue, and numbers the item it pushes. */
  lemma PqChosenKeeps(ops: seq<PqOp>, roll: real, pick: nat)
    requires PqEmptyPops(ops) == 0 && PqItemsNumbered(ops)
    ensures PqEmptyPops(ops + [PqChosen(ops, roll, pick)]) == 0 && PqItemsNumbered(ops + [PqChosen(ops, roll, pick)])
  {
    PqSnoc(ops, PqChosen(ops, roll, pick));
  }

  lemma {:induction false} PqPopsDrain(ops: seq<PqOp>, k: nat)
    requires k <= PqSize(ops)
    ensures PqSize(ops + PqPops(k)) == PqSize(ops) - k && |PqPops(k)| == k
    ensures PqEmptyPops(ops + PqPops(k)) == PqEmptyPops(ops)
    ensures PqItemsNumbered(ops) ==> PqItemsNumbered(ops + PqPops(k))
  {
    if k == 0 {
      assert ops + [] == ops;
    } else {
      PqPopsDrain(ops, k - 1);
      PqSnoc(ops + PqPops(k - 1), PQ.Pop);
      assert ops + PqPops(k) == (ops + PqPops(k - 1)) + [PQ.Pop];
    }
  }

  /** Every generated sequence has at least the requested length, starts with the tie-break probe,
      never pops an empty queue before its end, and then probes it empty, for every random stream. */
  lemma PqGeneratedProbes(rolls: nat -> real, picks: nat -> nat, n: int)
    ensures var ops := PqGenerated(rolls, picks, n);
            && |ops| >= n && |ops| >= 7 && PqPrelude() <= ops
            && ops[|ops| - 2..] == [PQ.Pop, PQ.Peek]
            && PqSize(ops[..|ops| - 2]) == 0 && PqEmptyPops(ops[..|ops| - 2]) == 0
            && PqItemsNumbered(ops[..|ops| - 2])
  {
    var mixed := PqMixed(rolls, picks, AtLeastZero(n - 7));
    PqMixedKeeps(rolls, picks, AtLeastZero(n - 7));
    PqPopsDrain(mixed, PqSize(mixed));
    var ops := PqGenerated(rolls, picks, n);
    assert ops[..|ops| - 2] == mixed + PqPops(PqSize(mixed));
  }

  lemma PqPreludeCounts()
    ensures PqPushes([]) == 0
    ensures PqPushes(PqPrelude()[..1]) == 1 && PqPushes(PqPrelude()[..2]) == 2
    ensures PqEmptyPops(PqPrelude()) == 0 && PqItemsNumbered(PqPrelude())
  {
    var ops := PqPrelude();
    assert ops[..4][..3] == ops[..3] && ops[..3][..2] == ops[..2];
    assert ops[..2][..1] == ops[..1] && ops[..1][..0] == [];
    assert PqItemsNumbered(ops[..1]) && PqItemsNumbered(ops[..2]) && PqItemsNumbered(ops[..3]);
    assert PqSize(ops[..1]) == 1 && PqSize(ops[..2]) == 2 && PqSize(ops[..3]) == 3;
    assert PqEmptyPops(ops[..2]) == 0 && PqEmptyPops(ops[..3]) == 0 && PqEmptyPops(ops[..4]) == 0;
  }

  /** The counted size is the reference's occupancy, in both directions of the queue. */
  lemma {:induction false} PqSizeIsOccupancy(sign: int, ops: seq<PqOp>)
    ensures PqSize(ops) == |PQ.Run(sign, ops).live|
    ensures PqPushes(ops) == PQ.Run(sign, ops).counter
    ensures After(PqMachine(sign), PQ.Queue([], 0), ops) == PQ.Run(sign, ops)
  {
    if ops != [] { PqSizeIsOccupancy(sign, ops[..|ops| - 1]); }
  }

  /** The tie-break probe of every generated sequence expects the first tied item, twice. */
  lemma PqTieProbed(sign: int, ops: seq<PqOp>)
    requires PqPrelude() <= ops
    ensures var expected := Lines(PqMachine(sign), PQ.Queue([], 0), ops);
            expected[3] == PqItem(0) && expected[4] == PqItem(0)
  {
    PqTiesQueued(sign, ops);
    assert ops[3] == PqPrelude()[3] && ops[4] == PqPrelude()[4];
    PqTieLine(sign, ops, 3);
    PqTieLine(sign, ops, 4);
  }

  lemma PqTieLine(sign: int, ops: seq<PqOp>, i: nat)
    requires i < |ops| && !ops[i].Push?
    requires var q := After(PqMachine(sign), PQ.Queue([], 0), ops[..i]);
             q.live != [] && q.live[PQ.First(q.live)].item == PqItem(0)
    ensures Lines(PqMachine(sign), PQ.Queue([], 0), ops)[i] == PqItem(0)
  {
    LineAt(PqMachine(sign), PQ.Queue([], 0), ops, i);
  }

  /** Its last two operations find the queue empty and expect two misses. */
  lemma PqEmptyProbed(sign: int, ops: seq<PqOp>)
    requires |ops| >= 2 && ops[|ops| - 2..] == [PQ.Pop, PQ.Peek] && PqSize(ops[..|ops| - 2]) == 0
    ensures var expected := Lines(PqMachine(sign), PQ.Queue([], 0), ops);
            expected[|ops| - 2] == "none" && expected[|ops| - 1] == "none"
  {
    var popped := ops[..|ops| - 1];
    assert popped[..|popped| - 1] == ops[..|ops| - 2];
    assert ops[|ops| - 2] == PQ.Pop && ops[|ops| - 1] == PQ.Peek;
    PqMiss(sign, ops, |ops| - 2);
    PqMiss(sign, ops, |ops| - 1);
  }

  lemma PqMiss(sign: int, ops: seq<PqOp>, i: nat)
    requires i < |ops| && PqSize(ops[..i]) == 0 && !ops[i].Push?
    ensures Lines(PqMachine(sign), PQ.Queue([], 0), ops)[i] == "none"
  {
    PqSizeIsOccupancy(sign, ops[..i]);
    PqEmptyReply(sign, PQ.Run(sign, ops[..i]), ops[i]);
    LineAt(PqMachine(sign), PQ.Queue([], 0), ops, i);
  }

  lemma PqEmptyReply(sign: int, q: PQ.Queue<string>, op: PqOp)
    requires q.live == [] && !op.Push?
    ensures PqMachine(sign).reply(q, op) == "none"
  {
  }

  lemma PqTiesQueued(sign: int, ops: seq<PqOp>)
    requires PqPrelude() <= ops
    ensures var q := After(PqMachine(sign), PQ.Queue([], 0), ops[..3]);
            && q.live != [] && q.live[PQ.First(q.live)].item == PqItem(0)
            && After(PqMachine(sign), PQ.Queue([], 0), ops[..4]) == q
  {
    var m, start := PqMachine(sign), PQ.Queue<string>.Queue([], 0);
    assert ops[..4][..3] == ops[..3] && ops[..3][..2] == ops[..2];
    assert ops[..2][..1] == ops[..1] && ops[..1][..0] == [];
    assert ops[0] == PqPrelude()[0] && ops[1] == PqPrelude()[1] && ops[2] == PqPrelude()[2] && ops[3] == PqPrelude()[3];
    assert After(m, start, ops[..1]).live == [PQ.Entry(sign * TIE_PRIORITY, 0, PqItem(0))];
    assert |After(m, start, ops[..2]).live| == 2;
    assert After(m, start, ops[..3]).live[0].item == PqItem(0);
  }

  // ---------------------------------------------------------------- ring buffer

  function RingItem(i: nat): string {
    "r" + Decimal(i)
  }

  lemma RingItemInjective(i: nat, j: nat)
    requires RingItem(i) == RingItem(j)
    ensures i == j
  {
    assert RingItem(i)[1..] == Decimal(i) && RingItem(j)[1..] == Decimal(j);
    DecimalInjective(i, j);
  }

  function RingPushes(ops: seq<RingOp>): nat {
    if ops == [] then 0
    else RingPushes(ops[..|ops| - 1]) + if ops[|ops| - 1].Push? then 1 else 0
  }

  class RingGenerator {
    const capacity: nat
    var ops: seq<RingOp>
    var size: nat
    var itemIdx: nat

    ghost predicate Valid()
      reads this
    {
      && 1 <= capacity && size <= capacity
      && size == Ring.Occupancy(capacity, ops)
      && itemIdx == RingPushes(ops)
    }

    constructor (capacity: nat)
      requires 1 <= capacity
      ensures Valid() && ops == [] && this.capacity == capacity
    {
      this.capacity := capacity;
      ops, size, itemIdx := [], 0, 0;
    }

    method Push()
      requires Valid()
      modifies this
      ensures Valid() && ops == old(ops) + [Ring.Push(RingItem(old(itemIdx)))]
      ensures itemIdx == old(itemIdx) + 1 && size == if old(size) < capacity then old(size) + 1 else capacity
    {
      var op := Ring.Push(RingItem(itemIdx));
      assert (ops + [op])[..|ops|] == ops;
      itemIdx := itemIdx + 1;
      ops := ops + [op];
      size := if size + 1 < capacity then size + 1 else capacity;
    }

    method Pop()
      requires Valid()
      modifies this
      ensures Valid() && ops == old(ops) + [Ring.Pop]
      ensures itemIdx == old(itemIdx) && size == if old(size) == 0 then 0 else old(size) - 1
    {
      assert (ops + [Ring.Pop])[..|ops|] == ops;
      if size > 0 {
        size := size - 1;
      }
      ops := ops + [Ring.Pop];
    }

    method Peek()
      requires Valid()
      modifies this
      ensures Valid() && ops == old(ops) + [Ring.Peek]
      ensures itemIdx == old(itemIdx) && size == old(size)
    {
      assert (ops + [Ring.Peek])[..|ops|] == ops;
      ops := ops + [Ring.Peek];
    }
  }

  /** `n` pushes of the items named from 0. */
  function Fill(n: nat): (r: seq<RingOp>)
    ensures |r| == n
    ensures forall i :: 0 <= i < n ==> r[i] == Ring.Push(RingItem(i))
  {
    if n == 0 then [] else Fill(n - 1) + [Ring.Push(RingItem(n - 1))]
  }

  function PopTimes(n: nat): (r: seq<RingOp>)
    ensures |r| == n
    ensures forall i :: 0 <= i < n ==> r[i] == Ring.Pop
  {
    if n == 0 then [] else PopTimes(n - 1) + [Ring.Pop]
  }

  /** Fill to capacity and peek, overwrite and peek, drain, and probe past empty. */
  function RingPrelude(c: nat): seq<RingOp> {
    Fill(c) + [Ring.Peek, Ring.Push(RingItem(c)), Ring.Peek] + PopTimes(c) + [Ring.Pop, Ring.Peek]
  }

  method RingFill(c: nat) returns (g: RingGenerator)
    requires 1 <= c
    ensures fresh(g) && g.Valid() && g.capacity == c && g.ops == Fill(c) && g.itemIdx == c && g.size == c
  {
    g := new RingGenerator(c);
    for i := 0 to c
      invariant g.Valid() && fresh(g) && g.capacity == c
      invariant g.ops == Fill(i) && g.itemIdx == i && g.size == i
    {
      g.Push();
    }
  }

  method RingDrain(g: RingGenerator)
    requires g.Valid()
    modifies g
    ensures g.Valid() && g.ops == old(g.ops) + PopTimes(old(g.size))
  {
    ghost var start, popped := g.ops, 0;
    while g.size > 0
      invariant g.Valid() && 0 <= popped && g.size == old(g.size) - popped
      invariant g.ops == start + PopTimes(popped)
      decreases g.size
    {
      g.Pop();
      popped := popped + 1;
    }
  }

  method RingPreludeOps(c: nat) returns (g: RingGenerator)
    requires 1 <= c
    ensures fresh(g) && g.Valid() && g.capacity == c && g.ops == RingPrelude(c)
  {
    g := RingFill(c);
    g.Peek();
    g.Push();
    g.Peek();
    assert g.ops == Fill(c) + [Ring.Peek, Ring.Push(RingItem(c)), Ring.Peek];
    RingDrain(g);
    g.Pop();
    g.Peek();
  }

  /** How many pops were issued against an empty ring. */
  function RingEmptyPops(c: nat, ops: seq<RingOp>): nat {
    if ops == [] then 0
    else
      var init := ops[..|ops| - 1];
      RingEmptyPops(c, init) + if ops[|ops| - 1].Pop? && Ring.Occupancy(c, init) == 0 then 1 else 0
  }

  function RingChosen(c: nat, ops: seq<RingOp>, roll: real): RingOp {
    if roll < 0.55 || Ring.Occupancy(c, ops) == 0 then Ring.Push(RingItem(RingPushes(ops)))
    else if roll < 0.8 then Ring.Pop
    else Ring.Peek
  }

  /** The prelude and `k` random operations. */
  function RingMixed(c: nat, rolls: nat -> real, k: nat): seq<RingOp> {
    if k == 0 then RingPrelude(c)
    else var before := RingMixed(c, rolls, k - 1); before + [RingChosen(c, before, rolls(k - 1))]
  }

  method RingRandomOp(g: RingGenerator, roll: real)
    requires g.Valid()
    modifies g
    ensures g.Valid() && g.ops == old(g.ops) + [RingChosen(g.capacity, old(g.ops), roll)]
  {
    if roll < 0.55 || g.size == 0 {
      g.Push();
    } else if roll < 0.8 {
      g.Pop();
    } else {
      g.Peek();
    }
  }

  method RingSeededOps(c: nat, rolls: nat -> real, n: int) returns (ops: seq<RingOp>)
    requires 1 <= c
    ensures ops == RingMixed(c, rolls, AtLeastZero(n - |RingPrelude(c)|))
    ensures RingPrelude(c) <= ops && |ops| == if n < 2 * c + 5 then 2 * c + 5 else n
  {
    var g := RingPreludeOps(c);
    var remaining := AtLeastZero(n - |g.ops|);
    for i := 0 to remaining
      invariant g.Valid() && fresh(g) && g.capacity == c && g.ops == RingMixed(c, rolls, i)
    {
      RingRandomOp(g, rolls(i));
    }
    ops := g.ops;
    RingSeeded(c, rolls, n, ops);
  }

  /** The sequence starts with the whole prelude, and has `n` operations unless the prelude has more. */
  lemma RingSeeded(c: nat, rolls: nat -> real, n: int, ops: seq<RingOp>)
    requires 1 <= c && ops == RingMixed(c, rolls, AtLeastZero(n - |RingPrelude(c)|))
    ensures RingPrelude(c) <= ops && |ops| == if n < 2 * c + 5 then 2 * c + 5 else n
  {
    RingMixedKeeps(c, rolls, AtLeastZero(n - |RingPrelude(c)|));
  }

  /** A random operation: a push of the next item when the roll is below 0.55 or nothing is held, else a pop
      below 0.8, and else a peek. */
  lemma RingMixedAt(c: nat, rolls: nat -> real, k: nat)
    requires 1 <= c
    ensures var before := RingMixed(c, rolls, k);
            RingMixed(c, rolls, k + 1) == before +
              [if rolls(k) < 0.55 || Ring.Run(c, before) == [] then Ring.Push("r" + Decimal(|Ring.Pushed(before)|))
               else if rolls(k) < 0.8 then Ring.Pop else Ring.Peek]
  {
    var before := RingMixed(c, rolls, k);
    Ring.HoldsNewestPushes(c, before);
    Ring.OccupancyBounds(c, before);
    RingPushesAreCounted(before);
  }

  lemma {:induction false} RingPushesAreCounted(ops: seq<RingOp>)
    ensures RingPushes(ops) == |Ring.Pushed(ops)|
  {
    if ops != [] { RingPushesAreCounted(ops[..|ops| - 1]); }
  }

  /** The prelude: `c` pushes, a peek, one push more, a peek, `c` pops, and a pop and a peek. */
  lemma RingPreludeIs(c: nat, rolls: nat -> real, i: nat)
    requires 1 <= c && i < 2 * c + 5
    ensures |RingMixed(c, rolls, 0)| == 2 * c + 5
    ensures RingMixed(c, rolls, 0)[i] ==
            if i < c then Ring.Push("r" + Decimal(i)) else if i == c + 1 then Ring.Push("r" + Decimal(c))
            else if i == c || i == c + 2 || i == 2 * c + 4 then Ring.Peek else Ring.Pop
  {
  }

  lemma RingSnoc(c: nat, ops: seq<RingOp>, op: RingOp)
    ensures RingEmptyPops(c, ops + [op]) ==
            RingEmptyPops(c, ops) + if op.Pop? && Ring.Occupancy(c, ops) == 0 then 1 else 0
  {
    assert (ops + [op])[..|ops|] == ops;
  }

  /** The random operations come behind the whole prelude and never pop an empty ring. */
  lemma RingMixedKeeps(c: nat, rolls: nat -> real, k: nat)
    ensures |RingMixed(c, rolls, k)| == |RingPrelude(c)| + k && RingPrelude(c) <= RingMixed(c, rolls, k)
    ensures RingEmptyPops(c, RingMixed(c, rolls, k)) == RingEmptyPops(c, RingPrelude(c))
  {
    RingMixedExtends(c, rolls, k, RingPrelude(c));
  }

  lemma {:induction false} RingMixedExtends(c: nat, rolls: nat -> real, k: nat, prelude: seq<RingOp>)
    requires prelude == RingMixed(c, rolls, 0)
    ensures |RingMixed(c, rolls, k)| == |prelude| + k && prelude <= RingMixed(c, rolls, k)
    ensures RingEmptyPops(c, RingMixed(c, rolls, k)) == RingEmptyPops(c, prelude)
  {
    if k > 0 {
      RingMixedExtends(c, rolls, k - 1, prelude);
      RingMixedMore(c, rolls, k, RingMixed(c, rolls, k - 1));
    }
  }

  lemma RingMixedMore(c: nat, rolls: nat -> real, k: nat, before: seq<RingOp>)
    requires k > 0 && before == RingMixed(c, rolls, k - 1)
    ensures RingMixed(c, rolls, k) == before + [RingChosen(c, before, rolls(k - 1))]
    ensures RingEmptyPops(c, RingMixed(c, rolls, k)) == RingEmptyPops(c, before)
  {
    RingSnoc(c, before, RingChosen(c, before, rolls(k - 1)));
  }

  // ---------------------------------------------------------------- what the ring prelude expects

  /** The item names from `lo` up to `hi`. */
  function Names(lo: nat, hi: nat): (r: seq<string>)
    requires lo <= hi
    ensures |r| == hi - lo
    ensures forall i :: 0 <= i < hi - lo ==> r[i] == RingItem(lo + i)
    decreases hi - lo
  {
    if lo == hi then [] else [RingItem(lo)] + Names(lo + 1, hi)
  }

  /** The reference's contents after each prefix of the prelude, through its last pop. */
  function PreludeContents(c: nat, i: nat): seq<string>
    requires i <= 2 * c + 4
  {
    if i <= c then Names(0, i)
    else if i == c + 1 then Names(0, c)
    else if i <= c + 3 then Names(1, c + 1)
    else if i <= 2 * c + 3 then Names(i - c - 2, c + 1)
    else []
  }

  function PreludeOp(c: nat, i: nat): RingOp {
    if i < c then Ring.Push(RingItem(i))
    else if i == c || i == c + 2 || i == 2 * c + 4 then Ring.Peek
    else if i == c + 1 then Ring.Push(RingItem(c))
    else Ring.Pop
  }

  /** `ops` starts with the prelude, read operation by operation. */
  ghost predicate StartsWithPrelude(c: nat, ops: seq<RingOp>) {
    2 * c + 5 <= |ops| && forall i :: 0 <= i < 2 * c + 5 ==> ops[i] == PreludeOp(c, i)
  }

  lemma PreludeByOp(c: nat, ops: seq<RingOp>)
    requires RingPrelude(c) <= ops
    ensures StartsWithPrelude(c, ops)
  {
    assert |RingPrelude(c)| == 2 * c + 5;
    forall i | 0 <= i < 2 * c + 5 ensures ops[i] == PreludeOp(c, i) {
      assert ops[i] == RingPrelude(c)[i];
    }
  }

  lemma {:induction false} PreludeRun(c: nat, ops: seq<RingOp>, i: nat)
    requires 1 <= c && StartsWithPrelude(c, ops) && i <= 2 * c + 4
    ensures After(RingMachine(c), [], ops[..i]) == PreludeContents(c, i)
  {
    if i == 0 {
      NothingYet(c, ops[..i], i);
    } else {
      PreludeRun(c, ops, i - 1);
      PreludeRunStep(c, ops, i - 1);
    }
  }

  lemma PreludeRunStep(c: nat, ops: seq<RingOp>, i: nat)
    requires 1 <= c && StartsWithPrelude(c, ops) && i < 2 * c + 4
    requires After(RingMachine(c), [], ops[..i]) == PreludeContents(c, i)
    ensures After(RingMachine(c), [], ops[..i + 1]) == PreludeContents(c, i + 1)
  {
    RingAfter(c, ops, i);
    PreludeStep(c, i);
    assert ops[i] == PreludeOp(c, i);
  }

  lemma NothingYet(c: nat, ops: seq<RingOp>, i: nat)
    requires ops == [] && i == 0
    ensures After(RingMachine(c), [], ops) == PreludeContents(c, i)
  {
  }

  lemma RingAfter(c: nat, ops: seq<RingOp>, i: nat)
    requires i < |ops|
    ensures After(RingMachine(c), [], ops[..i + 1]) == Ring.Step(c, After(RingMachine(c), [], ops[..i]), ops[i])
  {
    assert ops[..i + 1][..i] == ops[..i];
  }

  lemma PreludeStep(c: nat, i: nat)
    requires 1 <= c && i < 2 * c + 4
    ensures Ring.Step(c, PreludeContents(c, i), PreludeOp(c, i)) == PreludeContents(c, i + 1)
  {
    if i < c {
      NamesMore(0, i);
    } else if i == c + 1 {
      NamesMore(0, c);
      NamesLess(0, c + 1);
    } else if c + 3 <= i < 2 * c + 3 {
      NamesLess(i - c - 2, c + 1);
    }
  }

  lemma NamesMore(lo: nat, hi: nat)
    requires lo <= hi
    ensures Names(lo, hi) + [RingItem(hi)] == Names(lo, hi + 1)
  {
  }

  lemma NamesLess(lo: nat, hi: nat)
    requires lo < hi
    ensures Names(lo, hi)[1..] == Names(lo + 1, hi)
  {
  }

  /** What the prelude expects on each line, for capacity `c`. */
  function PreludeExpected(c: nat, i: nat): string {
    if i < c || i == c + 1 then "ok"
    else if i == c then RingItem(0)
    else if i == c + 2 then RingItem(1)
    else if i <= 2 * c + 2 then RingItem(i - c - 2)
    else "none"
  }

  lemma PreludeFront(c: nat, i: nat)
    requires 1 <= c <= i < 2 * c + 5 && i != c + 1
    ensures Printed(Ring.Front(PreludeContents(c, i))) == PreludeExpected(c, i)
  {
  }

  lemma RingReply(c: nat, items: seq<string>, op: RingOp)
    ensures RingMachine(c).reply(items, op) == if op.Push? then "ok" else Printed(Ring.Front(items))
    ensures DropNewestMachine(c).reply(items, op) == RingMachine(c).reply(items, op)
  {
  }

  /** For every capacity and every random stream, the prelude expects the first item at index `c`,
      the second at `c + 2` after the overwrite, then items 1 to `c` in order, then two misses. */
  lemma RingPreludeExpects(c: nat, ops: seq<RingOp>, i: nat)
    requires 1 <= c && RingPrelude(c) <= ops && i < 2 * c + 5
    ensures i < |ops|
    ensures Lines(RingMachine(c), [], ops)[i] == PreludeExpected(c, i)
  {
    PreludeByOp(c, ops);
    RingLine(c, ops, i);
  }

  lemma RingLine(c: nat, ops: seq<RingOp>, i: nat)
    requires 1 <= c && StartsWithPrelude(c, ops) && i < 2 * c + 5
    ensures Lines(RingMachine(c), [], ops)[i] == PreludeExpected(c, i)
  {
    LineAt(RingMachine(c), [], ops, i);
    PreludeRun(c, ops, i);
    RingReply(c, PreludeContents(c, i), ops[i]);
    if c <= i && i != c + 1 {
      PreludeFront(c, i);
    }
  }

  /** A ring that drops the newest item instead of the oldest. */
  function DropNewestMachine(capacity: nat): Machine<seq<string>, RingOp> {
    Machine((items: seq<string>, op: RingOp) =>
              if op.Push? && |items| >= capacity then items else Ring.Step(capacity, items, op),
            RingMachine(capacity).reply)
  }

  lemma DropNewestAfter(c: nat, ops: seq<RingOp>, i: nat)
    requires i < |ops|
    ensures var items := After(DropNewestMachine(c), [], ops[..i]);
            After(DropNewestMachine(c), [], ops[..i + 1]) ==
            if ops[i].Push? && |items| >= c then items else Ring.Step(c, items, ops[i])
  {
    assert ops[..i + 1][..i] == ops[..i];
  }

  lemma {:induction false} DropNewestPrefix(c: nat, ops: seq<RingOp>, i: nat)
    requires 1 <= c && StartsWithPrelude(c, ops) && i <= c + 2
    ensures After(DropNewestMachine(c), [], ops[..i]) == Names(0, if i <= c then i else c)
  {
    if i == 0 {
      assert ops[..0] == [];
    } else {
      DropNewestPrefix(c, ops, i - 1);
      DropNewestAfter(c, ops, i - 1);
      DropNewestStep(c, ops, i - 1);
    }
  }

  lemma DropNewestStep(c: nat, ops: seq<RingOp>, i: nat)
    requires 1 <= c && StartsWithPrelude(c, ops) && i < c + 2
    ensures var items := Names(0, if i <= c then i else c);
            (if ops[i].Push? && |items| >= c then items else Ring.Step(c, items, ops[i])) == Names(0, if i < c then i + 1 else c)
  {
    if i < c { PreludeStep(c, i); }
  }

  lemma DropNewestLine(c: nat, ops: seq<RingOp>, i: nat)
    requires 1 <= c && StartsWithPrelude(c, ops) && i <= c + 2
    ensures Lines(DropNewestMachine(c), [], ops)[i] == if i < c + 2 then PreludeExpected(c, i) else RingItem(0)
  {
    LineAt(DropNewestMachine(c), [], ops, i);
    DropNewestPrefix(c, ops, i);
    RingReply(c, Names(0, if i <= c then i else c), ops[i]);
  }

  /** The wrong-wrap bug the prelude exists for is caught, and first seen, exactly at `c + 2`. */
  lemma DropNewestFirstDivergesAt(c: nat, ops: seq<RingOp>)
    requires 1 <= c && RingPrelude(c) <= ops
    ensures FirstDivergesAt(Lines(RingMachine(c), [], ops), Lines(DropNewestMachine(c), [], ops), c + 2)
  {
    PreludeByOp(c, ops);
    forall i | 0 <= i <= c + 2
      ensures Lines(DropNewestMachine(c), [], ops)[i] == if i < c + 2 then PreludeExpected(c, i) else RingItem(0)
      ensures Lines(RingMachine(c), [], ops)[i] == PreludeExpected(c, i)
    {
      DropNewestLine(c, ops, i);
      RingLine(c, ops, i);
    }
    if RingItem(0) == RingItem(1) {
      RingItemInjective(0, 1);
    }
  }

  // ---------------------------------------------------------------- the whole oracle

  /** For every random stream and every length, in either direction: a build that simulates the queue
      is agreed with on the generated operations. */
  method PqOracle<S(!new)>(m: Machine<S, PqOp>, start: S, ghost related: (S, PQ.Queue<string>) -> bool,
                           max: bool, rolls: nat -> real, picks: nat -> nat, n: int) returns (v: Verdict)
    requires IsSimulation(m, PqMachine(if max then -1 else 1), related) && related(start, PQ.Queue([], 0))
    ensures v == Agreed
  {
    var ops := PqSeededOps(rolls, picks, n);
    PqGeneratedProbes(rolls, picks, n);
    var expected := BuildPq(ops, max);
    var actual := RunBuild(m, start, ops);
    SimulationPrintsTheSame(m, PqMachine(if max then -1 else 1), related, start, PQ.Queue([], 0), ops);
    AcceptedIffPrefix(expected, actual);
    v := Verify(ops, expected, actual);
  }

  /** For every random stream, every length and every capacity: a build that simulates the ring is
      agreed with on the generated operations, and one that drops the newest item is not. */
  method RingOracle<S(!new)>(m: Machine<S, RingOp>, start: S, ghost related: (S, seq<string>) -> bool,
                             c: nat, rolls: nat -> real, n: int) returns (v: Verdict, dropped: Verdict)
    requires 1 <= c && IsSimulation(m, RingMachine(c), related) && related(start, [])
    ensures v == Agreed
    ensures dropped.Diverged? && dropped.index == c + 2
  {
    var ops := RingSeededOps(c, rolls, n);
    var expected := BuildRing(ops, c);
    var actual := RunBuild(m, start, ops);
    SimulationPrintsTheSame(m, RingMachine(c), related, start, [], ops);
    AcceptedIffPrefix(expected, actual);
    v := Verify(ops, expected, actual);
    dropped := JudgeDropNewest(c, ops, expected);
  }

  method JudgeDropNewest(c: nat, ops: seq<RingOp>, expected: seq<string>) returns (dropped: Verdict)
    requires 1 <= c && RingPrelude(c) <= ops && expected == Lines(RingMachine(c), [], ops)
    ensures dropped.Diverged? && dropped.index == c + 2
  {
    var wrong := RunBuild(DropNewestMachine(c), [], ops);
    DropNewestFirstDivergesAt(c, ops);
    DivergenceIsUnique(expected, wrong, c + 2);
    assert FirstDivergesAt(expected, wrong, c + 2);
    dropped := Verify(ops, expected, wrong);
  }
}
