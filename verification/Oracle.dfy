/**
 * The differential oracle itself: replies of a reference over an operation sequence, the expected
 * lines built by driving each reference model, the first-divergence comparison of `verify`, and
 * the second copy of that comparison in the emitted acceptance script.
 */
module Oracle {
  import opened Options
  import Lru
  import PriorityQueue
  import TtlStore
  import RingBuffer
  import Fifo

  // ---------------------------------------------------------------- machines that print lines

  /** A line-printing machine: how an operation changes its state and what it prints. */
  datatype Machine<!S, !Op> = Machine(next: (S, Op) -> S, reply: (S, Op) -> string)

  function After<S, Op>(m: Machine<S, Op>, start: S, ops: seq<Op>): S {
    if ops == [] then start else m.next(After(m, start, ops[..|ops| - 1]), ops[|ops| - 1])
  }

  function Lines<S, Op>(m: Machine<S, Op>, start: S, ops: seq<Op>): (lines: seq<string>)
    ensures |lines| == |ops|
  {
    if ops == [] then []
    else
      var init := ops[..|ops| - 1];
      Lines(m, start, init) + [m.reply(After(m, start, init), ops[|ops| - 1])]
  }

  lemma {:induction false} LineAt<S, Op>(m: Machine<S, Op>, start: S, ops: seq<Op>, i: nat)
    requires i < |ops|
    ensures Lines(m, start, ops)[i] == m.reply(After(m, start, ops[..i]), ops[i])
  {
    var init := ops[..|ops| - 1];
    if i < |init| {
      LineAt(m, start, init, i);
      assert init[..i] == ops[..i];
    }
  }

  lemma {:induction false} AfterCons<S, Op>(m: Machine<S, Op>, start: S, op: Op, ops: seq<Op>)
    ensures After(m, start, [op] + ops) == After(m, m.next(start, op), ops)
    ensures Lines(m, start, [op] + ops) == [m.reply(start, op)] + Lines(m, m.next(start, op), ops)
  {
    var all := [op] + ops;
    if ops == [] {
      assert all == [op] && all[..0] == [];
    } else {
      assert all[..|all| - 1] == [op] + ops[..|ops| - 1];
      AfterCons(m, start, op, ops[..|ops| - 1]);
    }
  }

  /** Related states print the same line and stay related, whatever the operation. */
  ghost predicate IsSimulation<S(!new), T(!new), Op(!new)>(
      a: Machine<S, Op>, b: Machine<T, Op>, related: (S, T) -> bool)
  {
    forall s, t, op :: related(s, t) ==>
      a.reply(s, op) == b.reply(t, op) && related(a.next(s, op), b.next(t, op))
  }

  lemma {:induction false} SimulationPrintsTheSame<S(!new), T(!new), Op(!new)>(
      a: Machine<S, Op>, b: Machine<T, Op>, related: (S, T) -> bool, s: S, t: T, ops: seq<Op>)
    requires IsSimulation(a, b, related) && related(s, t)
    ensures related(After(a, s, ops), After(b, t, ops))
    ensures Lines(a, s, ops) == Lines(b, t, ops)
  {
    if ops != [] {
      SimulationPrintsTheSame(a, b, related, s, t, ops[..|ops| - 1]);
    }
  }

  ghost predicate Indistinguishable<S, T, Op(!new)>(a: Machine<S, Op>, b: Machine<T, Op>, s: S, t: T) {
    forall ops: seq<Op> :: Lines(a, s, ops) == Lines(b, t, ops)
  }

  lemma IndistinguishableStep<S, T, Op(!new)>(a: Machine<S, Op>, b: Machine<T, Op>, s: S, t: T, op: Op)
    requires Indistinguishable(a, b, s, t)
    ensures a.reply(s, op) == b.reply(t, op)
    ensures Indistinguishable(a, b, a.next(s, op), b.next(t, op))
  {
    forall ops: seq<Op>
      ensures a.reply(s, op) == b.reply(t, op)
      ensures Lines(a, a.next(s, op), ops) == Lines(b, b.next(t, op), ops)
    {
      AfterCons(a, s, op, ops);
      AfterCons(b, t, op, ops);
      assert Lines(a, s, [op] + ops) == Lines(b, t, [op] + ops);
      assert Lines(a, s, [op] + ops)[1..] == Lines(a, a.next(s, op), ops);
    }
    assert Lines(a, a.next(s, op), []) == Lines(b, b.next(t, op), []);
  }

  /** The oracle's method is complete: a build prints the reference's lines on every operation
      sequence iff some relation simulates the reference. */
  lemma PassesEverySequenceIffSimulates<S(!new), T(!new), Op(!new)>(
      a: Machine<S, Op>, b: Machine<T, Op>, s: S, t: T)
    ensures Indistinguishable(a, b, s, t) <==>
            exists related: (S, T) -> bool :: IsSimulation(a, b, related) && related(s, t)
  {
    if Indistinguishable(a, b, s, t) {
      ghost var related := (x: S, y: T) => Indistinguishable(a, b, x, y);
      forall x, y, op | related(x, y)
        ensures a.reply(x, op) == b.reply(y, op) && related(a.next(x, op), b.next(y, op))
      {
        IndistinguishableStep(a, b, x, y, op);
      }
      assert IsSimulation(a, b, related) && related(s, t);
    }
    if related: (S, T) -> bool :| IsSimulation(a, b, related) && related(s, t) {
      forall ops: seq<Op> ensures Lines(a, s, ops) == Lines(b, t, ops) {
        SimulationPrintsTheSame(a, b, related, s, t, ops);
      }
    }
  }

  // ---------------------------------------------------------------- the comparison

  datatype Verdict = Inconclusive | Agreed | Diverged(index: nat, expected: string, actual: Option<string>)

  function LineOrNone(lines: seq<string>, i: nat): Option<string> {
    if i < |lines| then Some(lines[i]) else None
  }

  /** `i` is the least index whose expected line is not printed in place. */
  ghost predicate FirstDivergesAt(expected: seq<string>, actual: seq<string>, i: nat) {
    && i < |expected|
    && (forall j :: 0 <= j < i ==> LineOrNone(actual, j) == Some(expected[j]))
    && LineOrNone(actual, i) != Some(expected[i])
  }

  ghost predicate AllInPlace(expected: seq<string>, actual: seq<string>) {
    forall j :: 0 <= j < |expected| ==> LineOrNone(actual, j) == Some(expected[j])
  }

  /** Acceptance looks at a prefix only: what is printed after the last expected line is ignored. */
  lemma AcceptedIffPrefix(expected: seq<string>, actual: seq<string>)
    ensures AllInPlace(expected, actual) <==> expected <= actual
  {
    if AllInPlace(expected, actual) {
      if expected != [] {
        assert LineOrNone(actual, |expected| - 1) == Some(expected[|expected| - 1]);
      }
      forall j | 0 <= j < |expected| ensures actual[j] == expected[j] {
        assert LineOrNone(actual, j) == Some(expected[j]);
      }
    }
    if expected <= actual {
      assert forall j :: 0 <= j < |expected| ==> actual[j] == expected[j];
    }
  }

  /** The comparison of `verify`, after its guard on an empty or mismatched sequence. */
  method Verify<Op>(ops: seq<Op>, expected: seq<string>, actual: seq<string>) returns (v: Verdict)
    ensures v.Inconclusive? <==> expected == [] || |expected| != |ops|
    ensures v.Agreed? <==> !v.Inconclusive? && AllInPlace(expected, actual)
    ensures v.Diverged? ==>
              && FirstDivergesAt(expected, actual, v.index)
              && v.expected == expected[v.index]
              && v.actual == LineOrNone(actual, v.index)
  {
    if expected == [] || |expected| != |ops| {
      return Inconclusive;
    }
    for i := 0 to |ops|
      invariant forall j :: 0 <= j < i ==> LineOrNone(actual, j) == Some(expected[j])
    {
      var line := LineOrNone(actual, i);
      if line != Some(expected[i]) {
        return Diverged(i, expected[i], line);
      }
    }
    return Agreed;
  }

  /** The loop of the emitted script: `None` when no assertion fails, else the failing index. */
  method EmittedScript(expected: seq<string>, actual: seq<string>) returns (failed: Option<nat>)
    ensures failed.None? <==> AllInPlace(expected, actual)
    ensures failed.Some? ==> FirstDivergesAt(expected, actual, failed.value)
  {
    for i := 0 to |expected|
      invariant forall j :: 0 <= j < i ==> LineOrNone(actual, j) == Some(expected[j])
    {
      if LineOrNone(actual, i) != Some(expected[i]) {
        return Some(i);
      }
    }
    return None;
  }

  /** The reported index is the only one there is, so the two copies of the comparison always
      accept together and otherwise name the same line. */
  lemma DivergenceIsUnique(expected: seq<string>, actual: seq<string>, i: nat)
    requires FirstDivergesAt(expected, actual, i)
    ensures !AllInPlace(expected, actual)
    ensures forall j: nat :: FirstDivergesAt(expected, actual, j) ==> j == i
  {
  }

  // ---------------------------------------------------------------- the five references

  function Printed(value: Option<string>): string {
    if value == None then "none" else value.value
  }

  function LruMachine(capacity: nat): Machine<Lru.Cache<string, string>, Lru.Op<string, string>> {
    Machine((c, op) => Lru.Step(capacity, c, op),
            (c, op: Lru.Op<string, string>) => if op.Put? then "ok" else Printed(Lru.Lookup(c, op.key)))
  }

  function PqMachine(sign: int): Machine<PriorityQueue.Queue<string>, PriorityQueue.Op<string>> {
    Machine((q, op) => PriorityQueue.Step(sign, q, op),
            (q, op: PriorityQueue.Op<string>) => if op.Push? then "ok" else Printed(PriorityQueue.Front(q)))
  }

  function TtlMachine(): Machine<TtlStore.Store<string, string>, TtlStore.Op<string, string>> {
    Machine((s, op) => TtlStore.Step(s, op),
            (s, op: TtlStore.Op<string, string>) => if op.Get? then Printed(TtlStore.Lookup(s, op.key)) else "ok")
  }

  function RingMachine(capacity: nat): Machine<seq<string>, RingBuffer.Op<string>> {
    Machine((items, op) => RingBuffer.Step(capacity, items, op),
            (items, op: RingBuffer.Op<string>) => if op.Push? then "ok" else Printed(RingBuffer.Front(items)))
  }

  function FifoMachine(): Machine<seq<string>, Fifo.Op<string>> {
    Machine((items, op) => Fifo.Step(items, op),
            (items, op: Fifo.Op<string>) => if op.Enqueue? then "ok" else Printed(Fifo.Front(items)))
  }

  lemma {:induction false} LinesSnoc<S, Op>(m: Machine<S, Op>, start: S, ops: seq<Op>, i: nat)
    requires i < |ops|
    ensures After(m, start, ops[..i + 1]) == m.next(After(m, start, ops[..i]), ops[i])
    ensures Lines(m, start, ops[..i + 1]) ==
            Lines(m, start, ops[..i]) + [m.reply(After(m, start, ops[..i]), ops[i])]
  {
    assert ops[..i + 1][..i] == ops[..i];
  }

  // ---------------------------------------------------------------- what the expected lines are

  lemma {:induction false} LruAfter(capacity: nat, ops: seq<Lru.Op<string, string>>)
    ensures After(LruMachine(capacity), Lru.Cache([], map[]), ops) == Lru.Run(capacity, ops)
  {
    if ops != [] { LruAfter(capacity, ops[..|ops| - 1]); }
  }

  /** What a get prints after `ops`: the last value put under its key if fewer than `capacity` distinct
      other keys were touched since it was, and else "none". */
  ghost predicate LruReplies(capacity: nat, ops: seq<Lru.Op<string, string>>, key: string, line: string) {
    var touches := Lru.Touches(capacity, ops);
    if key in touches && |Lru.TouchedSince(touches, key)| < capacity
    then Lru.LastPut(ops, key) == Some(line) else line == "none"
  }

  lemma LruLine(capacity: nat, ops: seq<Lru.Op<string, string>>, i: nat)
    requires 1 <= capacity && i < |ops|
    ensures var line := Lines(LruMachine(capacity), Lru.Cache([], map[]), ops)[i];
            if ops[i].Put? then line == "ok" else LruReplies(capacity, ops[..i], ops[i].key, line)
  {
    LineAt(LruMachine(capacity), Lru.Cache([], map[]), ops, i);
    LruAfter(capacity, ops[..i]);
    Lru.HitIffRecentlyTouched(capacity, ops[..i], ops[i].key);
    Lru.RunWellFormed(capacity, ops[..i]);
    if ops[i].Get? && ops[i].key in Lru.Run(capacity, ops[..i]).data {
      Lru.StoredIsLastPut(capacity, ops[..i], ops[i].key);
    }
    if ops[i].Get? && ops[i].key in Lru.Touches(capacity, ops[..i]) {
      Lru.TouchedWasPut(capacity, ops[..i], ops[i].key);
    }
  }

  lemma {:induction false} PqAfter(sign: int, ops: seq<PriorityQueue.Op<string>>)
    ensures After(PqMachine(sign), PriorityQueue.Queue([], 0), ops) == PriorityQueue.Run(sign, ops)
  {
    if ops != [] { PqAfter(sign, ops[..|ops| - 1]); }
  }

  /** What a pop or peek prints after `ops`: "none" if nothing is live, else the item of the live entry
      of least signed priority that was pushed first. */
  ghost predicate PqReplies(sign: int, ops: seq<PriorityQueue.Op<string>>, line: string) {
    var live := PriorityQueue.Run(sign, ops).live;
    if live == [] then line == "none"
    else exists k :: 0 <= k < |live| && line == live[k].item
                     && forall j :: 0 <= j < |live| && j != k ==>
                          live[k].key < live[j].key || (live[k].key == live[j].key && live[k].tick < live[j].tick)
  }

  lemma PqLine(sign: int, ops: seq<PriorityQueue.Op<string>>, i: nat)
    requires i < |ops|
    ensures var line := Lines(PqMachine(sign), PriorityQueue.Queue([], 0), ops)[i];
            if ops[i].Push? then line == "ok" else PqReplies(sign, ops[..i], line)
  {
    LineAt(PqMachine(sign), PriorityQueue.Queue([], 0), ops, i);
    PqAfter(sign, ops[..i]);
    PriorityQueue.RunWellFormed(sign, ops[..i]);
    var live := PriorityQueue.Run(sign, ops[..i]).live;
    if !ops[i].Push? && live != [] {
      var k := PriorityQueue.First(live);
      assert forall j :: 0 <= j < |live| && j != k ==>
               live[k].key < live[j].key || (live[k].key == live[j].key && live[k].tick < live[j].tick);
    }
  }

  lemma {:induction false} TtlAfter(ops: seq<TtlStore.Op<string, string>>)
    ensures After(TtlMachine(), TtlStore.Store(map[], 0), ops) == TtlStore.Run(ops)
  {
    if ops != [] { TtlAfter(ops[..|ops| - 1]); }
  }

  /** What a get prints after `ops`: the value last set under its key if that was fewer ticks ago than
      its lifetime, and else "none". */
  ghost predicate TtlReplies(ops: seq<TtlStore.Op<string, string>>, key: string, line: string) {
    var age := TtlStore.LastSet(ops, key);
    line == if age.Some? && age.value.ticks < age.value.ttl then age.value.value else "none"
  }

  lemma TtlLine(ops: seq<TtlStore.Op<string, string>>, i: nat)
    requires i < |ops|
    ensures var line := Lines(TtlMachine(), TtlStore.Store(map[], 0), ops)[i];
            if ops[i].Get? then TtlReplies(ops[..i], ops[i].key, line) else line == "ok"
  {
    LineAt(TtlMachine(), TtlStore.Store(map[], 0), ops, i);
    TtlAfter(ops[..i]);
    if ops[i].Get? { TtlStore.GetIffYoungerThanTtl(ops[..i], ops[i].key); }
  }

  lemma {:induction false} RingAfter(capacity: nat, ops: seq<RingBuffer.Op<string>>)
    ensures After(RingMachine(capacity), [], ops) == RingBuffer.Run(capacity, ops)
  {
    if ops != [] { RingAfter(capacity, ops[..|ops| - 1]); }
  }

  /** What a pop or peek prints after `ops`: "none" when nothing is held, else the oldest of as many
      newest pushes as are held. */
  ghost predicate RingReplies(capacity: nat, ops: seq<RingBuffer.Op<string>>, line: string) {
    var pushed, n := RingBuffer.Pushed(ops), RingBuffer.Occupancy(capacity, ops);
    if n == 0 then line == "none" else n <= |pushed| && line == pushed[|pushed| - n]
  }

  lemma RingLine(capacity: nat, ops: seq<RingBuffer.Op<string>>, i: nat)
    requires 1 <= capacity && i < |ops|
    ensures var line := Lines(RingMachine(capacity), [], ops)[i];
            if ops[i].Push? then line == "ok" else RingReplies(capacity, ops[..i], line)
  {
    LineAt(RingMachine(capacity), [], ops, i);
    RingAfter(capacity, ops[..i]);
    RingReply(capacity, ops[..i], ops[i], After(RingMachine(capacity), [], ops[..i]), Lines(RingMachine(capacity), [], ops)[i]);
  }

  lemma RingReply(capacity: nat, ops: seq<RingBuffer.Op<string>>, op: RingBuffer.Op<string>, items: seq<string>, line: string)
    requires 1 <= capacity && items == RingBuffer.Run(capacity, ops) && line == RingMachine(capacity).reply(items, op)
    ensures if op.Push? then line == "ok" else RingReplies(capacity, ops, line)
  {
    RingBuffer.FrontIsOldest(capacity, ops);
  }

  lemma {:induction false} FifoAfter(ops: seq<Fifo.Op<string>>)
    ensures After(FifoMachine(), [], ops) == Fifo.Run(ops)
  {
    if ops != [] { FifoAfter(ops[..|ops| - 1]); }
  }

  /** What a dequeue or peek prints after `ops`: the oldest arrival that has not left, or "none". */
  ghost predicate FifoReplies(ops: seq<Fifo.Op<string>>, line: string) {
    var arrived, left := Fifo.Enqueued(ops), |Fifo.Dequeued(ops)|;
    line == if left < |arrived| then arrived[left] else "none"
  }

  lemma FifoLine(ops: seq<Fifo.Op<string>>, i: nat)
    requires i < |ops|
    ensures var line := Lines(FifoMachine(), [], ops)[i];
            if ops[i].Enqueue? then line == "ok" else FifoReplies(ops[..i], line)
    ensures var arrived, left := Fifo.Enqueued(ops[..i]), |Fifo.Dequeued(ops[..i])|;
            Lines(FifoMachine(), [], ops)[i] ==
            if ops[i].Enqueue? then "ok" else if left < |arrived| then arrived[left] else "none"
  {
    LineAt(FifoMachine(), [], ops, i);
    FifoAfter(ops[..i]);
    Fifo.FrontIsOldest(ops[..i]);
  }

  // ---------------------------------------------------------------- driving the references

  method BuildLru(ops: seq<Lru.Op<string, string>>, requested: int) returns (expected: seq<string>)
    ensures expected == Lines(LruMachine(if requested < 1 then 1 else requested), Lru.Cache([], map[]), ops)
    ensures forall i :: 0 <= i < |ops| ==>
              if ops[i].Put? then expected[i] == "ok"
              else LruReplies(if requested < 1 then 1 else requested, ops[..i], ops[i].key, expected[i])
  {
    var reference := new Lru.LruReference<string, string>(requested);
    var m := LruMachine(reference.capacity);
    expected := [];
    for i := 0 to |ops|
      invariant reference.Valid() && fresh(reference)
      invariant reference.State() == After(m, Lru.Cache([], map[]), ops[..i])
      invariant expected == Lines(m, Lru.Cache([], map[]), ops[..i])
    {
      LinesSnoc(m, Lru.Cache([], map[]), ops, i);
      match ops[i] {
        case Put(key, value) =>
          reference.Put(key, value);
          expected := expected + ["ok"];
        case Get(key) =>
          var value := reference.Get(key);
          expected := expected + [Printed(value)];
      }
    }
    assert ops[..|ops|] == ops;
    forall i | 0 <= i < |ops|
      ensures if ops[i].Put? then expected[i] == "ok" else LruReplies(reference.capacity, ops[..i], ops[i].key, expected[i])
    {
      LruLine(reference.capacity, ops, i);
    }
  }

  method PqAnswer(reference: PriorityQueue.PriorityQueueReference<string>, op: PriorityQueue.Op<string>) returns (line: string)
    requires reference.Valid()
    modifies reference
    ensures reference.Valid()
    ensures reference.State() == PriorityQueue.Step(reference.sign, old(reference.State()), op)
    ensures line == if op.Push? then "ok" else Printed(PriorityQueue.Front(old(reference.State())))
  {
    match op {
      case Push(priority, item) =>
        reference.Push(priority, item);
        return "ok";
      case Pop =>
        var value := reference.Pop();
        return Printed(value);
      case Peek =>
        var value := reference.Peek();
        return Printed(value);
    }
  }

  method BuildPq(ops: seq<PriorityQueue.Op<string>>, max: bool) returns (expected: seq<string>)
    ensures expected == Lines(PqMachine(if max then -1 else 1), PriorityQueue.Queue([], 0), ops)
    ensures forall i :: 0 <= i < |ops| ==>
              if ops[i].Push? then expected[i] == "ok" else PqReplies(if max then -1 else 1, ops[..i], expected[i])
  {
    var reference := new PriorityQueue.PriorityQueueReference<string>(max);
    ghost var m, start := PqMachine(reference.sign), PriorityQueue.Queue<string>.Queue([], 0);
    expected := [];
    for i := 0 to |ops|
      invariant reference.Valid() && fresh(reference)
      invariant reference.State() == After(m, start, ops[..i])
      invariant expected == Lines(m, start, ops[..i])
    {
      LinesSnoc(m, start, ops, i);
      var line := PqAnswer(reference, ops[i]);
      expected := expected + [line];
    }
    assert ops[..|ops|] == ops;
    forall i | 0 <= i < |ops|
      ensures if ops[i].Push? then expected[i] == "ok" else PqReplies(reference.sign, ops[..i], expected[i])
    {
      PqLine(reference.sign, ops, i);
    }
  }

  method BuildTtl(ops: seq<TtlStore.Op<string, string>>) returns (expected: seq<string>)
    ensures expected == Lines(TtlMachine(), TtlStore.Store(map[], 0), ops)
    ensures forall i :: 0 <= i < |ops| ==>
              if ops[i].Get? then TtlReplies(ops[..i], ops[i].key, expected[i]) else expected[i] == "ok"
  {
    var reference := new TtlStore.TtlReference<string, string>();
    var m := TtlMachine();
    ghost var start := TtlStore.Store<string, string>.Store(map[], 0);
    expected := [];
    for i := 0 to |ops|
      invariant fresh(reference)
      invariant reference.State() == After(m, start, ops[..i])
      invariant expected == Lines(m, start, ops[..i])
    {
      LinesSnoc(m, start, ops, i);
      match ops[i] {
        case Set(key, value, ttl) =>
          reference.Set(key, value, ttl);
          expected := expected + ["ok"];
        case Get(key) =>
          var value := reference.Get(key);
          expected := expected + [Printed(value)];
        case Tick =>
          reference.Tick();
          expected := expected + ["ok"];
      }
    }
    assert ops[..|ops|] == ops;
    forall i | 0 <= i < |ops|
      ensures if ops[i].Get? then TtlReplies(ops[..i], ops[i].key, expected[i]) else expected[i] == "ok"
    {
      TtlLine(ops, i);
    }
  }

  method BuildRing(ops: seq<RingBuffer.Op<string>>, requested: int) returns (expected: seq<string>)
    ensures expected == Lines(RingMachine(if requested < 1 then 1 else requested), [], ops)
    ensures forall i :: 0 <= i < |ops| ==>
              if ops[i].Push? then expected[i] == "ok"
              else RingReplies(if requested < 1 then 1 else requested, ops[..i], expected[i])
  {
    var reference := new RingBuffer.RingReference<string>(requested);
    var m := RingMachine(reference.capacity);
    expected := [];
    for i := 0 to |ops|
      invariant reference.Valid() && fresh(reference)
      invariant reference.items == After(m, [], ops[..i])
      invariant expected == Lines(m, [], ops[..i])
    {
      LinesSnoc(m, [], ops, i);
      match ops[i] {
        case Push(item) =>
          reference.Push(item);
          expected := expected + ["ok"];
        case Pop =>
          var value := reference.Pop();
          expected := expected + [Printed(value)];
        case Peek =>
          var value := reference.Peek();
          expected := expected + [Printed(value)];
      }
    }
    assert ops[..|ops|] == ops;
    forall i | 0 <= i < |ops|
      ensures if ops[i].Push? then expected[i] == "ok" else RingReplies(reference.capacity, ops[..i], expected[i])
    {
      RingLine(reference.capacity, ops, i);
    }
  }

  method BuildFifo(ops: seq<Fifo.Op<string>>) returns (expected: seq<string>)
    ensures expected == Lines(FifoMachine(), [], ops)
    ensures forall i :: 0 <= i < |ops| ==>
              if ops[i].Enqueue? then expected[i] == "ok" else FifoReplies(ops[..i], expected[i])
  {
    var reference := new Fifo.FifoReference<string>();
    var m := FifoMachine();
    expected := [];
    for i := 0 to |ops|
      invariant fresh(reference)
      invariant reference.items == After(m, [], ops[..i])
      invariant expected == Lines(m, [], ops[..i])
    {
      LinesSnoc(m, [], ops, i);
      match ops[i] {
        case Enqueue(item) =>
          reference.Enqueue(item);
          expected := expected + ["ok"];
        case Dequeue =>
          var value := reference.Dequeue();
          expected := expected + [Printed(value)];
        case Peek =>
          var value := reference.Peek();
          expected := expected + [Printed(value)];
      }
    }
    assert ops[..|ops|] == ops;
    forall i | 0 <= i < |ops|
      ensures if ops[i].Enqueue? then expected[i] == "ok" else FifoReplies(ops[..i], expected[i])
    {
      FifoLine(ops, i);
    }
  }

  // ---------------------------------------------------------------- a build that simulates

  function CircularMachine(): Machine<RingBuffer.Circular<string>, RingBuffer.Op<string>> {
    Machine((c, op) => if RingBuffer.InBounds(c) then RingBuffer.CircularStep(c, op) else c,
            (c, op: RingBuffer.Op<string>) =>
              if op.Push? then "ok"
              else Printed(if RingBuffer.InBounds(c) && c.len > 0 then Some(c.slots[c.head]) else None))
  }

  /** A ring built on a circular array, whatever its slots hold at first, prints the expected lines
      of every operation sequence. */
  lemma CircularRingPasses(slots: seq<string>, ops: seq<RingBuffer.Op<string>>)
    requires slots != []
    ensures Lines(CircularMachine(), RingBuffer.Circular(slots, 0, 0), ops) == Lines(RingMachine(|slots|), [], ops)
  {
    var a, b := CircularMachine(), RingMachine(|slots|);
    ghost var related := (c: RingBuffer.Circular<string>, items: seq<string>) =>
      RingBuffer.Holds(c, items) && |c.slots| == |slots|;
    forall c, items, op | related(c, items)
      ensures a.reply(c, op) == b.reply(items, op) && related(a.next(c, op), b.next(items, op))
    {
      RingBuffer.CircularSimulates(c, items, op);
    }
    SimulationPrintsTheSame(a, b, related, RingBuffer.Circular(slots, 0, 0), [], ops);
  }

  /** The array heap as a build; where its counter is broken it does nothing. */
  ghost function HeapMachine(sign: int): Machine<PriorityQueue.ArrayHeap<string>, PriorityQueue.Op<string>> {
    Machine((h: PriorityQueue.ArrayHeap<string>, op) =>
              if PriorityQueue.TicksKept(h) then PriorityQueue.HeapStep(sign, h, op) else h,
            (h: PriorityQueue.ArrayHeap<string>, op: PriorityQueue.Op<string>) =>
              if op.Push? then "ok" else Printed(PriorityQueue.HeapFront(h)))
  }

  lemma ArrayHeapSimulates(sign: int)
    ensures IsSimulation(HeapMachine(sign), PqMachine(sign), (h, q) => PriorityQueue.Represents(h, q))
  {
    forall h, q, op | PriorityQueue.Represents(h, q)
      ensures HeapMachine(sign).reply(h, op) == PqMachine(sign).reply(q, op)
      ensures PriorityQueue.Represents(HeapMachine(sign).next(h, op), PqMachine(sign).next(q, op))
    {
      PriorityQueue.HeapSimulates(sign, h, q, op);
    }
  }

  /** A queue built on a binary heap prints the expected lines of every operation sequence, in either
      direction. */
  lemma ArrayHeapPasses(sign: int, ops: seq<PriorityQueue.Op<string>>)
    ensures Lines(HeapMachine(sign), PriorityQueue.ArrayHeap([], 0), ops)
            == Lines(PqMachine(sign), PriorityQueue.Queue([], 0), ops)
  {
    ArrayHeapSimulates(sign);
    SimulationPrintsTheSame(HeapMachine(sign), PqMachine(sign), (h, q) => PriorityQueue.Represents(h, q),
      PriorityQueue.ArrayHeap([], 0), PriorityQueue.Queue([], 0), ops);
  }

  /** A TTL store that drops expired entries whenever its history tells it to. */
  datatype Purging = Purging(store: TtlStore.Store<string, string>, history: seq<TtlStore.Op<string, string>>)

  function PurgingMachine(policy: (seq<TtlStore.Op<string, string>>, string) -> bool): Machine<Purging, TtlStore.Op<string, string>> {
    Machine((p: Purging, op: TtlStore.Op<string, string>) =>
              var history := p.history + [op];
              Purging(TtlStore.Purge(TtlStore.Step(p.store, op), k => policy(history, k)), history),
            (p: Purging, op: TtlStore.Op<string, string>) =>
              if op.Get? then Printed(TtlStore.Lookup(p.store, op.key)) else "ok")
  }

  ghost predicate PurgedCopy(p: Purging, full: TtlStore.Store<string, string>) {
    forall key :: TtlStore.AgreeOn(p.store, full, key)
  }

  lemma PurgingSimulates(policy: (seq<TtlStore.Op<string, string>>, string) -> bool)
    ensures IsSimulation(PurgingMachine(policy), TtlMachine(), PurgedCopy)
  {
    var a, b := PurgingMachine(policy), TtlMachine();
    forall p, full, op | PurgedCopy(p, full)
      ensures a.reply(p, op) == b.reply(full, op) && PurgedCopy(a.next(p, op), b.next(full, op))
    {
      var history := p.history + [op];
      forall key ensures TtlStore.AgreeOn(a.next(p, op).store, b.next(full, op), key) {
        TtlStore.PurgingStep(p.store, full, op, k => policy(history, k), key);
      }
      if op.Get? { TtlStore.PurgingStep(p.store, full, op, k => false, op.key); }
    }
  }

  /** A store that purges, by any policy, prints the expected lines of every operation sequence. */
  lemma PurgingStorePasses(policy: (seq<TtlStore.Op<string, string>>, string) -> bool, ops: seq<TtlStore.Op<string, string>>)
    ensures Lines(PurgingMachine(policy), Purging(TtlStore.Store(map[], 0), []), ops)
            == Lines(TtlMachine(), TtlStore.Store(map[], 0), ops)
  {
    PurgingSimulates(policy);
    SimulationPrintsTheSame(PurgingMachine(policy), TtlMachine(), PurgedCopy,
      Purging(TtlStore.Store(map[], 0), []), TtlStore.Store(map[], 0), ops);
  }

  /** Running a build over the operations, line by line. */
  method RunBuild<S, Op>(m: Machine<S, Op>, start: S, ops: seq<Op>) returns (lines: seq<string>)
    ensures lines == Lines(m, start, ops)
  {
    var state := start;
    lines := [];
    for i := 0 to |ops|
      invariant state == After(m, start, ops[..i]) && lines == Lines(m, start, ops[..i])
    {
      LinesSnoc(m, start, ops, i);
      lines := lines + [m.reply(state, ops[i])];
      state := m.next(state, ops[i]);
    }
    assert ops[..|ops|] == ops;
  }
}
