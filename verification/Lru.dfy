/**
 * The LRU reference model: an ordered dictionary whose order is recency (least recent first).
 * The class is proved against a functional cache, and two whole-run theorems are proved about
 * that: the stack inclusion property and the reuse-distance characterisation of a hit.
 */
module Lru {
  import opened Options
  import opened Sequences

  datatype Op<K, V> = Put(key: K, value: V) | Get(key: K)

  datatype Cache<K, V> = Cache(order: seq<K>, data: map<K, V>)

  ghost predicate WellFormed<K, V>(c: Cache<K, V>) {
    NoDup(c.order) && c.data.Keys == Elements(c.order)
  }

  function Touch<K(==)>(order: seq<K>, key: K): seq<K> {
    Without(order, key) + [key]
  }

  function AfterPut<K(==), V>(c: Cache<K, V>, capacity: nat, key: K, value: V): Cache<K, V> {
    var order := Touch(c.order, key);
    var data := c.data[key := value];
    if |order| > capacity then Cache(order[1..], data - {order[0]}) else Cache(order, data)
  }

  function AfterGet<K(==), V>(c: Cache<K, V>, key: K): Cache<K, V> {
    if key in c.data then Cache(Touch(c.order, key), c.data) else c
  }

  function Lookup<K(==), V>(c: Cache<K, V>, key: K): Option<V> {
    if key in c.data then Some(c.data[key]) else None
  }

  class LruReference<K(==), V> {
    const capacity: nat
    var order: seq<K>
    var data: map<K, V>

    ghost predicate Valid()
      reads this
    {
      1 <= capacity && WellFormed(State()) && |order| <= capacity
    }

    ghost function State(): Cache<K, V>
      reads this
    {
      Cache(order, data)
    }

    constructor (requested: int)
      ensures Valid() && State() == Cache([], map[])
      ensures capacity == if requested < 1 then 1 else requested
    {
      capacity := if requested < 1 then 1 else requested;
      order, data := [], map[];
    }

    method Get(key: K) returns (value: Option<V>)
      requires Valid()
      modifies this
      ensures Valid()
      ensures State() == AfterGet(old(State()), key)
      ensures value == Lookup(old(State()), key)
    {
      if key !in data {
        return None;
      }
      TouchWellFormed(State(), key, data[key]);
      order := Without(order, key) + [key];
      value := Some(data[key]);
    }

    method Put(key: K, value: V)
      requires Valid()
      modifies this
      ensures Valid()
      ensures State() == AfterPut(old(State()), capacity, key, value)
    {
      PutKeepsWellFormed(State(), capacity, key, value);
      if key in data {
        order := Without(order, key) + [key];
      } else {
        WithoutAbsent(order, key);
        order := order + [key];
      }
      data := data[key := value];
      if |order| > capacity {
        data := data - {order[0]};
        order := order[1..];
      }
    }
  }

  lemma TouchElements<K>(order: seq<K>, key: K)
    ensures Elements(Touch(order, key)) == Elements(order) + {key}
    ensures NoDup(order) ==> NoDup(Touch(order, key))
  {
    WithoutElements(order, key);
    var rest := Without(order, key);
    assert (rest + [key])[..|rest|] == rest;
  }

  lemma TouchLength<K>(order: seq<K>, key: K)
    requires NoDup(order)
    ensures |Touch(order, key)| == if key in order then |order| else |order| + 1
  {
    if key in order { WithoutLength(order, key); } else { WithoutAbsent(order, key); }
  }

  lemma TouchWellFormed<K, V>(c: Cache<K, V>, key: K, value: V)
    requires WellFormed(c)
    ensures WellFormed(Cache(Touch(c.order, key), c.data[key := value]))
    ensures |Touch(c.order, key)| == if key in c.data then |c.order| else |c.order| + 1
  {
    TouchElements(c.order, key);
    TouchLength(c.order, key);
    assert key in c.order <==> key in Elements(c.order);
  }

  lemma PutKeepsWellFormed<K, V>(c: Cache<K, V>, capacity: nat, key: K, value: V)
    requires WellFormed(c) && |c.order| <= capacity && 1 <= capacity
    ensures WellFormed(AfterPut(c, capacity, key, value))
    ensures |AfterPut(c, capacity, key, value).order| <= capacity
  {
    TouchWellFormed(c, key, value);
    var order := Touch(c.order, key);
    if |order| > capacity {
      assert order == [order[0]] + order[1..];
      NoDupConcat([order[0]], order[1..]);
    }
  }

  // ---------------------------------------------------------------- whole runs

  function Step<K(==), V>(capacity: nat, c: Cache<K, V>, op: Op<K, V>): Cache<K, V> {
    match op
    case Put(k, v) => AfterPut(c, capacity, k, v)
    case Get(k) => AfterGet(c, k)
  }

  function Run<K(==), V>(capacity: nat, ops: seq<Op<K, V>>): Cache<K, V> {
    if ops == [] then Cache([], map[])
    else Step(capacity, Run(capacity, ops[..|ops| - 1]), ops[|ops| - 1])
  }

  lemma {:induction false} RunWellFormed<K, V>(capacity: nat, ops: seq<Op<K, V>>)
    requires 1 <= capacity
    ensures WellFormed(Run(capacity, ops)) && |Run(capacity, ops).order| <= capacity
  {
    if ops != [] {
      var before := Run(capacity, ops[..|ops| - 1]);
      RunWellFormed(capacity, ops[..|ops| - 1]);
      match ops[|ops| - 1]
      case Put(k, v) => PutKeepsWellFormed(before, capacity, k, v);
      case Get(k) =>
        if k in before.data {
          TouchWellFormed(before, k, before.data[k]);
          assert before.data[k := before.data[k]] == before.data;
        }
    }
  }

  /** The value of the last `put` on `key`, whatever happened to the entry since. */
  function LastPut<K(==), V>(ops: seq<Op<K, V>>, key: K): Option<V> {
    if ops == [] then None
    else match ops[|ops| - 1]
      case Put(k, v) => if k == key then Some(v) else LastPut(ops[..|ops| - 1], key)
      case Get(_) => LastPut(ops[..|ops| - 1], key)
  }

  /** A hit never returns a stale value: what is stored under a key is what was last put there. */
  lemma {:induction false} StoredIsLastPut<K, V>(capacity: nat, ops: seq<Op<K, V>>, key: K)
    requires 1 <= capacity
    requires key in Run(capacity, ops).data
    ensures LastPut(ops, key) == Some(Run(capacity, ops).data[key])
  {
    if ops != [] {
      var init := ops[..|ops| - 1];
      if !(ops[|ops| - 1].Put? && ops[|ops| - 1].key == key) {
        StoredIsLastPut(capacity, init, key);
      }
    }
  }

  /** It is the value of the put behind which no other put is on the key. */
  lemma {:induction false} LastPutIs<K, V>(ops: seq<Op<K, V>>, key: K, i: nat)
    requires i < |ops| && ops[i].Put? && ops[i].key == key
    requires forall j :: i < j < |ops| ==> !(ops[j].Put? && ops[j].key == key)
    ensures LastPut(ops, key) == Some(ops[i].value)
  {
    if i < |ops| - 1 { LastPutIs(ops[..|ops| - 1], key, i); }
  }

  lemma {:induction false} NeverPut<K, V>(ops: seq<Op<K, V>>, key: K)
    requires forall j :: 0 <= j < |ops| ==> !(ops[j].Put? && ops[j].key == key)
    ensures LastPut(ops, key) == None
  {
    if ops != [] { NeverPut(ops[..|ops| - 1], key); }
  }

  // ---------------------------------------------------------------- stack inclusion

  /** `a` is a subsequence of `b`. */
  predicate Subsequence<K(==)>(a: seq<K>, b: seq<K>) {
    if a == [] then true
    else if b == [] then false
    else if a[|a| - 1] == b[|b| - 1] then Subsequence(a[..|a| - 1], b[..|b| - 1])
    else Subsequence(a, b[..|b| - 1])
  }

  lemma {:induction false} SubsequenceElements<K>(a: seq<K>, b: seq<K>)
    requires Subsequence(a, b)
    ensures |a| <= |b| && forall x :: x in a ==> x in b
  {
    if a != [] {
      assert a == a[..|a| - 1] + [a[|a| - 1]];
      if a[|a| - 1] == b[|b| - 1] {
        SubsequenceElements(a[..|a| - 1], b[..|b| - 1]);
      } else {
        SubsequenceElements(a, b[..|b| - 1]);
      }
    }
  }

  lemma {:induction false} SubsequenceSkip<K>(a: seq<K>, b: seq<K>, x: K)
    requires Subsequence(a, b)
    ensures Subsequence(a, b + [x])
    decreases |a| + |b|, 1
  {
    assert (b + [x])[..|b|] == b;
    if a != [] && a[|a| - 1] == x {
      SubsequenceDropLast(a, b);
    }
  }

  lemma {:induction false} SubsequenceDropLast<K>(a: seq<K>, b: seq<K>)
    requires Subsequence(a, b) && a != []
    ensures Subsequence(a[..|a| - 1], b)
    decreases |a| + |b|, 0
  {
    var ai, bi, x := a[..|a| - 1], b[..|b| - 1], b[|b| - 1];
    assert b == bi + [x];
    if a[|a| - 1] != x {
      SubsequenceDropLast(a, bi);
    }
    SubsequenceSkip(ai, bi, x);
  }

  lemma DropBothEnds<K>(s: seq<K>)
    requires |s| > 1
    ensures s[1..][..|s| - 2] == s[..|s| - 1][1..]
  {
  }

  /** Dropping the oldest element of the left, or of both. */
  lemma {:induction false} SubsequenceDropFirst<K>(a: seq<K>, b: seq<K>)
    requires Subsequence(a, b) && a != []
    ensures Subsequence(a[1..], b)
    ensures Subsequence(a[1..], b[1..])
  {
    var ai, bi, x := a[..|a| - 1], b[..|b| - 1], b[|b| - 1];
    if |a| > 1 {
      assert b == bi + [x];
      if a[|a| - 1] == x {
        SubsequenceDropFirst(ai, bi);
        SubsequenceElements(ai, bi);
        DropBothEnds(a);
      } else {
        SubsequenceDropFirst(a, bi);
        SubsequenceElements(a, bi);
        SubsequenceSkip(a[1..], bi, x);
        SubsequenceSkip(a[1..], bi[1..], x);
      }
      assert b[1..] == bi[1..] + [x];
      assert b[1..][..|b| - 2] == bi[1..];
    }
  }

  lemma {:induction false} SubsequenceWithout<K>(a: seq<K>, b: seq<K>, x: K)
    requires Subsequence(a, b)
    ensures Subsequence(Without(a, x), Without(b, x))
  {
    if a != [] {
      var ai, bi, y := a[..|a| - 1], b[..|b| - 1], b[|b| - 1];
      if a[|a| - 1] == y {
        SubsequenceWithout(ai, bi, x);
        if y != x {
          SubsequenceSnoc(Without(ai, x), Without(bi, x), y);
        }
      } else {
        SubsequenceWithout(a, bi, x);
        SubsequenceSkip(Without(a, x), Without(bi, x), y);
      }
    }
  }

  lemma SubsequenceSnoc<K>(a: seq<K>, b: seq<K>, x: K)
    requires Subsequence(a, b)
    ensures Subsequence(a + [x], b + [x])
  {
    assert (a + [x])[..|a|] == a && (b + [x])[..|b|] == b;
  }

  /** The larger cache contains the smaller, in the same recency order; before it is full, the
      smaller cache has evicted nothing and is the larger one. */
  ghost predicate Included<K, V>(capacity: nat, small: Cache<K, V>, large: Cache<K, V>) {
    && Subsequence(small.order, large.order)
    && (|small.order| == capacity || small.order == large.order)
  }

  lemma PutKeepsInclusion<K, V>(c: nat, C: nat, small: Cache<K, V>, large: Cache<K, V>, key: K, value: V)
    requires 1 <= c <= C
    requires WellFormed(small) && WellFormed(large) && |small.order| <= c && |large.order| <= C
    requires Included(c, small, large)
    ensures Included(c, AfterPut(small, c, key, value), AfterPut(large, C, key, value))
  {
    TouchKeepsSubsequence(small.order, large.order, key);
    TouchWellFormed(small, key, value);
    TouchWellFormed(large, key, value);
    SubsequenceElements(small.order, large.order);
    SubsequenceDropFirst(Touch(small.order, key), Touch(large.order, key));
  }

  lemma GetKeepsInclusion<K, V>(c: nat, small: Cache<K, V>, large: Cache<K, V>, key: K)
    requires WellFormed(small) && WellFormed(large)
    requires Included(c, small, large)
    ensures Included(c, AfterGet(small, key), AfterGet(large, key))
  {
    TouchKeepsSubsequence(small.order, large.order, key);
    SubsequenceElements(small.order, large.order);
    if key in small.data {
      WithoutLength(small.order, key);
    } else if key in large.data {
      SubsequenceWithout(small.order, large.order, key);
      WithoutAbsent(small.order, key);
      SubsequenceSkip(small.order, Without(large.order, key), key);
    }
  }

  lemma TouchKeepsSubsequence<K>(a: seq<K>, b: seq<K>, key: K)
    requires Subsequence(a, b)
    ensures Subsequence(Touch(a, key), Touch(b, key))
  {
    SubsequenceWithout(a, b, key);
    SubsequenceSnoc(Without(a, key), Without(b, key), key);
  }

  /** Stack inclusion: on every trace, the cache of capacity `c` is a subsequence, in recency
      order, of the cache of any capacity `C >= c`; a hit in the smaller is a hit in the larger,
      with the same value. */
  lemma {:induction false} StackInclusion<K, V>(c: nat, C: nat, ops: seq<Op<K, V>>)
    requires 1 <= c <= C
    ensures Included(c, Run(c, ops), Run(C, ops))
    ensures forall k :: k in Run(c, ops).data ==> Lookup(Run(C, ops), k) == Lookup(Run(c, ops), k)
  {
    RunWellFormed(c, ops);
    RunWellFormed(C, ops);
    if ops != [] {
      var init := ops[..|ops| - 1];
      StackInclusion(c, C, init);
      RunWellFormed(c, init);
      RunWellFormed(C, init);
      match ops[|ops| - 1]
      case Put(k, v) => PutKeepsInclusion(c, C, Run(c, init), Run(C, init), k, v);
      case Get(k) => GetKeepsInclusion(c, Run(c, init), Run(C, init), k);
    }
    SubsequenceElements(Run(c, ops).order, Run(C, ops).order);
    forall k | k in Run(c, ops).data
      ensures Lookup(Run(C, ops), k) == Lookup(Run(c, ops), k)
    {
      assert k in Run(c, ops).order;
      StoredIsLastPut(c, ops, k);
      StoredIsLastPut(C, ops, k);
    }
  }

  // ---------------------------------------------------------------- reuse distance

  /** The keys that were put or hit, in order of time. */
  function Touches<K(==), V>(capacity: nat, ops: seq<Op<K, V>>): seq<K> {
    if ops == [] then []
    else
      var init, op := ops[..|ops| - 1], ops[|ops| - 1];
      if op.Put? || op.key in Run(capacity, init).data
      then Touches(capacity, init) + [op.key]
      else Touches(capacity, init)
  }

  /** One more operation: a put touches its key, and a get that hits. */
  lemma TouchesSnoc<K, V>(capacity: nat, ops: seq<Op<K, V>>, op: Op<K, V>)
    ensures Touches(capacity, ops + [op]) ==
            if op.Put? || Lookup(Run(capacity, ops), op.key).Some? then Touches(capacity, ops) + [op.key]
            else Touches(capacity, ops)
  {
    assert (ops + [op])[..|ops|] == ops;
  }

  /** All keys ever touched, each once, ordered by its last touch. */
  function Recency<K(==)>(touches: seq<K>): seq<K> {
    if touches == [] then []
    else Touch(Recency(touches[..|touches| - 1]), touches[|touches| - 1])
  }

  lemma {:induction false} RecencyElements<K>(touches: seq<K>)
    ensures NoDup(Recency(touches)) && Elements(Recency(touches)) == Elements(touches)
  {
    if touches != [] {
      var init := touches[..|touches| - 1];
      RecencyElements(init);
      TouchElements(Recency(init), touches[|touches| - 1]);
      assert touches == init + [touches[|touches| - 1]];
    }
  }

  /** The distinct keys touched since the last touch of `key`. */
  function TouchedSince<K(==)>(touches: seq<K>, key: K): set<K> {
    if touches == [] || touches[|touches| - 1] == key then {}
    else TouchedSince(touches[..|touches| - 1], key) + {touches[|touches| - 1]}
  }

  /** Behind the last touch of a key at `i`, these are the keys touched. */
  lemma {:induction false} TouchedSinceIs<K>(touches: seq<K>, key: K, i: nat)
    requires i < |touches| && touches[i] == key && forall j :: i < j < |touches| ==> touches[j] != key
    ensures TouchedSince(touches, key) == set j | i < j < |touches| :: touches[j]
  {
    if i < |touches| - 1 {
      var init, last := touches[..|touches| - 1], touches[|touches| - 1];
      TouchedSinceIs(init, key, i);
      assert (set j | i < j < |touches| :: touches[j]) == (set j | i < j < |init| :: init[j]) + {last};
    }
  }

  lemma TouchInNewer<K>(older: seq<K>, newer: seq<K>, key: K)
    requires key !in older
    ensures Touch(older + newer, key) == older + Touch(newer, key)
  {
    WithoutConcat(older, newer, key);
    WithoutAbsent(older, key);
  }

  lemma TouchNotInNewer<K>(older: seq<K>, newer: seq<K>, key: K)
    requires key !in newer
    ensures Touch(older + newer, key) == Without(older, key) + (newer + [key])
  {
    WithoutConcat(older, newer, key);
    WithoutAbsent(newer, key);
  }

  lemma LastNDropFirst<K>(older: seq<K>, newer: seq<K>, key: K)
    requires 1 <= |newer|
    ensures LastN(older + (newer + [key]), |newer|) == newer[1..] + [key]
  {
    assert older + (newer + [key]) == (older + newer[..1]) + (newer[1..] + [key]);
    LastNConcat(older + newer[..1], newer[1..] + [key], |newer|);
  }

  /** Touching commutes with forgetting all but the `n` most recent keys. */
  lemma TouchLastN<K>(s: seq<K>, n: nat, key: K)
    requires NoDup(s) && 1 <= n
    ensures var kept := LastN(s, n);
            LastN(Touch(s, key), n) ==
            if key !in kept && |kept| == n then kept[1..] + [key] else Touch(kept, key)
  {
    var kept := LastN(s, n);
    if |s| < n {
      assert |Touch(s, key)| <= n;
    } else {
      var dropped := s[..|s| - n];
      assert s == dropped + kept;
      if key in kept {
        NoDupConcat(dropped, kept);
        TouchInNewer(dropped, kept, key);
        WithoutLength(kept, key);
        LastNConcat(dropped, Touch(kept, key), n);
      } else {
        TouchNotInNewer(dropped, kept, key);
        LastNDropFirst(Without(dropped, key), kept, key);
      }
    }
  }

  lemma RecencySnoc<K>(touches: seq<K>, key: K)
    ensures Recency(touches + [key]) == Touch(Recency(touches), key)
  {
    assert (touches + [key])[..|touches|] == touches;
  }

  /** A touching step keeps the order within capacity by dropping the oldest key at most. */
  lemma StepOrder<K, V>(capacity: nat, c: Cache<K, V>, op: Op<K, V>)
    requires WellFormed(c) && |c.order| <= capacity && 1 <= capacity
    requires op.Put? || op.key in c.data
    ensures Step(capacity, c, op).order ==
            if op.key !in c.order && |c.order| == capacity
            then c.order[1..] + [op.key] else Touch(c.order, op.key)
  {
    if op.key in c.order {
      WithoutLength(c.order, op.key);
    } else {
      WithoutAbsent(c.order, op.key);
    }
  }

  lemma {:induction false} OrderIsRecency<K, V>(capacity: nat, ops: seq<Op<K, V>>)
    requires 1 <= capacity
    ensures Run(capacity, ops).order == LastN(Recency(Touches(capacity, ops)), capacity)
  {
    if ops != [] {
      var init, op := ops[..|ops| - 1], ops[|ops| - 1];
      var ts, before := Touches(capacity, init), Run(capacity, init);
      OrderIsRecency(capacity, init);
      RunWellFormed(capacity, init);
      if op.Put? || op.key in before.data {
        RecencySnoc(ts, op.key);
        RecencyElements(ts);
        TouchLastN(Recency(ts), capacity, op.key);
        StepOrder(capacity, before, op);
      }
    }
  }

  /** The keys that follow `key` in recency order are exactly those touched since. */
  lemma {:induction false} FollowersTouchedSince<K>(touches: seq<K>, key: K)
    returns (older: seq<K>, newer: seq<K>)
    requires key in touches
    ensures Recency(touches) == older + [key] + newer
    ensures Elements(newer) == TouchedSince(touches, key)
  {
    var init, last := touches[..|touches| - 1], touches[|touches| - 1];
    assert touches == init + [last];
    if last == key {
      older, newer := Without(Recency(init), key), [];
      assert older + [key] + newer == older + [key];
    } else {
      var front, back := FollowersTouchedSince(init, key);
      WithoutConcat(front + [key], back, last);
      WithoutConcat(front, [key], last);
      older, newer := Without(front, last), Touch(back, last);
      assert Recency(touches) == older + [key] + newer;
      TouchElements(back, last);
    }
  }

  /** A key is among the last `n` iff fewer than `n` follow its last occurrence. */
  lemma AmongLastN<K>(older: seq<K>, key: K, newer: seq<K>, n: nat)
    requires key !in newer
    ensures key in LastN(older + [key] + newer, n) <==> |newer| < n
  {
    var front := older + [key];
    LastNConcat(front, newer, n);
    if |newer| < n {
      var kept := LastN(front, n - |newer|);
      assert kept[|kept| - 1] == key;
    }
  }

  /** Reuse distance: `get(key)` hits iff `key` was ever touched and fewer than `capacity`
      distinct other keys were put or hit since; and it then returns the last value put. */
  lemma HitIffRecentlyTouched<K, V>(capacity: nat, ops: seq<Op<K, V>>, key: K)
    requires 1 <= capacity
    ensures var touches := Touches(capacity, ops);
            Lookup(Run(capacity, ops), key) ==
            if key in touches && |TouchedSince(touches, key)| < capacity
            then LastPut(ops, key) else None
  {
    var touches := Touches(capacity, ops);
    OrderIsRecency(capacity, ops);
    RunWellFormed(capacity, ops);
    RecencyElements(touches);
    assert key in Run(capacity, ops).data <==> key in LastN(Recency(touches), capacity);
    if key in touches {
      var older, newer := FollowersTouchedSince(touches, key);
      NoDupConcat(older + [key], newer);
      assert key in older + [key];
      ElementsCount(newer);
      AmongLastN(older, key, newer, capacity);
    } else {
      assert key !in Elements(Recency(touches));
    }
    if key in Run(capacity, ops).data {
      StoredIsLastPut(capacity, ops, key);
    }
  }

  /** Whatever was touched was put at some time. */
  lemma {:induction false} TouchedWasPut<K, V>(capacity: nat, ops: seq<Op<K, V>>, key: K)
    requires 1 <= capacity && key in Touches(capacity, ops)
    ensures LastPut(ops, key).Some?
  {
    var init, op := ops[..|ops| - 1], ops[|ops| - 1];
    if op.Get? && op.key == key && key in Run(capacity, init).data {
      StoredIsLastPut(capacity, init, key);
    } else if !(op.Put? && op.key == key) {
      TouchedWasPut(capacity, init, key);
    }
  }
}
