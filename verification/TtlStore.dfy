/**
 * The TTL-store reference model: a dictionary of (value, expiry tick) and a virtual clock that
 * only `tick` advances. The clock arithmetic is proved equivalent to counting the ticks since the
 * last `set`, and dropping expired entries early is proved unobservable.
 */
module TtlStore {
  import opened Options

  datatype Op<K, V> = Set(key: K, value: V, ttl: int) | Get(key: K) | Tick

  datatype Stamped<V> = Stamped(value: V, expiry: int)

  datatype Store<K, V> = Store(data: map<K, Stamped<V>>, now: int)

  function Lifetime(ttl: int): nat {
    if ttl < 0 then 0 else ttl
  }

  function AfterSet<K(==), V>(s: Store<K, V>, key: K, value: V, ttl: int): Store<K, V> {
    s.(data := s.data[key := Stamped(value, s.now + Lifetime(ttl))])
  }

  function Lookup<K(==), V>(s: Store<K, V>, key: K): Option<V> {
    if key in s.data && s.now < s.data[key].expiry then Some(s.data[key].value) else None
  }

  class TtlReference<K(==), V> {
    var data: map<K, Stamped<V>>
    var now: int

    ghost function State(): Store<K, V>
      reads this
    {
      Store(data, now)
    }

    constructor ()
      ensures State() == Store(map[], 0)
    {
      data, now := map[], 0;
    }

    method Set(key: K, value: V, ttl: int)
      modifies this
      ensures State() == AfterSet(old(State()), key, value, ttl)
    {
      data := data[key := Stamped(value, now + if ttl < 0 then 0 else ttl)];
    }

    method Get(key: K) returns (value: Option<V>)
      ensures value == Lookup(State(), key)
    {
      if key !in data {
        return None;
      }
      var stamped := data[key];
      value := if now < stamped.expiry then Some(stamped.value) else None;
    }

    method Tick()
      modifies this
      ensures State() == old(State()).(now := old(now) + 1)
    {
      now := now + 1;
    }
  }

  // ---------------------------------------------------------------- whole runs

  function Step<K(==), V>(s: Store<K, V>, op: Op<K, V>): Store<K, V> {
    match op
    case Set(k, v, ttl) => AfterSet(s, k, v, ttl)
    case Get(_) => s
    case Tick => s.(now := s.now + 1)
  }

  function Run<K(==), V>(ops: seq<Op<K, V>>): Store<K, V> {
    if ops == [] then Store(map[], 0) else Step(Run(ops[..|ops| - 1]), ops[|ops| - 1])
  }

  /** What the last `set` on a key stored, for how long, and how many ticks ago. */
  datatype Age<V> = Age(value: V, ttl: int, ticks: nat)

  function LastSet<K(==), V>(ops: seq<Op<K, V>>, key: K): Option<Age<V>> {
    if ops == [] then None
    else
      var before := LastSet(ops[..|ops| - 1], key);
      match ops[|ops| - 1]
      case Set(k, v, ttl) => if k == key then Some(Age(v, ttl, 0)) else before
      case Get(_) => before
      case Tick => if before.None? then None else Some(before.value.(ticks := before.value.ticks + 1))
  }

  lemma {:induction false} ExpiryCountsTicks<K, V>(ops: seq<Op<K, V>>, key: K)
    ensures var age := LastSet(ops, key);
            var s := Run(ops);
            if age.None? then key !in s.data
            else key in s.data
                 && s.data[key] == Stamped(age.value.value, s.now - age.value.ticks + Lifetime(age.value.ttl))
  {
    if ops != [] { ExpiryCountsTicks(ops[..|ops| - 1], key); }
  }

  /** `get(key)` returns the value of the last `set(key, value, ttl)` iff fewer than `max(0, ttl)`
      ticks happened since, on every trace. */
  lemma GetIffYoungerThanTtl<K, V>(ops: seq<Op<K, V>>, key: K)
    ensures Lookup(Run(ops), key) ==
            match LastSet(ops, key)
            case None => None
            case Some(age) => if age.ticks < age.ttl then Some(age.value) else None
  {
    ExpiryCountsTicks(ops, key);
  }

  lemma TailMore<T>(s: seq<T>, k: nat)
    requires k < |s|
    ensures s[k..] == s[..|s| - 1][k..] + [s[|s| - 1]]
  {
  }

  /** It is of the `set` behind which no other `set` is on the key, so many ticks ago. */
  lemma {:induction false} LastSetIs<K, V>(ops: seq<Op<K, V>>, key: K, i: nat)
    requires i < |ops| && ops[i].Set? && ops[i].key == key
    requires forall j :: i < j < |ops| ==> !(ops[j].Set? && ops[j].key == key)
    ensures LastSet(ops, key) == Some(Age(ops[i].value, ops[i].ttl, multiset(ops[i + 1..])[Tick]))
  {
    var init := ops[..|ops| - 1];
    if i < |init| {
      LastSetIs(init, key, i);
      TailMore(ops, i + 1);
    } else {
      assert ops[i + 1..] == [];
    }
  }

  lemma {:induction false} NeverSet<K, V>(ops: seq<Op<K, V>>, key: K)
    requires forall j :: 0 <= j < |ops| ==> !(ops[j].Set? && ops[j].key == key)
    ensures LastSet(ops, key) == None
  {
    if ops != [] { NeverSet(ops[..|ops| - 1], key); }
  }

  /** Once expired (or never set), a key stays a miss until it is set again. */
  lemma {:induction false} ExpiredStaysExpired<K, V>(ops: seq<Op<K, V>>, all: seq<Op<K, V>>, key: K)
    requires ops <= all && Lookup(Run(ops), key) == None
    requires forall i :: |ops| <= i < |all| ==> !(all[i].Set? && all[i].key == key)
    ensures Lookup(Run(all), key) == None
  {
    if |all| == |ops| {
      assert all == ops;
    } else {
      ExpiredStaysExpired(ops, all[..|all| - 1], key);
    }
  }

  // ---------------------------------------------------------------- lazy and eager purging

  /** The store without the expired entries that `drops` selects. */
  function Purge<K(==), V>(s: Store<K, V>, drops: K -> bool): Store<K, V> {
    Store(map k | k in s.data && (s.now < s.data[k].expiry || !drops(k)) :: s.data[k], s.now)
  }

  /** A store that may purge after every operation, as `policy` decides from the history. */
  function RunPurging<K(==), V>(ops: seq<Op<K, V>>, policy: (seq<Op<K, V>>, K) -> bool): Store<K, V> {
    if ops == [] then Store(map[], 0)
    else Purge(Step(RunPurging(ops[..|ops| - 1], policy), ops[|ops| - 1]), k => policy(ops, k))
  }

  /** The two stores hold the same under `key`, or the purging one has dropped it after expiry. */
  ghost predicate AgreeOn<K, V>(purging: Store<K, V>, full: Store<K, V>, key: K) {
    && purging.now == full.now
    && (key in purging.data ==> key in full.data && full.data[key] == purging.data[key])
    && (key in full.data && key !in purging.data ==> full.data[key].expiry <= full.now)
  }

  lemma {:induction false} PurgedOnlyIfExpired<K, V>(
      ops: seq<Op<K, V>>, policy: (seq<Op<K, V>>, K) -> bool, key: K)
    ensures AgreeOn(RunPurging(ops, policy), Run(ops), key)
  {
    if ops != [] {
      var init := ops[..|ops| - 1];
      PurgedOnlyIfExpired(init, policy, key);
      PurgingStep(RunPurging(init, policy), Run(init), ops[|ops| - 1], k => policy(ops, k), key);
    }
  }

  /** Purging at any time, by any policy, changes no answer. */
  lemma PurgingIsUnobservable<K, V>(ops: seq<Op<K, V>>, policy: (seq<Op<K, V>>, K) -> bool, key: K)
    ensures Lookup(RunPurging(ops, policy), key) == Lookup(Run(ops), key)
  {
    PurgedOnlyIfExpired(ops, policy, key);
  }

  /** One operation and a purge after it keep the two stores agreeing. */
  lemma PurgingStep<K, V>(purging: Store<K, V>, full: Store<K, V>, op: Op<K, V>, drops: K -> bool, key: K)
    requires AgreeOn(purging, full, key)
    ensures AgreeOn(Purge(Step(purging, op), drops), Step(full, op), key)
    ensures Lookup(purging, key) == Lookup(full, key)
  {
  }
}
