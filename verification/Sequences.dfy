/** Optional values, for the source's `None` results. */
module Options {
  datatype Option<+T> = None | Some(value: T)
}

/** The few facts about sequences that several components share. */
module Sequences {

  function Elements<T>(s: seq<T>): set<T> {
    set x | x in s
  }

  predicate NoDup<T(==)>(s: seq<T>) {
    s == [] || (s[|s| - 1] !in s[..|s| - 1] && NoDup(s[..|s| - 1]))
  }

  lemma {:induction false} NoDupConcat<T>(a: seq<T>, b: seq<T>)
    requires NoDup(a + b)
    ensures NoDup(a) && NoDup(b)
    ensures forall x :: x in a ==> x !in b
  {
    if b == [] {
      assert a + b == a;
    } else {
      assert (a + b)[..|a + b| - 1] == a + b[..|b| - 1];
      NoDupConcat(a, b[..|b| - 1]);
      assert b == b[..|b| - 1] + [b[|b| - 1]];
    }
  }

  /** `s` without the occurrences of `x`. */
  function Without<T(==)>(s: seq<T>, x: T): (r: seq<T>)
    ensures |r| <= |s|
  {
    if s == [] then []
    else
      var rest := Without(s[..|s| - 1], x);
      if s[|s| - 1] == x then rest else rest + [s[|s| - 1]]
  }

  lemma {:induction false} WithoutElements<T>(s: seq<T>, x: T)
    ensures x !in Without(s, x)
    ensures forall y :: y in Without(s, x) ==> y in s && y != x
    ensures forall y :: y in s ==> y == x || y in Without(s, x)
    ensures NoDup(s) ==> NoDup(Without(s, x))
  {
    if s != [] {
      var rest := Without(s[..|s| - 1], x);
      WithoutElements(s[..|s| - 1], x);
      assert s == s[..|s| - 1] + [s[|s| - 1]];
      assert (rest + [s[|s| - 1]])[..|rest|] == rest;
    }
  }

  lemma {:induction false} WithoutAbsent<T>(s: seq<T>, x: T)
    requires x !in s
    ensures Without(s, x) == s
  {
    if s != [] {
      assert s == s[..|s| - 1] + [s[|s| - 1]];
      WithoutAbsent(s[..|s| - 1], x);
    }
  }

  /** The last `n` elements, or all of them when there are fewer. */
  function LastN<T>(s: seq<T>, n: nat): (r: seq<T>)
    ensures |r| == if |s| < n then |s| else n
  {
    if |s| <= n then s else s[|s| - n..]
  }

  lemma {:induction false} WithoutConcat<T>(a: seq<T>, b: seq<T>, x: T)
    ensures Without(a + b, x) == Without(a, x) + Without(b, x)
  {
    if b == [] {
      assert a + b == a;
    } else {
      assert (a + b)[..|a + b| - 1] == a + b[..|b| - 1];
      WithoutConcat(a, b[..|b| - 1], x);
    }
  }

  /** Removing an element that occurs shortens a duplicate-free sequence by exactly one. */
  lemma {:induction false} WithoutLength<T>(s: seq<T>, x: T)
    requires NoDup(s) && x in s
    ensures |Without(s, x)| == |s| - 1
  {
    var init := s[..|s| - 1];
    assert s == init + [s[|s| - 1]];
    if s[|s| - 1] != x {
      WithoutLength(init, x);
    } else {
      WithoutAbsent(init, x);
    }
  }

  lemma LastNConcat<T>(a: seq<T>, b: seq<T>, n: nat)
    ensures LastN(a + b, n) == if n <= |b| then LastN(b, n) else LastN(a, n - |b|) + b
  {
  }

  lemma {:induction false} ElementsCount<T>(s: seq<T>)
    requires NoDup(s)
    ensures |Elements(s)| == |s|
  {
    if s != [] {
      var init, x := s[..|s| - 1], s[|s| - 1];
      ElementsCount(init);
      assert Elements(s) == Elements(init) + {x};
    }
  }
}
