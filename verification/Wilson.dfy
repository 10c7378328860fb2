/**
 * The Wilson score interval over exact reals. The square root is a parameter, pinned by its square;
 * the interval is proved to be the solution set of the score inequality it stands for.
 */
module Wilson {

  predicate IsRoot(root: real, square: real) {
    root >= 0.0 && root * root == square
  }

  function Proportion(k: nat, n: nat): real
    requires n > 0
  {
    k as real / n as real
  }

  /** What is under the root for `k` successes out of `n`. */
  function Spread(k: nat, n: nat, z: real): real
    requires n > 0
  {
    var p, m := Proportion(k, n), n as real;
    p * (1.0 - p) / m + z * z / (4.0 * m * m)
  }

  function Denominator(n: nat, z: real): real
    requires n > 0
  {
    1.0 + z * z / n as real
  }

  function Centre(k: nat, n: nat, z: real): real
    requires n > 0 && Denominator(n, z) != 0.0
  {
    (Proportion(k, n) + z * z / (2.0 * n as real)) / Denominator(n, z)
  }

  function Half(n: nat, z: real, root: real): real
    requires n > 0 && Denominator(n, z) != 0.0
  {
    z * root / Denominator(n, z)
  }

  function Max(a: real, b: real): real { if a < b then b else a }

  function Min(a: real, b: real): real { if b < a then b else a }

  /** The interval the source returns, clamps and the empty sample included. */
  function Interval(k: nat, n: nat, z: real, root: real): (real, real)
    requires n > 0 ==> Denominator(n, z) != 0.0
  {
    if n == 0 then (0.0, 0.0)
    else (Max(0.0, Centre(k, n, z) - Half(n, z, root)), Min(1.0, Centre(k, n, z) + Half(n, z, root)))
  }

  /** The score inequality: `t` is compatible with the observed proportion `p` of `m`
      trials at the squared quantile `zz`. */
  predicate Compatible(p: real, m: real, zz: real, t: real) {
    m * ((p - t) * (p - t)) <= zz * (t * (1.0 - t))
  }

  /** `h` is the half width, with all denominators cleared. */
  predicate ClearedHalf(h: real, m: real, zz: real, p: real) {
    h >= 0.0 && h * h == zz * (m * (p * (1.0 - p)) + zz / 4.0)
  }

  lemma DivMul(a: real, b: real)
    requires b != 0.0
    ensures b * (a / b) == a
  {
  }

  lemma Positive(a: real, b: real, ab: real)
    requires ab == a * b
    ensures a > 0.0 && b > 0.0 ==> ab > 0.0
    ensures a >= 0.0 && b >= 0.0 ==> ab >= 0.0
  {
  }

  lemma DivPositive(a: real, b: real)
    requires a > 0.0 && b > 0.0
    ensures a / b > 0.0
  {
    DivMul(a, b);
    var q := a / b;
    if q <= 0.0 {
      Positive(b, -q, b * (-q));
    }
  }

  lemma DenominatorPositive(n: nat, z: real)
    requires n > 0 && z > 0.0
    ensures Denominator(n, z) > 1.0
    ensures n as real * Denominator(n, z) == n as real + z * z
  {
    var m, zz := n as real, z * z;
    Positive(z, z, z * z);
    DivPositive(zz, m);
    DivMul(zz, m);
    var q := zz / m;
    assert m * (1.0 + q) == m + m * q;
  }

  /** Centre and half width, cleared of their denominators. */
  lemma Cleared(k: nat, n: nat, z: real, root: real, zz: real, h: real)
    requires n > 0 && z > 0.0
    requires zz == z * z && h == n as real * (z * root)
    ensures Denominator(n, z) > 1.0
    ensures var p, m := Proportion(k, n), n as real;
            && (m + zz) * Centre(k, n, z) == m * p + zz / 2.0
            && (m + zz) * Half(n, z, root) == h
  {
    var p, m, d := Proportion(k, n), n as real, Denominator(n, z);
    DenominatorPositive(n, z);
    var a := p + z * z / (2.0 * m);
    DivMul(a, d);
    DivMul(z * root, d);
    DivMul(z * z, 2.0 * m);
    calc {
      (m + z * z) * Centre(k, n, z);
      (m * d) * (a / d);
      m * (d * (a / d));
      m * a;
      m * p + m * (z * z / (2.0 * m));
      m * p + z * z / 2.0;
    }
    calc {
      (m + z * z) * Half(n, z, root);
      (m * d) * ((z * root) / d);
      m * (d * ((z * root) / d));
      m * (z * root);
    }
  }

  /** The root, cleared of its denominators. */
  lemma ClearedRoot(k: nat, n: nat, z: real, root: real, zz: real, h: real)
    requires n > 0 && z > 0.0 && IsRoot(root, Spread(k, n, z))
    requires zz == z * z && h == n as real * (z * root)
    ensures zz > 0.0
    ensures ClearedHalf(h, n as real, zz, Proportion(k, n))
  {
    var p, m := Proportion(k, n), n as real;
    Positive(z, z, zz);
    Positive(z, root, z * root);
    Positive(m, z * root, h);
    SpreadCleared(k, n, z, zz, Spread(k, n, z));
    HalfSquared(m, z, root, zz, h, Spread(k, n, z), m * (p * (1.0 - p)) + zz / 4.0);
  }

  lemma SpreadCleared(k: nat, n: nat, z: real, zz: real, spread: real)
    requires n > 0 && zz == z * z && spread == Spread(k, n, z)
    ensures var p, m := Proportion(k, n), n as real;
            m * (m * spread) == m * (p * (1.0 - p)) + zz / 4.0
  {
    var p, m := Proportion(k, n), n as real;
    var q := p * (1.0 - p);
    DivMul(q, m);
    DivMul(z * z, 4.0 * m * m);
    SpreadScaled(m, q, zz, q / m, z * z / (4.0 * m * m));
  }

  lemma SpreadScaled(m: real, q: real, zz: real, a: real, b: real)
    requires m * a == q && 4.0 * m * m * b == zz
    ensures m * (m * (a + b)) == m * q + zz / 4.0
  {
    assert m * (a + b) == m * a + m * b;
    assert m * (q + m * b) == m * q + m * (m * b);
  }

  lemma HalfSquared(m: real, z: real, root: real, zz: real, h: real, square: real, cleared: real)
    requires zz == z * z && h == m * (z * root) && root * root == square
    requires m * (m * square) == cleared
    ensures h * h == zz * cleared
  {
    assert h * h == (m * m) * ((z * z) * (root * root));
    assert zz * (m * (m * square)) == zz * cleared;
  }

  /** Completing the square. */
  lemma CompletedSquare(m: real, zz: real, p: real, t: real)
    ensures ((m + zz) * t - (m * p + zz / 2.0)) * ((m + zz) * t - (m * p + zz / 2.0))
            - zz * (m * (p * (1.0 - p)) + zz / 4.0)
         == (m + zz) * (m * ((p - t) * (p - t)) - zz * (t * (1.0 - t)))
  {
  }

  lemma SquareOrder(u: real, h: real)
    requires h >= 0.0
    ensures u * u <= h * h <==> -h <= u <= h
  {
    var below, above := h - u, h + u;
    assert below * above == h * h - u * u;
    if u > h {
      Positive(-below, above, (-below) * above);
      assert (-below) * above == u * u - h * h;
    } else if u < -h {
      Positive(below, -above, below * (-above));
      assert below * (-above) == u * u - h * h;
    } else {
      Positive(below, above, below * above);
    }
  }

  lemma ScaledOrder(s: real, a: real, b: real)
    requires s > 0.0
    ensures s * a <= s * b <==> a <= b
  {
    assert s * (b - a) == s * b - s * a;
    Positive(s, b - a, s * (b - a));
    Positive(s, a - b, s * (a - b));
  }

  /** The interval around `c` of half width `w` solves the score inequality. Here `h` is the half
      width and `m * p + zz / 2` the centre, both scaled by `m + zz`. */
  lemma ScoreSolved(m: real, zz: real, p: real, c: real, w: real, h: real, t: real)
    requires m > 0.0 && zz > 0.0 && ClearedHalf(h, m, zz, p)
    requires (m + zz) * c == m * p + zz / 2.0 && (m + zz) * w == h
    ensures c - w <= t <= c + w <==> Compatible(p, m, zz, t)
  {
    var s, f := m + zz, m * ((p - t) * (p - t)) - zz * (t * (1.0 - t));
    var u := s * t - (m * p + zz / 2.0);
    CompletedSquare(m, zz, p, t);
    assert u * u - h * h == s * f;
    SquareOrder(u, h);
    ScaledOrder(s, f, 0.0);
    assert s * (c + w) == s * c + s * w && s * (c - w) == s * c - s * w;
    ScaledOrder(s, t, c + w);
    ScaledOrder(s, c - w, t);
  }

  /** At 0 and 1 the score inequality can at most be tight, so the interval ends within them. */
  lemma ScoreWithinUnit(m: real, zz: real, p: real, c: real, w: real, h: real)
    requires m > 0.0 && zz > 0.0 && 0.0 <= p <= 1.0 && ClearedHalf(h, m, zz, p)
    requires (m + zz) * c == m * p + zz / 2.0 && (m + zz) * w == h
    ensures 0.0 <= c - w <= c + w <= 1.0
  {
    var s := m + zz;
    EndScore(m, zz, p, h);
    assert s * (c - w) == s * c - s * w && s * (c + w) == s * c + s * w;
    assert m * (1.0 - p) == m - m * p;
    ScaledOrder(s, 0.0, c - w);
    ScaledOrder(s, c + w, 1.0);
    ScaledOrder(s, 0.0, w);
  }

  lemma EndScore(m: real, zz: real, p: real, h: real)
    requires m > 0.0 && zz > 0.0 && 0.0 <= p <= 1.0 && ClearedHalf(h, m, zz, p)
    ensures h <= m * p + zz / 2.0
    ensures h <= m * (1.0 - p) + zz / 2.0
  {
    LowerEnd(m, zz, p, h);
    assert p * (1.0 - p) == (1.0 - p) * (1.0 - (1.0 - p));
    LowerEnd(m, zz, 1.0 - p, h);
  }

  lemma LowerEnd(m: real, zz: real, p: real, h: real)
    requires m > 0.0 && zz > 0.0 && 0.0 <= p <= 1.0 && ClearedHalf(h, m, zz, p)
    ensures h <= m * p + zz / 2.0
  {
    var a := m * p + zz / 2.0;
    EndSquare(m, zz, p);
    Positive(m, p, m * p);
    SquareOrder(h, a);
  }

  lemma EndSquare(m: real, zz: real, p: real)
    requires m > 0.0 && zz > 0.0 && 0.0 <= p <= 1.0
    ensures zz * (m * (p * (1.0 - p)) + zz / 4.0) <= (m * p + zz / 2.0) * (m * p + zz / 2.0)
  {
    Positive(p, p, p * p);
    Positive(m, p * p, m * (p * p));
    Positive(m + zz, m * (p * p), (m + zz) * (m * (p * p)));
    assert (m * p + zz / 2.0) * (m * p + zz / 2.0) - zz * (m * (p * (1.0 - p)) + zz / 4.0)
        == (m + zz) * (m * (p * p));
  }

  /** Before clamping: `t` is within the half width of the centre iff it is compatible. */
  lemma WithinIffCompatible(k: nat, n: nat, z: real, root: real, t: real)
    requires n > 0 && z > 0.0 && IsRoot(root, Spread(k, n, z))
    ensures Denominator(n, z) > 1.0
    ensures Centre(k, n, z) - Half(n, z, root) <= t <= Centre(k, n, z) + Half(n, z, root)
            <==> Compatible(Proportion(k, n), n as real, z * z, t)
  {
    var m, zz := n as real, z * z;
    var h := m * (z * root);
    Cleared(k, n, z, root, zz, h);
    ClearedRoot(k, n, z, root, zz, h);
    ScoreSolved(m, zz, Proportion(k, n), Centre(k, n, z), Half(n, z, root), h, t);
  }

  /** The clamps never bind: the unclamped ends already lie in [0, 1]. */
  lemma ClampsNeverBind(k: nat, n: nat, z: real, root: real)
    requires 0 < n && k <= n && z > 0.0 && IsRoot(root, Spread(k, n, z))
    ensures Denominator(n, z) > 1.0
    ensures 0.0 <= Centre(k, n, z) - Half(n, z, root) <= Centre(k, n, z) + Half(n, z, root) <= 1.0
  {
    var m, zz := n as real, z * z;
    var h := m * (z * root);
    Cleared(k, n, z, root, zz, h);
    ClearedRoot(k, n, z, root, zz, h);
    ProportionInUnit(k, n);
    ScoreWithinUnit(m, zz, Proportion(k, n), Centre(k, n, z), Half(n, z, root), h);
  }

  lemma ProportionInUnit(k: nat, n: nat)
    requires 0 < n && k <= n
    ensures 0.0 <= Proportion(k, n) <= 1.0
  {
    var p, m := Proportion(k, n), n as real;
    DivMul(k as real, m);
    ScaledOrder(m, 0.0, p);
    ScaledOrder(m, p, 1.0);
  }

  /** The interval the source returns is exactly the set of proportions compatible with the
      observation: inside [0, 1], around the observed proportion. */
  lemma IntervalIsScoreSet(k: nat, n: nat, z: real, root: real, p: real, m: real, zz: real, t: real)
    requires 0 < n && k <= n && z > 0.0 && IsRoot(root, Spread(k, n, z))
    requires p == k as real / n as real && m == n as real && zz == z * z
    ensures Denominator(n, z) > 1.0
    ensures var (lo, hi) := Interval(k, n, z, root);
            && 0.0 <= lo <= p <= hi <= 1.0
            && (lo <= t <= hi <==> m * ((p - t) * (p - t)) <= zz * (t * (1.0 - t)))
  {
    ClampsNeverBind(k, n, z, root);
    ObservedWithin(k, n, z, root);
    WithinIffCompatible(k, n, z, root, t);
    assert Compatible(p, m, zz, t) <==> m * ((p - t) * (p - t)) <= zz * (t * (1.0 - t));
  }

  lemma ObservedWithin(k: nat, n: nat, z: real, root: real)
    requires 0 < n && k <= n && z > 0.0 && IsRoot(root, Spread(k, n, z))
    ensures Denominator(n, z) > 1.0
    ensures Centre(k, n, z) - Half(n, z, root) <= Proportion(k, n) <= Centre(k, n, z) + Half(n, z, root)
  {
    WithinIffCompatible(k, n, z, root, Proportion(k, n));
    ProportionInUnit(k, n);
    Positive(z, z, z * z);
    ObservedCompatible(Proportion(k, n), n as real, z * z);
  }

  /** Of an empty sample the interval is the point zero. */
  lemma EmptySample(k: nat, z: real, root: real)
    ensures Interval(k, 0, z, root) == (0.0, 0.0)
  {
  }

  lemma ObservedCompatible(p: real, m: real, zz: real)
    requires 0.0 <= p <= 1.0 && zz > 0.0
    ensures Compatible(p, m, zz, p)
  {
    Positive(p, 1.0 - p, p * (1.0 - p));
    Positive(zz, p * (1.0 - p), zz * (p * (1.0 - p)));
    assert (p - p) * (p - p) == 0.0;
  }

  /** Counting failures instead of successes mirrors the interval. */
  lemma IntervalMirrors(k: nat, n: nat, z: real, root: real)
    requires 0 < n && k <= n && z > 0.0 && IsRoot(root, Spread(k, n, z))
    ensures Denominator(n, z) > 1.0
    ensures IsRoot(root, Spread(n - k, n, z))
    ensures var (lo, hi) := Interval(k, n, z, root);
            Interval(n - k, n, z, root) == (1.0 - hi, 1.0 - lo)
  {
    ProportionsSumToOne(k, n);
    assert Spread(n - k, n, z) == Spread(k, n, z);
    ClampsNeverBind(k, n, z, root);
    ClampsNeverBind(n - k, n, z, root);
    var m, zz := n as real, z * z;
    Positive(z, z, zz);
    Cleared(k, n, z, root, zz, m * (z * root));
    Cleared(n - k, n, z, root, zz, m * (z * root));
    CentresMirror(m, zz, Proportion(k, n), Centre(k, n, z), Centre(n - k, n, z));
  }

  lemma ProportionsSumToOne(k: nat, n: nat)
    requires 0 < n && k <= n
    ensures Proportion(n - k, n) == 1.0 - Proportion(k, n)
  {
    var p, q, m := Proportion(k, n), Proportion(n - k, n), n as real;
    DivMul(k as real, m);
    DivMul((n - k) as real, m);
    assert m * (p + q) == m * p + m * q;
    ScaledOrder(m, p + q, 1.0);
    ScaledOrder(m, 1.0, p + q);
  }

  lemma CentresMirror(m: real, zz: real, p: real, a: real, b: real)
    requires m > 0.0 && zz > 0.0
    requires (m + zz) * a == m * p + zz / 2.0 && (m + zz) * b == m * (1.0 - p) + zz / 2.0
    ensures b == 1.0 - a
  {
    var s := m + zz;
    assert s * (a + b) == s * a + s * b;
    assert m * (1.0 - p) == m - m * p;
    ScaledOrder(s, a + b, 1.0);
    ScaledOrder(s, 1.0, a + b);
  }
}
