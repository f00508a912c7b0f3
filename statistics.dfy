/** The two numeric statistics the insight rules read from pandas, in exact
    arithmetic: the sample standard deviation `Series.std()` (compared
    through its square, the sample variance) and `Series.pct_change()`, with
    IEEE infinities and NaN kept as cases of their own. */
module Statistics {

  function SumOf(xs: seq<int>): int
    decreases |xs|
  {
    if xs == [] then 0 else xs[0] + SumOf(xs[1..])
  }

  function Mean(xs: seq<int>): real
    requires xs != []
  {
    SumOf(xs) as real / |xs| as real
  }

  function Square(x: real): (r: real)
    ensures r >= 0.0
  {
    x * x
  }

  /** Sum of squared deviations from m. */
  function SquaredDeviations(xs: seq<int>, m: real): (r: real)
    ensures r >= 0.0
    decreases |xs|
  {
    if xs == [] then 0.0 else Square(xs[0] as real - m) + SquaredDeviations(xs[1..], m)
  }

  /** What `std()` (ddof = 1) yields: NaN for fewer than two values, else
      the square root of the sample variance, represented here by the
      variance itself. */
  datatype Spread = Undefined | Defined(variance: real)

  function SampleSpread(xs: seq<int>): (s: Spread)
    ensures s.Defined? <==> |xs| >= 2
    ensures s.Defined? ==> s.variance >= 0.0
  {
    if |xs| < 2 then Undefined
    else Defined(SquaredDeviations(xs, Mean(xs)) / (|xs| - 1) as real)
  }

  /** Two values have sample variance (a - b)^2 / 2. */
  lemma SpreadOfTwo(a: int, b: int)
    ensures SampleSpread([a, b]) == Defined(((a - b) * (a - b)) as real / 2.0)
  {
    var xs := [a, b];
    assert xs[1..] == [b] && [b][1..] == [];
    assert SumOf([b]) == b;
    assert SumOf(xs) == a + b;
    var m := (a + b) as real / 2.0;
    assert Mean(xs) == m;
    assert SquaredDeviations([b], m) == Square(b as real - m);
    calc {
      SquaredDeviations(xs, m);
      Square(a as real - m) + Square(b as real - m);
      ((a - b) * (a - b)) as real / 2.0;
    }
  }

  /** `std(a) > std(b)`: any comparison with NaN is false. */
  predicate SpreadExceeds(a: Spread, b: Spread) {
    a.Defined? && b.Defined? && a.variance > b.variance
  }

  /** Squaring preserves the order of non-negative reals, so comparing
      sample variances decides the comparison of standard deviations. */
  lemma SquareMonotone(a: real, b: real)
    requires a >= 0.0 && b >= 0.0
    ensures a > b <==> Square(a) > Square(b)
  {
    if a > b {
      SquareStrict(a, b);
    } else if b > a {
      SquareStrict(b, a);
    }
  }

  /** The larger of two non-negative reals has the larger square. */
  lemma SquareStrict(a: real, b: real)
    requires a > b >= 0.0
    ensures Square(a) > Square(b)
  {
    ScaleStrict(a, b, a);
    assert a * a > b * a;
    if b > 0.0 {
      ScaleStrict(a, b, b);
      assert a * b > b * b;
    }
    calc {
      Square(a);
    ==
      a * a;
    >
      b * a;
    >=
      b * b;
    ==
      Square(b);
    }
  }

  lemma ProductPositive(x: real, y: real)
    requires x > 0.0 && y > 0.0
    ensures x * y > 0.0
  {
  }

  lemma ProductNonNegative(x: real, y: real)
    requires x >= 0.0 && y >= 0.0
    ensures x * y >= 0.0
  {
  }

  /** A standard deviation is the non-negative root of the variance. */
  predicate IsStd(s: real, variance: real) {
    s >= 0.0 && Square(s) == variance
  }

  /** `std(a) > std(b)` for two defined deviations holds exactly when the
      variances compare the same way. */
  lemma StdOrderIsVarianceOrder(sa: real, sb: real, a: Spread, b: Spread)
    requires a.Defined? && b.Defined?
    requires IsStd(sa, a.variance) && IsStd(sb, b.variance)
    ensures sa > sb <==> SpreadExceeds(a, b)
  {
    SquareMonotone(sa, sb);
  }

  /** The result of `pct_change` for one step, `cur / prev - 1` in floating
      point: a division by zero gives an infinity, or NaN for 0 / 0. */
  datatype Growth = Finite(rate: real) | PosInf | NegInf | NaN

  function PctChange(cur: int, prev: int): (g: Growth)
    ensures g.Finite? <==> prev != 0
    ensures g.Finite? ==> g.rate * prev as real == (cur - prev) as real
  {
    if prev != 0 then Finite((cur - prev) as real / prev as real)
    else if cur > 0 then PosInf
    else if cur < 0 then NegInf
    else NaN
  }

  /** `g > c`, false for NaN. */
  predicate Above(g: Growth, c: real) {
    g.PosInf? || (g.Finite? && g.rate > c)
  }

  /** `g < c`, false for NaN. */
  predicate Below(g: Growth, c: real) {
    g.NegInf? || (g.Finite? && g.rate < c)
  }

  /** Multiplying by a positive factor keeps a strict comparison. */
  lemma ScaleStrict(x: real, y: real, p: real)
    requires p > 0.0
    ensures x > y <==> x * p > y * p
  {
    if x > y {
      ProductPositive(x - y, p);
    } else {
      ProductNonNegative(y - x, p);
    }
    assert x * p - y * p == (x - y) * p;
  }

  /** Comparing an integer with a tenth of another, without fractions. */
  lemma TenthInIntegers(d: int, p: int)
    ensures d as real > 0.1 * p as real <==> 10 * d > p
    ensures d as real < 0.1 * p as real <==> 10 * d < p
    ensures d as real < -0.1 * p as real <==> 10 * d < -p
    ensures d as real > -0.1 * p as real <==> 10 * d > -p
  {
    assert (10 * d) as real == 10.0 * d as real;
  }

  /** A rate r with r * p == d compares with c as d compares with c * p,
      the comparison turning round when p is negative. */
  lemma RateCompare(r: real, p: real, d: real, c: real)
    requires p != 0.0 && r * p == d
    ensures p > 0.0 ==> (r > c <==> d > c * p)
    ensures p > 0.0 ==> (r < c <==> d < c * p)
    ensures p < 0.0 ==> (r > c <==> d < c * p)
    ensures p < 0.0 ==> (r < c <==> d > c * p)
  {
    if p > 0.0 {
      ScaleStrict(r, c, p);
      ScaleStrict(c, r, p);
    } else {
      var q := -p;
      ScaleStrict(r, c, q);
      ScaleStrict(c, r, q);
      assert r * q == -d;
      assert c * q == -(c * p);
    }
  }

  /** Growth above +10% in integer terms. */
  lemma AboveTenPercent(cur: int, prev: int)
    ensures Above(PctChange(cur, prev), 0.1) <==>
      (prev > 0 && 10 * (cur - prev) > prev) ||
      (prev < 0 && 10 * (cur - prev) < prev) ||
      (prev == 0 && cur > 0)
  {
    var g := PctChange(cur, prev);
    if prev != 0 {
      RateCompare(g.rate, prev as real, (cur - prev) as real, 0.1);
      TenthInIntegers(cur - prev, prev);
    }
  }

  /** Growth below -10% in integer terms. */
  lemma BelowMinusTenPercent(cur: int, prev: int)
    ensures Below(PctChange(cur, prev), -0.1) <==>
      (prev > 0 && 10 * (cur - prev) < -prev) ||
      (prev < 0 && 10 * (cur - prev) > -prev) ||
      (prev == 0 && cur < 0)
  {
    var g := PctChange(cur, prev);
    if prev != 0 {
      RateCompare(g.rate, prev as real, (cur - prev) as real, -0.1);
      TenthInIntegers(cur - prev, prev);
    }
  }
}
