/** Mean and population standard deviation over exact reals, and the bound that limits how far a
    point can lie from the mean of a sample it belongs to. */
module Statistics {

  /** Square root is a call into the maths library: any function that inverts squaring. */
  ghost predicate IsSqrt(sqrt: real -> real)
  {
    forall x {:trigger sqrt(x)} :: x >= 0.0 ==> sqrt(x) >= 0.0 && sqrt(x) * sqrt(x) == x
  }

  ghost function Sum(values: seq<real>): real
  {
    if values == [] then 0.0 else Sum(values[..|values|-1]) + values[|values|-1]
  }

  ghost function Mean(values: seq<real>): real
    requires values != []
  {
    Sum(values) / (|values| as real)
  }

  function Sq(x: real): real { x * x }

  ghost function Shifted(values: seq<real>, m: real): seq<real>
  {
    seq(|values|, i requires 0 <= i < |values| => values[i] - m)
  }

  ghost function Squares(y: seq<real>): seq<real>
  {
    seq(|y|, i requires 0 <= i < |y| => Sq(y[i]))
  }

  ghost function Variance(values: seq<real>): real
    requires values != []
  {
    Mean(Squares(Shifted(values, Mean(values))))
  }

  // ----- the loops

  method ComputeMean(values: seq<real>) returns (mean: real)
    requires values != []
    ensures mean == Mean(values)
  {
    var sum := 0.0;
    for i := 0 to |values|
      invariant sum == Sum(values[..i])
    {
      assert values[..i+1][..i] == values[..i];
      sum := sum + values[i];
    }
    assert values[..|values|] == values;
    mean := sum / (|values| as real);
  }

  method ComputeStdDeviation(values: seq<real>, sqrt: real -> real) returns (std: real)
    requires values != []
    ensures std == sqrt(Variance(values))
  {
    var vp := new real[|values|];
    var mean := ComputeMean(values);
    for i := 0 to |values|
      invariant forall k :: 0 <= k < i ==> vp[k] == Sq(values[k] - mean)
    {
      var temp := values[i] - mean;
      vp[i] := temp * temp;
    }
    assert vp[..] == Squares(Shifted(values, mean));
    var stdDiv := ComputeMean(vp[..]);
    std := sqrt(stdDiv);
  }

  // ----- sums

  lemma {:induction false} SumHead(values: seq<real>)
    requires values != []
    ensures Sum(values) == values[0] + Sum(values[1..])
  {
    var init := values[..|values|-1];
    if init != [] {
      SumHead(init);
      assert values[1..][..|values|-2] == init[1..];
    }
  }

  lemma {:induction false} SumShifted(values: seq<real>, m: real)
    ensures Sum(Shifted(values, m)) == Sum(values) - (|values| as real) * m
  {
    if values != [] {
      var init := values[..|values|-1];
      SumShifted(init, m);
      assert Shifted(values, m)[..|values|-1] == Shifted(init, m);
      assert (|values| as real) * m == (|init| as real) * m + m;
    }
  }

  /** Cauchy-Schwarz against the all-ones vector, and squares add up to something non-negative. */
  lemma {:induction false} SquareOfSum(y: seq<real>)
    ensures 0.0 <= Sum(Squares(y))
    ensures Sum(y) * Sum(y) <= (|y| as real) * Sum(Squares(y))
  {
    if y != [] {
      var init, a := y[..|y|-1], y[|y|-1];
      SquareOfSum(init);
      assert Squares(y)[..|y|-1] == Squares(init);
      SquareStep(Sum(init), Sum(Squares(init)), a, |init| as real);
    }
  }

  lemma SquareStep(s: real, q: real, a: real, m: real)
    requires m == 0.0 ==> s == 0.0
    requires m >= 0.0 && q >= 0.0 && s * s <= m * q
    ensures q + a * a >= 0.0 && (s + a) * (s + a) <= (m + 1.0) * (q + a * a)
  {
    assert a * a >= 0.0;
    TwiceProduct(s, q, a, m);
    assert (s + a) * (s + a) == s * s + 2.0 * s * a + a * a;
    assert (m + 1.0) * (q + a * a) == m * q + q + m * (a * a) + a * a;
  }

  lemma TwiceProduct(s: real, q: real, a: real, m: real)
    requires m == 0.0 ==> s == 0.0
    requires m >= 0.0 && q >= 0.0 && s * s <= m * q
    ensures 2.0 * s * a <= q + m * (a * a)
  {
    if m > 0.0 {
      var d := s - m * a;
      assert d * d >= 0.0;
      assert d * d == s * s - m * (2.0 * s * a) + m * (m * (a * a));
      assert m * (2.0 * s * a) <= m * (q + m * (a * a));
      CancelFactor(m, 2.0 * s * a, q + m * (a * a));
    }
  }

  lemma CancelFactor(m: real, x: real, y: real)
    requires m > 0.0 && m * x <= m * y
    ensures x <= y
  {
    if x > y {
      StrictFactor(m, y, x);
    }
  }

  lemma StrictFactor(m: real, x: real, y: real)
    requires m > 0.0 && x < y
    ensures m * x < m * y
  {
    assert m * (y - x) > 0.0;
  }

  // ----- Samuelson's bound

  lemma MeanTimesCount(values: seq<real>)
    requires values != []
    ensures (|values| as real) * Mean(values) == Sum(values)
  {
  }

  lemma DeviationsCancel(values: seq<real>)
    requires values != []
    ensures Sum(Shifted(values, Mean(values))) == 0.0
  {
    SumShifted(values, Mean(values));
    MeanTimesCount(values);
  }

  lemma FirstAgainstRest(y: seq<real>) returns (dd: real, rest: real)
    requires y != [] && Sum(y) == 0.0
    ensures dd == Sq(y[0]) && rest == Sum(Squares(y[1..])) && dd <= ((|y| - 1) as real) * rest
  {
    SumHead(y);
    SquareOfSum(y[1..]);
    SquareOfNegation(y[0], Sum(y[1..]));
    dd, rest := Sq(y[0]), Sum(Squares(y[1..]));
  }

  lemma SquaresHead(y: seq<real>)
    requires y != []
    ensures Sum(Squares(y)) - Sq(y[0]) == Sum(Squares(y[1..]))
  {
    SumHead(Squares(y));
    assert Squares(y)[1..] == Squares(y[1..]);
  }

  lemma SquareOfNegation(a: real, b: real)
    requires a + b == 0.0
    ensures Sq(a) == b * b
  {
    assert a == -b;
  }

  /** No point of a sample lies further than sqrt(n-1) standard deviations from its mean;
      stated for the first point, with both sides squared. */
  lemma SamuelsonBound(values: seq<real>)
    requires values != []
    ensures Sq(values[0] - Mean(values)) <= ((|values| - 1) as real) * Variance(values)
  {
    var y := Shifted(values, Mean(values));
    DeviationsCancel(values);
    MeanTimesCount(Squares(y));
    CentredBound(y, Variance(values));
  }

  /** The same for a sample whose mean is zero and whose variance is `v`. */
  lemma CentredBound(y: seq<real>, v: real)
    requires y != [] && Sum(y) == 0.0 && (|y| as real) * v == Sum(Squares(y))
    ensures Sq(y[0]) <= ((|y| - 1) as real) * v
  {
    var dd, k, rest, n := CentredSplit(y, v);
    BoundFromSplit(dd, k, rest, n, v);
  }

  lemma CentredSplit(y: seq<real>, v: real) returns (dd: real, k: real, rest: real, n: real)
    requires y != [] && Sum(y) == 0.0 && (|y| as real) * v == Sum(Squares(y))
    ensures dd == Sq(y[0]) && k == (|y| - 1) as real && n == k + 1.0
    ensures dd <= k * rest && n * v == rest + dd
  {
    dd, rest := FirstAgainstRest(y);
    k, n := (|y| - 1) as real, |y| as real;
    SquaresHead(y);
  }

  lemma BoundFromSplit(dd: real, k: real, rest: real, n: real, v: real)
    requires k >= 0.0 && n == k + 1.0 && dd <= k * rest && n * v == rest + dd
    ensures dd <= k * v
  {
    assert n * dd == k * dd + dd;
    assert k * (n * v) == k * rest + k * dd;
    assert k * (n * v) == n * (k * v);
    CancelFactor(n, dd, k * v);
  }

  lemma VarianceNonNegative(values: seq<real>)
    requires values != []
    ensures Variance(values) >= 0.0
  {
    var y := Shifted(values, Mean(values));
    SquareOfSum(y);
    MeanTimesCount(Squares(y));
    CancelFactor(|values| as real, 0.0, Variance(values));
  }

  // ----- the bound is reached

  /** One outlier of height n in a flat sample of n points. */
  ghost function Spike(n: nat): seq<real>
    requires n >= 1
  {
    [n as real] + seq(n - 1, i => 0.0)
  }

  lemma {:induction false} SumConstant(s: seq<real>, a: real)
    requires forall i :: 0 <= i < |s| ==> s[i] == a
    ensures Sum(s) == (|s| as real) * a
  {
    if s != [] {
      SumConstant(s[..|s|-1], a);
      assert (|s| as real) * a == ((|s| - 1) as real) * a + a;
    }
  }

  lemma SpikeMoments(n: nat)
    requires n >= 1
    ensures Mean(Spike(n)) == 1.0 && Variance(Spike(n)) == (n - 1) as real
  {
    var s := Spike(n);
    SumHead(s);
    SumConstant(s[1..], 0.0);
    MeanIs(s, 1.0);
    var y := Shifted(s, 1.0);
    var q := Squares(y);
    SumHead(q);
    SumConstant(q[1..], 1.0);
    assert Sum(q) == Sq((n - 1) as real) + (n - 1) as real;
    MeanIs(q, (n - 1) as real);
  }

  lemma MeanIs(values: seq<real>, m: real)
    requires values != [] && Sum(values) == (|values| as real) * m
    ensures Mean(values) == m
  {
    MeanTimesCount(values);
    CancelFactor(|values| as real, m, Mean(values));
    CancelFactor(|values| as real, Mean(values), m);
  }

  // ----- the outlier rule

  /** The latest point lies outside [mean - r*std, mean + r*std]. */
  predicate OutsideBand(x: real, mean: real, r: real, std: real)
  {
    x < mean - r * std || x > mean + r * std
  }

  ghost predicate IsOutlier(values: seq<real>, r: real, sqrt: real -> real)
    requires values != []
  {
    OutsideBand(values[0], Mean(values), r, sqrt(Variance(values)))
  }

  /** With r*r >= n-1 no sample of n points has its first point outside the band. */
  lemma NeverOutlier(values: seq<real>, r: real, sqrt: real -> real)
    requires values != [] && IsSqrt(sqrt) && r >= 0.0 && r * r >= (|values| - 1) as real
    ensures !IsOutlier(values, r, sqrt)
  {
    SamuelsonBound(values);
    VarianceNonNegative(values);
    var v := Variance(values);
    var d, std := values[0] - Mean(values), sqrt(v);
    var n1 := (|values| - 1) as real;
    ScaleUp(n1, r * r, v);
    assert (r * std) * (r * std) == (r * r) * (std * std);
    RootOrder(d, r * std);
  }

  lemma ScaleUp(a: real, b: real, v: real)
    requires a <= b && v >= 0.0
    ensures a * v <= b * v
  {
    assert (b - a) * v >= 0.0;
  }

  lemma SquareStrict(a: real, b: real)
    requires a > b >= 0.0
    ensures a * a > b * b
  {
    var p, q := a - b, a + b;
    assert p * q > 0.0;
    assert a * a - b * b == p * q;
  }

  lemma RootOrder(d: real, e: real)
    requires e * e >= d * d && e >= 0.0
    ensures -e <= d <= e
  {
    if d > e {
      SquareStrict(d, e);
    } else if -d > e {
      SquareStrict(-d, e);
    }
  }

  /** Below the bound, or with a negative factor, the spike is an outlier. */
  lemma SpikeIsOutlier(n: nat, r: real, sqrt: real -> real)
    requires n >= 2 && IsSqrt(sqrt) && (r < 0.0 || r * r < (n - 1) as real)
    ensures IsOutlier(Spike(n), r, sqrt)
  {
    SpikeMoments(n);
    var m := (n - 1) as real;
    var std := sqrt(m);
    assert std * std == m;
    if r < 0.0 {
      assert std > 0.0;
      assert r * std < 0.0;
    } else if r * std >= m {
      SquareOrder(m, r * std);
      assert (r * std) * (r * std) == (r * r) * m;
      CancelFactor(m, m, r * r);
      assert false;
    }
  }

  lemma SquareOrder(a: real, b: real)
    requires 0.0 <= a <= b
    ensures a * a <= b * b
  {
    assert b * b - a * a == (b - a) * (b + a);
  }

  /** A stddev rule over n points with factor r can ever trigger exactly when the factor is
      negative or below sqrt(n-1), and there are at least two points. */
  lemma OutlierPossibleIff(n: nat, r: real, sqrt: real -> real)
    requires n >= 1 && IsSqrt(sqrt)
    ensures (exists values :: |values| == n && IsOutlier(values, r, sqrt))
       <==> n >= 2 && (r < 0.0 || r * r < (n - 1) as real)
  {
    if n >= 2 && (r < 0.0 || r * r < (n - 1) as real) {
      SpikeIsOutlier(n, r, sqrt);
      assert |Spike(n)| == n;
    } else {
      forall values | |values| == n
        ensures !IsOutlier(values, r, sqrt)
      {
        if r >= 0.0 {
          assert r * r >= 0.0;
          NeverOutlier(values, r, sqrt);
        } else {
          SinglePoint(values, r, sqrt);
        }
      }
    }
  }

  lemma SinglePoint(values: seq<real>, r: real, sqrt: real -> real)
    requires |values| == 1 && IsSqrt(sqrt)
    ensures !IsOutlier(values, r, sqrt)
  {
    SumHead(values);
    MeanIs(values, values[0]);
    var q := Squares(Shifted(values, values[0]));
    SumHead(q);
    MeanIs(q, 0.0);
    RootOrder(sqrt(0.0), 0.0);
  }
}
