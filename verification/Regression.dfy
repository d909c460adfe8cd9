/** Ordinary least squares over equally spaced closes, as used by the dynamic trend channel. */
module Regression {
  import opened Market
  import opened Smoothing

  function Residual(a: real, b: real, x: real, y: real): real {
    y - (a + b * x)
  }

  /** Sum of squared residuals of the line a + b*i over the values. */
  function SquaredError(values: seq<real>, a: real, b: real): real {
    if |values| == 0 then 0.0
    else
      var n := |values| - 1;
      var r := Residual(a, b, n as real, values[n]);
      SquaredError(values[..n], a, b) + Mul(r, r)
  }

  // The loop's two accumulators after every value has been visited.

  function Numerator(values: seq<real>, xMean: real, yMean: real): real {
    if |values| == 0 then 0.0
    else
      var n := |values| - 1;
      Numerator(values[..n], xMean, yMean) + Mul(n as real - xMean, values[n] - yMean)
  }

  function Denominator(n: nat, xMean: real): real {
    if n == 0 then 0.0
    else
      var distance := (n - 1) as real - xMean;
      Denominator(n - 1, xMean) + Mul(distance, distance)
  }

  // Moments of the residuals of a line.

  function ResidualSum(values: seq<real>, a: real, b: real): real {
    if |values| == 0 then 0.0
    else
      var n := |values| - 1;
      ResidualSum(values[..n], a, b) + Residual(a, b, n as real, values[n])
  }

  function ResidualMoment(values: seq<real>, a: real, b: real): real {
    if |values| == 0 then 0.0
    else
      var n := |values| - 1;
      ResidualMoment(values[..n], a, b) + Mul(n as real, Residual(a, b, n as real, values[n]))
  }

  /** How far two lines are apart over n points: the sum of (da + db*i)^2. */
  function LineDistance(n: nat, da: real, db: real): real {
    if n == 0 then 0.0
    else
      var d := da + Mul(db, (n - 1) as real);
      LineDistance(n - 1, da, db) + Mul(d, d)
  }

  lemma Square(x: real)
    ensures Mul(x, x) >= 0.0
    ensures Mul(x, x) == 0.0 ==> x == 0.0
  {
    if x > 0.0 {
      PositiveProduct(x, x);
    } else if x < 0.0 {
      PositiveProduct(-x, -x);
      SignCancels(x);
    }
  }

  lemma PositiveProduct(x: real, y: real)
    requires x > 0.0 && y > 0.0
    ensures Mul(x, y) > 0.0
  {
  }

  lemma SignCancels(x: real)
    ensures Mul(-x, -x) == Mul(x, x)
  {
  }

  lemma Distribute(c: real, x: real, y: real)
    ensures Mul(c, x + y) == Mul(c, x) + Mul(c, y)
  {
  }

  lemma {:induction false} DenominatorPositive(n: nat, xMean: real)
    requires n >= 1 && xMean != 0.0
    ensures Denominator(n, xMean) > 0.0
  {
    Square((n - 1) as real - xMean);
    hide Mul;
    if n == 1 {
      assert Denominator(0, xMean) == 0.0;
    } else {
      DenominatorPositive(n - 1, xMean);
    }
  }

  function XMean(n: nat): real {
    (n as real - 1.0) / 2.0
  }

  function Slope(values: seq<real>): real
    requires |values| >= 2
  {
    DenominatorPositive(|values|, XMean(|values|));
    Numerator(values, XMean(|values|), Mean(values)) / Denominator(|values|, XMean(|values|))
  }

  function Intercept(values: seq<real>): real
    requires |values| >= 2
  {
    Mean(values) - Slope(values) * XMean(|values|)
  }

  /** The fitted line's value at abscissa x. */
  function FittedAt(values: seq<real>, x: real): real
    requires |values| >= 2
  {
    Intercept(values) + Mul(Slope(values), x)
  }

  /** Slope and value of the fitted line at the latest point; `None` is the raised error. */
  method LinearRegressionLatest(values: seq<real>) returns (r: Option<(real, real)>)
    ensures r.None? <==> |values| < 2
    ensures r.Some? ==> r.value.0 == Slope(values)
    ensures r.Some? ==> r.value.1 == FittedAt(values, |values| as real - 1.0)
  {
    hide Mul;
    if |values| < 2 {
      return None;
    }
    var n := |values|;
    var yMean := Seed(values, n);
    assert values[..n] == values;
    var xMean := (n as real - 1.0) / 2.0;
    var numerator, denominator := 0.0, 0.0;
    for i := 0 to n
      invariant numerator == Numerator(values[..i], xMean, yMean)
      invariant denominator == Denominator(i, xMean)
    {
      assert values[..i + 1][..i] == values[..i];
      var distance := i as real - xMean;
      numerator := numerator + Mul(distance, values[i] - yMean);
      denominator := denominator + Mul(distance, distance);
    }
    DenominatorPositive(n, xMean);
    // The source raises on a zero denominator; it is positive for every length >= 2.
    var slope := numerator / denominator;
    var intercept := yMean - slope * xMean;
    return Some((slope, intercept + Mul(slope, n as real - 1.0)));
  }

  // ----------------------------------------------------- normal equations

  lemma {:induction false} ResidualSumClosed(values: seq<real>, a: real, b: real)
    ensures ResidualSum(values, a, b)
         == Sum(values) - Mul(|values| as real, a + Mul(b, XMean(|values|)))
  {
    var n := |values|;
    if n > 0 {
      ResidualSumClosed(values[..n - 1], a, b);
      ClosedStep(n as real, a, b, values[n - 1]);
      hide Mul, Residual;
    }
  }

  lemma ClosedStep(n: real, a: real, b: real, y: real)
    ensures Residual(a, b, n - 1.0, y) - Mul(n - 1.0, a + Mul(b, (n - 2.0) / 2.0))
         == y - Mul(n, a + Mul(b, (n - 1.0) / 2.0))
  {
    assert b * ((n - 2.0) / 2.0) == b * n / 2.0 - b;
    assert b * ((n - 1.0) / 2.0) == b * n / 2.0 - b / 2.0;
  }

  lemma {:induction false} ResidualMomentSplit(values: seq<real>, a: real, b: real, xMean: real, yMean: real)
    requires a == yMean - Mul(b, xMean)
    ensures ResidualMoment(values, a, b) - Mul(xMean, ResidualSum(values, a, b))
         == Numerator(values, xMean, yMean) - Mul(b, Denominator(|values|, xMean))
  {
    assert Mul(xMean, 0.0) == 0.0 && Mul(b, 0.0) == 0.0;
    if |values| > 0 {
      var n := |values| - 1;
      var x := n as real;
      ResidualMomentSplit(values[..n], a, b, xMean, yMean);
      MomentStep(x, values[n], a, b, xMean, yMean);
      Distribute(xMean, ResidualSum(values[..n], a, b), Residual(a, b, x, values[n]));
      Distribute(b, Denominator(n, xMean), Mul(x - xMean, x - xMean));
      hide Mul, Residual;
    }
  }

  lemma MomentStep(x: real, y: real, a: real, b: real, xMean: real, yMean: real)
    requires a == yMean - Mul(b, xMean)
    ensures Mul(x, Residual(a, b, x, y)) - Mul(xMean, Residual(a, b, x, y))
         == Mul(x - xMean, y - yMean) - Mul(b, Mul(x - xMean, x - xMean))
  {
    var d := x - xMean;
    assert Residual(a, b, x, y) == (y - yMean) - b * d;
    assert d * ((y - yMean) - b * d) == d * (y - yMean) - b * (d * d);
  }

  /** The fitted line leaves residuals with no mean and no trend. */
  lemma NormalEquations(values: seq<real>)
    requires |values| >= 2
    ensures ResidualSum(values, Intercept(values), Slope(values)) == 0.0
    ensures ResidualMoment(values, Intercept(values), Slope(values)) == 0.0
  {
    var n, a, b := |values|, Intercept(values), Slope(values);
    var xMean, yMean := XMean(n), Mean(values);
    var num, den := Numerator(values, xMean, yMean), Denominator(n, xMean);
    DenominatorPositive(n, xMean);
    assert b == num / den;
    assert Mul(b, den) == num by { QuotientTimes(num, den); }
    assert a == yMean - Mul(b, xMean);
    assert Mul(n as real, yMean) == Sum(values) by { QuotientTimes(Sum(values), n as real); }
    assert Mul(xMean, 0.0) == 0.0;
    hide Mul, Residual, Numerator, Denominator, ResidualSum, ResidualMoment, Sum, Slope, Intercept, Mean, XMean;
    ResidualSumClosed(values, a, b);
    ResidualMomentSplit(values, a, b, xMean, yMean);
  }

  lemma QuotientTimes(x: real, y: real)
    requires y != 0.0
    ensures Mul(x / y, y) == x && Mul(y, x / y) == x
  {
  }

  // ---------------------------------------------------------- optimality

  lemma {:induction false} ErrorExpansion(values: seq<real>, a: real, b: real, da: real, db: real)
    ensures SquaredError(values, a - da, b - db)
         == SquaredError(values, a, b) + Mul(2.0 * da, ResidualSum(values, a, b))
            + Mul(2.0 * db, ResidualMoment(values, a, b)) + LineDistance(|values|, da, db)
  {
    assert Mul(2.0 * da, 0.0) == 0.0 && Mul(2.0 * db, 0.0) == 0.0;
    if |values| > 0 {
      var n := |values| - 1;
      var x, r := n as real, Residual(a, b, n as real, values[n]);
      ErrorExpansion(values[..n], a, b, da, db);
      ExpansionStep(x, values[n], a, b, da, db);
      Distribute(2.0 * da, ResidualSum(values[..n], a, b), r);
      Distribute(2.0 * db, ResidualMoment(values[..n], a, b), Mul(x, r));
      hide Mul, Residual;
    }
  }

  lemma ExpansionStep(x: real, y: real, a: real, b: real, da: real, db: real)
    ensures Mul(Residual(a - da, b - db, x, y), Residual(a - da, b - db, x, y))
         == Mul(Residual(a, b, x, y), Residual(a, b, x, y)) + Mul(2.0 * da, Residual(a, b, x, y))
            + Mul(2.0 * db, Mul(x, Residual(a, b, x, y))) + Mul(da + Mul(db, x), da + Mul(db, x))
  {
    var r, q := Residual(a, b, x, y), da + db * x;
    assert Residual(a - da, b - db, x, y) == r + q;
    assert (r + q) * (r + q) == r * r + 2.0 * (q * r) + q * q;
    assert q * r == da * r + db * (x * r);
  }

  lemma {:induction false} LineDistancePositive(n: nat, da: real, db: real)
    ensures LineDistance(n, da, db) >= 0.0
    ensures n >= 2 && LineDistance(n, da, db) == 0.0 ==> da == 0.0 && db == 0.0
  {
    assert Mul(db, 0.0) == 0.0 && Mul(db, 1.0) == db;
    if n > 0 {
      LineDistancePositive(n - 1, da, db);
      Square(da + Mul(db, (n - 1) as real));
      Square(da);
      hide Mul;
      if n == 2 {
        assert LineDistance(1, da, db) == LineDistance(0, da, db) + Mul(da, da);
      }
    }
  }

  /**
   * Least squares, exactly: every other line's error exceeds the fitted line's by the distance
   * between the two lines, so the fitted line is the unique minimiser.
   */
  lemma FitIsOptimal(values: seq<real>, a: real, b: real)
    requires |values| >= 2
    ensures SquaredError(values, a, b) == SquaredError(values, Intercept(values), Slope(values))
            + LineDistance(|values|, Intercept(values) - a, Slope(values) - b)
    ensures SquaredError(values, Intercept(values), Slope(values)) <= SquaredError(values, a, b)
    ensures (SquaredError(values, a, b) == SquaredError(values, Intercept(values), Slope(values)))
            <==> (a == Intercept(values) && b == Slope(values))
  {
    hide Slope, Intercept, SquaredError, LineDistance;
    var a0, b0 := Intercept(values), Slope(values);
    NormalEquations(values);
    ErrorExpansion(values, a0, b0, a0 - a, b0 - b);
    assert a0 - (a0 - a) == a && b0 - (b0 - b) == b;
    LineDistancePositive(|values|, a0 - a, b0 - b);
  }

  /** On data that already is a line, the fit returns that line. */
  lemma ExactOnLines(values: seq<real>, a: real, b: real)
    requires |values| >= 2
    requires forall i :: 0 <= i < |values| ==> values[i] == a + b * i as real
    ensures Slope(values) == b
    ensures FittedAt(values, |values| as real - 1.0) == values[|values| - 1]
  {
    NoErrorOnLine(values, a, b);
    FitIsOptimal(values, a, b);
    ErrorNonNegative(values, Intercept(values), Slope(values));
  }

  lemma {:induction false} NoErrorOnLine(values: seq<real>, a: real, b: real)
    requires forall i :: 0 <= i < |values| ==> values[i] == a + b * i as real
    ensures SquaredError(values, a, b) == 0.0
  {
    if |values| > 0 {
      NoErrorOnLine(values[..|values|-1], a, b);
    }
  }

  lemma {:induction false} ErrorNonNegative(values: seq<real>, a: real, b: real)
    ensures SquaredError(values, a, b) >= 0.0
  {
    if |values| > 0 {
      var n := |values| - 1;
      ErrorNonNegative(values[..n], a, b);
      Square(Residual(a, b, n as real, values[n]));
    }
  }
}
