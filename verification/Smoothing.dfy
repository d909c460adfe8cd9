/**
 * Seeded exponential smoothing: EMA, Wilder ATR and Wilder RSI.
 *
 * All three start from the plain mean of the first `period` values and then move a fixed
 * fraction `alpha` of the way towards each later value. `Smooth` is that reference; the
 * methods below are the accumulator loops, each with its own update formula.
 */
module Smoothing {
  import opened Market

  function Sum(s: seq<real>): real {
    if |s| == 0 then 0.0 else Sum(s[..|s|-1]) + s[|s|-1]
  }

  function Mean(s: seq<real>): real
    requires |s| > 0
  {
    Sum(s) / |s| as real
  }

  function Toward(current: real, value: real, alpha: real): real {
    current + (value - current) * alpha
  }

  function Smooth(values: seq<real>, period: nat, alpha: real): real
    requires 1 <= period <= |values|
  {
    if |values| == period then Mean(values)
    else Toward(Smooth(values[..|values|-1], period, alpha), values[|values|-1], alpha)
  }

  function EmaAlpha(period: nat): real
    requires period >= 1
  {
    2.0 / (period + 1) as real
  }

  function WilderAlpha(period: nat): real
    requires period >= 1
  {
    1.0 / period as real
  }

  lemma AlphaRange(period: nat)
    requires period >= 1
    ensures 0.0 < EmaAlpha(period) <= 1.0
    ensures 0.0 < WilderAlpha(period) <= 1.0
  {
    DivWithin(2.0, (period + 1) as real, 0.0, 1.0);
    DivWithin(1.0, period as real, 0.0, 1.0);
  }

  lemma DivWithin(x: real, n: real, lo: real, hi: real)
    requires n > 0.0 && lo * n <= x <= hi * n
    ensures lo <= x / n <= hi
  {
    var q := x / n;
    assert q * n == x;
    assert (q - lo) * n >= 0.0 && (hi - q) * n >= 0.0;
  }

  method SumOf(values: seq<real>) returns (total: real)
    ensures total == Sum(values)
  {
    total := 0.0;
    for i := 0 to |values|
      invariant total == Sum(values[..i])
    {
      assert values[..i + 1][..i] == values[..i];
      total := total + values[i];
    }
    assert values[..|values|] == values;
  }

  method Seed(values: seq<real>, period: nat) returns (mean: real)
    requires 1 <= period <= |values|
    ensures mean == Mean(values[..period])
  {
    var total := SumOf(values[..period]);
    mean := total / period as real;
  }

  // ---------------------------------------------------------------- EMA

  method EmaStep(current: real, value: real, alpha: real) returns (next: real)
    ensures next == Toward(current, value, alpha)
  {
    next := (value - current) * alpha + current;
  }

  function EmaSeries(values: seq<real>, period: nat): (r: seq<real>)
    requires 1 <= period <= |values|
    ensures |r| == |values| - period + 1
  {
    seq(|values| - period + 1, k requires 0 <= k < |values| - period + 1 =>
      Smooth(values[..period + k], period, EmaAlpha(period)))
  }

  /** `None` is the raised error: a non-positive period or too few values. */
  method Ema(values: seq<real>, period: int) returns (r: Option<real>)
    ensures r.None? <==> period < 1 || |values| < period
    ensures r.Some? ==> r.value == Smooth(values, period, EmaAlpha(period))
    ensures r.Some? ==> r.value == EmaSeries(values, period)[|values| - period]
  {
    hide Toward, EmaAlpha, Mean;
    if period < 1 || |values| < period {
      return None;
    }
    var current := Seed(values, period);
    var alpha := EmaAlpha(period);
    for i := period to |values|
      invariant current == Smooth(values[..i], period, alpha)
    {
      assert values[..i + 1][..i] == values[..i];
      current := EmaStep(current, values[i], alpha);
    }
    assert values[..|values|] == values;
    return Some(current);
  }

  method ComputeEmaSeries(values: seq<real>, period: int) returns (r: Option<seq<real>>)
    ensures r.None? <==> period < 1 || |values| < period
    ensures r.Some? ==> r.value == EmaSeries(values, period)
  {
    hide Toward, EmaAlpha, Mean;
    if period < 1 || |values| < period {
      return None;
    }
    var current := Seed(values, period);
    var output := [current];
    var alpha := EmaAlpha(period);
    for i := period to |values|
      invariant current == Smooth(values[..i], period, alpha)
      invariant |output| == i - period + 1
      invariant forall k :: 0 <= k < |output| ==> output[k] == EmaSeries(values, period)[k]
    {
      assert values[..i + 1][..i] == values[..i];
      current := EmaStep(current, values[i], alpha);
      output := output + [current];
    }
    return Some(output);
  }

  /** EMA of any prefix is already final: later values never repaint it. */
  lemma EmaSeriesNoRepaint(values: seq<real>, period: nat, m: nat)
    requires 1 <= period <= m <= |values|
    ensures EmaSeries(values[..m], period) == EmaSeries(values, period)[..m - period + 1]
  {
    hide Smooth;
    forall k | 0 <= k < m - period + 1
      ensures EmaSeries(values[..m], period)[k] == EmaSeries(values, period)[k]
    {
      assert values[..m][..period + k] == values[..period + k];
    }
  }

  // ------------------------------------------------- what smoothing means

  function Pow(x: real, n: nat): real {
    if n == 0 then 1.0 else x * Pow(x, n - 1)
  }

  /** The weight the i-th of n values carries in the smoothed result. */
  function Weight(n: nat, period: nat, alpha: real, i: nat): real
    requires 1 <= period <= n && i < n
  {
    if i < period then Pow(1.0 - alpha, n - period) / period as real
    else alpha * Pow(1.0 - alpha, n - 1 - i)
  }

  function Weights(n: nat, period: nat, alpha: real): (r: seq<real>)
    requires 1 <= period <= n
    ensures |r| == n
  {
    seq(n, i requires 0 <= i < n => Weight(n, period, alpha, i))
  }

  function Dot(a: seq<real>, b: seq<real>): real
    requires |a| == |b|
  {
    if |a| == 0 then 0.0 else Dot(a[..|a|-1], b[..|b|-1]) + a[|a|-1] * b[|b|-1]
  }

  ghost predicate Scaled(a: seq<real>, b: seq<real>, factor: real) {
    |a| == |b| && forall i :: 0 <= i < |a| ==> a[i] == factor * b[i]
  }

  lemma {:induction false} DotScaled(a: seq<real>, b: seq<real>, c: seq<real>, factor: real)
    requires Scaled(a, b, factor) && |c| == |a|
    ensures Dot(a, c) == factor * Dot(b, c)
  {
    if |a| > 0 {
      var n := |a| - 1;
      DotScaled(a[..n], b[..n], c[..n], factor);
      assert a[n] * c[n] == factor * (b[n] * c[n]);
    }
  }

  lemma {:induction false} DotConstant(a: seq<real>, c: seq<real>, factor: real)
    requires |a| == |c|
    requires forall i :: 0 <= i < |a| ==> a[i] == factor
    ensures Dot(a, c) == factor * Sum(c)
  {
    if |a| > 0 {
      DotConstant(a[..|a|-1], c[..|a|-1], factor);
    }
  }

  lemma MulDiv(a: real, b: real, c: real)
    requires c != 0.0
    ensures (a * b) / c == a * (b / c)
  {
    assert b == (b / c) * c;
    assert a * b == (a * (b / c)) * c;
  }

  lemma WeightDecays(n: nat, period: nat, alpha: real, i: nat)
    requires 1 <= period < n && i < n - 1
    ensures Weight(n, period, alpha, i) == (1.0 - alpha) * Weight(n - 1, period, alpha, i)
  {
    var keep := 1.0 - alpha;
    if i < period {
      MulDiv(keep, Pow(keep, n - 1 - period), period as real);
    } else {
      var p := Pow(keep, n - 2 - i);
      assert Pow(keep, n - 1 - i) == keep * p;
      assert alpha * (keep * p) == keep * (alpha * p);
    }
  }

  lemma WeightsDecay(n: nat, period: nat, alpha: real, w: seq<real>, w': seq<real>)
    requires 1 <= period < n
    requires w == Weights(n, period, alpha) && w' == Weights(n - 1, period, alpha)
    ensures Scaled(w[..n - 1], w', 1.0 - alpha)
    ensures w[n - 1] == alpha
  {
    forall i | 0 <= i < n - 1 ensures w[i] == (1.0 - alpha) * w'[i] {
      WeightDecays(n, period, alpha, i);
    }
    assert Pow(1.0 - alpha, 0) == 1.0;
  }

  /** The recurrence in closed form: a weighted sum whose weights decay geometrically. */
  lemma {:induction false} SmoothIsWeightedSum(values: seq<real>, period: nat, alpha: real)
    requires 1 <= period <= |values|
    ensures Smooth(values, period, alpha) == Dot(Weights(|values|, period, alpha), values)
  {
    var n := |values|;
    var w := Weights(n, period, alpha);
    if n == period {
      SeedIsWeightedSum(values, alpha);
    } else {
      var before, w' := values[..n - 1], Weights(n - 1, period, alpha);
      SmoothIsWeightedSum(before, period, alpha);
      WeightsDecay(n, period, alpha, w, w');
      hide Weights, Weight, Toward, Dot;
      WeightedStep(values, w, w', alpha);
    }
  }

  lemma WeightedStep(values: seq<real>, w: seq<real>, w': seq<real>, alpha: real)
    requires |values| == |w| == |w'| + 1
    requires Scaled(w[..|w'|], w', 1.0 - alpha) && w[|w'|] == alpha
    ensures Dot(w, values) == Toward(Dot(w', values[..|w'|]), values[|w'|], alpha)
  {
    hide Scaled;
    DotScaled(w[..|w'|], w', values[..|w'|], 1.0 - alpha);
    TowardAsBlend(Dot(w', values[..|w'|]), values[|w'|], alpha);
  }

  lemma TowardAsBlend(current: real, value: real, alpha: real)
    ensures Toward(current, value, alpha) == (1.0 - alpha) * current + alpha * value
  {
  }

  lemma SeedIsWeightedSum(values: seq<real>, alpha: real)
    requires |values| >= 1
    ensures Mean(values) == Dot(Weights(|values|, |values|, alpha), values)
  {
    var n := |values|;
    assert Pow(1.0 - alpha, 0) == 1.0;
    DotConstant(Weights(n, n, alpha), values, 1.0 / n as real);
    MulDiv(Sum(values), 1.0, n as real);
  }

  /** The weights add up to one: smoothing a constant returns it, whatever alpha is. */
  lemma {:induction false} WeightsSumToOne(n: nat, period: nat, alpha: real)
    requires 1 <= period <= n
    ensures Sum(Weights(n, period, alpha)) == 1.0
  {
    var ones := seq(n, i requires 0 <= i < n => 1.0);
    var w := Weights(n, period, alpha);
    SmoothIsWeightedSum(ones, period, alpha);
    SmoothOfOnes(ones, period, alpha);
    DotOnes(w, ones);
  }

  lemma {:induction false} SmoothOfOnes(ones: seq<real>, period: nat, alpha: real)
    requires 1 <= period <= |ones|
    requires forall i :: 0 <= i < |ones| ==> ones[i] == 1.0
    ensures Smooth(ones, period, alpha) == 1.0
  {
    if |ones| == period {
      SumWithinRange(ones, 1.0, 1.0);
    } else {
      SmoothOfOnes(ones[..|ones|-1], period, alpha);
    }
  }

  lemma {:induction false} DotOnes(w: seq<real>, ones: seq<real>)
    requires |w| == |ones|
    requires forall i :: 0 <= i < |ones| ==> ones[i] == 1.0
    ensures Dot(w, ones) == Sum(w)
  {
    if |w| > 0 {
      DotOnes(w[..|w|-1], ones[..|w|-1]);
    }
  }

  ghost predicate Within(s: seq<real>, lo: real, hi: real) {
    forall i :: 0 <= i < |s| ==> lo <= s[i] <= hi
  }

  /** Smoothing never leaves the range of its inputs, whatever that range is. */
  lemma {:induction false} SmoothWithinRange(values: seq<real>, period: nat, alpha: real, lo: real, hi: real)
    requires 1 <= period <= |values| && 0.0 <= alpha <= 1.0
    requires Within(values, lo, hi)
    ensures lo <= Smooth(values, period, alpha) <= hi
  {
    var n := |values|;
    if n == period {
      SumWithinRange(values, lo, hi);
      DivWithin(Sum(values), n as real, lo, hi);
    } else {
      SmoothWithinRange(values[..n - 1], period, alpha, lo, hi);
      TowardWithin(Smooth(values[..n - 1], period, alpha), values[n - 1], alpha, lo, hi);
    }
  }

  lemma TowardWithin(a: real, b: real, alpha: real, lo: real, hi: real)
    requires 0.0 <= alpha <= 1.0 && lo <= a <= hi && lo <= b <= hi
    ensures lo <= Toward(a, b, alpha) <= hi
  {
    NonNegativeProduct(alpha, b - lo);
    NonNegativeProduct(1.0 - alpha, a - lo);
    NonNegativeProduct(alpha, hi - b);
    NonNegativeProduct(1.0 - alpha, hi - a);
  }

  lemma NonNegativeProduct(x: real, y: real)
    requires x >= 0.0 && y >= 0.0
    ensures x * y >= 0.0
  {
  }

  lemma {:induction false} SumWithinRange(s: seq<real>, lo: real, hi: real)
    requires Within(s, lo, hi)
    ensures lo * |s| as real <= Sum(s) <= hi * |s| as real
  {
    if |s| > 0 {
      SumWithinRange(s[..|s|-1], lo, hi);
    }
  }

  /** EMA lies between any bounds on its inputs, in particular their minimum and maximum. */
  lemma EmaWithinRange(values: seq<real>, period: nat, lo: real, hi: real)
    requires 1 <= period <= |values| && Within(values, lo, hi)
    ensures lo <= Smooth(values, period, EmaAlpha(period)) <= hi
  {
    AlphaRange(period);
    SmoothWithinRange(values, period, EmaAlpha(period), lo, hi);
  }

  lemma {:induction false} SmoothNonNegative(values: seq<real>, period: nat, alpha: real)
    requires 1 <= period <= |values| && 0.0 <= alpha <= 1.0
    requires forall i :: 0 <= i < |values| ==> values[i] >= 0.0
    ensures Smooth(values, period, alpha) >= 0.0
  {
    var n := |values|;
    if n == period {
      SumNonNegative(values);
    } else {
      SmoothNonNegative(values[..n - 1], period, alpha);
      var before := Smooth(values[..n - 1], period, alpha);
      TowardWithin(before, values[n - 1], alpha, 0.0, Max(before, values[n - 1]));
    }
  }

  lemma {:induction false} SumNonNegative(s: seq<real>)
    requires forall i :: 0 <= i < |s| ==> s[i] >= 0.0
    ensures Sum(s) >= 0.0
  {
    if |s| > 0 {
      SumNonNegative(s[..|s|-1]);
    }
  }

  // ---------------------------------------------------------------- ATR

  /** Wilder's update is written as a weighted mean of the average and the new value. */
  method WilderStep(current: real, value: real, period: nat) returns (next: real)
    requires period >= 1
    ensures next == Toward(current, value, WilderAlpha(period))
  {
    var p := period as real;
    next := (current * (period - 1) as real + value) / p;
    assert next * p == current * p + (value - current);
    assert (value - current) * (1.0 / p) * p == value - current by {
      assert (1.0 / p) * p == 1.0;
      assert (value - current) * (1.0 / p) * p == (value - current) * ((1.0 / p) * p);
    }
    assert (next - Toward(current, value, 1.0 / p)) * p == 0.0;
  }

  function TrueRange(previous: Candle, current: Candle): real {
    Max(Max(current.high - current.low, Abs(current.high - previous.close)), Abs(current.low - previous.close))
  }

  function TrueRanges(cs: seq<Candle>): (r: seq<real>)
    requires |cs| >= 1
    ensures |r| == |cs| - 1
    ensures forall i :: 0 <= i < |r| ==> r[i] == TrueRange(cs[i], cs[i + 1])
  {
    seq(|cs| - 1, i requires 0 <= i < |cs| - 1 => TrueRange(cs[i], cs[i + 1]))
  }

  function AtrOf(cs: seq<Candle>, period: nat): real
    requires 1 <= period < |cs|
  {
    Smooth(TrueRanges(cs), period, WilderAlpha(period))
  }

  function AtrSeries(cs: seq<Candle>, period: nat): (r: seq<real>)
    requires 1 <= period < |cs|
    ensures |r| == |cs| - period
  {
    seq(|cs| - period, k requires 0 <= k < |cs| - period => AtrOf(cs[..period + 1 + k], period))
  }

  lemma TrueRangesPrefix(cs: seq<Candle>, m: nat)
    requires 1 <= m <= |cs|
    ensures TrueRanges(cs[..m]) == TrueRanges(cs)[..m - 1]
  {
    hide TrueRange;
  }

  lemma AtrOfPrefix(cs: seq<Candle>, period: nat, i: nat)
    requires 1 <= period <= i < |cs|
    ensures AtrSeries(cs, period)[i - period] == Smooth(TrueRanges(cs)[..i], period, WilderAlpha(period))
  {
    hide Smooth, WilderAlpha, TrueRange;
    TrueRangesPrefix(cs, i + 1);
    assert AtrSeries(cs, period)[i - period] == AtrOf(cs[..i + 1], period);
  }

  method Average(moves: seq<real>, period: nat) returns (current: real)
    requires 1 <= period <= |moves|
    ensures current == Smooth(moves, period, WilderAlpha(period))
  {
    hide Toward, WilderAlpha, Mean;
    current := Seed(moves, period);
    for i := period to |moves|
      invariant current == Smooth(moves[..i], period, WilderAlpha(period))
    {
      assert moves[..i + 1][..i] == moves[..i];
      current := WilderStep(current, moves[i], period);
    }
    assert moves[..|moves|] == moves;
  }

  /** Wilder ATR as one loop over the true ranges; `None` is the raised error. */
  method Atr(cs: seq<Candle>, period: int) returns (r: Option<real>)
    ensures r.None? <==> period < 1 || |cs| < period + 1
    ensures r.Some? ==> r.value == AtrOf(cs, period)
  {
    hide TrueRange;
    if period < 1 || |cs| < period + 1 {
      return None;
    }
    var ranges: seq<real> := [];
    for i := 1 to |cs|
      invariant ranges == TrueRanges(cs)[..i - 1]
    {
      ranges := ranges + [TrueRange(cs[i - 1], cs[i])];
    }
    assert ranges == TrueRanges(cs);
    var average := Average(ranges, period);
    return Some(average);
  }

  lemma AtrSeriesLast(cs: seq<Candle>, period: nat)
    requires 1 <= period < |cs|
    ensures AtrSeries(cs, period)[|cs| - period - 1] == AtrOf(cs, period)
  {
    hide AtrOf;
    assert cs[..|cs|] == cs;
  }

  method WilderAtrSeries(cs: seq<Candle>, period: int) returns (r: Option<seq<real>>)
    ensures r.None? <==> period < 1 || |cs| < period + 1
    ensures r.Some? ==> r.value == AtrSeries(cs, period)
    ensures r.Some? ==> r.value[|cs| - period - 1] == AtrOf(cs, period)
  {
    hide Toward, TrueRange, WilderAlpha, Mean, AtrOf, AtrSeries;
    if period < 1 || |cs| < period + 1 {
      return None;
    }
    var ranges := TrueRanges(cs);
    var current := Seed(ranges, period);
    var output := [current];
    AtrOfPrefix(cs, period, period);
    for i := period to |ranges|
      invariant current == Smooth(ranges[..i], period, WilderAlpha(period))
      invariant |output| == i - period + 1
      invariant forall k :: 0 <= k < |output| ==> output[k] == AtrSeries(cs, period)[k]
    {
      assert ranges[..i + 1][..i] == ranges[..i];
      current := WilderStep(current, ranges[i], period);
      AtrOfPrefix(cs, period, i + 1);
      output := output + [current];
    }
    AtrSeriesLast(cs, period);
    return Some(output);
  }

  lemma AtrNonNegative(cs: seq<Candle>, period: nat)
    requires 1 <= period < |cs|
    ensures AtrOf(cs, period) >= 0.0
  {
    AlphaRange(period);
    SmoothNonNegative(TrueRanges(cs), period, WilderAlpha(period));
  }

  /** ATR cannot tell a market from its upside-down image. */
  lemma AtrMirror(axis: real, cs: seq<Candle>, period: nat)
    requires 1 <= period < |cs|
    ensures AtrOf(ReflectCandles(axis, cs), period) == AtrOf(cs, period)
  {
    hide TrueRange, Smooth;
    forall i | 0 <= i < |cs| - 1 ensures TrueRanges(ReflectCandles(axis, cs))[i] == TrueRanges(cs)[i] {
      TrueRangeMirror(axis, cs[i], cs[i + 1]);
    }
    assert TrueRanges(ReflectCandles(axis, cs)) == TrueRanges(cs);
  }

  lemma TrueRangeMirror(axis: real, previous: Candle, current: Candle)
    ensures TrueRange(ReflectCandle(axis, previous), ReflectCandle(axis, current)) == TrueRange(previous, current)
  {
  }

  // ------------------------------------------------ the same in plain figures

  lemma MeanTimesCount(s: seq<real>)
    requires |s| > 0
    ensures Mul(Mean(s), |s| as real) == Sum(s)
  {
    hide Sum;
  }

  /** Moving by share / whole is taking `share` parts of the newest value and the rest of the old one. */
  lemma Parts(before: real, newest: real, share: real, whole: real)
    requires whole > 0.0
    ensures Mul(Toward(before, newest, share / whole), whole) == Mul(share, newest) + Mul(whole - share, before)
  {
    var alpha := share / whole;
    assert alpha * whole == share;
    assert (newest - before) * alpha * whole == (newest - before) * share;
  }

  /** EMA: the mean of the first period, then two parts of the newest value to period - 1 of the old average. */
  lemma EmaExactly(values: seq<real>, period: nat)
    requires 1 <= period <= |values|
    ensures var n, ema := |values|, Smooth(values, period, EmaAlpha(period));
            if n == period then Mul(ema, period as real) == Sum(values)
            else Mul(ema, (period + 1) as real)
                 == Mul(2.0, values[n - 1]) + Mul((period - 1) as real, Smooth(values[..n - 1], period, EmaAlpha(period)))
  {
    var n := |values|;
    if n == period {
      MeanTimesCount(values);
    } else {
      Parts(Smooth(values[..n - 1], period, EmaAlpha(period)), values[n - 1], 2.0, (period + 1) as real);
    }
    hide Mul, Mean, Toward, Sum;
  }

  /** ATR: the mean of the first period true ranges, then one part of the newest to period - 1 of the old average. */
  lemma AtrExactly(cs: seq<Candle>, period: nat)
    requires 1 <= period < |cs|
    ensures var n := |cs| - 1;
            if n == period then Mul(AtrOf(cs, period), period as real) == Sum(TrueRanges(cs))
            else Mul(AtrOf(cs, period), period as real)
                 == Mul(1.0, TrueRange(cs[n - 1], cs[n])) + Mul((period - 1) as real, AtrOf(cs[..n], period))
  {
    hide TrueRange;
    var n := |cs| - 1;
    if n == period {
      MeanTimesCount(TrueRanges(cs));
    } else {
      TrueRangesPrefix(cs, n);
      Parts(AtrOf(cs[..n], period), TrueRange(cs[n - 1], cs[n]), 1.0, period as real);
    }
    hide Mul, Mean, Toward, Sum;
  }

  /** The true range of a bar is the reach of its prices together with the close before it. */
  lemma TrueRangeIsReach(previous: Candle, current: Candle)
    requires current.low <= current.high
    ensures TrueRange(previous, current) == Max(current.high, previous.close) - Min(current.low, previous.close)
  {
  }

  // ---------------------------------------------------------------- RSI

  function Gains(values: seq<real>): (r: seq<real>)
    requires |values| >= 1
    ensures |r| == |values| - 1
    ensures forall i :: 0 <= i < |r| ==> r[i] == Max(values[i + 1] - values[i], 0.0)
  {
    seq(|values| - 1, i requires 0 <= i < |values| - 1 => Max(values[i + 1] - values[i], 0.0))
  }

  function Losses(values: seq<real>): (r: seq<real>)
    requires |values| >= 1
    ensures |r| == |values| - 1
    ensures forall i :: 0 <= i < |r| ==> r[i] == Max(-(values[i + 1] - values[i]), 0.0)
  {
    seq(|values| - 1, i requires 0 <= i < |values| - 1 => Max(-(values[i + 1] - values[i]), 0.0))
  }

  /** The closing formula of RSI, branch for branch. */
  function RsiFrom(gain: real, loss: real): real
    requires gain >= 0.0 && loss >= 0.0
  {
    if gain == 0.0 && loss == 0.0 then 50.0
    else if loss == 0.0 then 100.0
    else
      assert 1.0 + gain / loss > 0.0;
      100.0 - 100.0 / (1.0 + gain / loss)
  }

  lemma AveragesNonNegative(values: seq<real>, period: nat)
    requires 1 <= period < |values|
    ensures Smooth(Gains(values), period, WilderAlpha(period)) >= 0.0
    ensures Smooth(Losses(values), period, WilderAlpha(period)) >= 0.0
  {
    AlphaRange(period);
    SmoothNonNegative(Gains(values), period, WilderAlpha(period));
    SmoothNonNegative(Losses(values), period, WilderAlpha(period));
  }

  function RsiOf(values: seq<real>, period: nat): real
    requires 1 <= period < |values|
  {
    AveragesNonNegative(values, period);
    RsiFrom(Smooth(Gains(values), period, WilderAlpha(period)), Smooth(Losses(values), period, WilderAlpha(period)))
  }

  /** The loop that advances both averages side by side. */
  method Averages(gains: seq<real>, losses: seq<real>, period: nat) returns (averageGain: real, averageLoss: real)
    requires 1 <= period <= |gains| == |losses|
    ensures averageGain == Smooth(gains, period, WilderAlpha(period))
    ensures averageLoss == Smooth(losses, period, WilderAlpha(period))
  {
    hide Toward, WilderAlpha, Mean;
    averageGain := Seed(gains, period);
    averageLoss := Seed(losses, period);
    for i := period to |gains|
      invariant averageGain == Smooth(gains[..i], period, WilderAlpha(period))
      invariant averageLoss == Smooth(losses[..i], period, WilderAlpha(period))
    {
      assert gains[..i + 1][..i] == gains[..i] && losses[..i + 1][..i] == losses[..i];
      averageGain := WilderStep(averageGain, gains[i], period);
      averageLoss := WilderStep(averageLoss, losses[i], period);
    }
    assert gains[..|gains|] == gains && losses[..|losses|] == losses;
  }

  method Rsi(values: seq<real>, period: int) returns (r: Option<real>)
    ensures r.None? <==> period < 1 || |values| < period + 1
    ensures r.Some? ==> r.value == RsiOf(values, period) && 0.0 <= r.value <= 100.0
  {
    if period < 1 || |values| < period + 1 {
      return None;
    }
    var averageGain, averageLoss := Averages(Gains(values), Losses(values), period);
    hide Smooth;
    AveragesNonNegative(values, period);
    RsiShare(averageGain, averageLoss);
    if averageGain == 0.0 && averageLoss == 0.0 {
      return Some(50.0);
    }
    if averageLoss == 0.0 {
      return Some(100.0);
    }
    var relativeStrength := averageGain / averageLoss;
    return Some(100.0 - 100.0 / (1.0 + relativeStrength));
  }

  /** RSI is the share of gains in all movement, so it lies in [0, 100]. */
  lemma RsiShare(gain: real, loss: real)
    requires gain >= 0.0 && loss >= 0.0
    ensures 0.0 <= RsiFrom(gain, loss) <= 100.0
    ensures gain + loss > 0.0 ==> RsiFrom(gain, loss) * (gain + loss) == 100.0 * gain
  {
    if loss > 0.0 {
      var rs := gain / loss;
      assert rs * loss == gain;
      assert rs >= 0.0;
      var q := 100.0 / (1.0 + rs);
      DivWithin(100.0, 1.0 + rs, 0.0, 100.0);
      assert q + q * rs == 100.0;
      assert (q + q * rs) * loss == q * loss + q * (rs * loss);
    }
  }

  /** On the whole series: the share of the average gain in the average movement, or fifty without any. */
  lemma RsiExactly(values: seq<real>, period: nat)
    requires 1 <= period < |values|
    ensures var gain, loss := Smooth(Gains(values), period, WilderAlpha(period)),
                              Smooth(Losses(values), period, WilderAlpha(period));
            if gain + loss == 0.0 then RsiOf(values, period) == 50.0
            else Mul(RsiOf(values, period), gain + loss) == Mul(100.0, gain)
  {
    hide Smooth, WilderAlpha, Gains, Losses, RsiFrom, Mul;
    AveragesNonNegative(values, period);
    var gain, loss := Smooth(Gains(values), period, WilderAlpha(period)),
                      Smooth(Losses(values), period, WilderAlpha(period));
    ShareOrFifty(gain, loss);
  }

  lemma ShareOrFifty(gain: real, loss: real)
    requires gain >= 0.0 && loss >= 0.0
    ensures if gain + loss == 0.0 then RsiFrom(gain, loss) == 50.0
            else Mul(RsiFrom(gain, loss), gain + loss) == Mul(100.0, gain)
  {
    RsiShare(gain, loss);
    if gain + loss > 0.0 {
      hide RsiFrom;
    }
  }

  /** A series that only rises has an RSI of one hundred, one that only falls an RSI of zero. */
  lemma RsiExtremes(values: seq<real>, period: nat, least: real, most: real)
    requires 1 <= period < |values| && 0.0 < least
    ensures (forall i :: 0 <= i < |values| - 1 ==> least <= values[i + 1] - values[i] <= most) ==>
              RsiOf(values, period) == 100.0
    ensures (forall i :: 0 <= i < |values| - 1 ==> least <= values[i] - values[i + 1] <= most) ==>
              RsiOf(values, period) == 0.0
  {
    hide Smooth, WilderAlpha, RsiFrom, Gains, Losses;
    AveragesNonNegative(values, period);
    OneSided(Smooth(Gains(values), period, WilderAlpha(period)), Smooth(Losses(values), period, WilderAlpha(period)));
    if forall i :: 0 <= i < |values| - 1 ==> least <= values[i + 1] - values[i] <= most {
      RisingMoves(values, least, most);
      MovesOneWay(Gains(values), Losses(values), period, least, most);
    }
    if forall i :: 0 <= i < |values| - 1 ==> least <= values[i] - values[i + 1] <= most {
      FallingMoves(values, least, most);
      MovesOneWay(Losses(values), Gains(values), period, least, most);
    }
  }

  lemma RisingMoves(values: seq<real>, least: real, most: real)
    requires |values| > 0 && 0.0 < least
    requires forall i :: 0 <= i < |values| - 1 ==> least <= values[i + 1] - values[i] <= most
    ensures Within(Gains(values), least, most) && Within(Losses(values), 0.0, 0.0)
  {
    forall i | 0 <= i < |values| - 1 ensures least <= Gains(values)[i] <= most && Losses(values)[i] == 0.0 {
      OneMove(values[i], values[i + 1]);
    }
    hide Max;
  }

  lemma OneMove(before: real, after: real)
    ensures before < after ==> Max(after - before, 0.0) == after - before && Max(-(after - before), 0.0) == 0.0
    ensures before > after ==> Max(-(after - before), 0.0) == before - after && Max(after - before, 0.0) == 0.0
  {
  }

  lemma FallingMoves(values: seq<real>, least: real, most: real)
    requires |values| > 0 && 0.0 < least
    requires forall i :: 0 <= i < |values| - 1 ==> least <= values[i] - values[i + 1] <= most
    ensures Within(Losses(values), least, most) && Within(Gains(values), 0.0, 0.0)
  {
    forall i | 0 <= i < |values| - 1 ensures least <= Losses(values)[i] <= most && Gains(values)[i] == 0.0 {
      OneMove(values[i], values[i + 1]);
    }
    hide Max;
  }

  lemma MovesOneWay(moves: seq<real>, others: seq<real>, period: nat, least: real, most: real)
    requires 1 <= period <= |moves| == |others|
    requires Within(moves, least, most) && Within(others, 0.0, 0.0)
    ensures Smooth(moves, period, WilderAlpha(period)) >= least && Smooth(others, period, WilderAlpha(period)) == 0.0
  {
    hide Smooth, WilderAlpha;
    AlphaRange(period);
    SmoothWithinRange(moves, period, WilderAlpha(period), least, most);
    SmoothWithinRange(others, period, WilderAlpha(period), 0.0, 0.0);
  }

  lemma OneSided(gain: real, loss: real)
    requires gain >= 0.0 && loss >= 0.0
    ensures loss == 0.0 && gain > 0.0 ==> RsiFrom(gain, loss) == 100.0
    ensures gain == 0.0 && loss > 0.0 ==> RsiFrom(gain, loss) == 0.0
  {
  }

  /** A series and its reflection about any level have RSIs that add up to exactly 100. */
  lemma RsiReflection(values: seq<real>, reflected: seq<real>, period: nat, level: real)
    requires 1 <= period < |values| == |reflected|
    requires forall i :: 0 <= i < |values| ==> reflected[i] == level - values[i]
    ensures RsiOf(values, period) + RsiOf(reflected, period) == 100.0
  {
    assert Gains(reflected) == Losses(values);
    assert Losses(reflected) == Gains(values);
    AveragesNonNegative(values, period);
    hide Smooth;
    RsiSwap(Smooth(Gains(values), period, WilderAlpha(period)), Smooth(Losses(values), period, WilderAlpha(period)));
  }

  lemma RsiSwap(g: real, l: real)
    requires g >= 0.0 && l >= 0.0
    ensures RsiFrom(g, l) + RsiFrom(l, g) == 100.0
  {
    RsiShare(g, l);
    RsiShare(l, g);
    if g + l > 0.0 {
      assert (RsiFrom(g, l) + RsiFrom(l, g) - 100.0) * (g + l) == 0.0;
    }
  }
}
