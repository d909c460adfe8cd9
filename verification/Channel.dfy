/** The dynamic trend channel: a regression midline with an ATR-wide band around it. */
module Channel {
  import opened Market
  import opened Smoothing
  import opened Regression

  datatype Trend = Up | Down | Flat
  datatype Break = Above | Below | Inside

  datatype ChannelPoint = ChannelPoint(
    time: int, midline: real, upper: real, lower: real, slope: real, width: real, trend: Trend, breakout: Break)

  datatype Settings = Settings(lookback: int, atrPeriod: int, widthMultiplier: real, slopeThreshold: real)

  predicate Accepted(s: Settings) {
    s.lookback >= 2 && s.atrPeriod >= 1 && s.widthMultiplier > 0.0 && s.slopeThreshold >= 0.0
  }

  function FirstIndex(s: Settings): int {
    if s.lookback - 1 >= s.atrPeriod then s.lookback - 1 else s.atrPeriod
  }

  function Closes(cs: seq<Candle>): (r: seq<real>)
    ensures |r| == |cs|
    ensures forall i :: 0 <= i < |cs| ==> r[i] == cs[i].close
  {
    seq(|cs|, i requires 0 <= i < |cs| => cs[i].close)
  }

  function TrendOf(slope: real, threshold: real): Trend {
    if slope > threshold then Up else if slope < -threshold then Down else Flat
  }

  function BreakoutOf(close: real, upper: real, lower: real): Break {
    if close > upper then Above else if close < lower then Below else Inside
  }

  /**
   * What the channel says at the latest of the candles seen so far: the least-squares line
   * through the last `lookback` closes, read at its end, and the plain mean of the last
   * `atrPeriod` true ranges.
   */
  function PointAt(seen: seq<Candle>, s: Settings): ChannelPoint
    requires Accepted(s) && |seen| > FirstIndex(s)
  {
    var n := |seen|;
    var closes := Closes(seen[n - s.lookback..]);
    var slope := Slope(closes);
    var midline := FittedAt(closes, s.lookback as real - 1.0);
    var width := Mul(Mean(TrueRanges(seen[n - s.atrPeriod - 1..])), s.widthMultiplier);
    ChannelPoint(seen[n - 1].time, midline, midline + width, midline - width, slope, width,
      TrendOf(slope, s.slopeThreshold), BreakoutOf(seen[n - 1].close, midline + width, midline - width))
  }

  function ChannelOf(cs: seq<Candle>, s: Settings): (r: seq<ChannelPoint>)
    requires Accepted(s) && |cs| > FirstIndex(s)
    ensures |r| == |cs| - FirstIndex(s)
  {
    seq(|cs| - FirstIndex(s), k requires 0 <= k < |cs| - FirstIndex(s) => PointAt(cs[..FirstIndex(s) + k + 1], s))
  }

  /** `None` is the raised error: a rejected setting or too few candles. */
  method DynamicTrendChannel(cs: seq<Candle>, s: Settings) returns (r: Option<seq<ChannelPoint>>)
    ensures r.None? <==>
            || s.lookback < 2 || s.atrPeriod < 1 || s.widthMultiplier <= 0.0 || s.slopeThreshold < 0.0
            || |cs| < s.lookback || |cs| < s.atrPeriod + 1
    ensures r.Some? ==> |r.value| == |cs| - s.lookback + 1 || |r.value| == |cs| - s.atrPeriod
    ensures r.Some? ==> |r.value| <= |cs| - s.lookback + 1 && |r.value| <= |cs| - s.atrPeriod
    ensures r.Some? ==> Accepted(s) && |cs| > FirstIndex(s) && r.value == ChannelOf(cs, s)
  {
    hide PointAt;
    if s.lookback < 2 || s.atrPeriod < 1 || s.widthMultiplier <= 0.0 || s.slopeThreshold < 0.0 {
      return None;
    }
    var firstIndex := FirstIndex(s);
    if |cs| <= firstIndex {
      return None;
    }
    var output: seq<ChannelPoint> := [];
    for index := firstIndex to |cs|
      invariant |output| == index - firstIndex
      invariant forall k :: 0 <= k < |output| ==> output[k] == ChannelOf(cs, s)[k]
    {
      var point := Observe(cs, index, s);
      output := output + [point];
    }
    return Some(output);
  }

  method Observe(cs: seq<Candle>, index: nat, s: Settings) returns (point: ChannelPoint)
    requires Accepted(s) && FirstIndex(s) <= index < |cs|
    ensures point == PointAt(cs[..index + 1], s)
  {
    hide Slope, FittedAt, TrueRange, Mean, Mul, TrendOf, BreakoutOf;
    var slope, midline := FitWindow(cs, index, s);
    var width := BandWidth(cs, index, s);
    var upper, lower := midline + width, midline - width;
    point := ChannelPoint(cs[index].time, midline, upper, lower, slope, width,
      TrendOf(slope, s.slopeThreshold), BreakoutOf(cs[index].close, upper, lower));
    assert cs[index - s.lookback + 1..index + 1] == cs[..index + 1][index + 1 - s.lookback..];
    assert cs[index - s.atrPeriod..index + 1] == cs[..index + 1][index + 1 - s.atrPeriod - 1..];
  }

  method FitWindow(cs: seq<Candle>, index: nat, s: Settings) returns (slope: real, midline: real)
    requires Accepted(s) && FirstIndex(s) <= index < |cs|
    ensures var closes := Closes(cs[index - s.lookback + 1..index + 1]);
            slope == Slope(closes) && midline == FittedAt(closes, s.lookback as real - 1.0)
  {
    hide Slope, FittedAt;
    var fit := LinearRegressionLatest(Closes(cs[index - s.lookback + 1..index + 1]));
    slope, midline := fit.value.0, fit.value.1;
  }

  method BandWidth(cs: seq<Candle>, index: nat, s: Settings) returns (width: real)
    requires Accepted(s) && FirstIndex(s) <= index < |cs|
    ensures width == Mul(Mean(TrueRanges(cs[index - s.atrPeriod..index + 1])), s.widthMultiplier)
  {
    hide Smooth, TrueRange, Mean, Mul, WilderAlpha;
    var history := cs[index - s.atrPeriod..index + 1];
    var range := Atr(history, s.atrPeriod);
    SeedOnly(TrueRanges(history), s.atrPeriod);
    width := Mul(range.value, s.widthMultiplier);
  }

  /** With exactly `period` ranges Wilder's recurrence never runs: ATR is their plain mean. */
  lemma SeedOnly(ranges: seq<real>, period: nat)
    requires |ranges| == period >= 1
    ensures Smooth(ranges, period, WilderAlpha(period)) == Mean(ranges)
  {
  }

  /** Later candles never repaint a channel point. */
  lemma ChannelNoRepaint(cs: seq<Candle>, s: Settings, m: nat)
    requires Accepted(s) && FirstIndex(s) < m <= |cs|
    ensures ChannelOf(cs[..m], s) == ChannelOf(cs, s)[..m - FirstIndex(s)]
  {
    hide PointAt;
    forall k | 0 <= k < m - FirstIndex(s) ensures ChannelOf(cs[..m], s)[k] == ChannelOf(cs, s)[k] {
      assert cs[..m][..FirstIndex(s) + k + 1] == cs[..FirstIndex(s) + k + 1];
    }
  }

  /** The channel encloses its midline, which no other line through the same closes improves on. */
  lemma ChannelMidlineIsBestLine(seen: seq<Candle>, s: Settings, a: real, b: real)
    requires Accepted(s) && |seen| > FirstIndex(s)
    ensures var p := PointAt(seen, s);
            var closes := Closes(seen[|seen| - s.lookback..]);
            && p.lower <= p.midline <= p.upper
            && p.upper - p.midline == p.midline - p.lower == p.width
            && SquaredError(closes, p.midline - Mul(p.slope, s.lookback as real - 1.0), p.slope)
               <= SquaredError(closes, a, b)
  {
    hide Slope, Intercept, SquaredError, Mean, TrueRange, Mul;
    FitIsOptimal(Closes(seen[|seen| - s.lookback..]), a, b);
    WidthNonNegative(seen[|seen| - s.atrPeriod - 1..], s.widthMultiplier);
  }

  /** The readings of a channel point, on its own published values. */
  ghost predicate ReadsAs(p: ChannelPoint, close: real, threshold: real) {
    && (p.trend == Up <==> p.slope > threshold)
    && (p.trend == Down <==> p.slope < -threshold)
    && (p.breakout == Above <==> close > p.upper)
    && (p.breakout == Below <==> close < p.lower)
  }

  /**
   * Every published point: up or down when the slope leaves the threshold, above or below when the
   * close leaves the band, over a width of the multiplier times the mean of the last true ranges.
   */
  lemma ChannelExactly(cs: seq<Candle>, s: Settings, k: nat)
    requires Accepted(s) && FirstIndex(s) + k < |cs|
    ensures var p, n := ChannelOf(cs, s)[k], FirstIndex(s) + k;
            && p.time == cs[n].time && ReadsAs(p, cs[n].close, s.slopeThreshold)
            && Mul(p.width, s.atrPeriod as real) == Mul(Sum(TrueRanges(cs[n - s.atrPeriod..n + 1])), s.widthMultiplier)
            && p.upper == p.midline + p.width && p.lower == p.midline - p.width
  {
    hide Slope, FittedAt, TrueRange, Sum, Mul, Mean;
    var n := FirstIndex(s) + k;
    var seen := cs[..n + 1];
    assert seen[|seen| - s.atrPeriod - 1..] == cs[n - s.atrPeriod..n + 1];
    assert ChannelOf(cs, s)[k] == PointAt(seen, s);
    ScaledMean(TrueRanges(cs[n - s.atrPeriod..n + 1]), s.widthMultiplier);
    OpenBand(seen, s);
  }

  lemma ScaledMean(ranges: seq<real>, m: real)
    requires |ranges| > 0
    ensures Mul(Mul(Mean(ranges), m), |ranges| as real) == Mul(Sum(ranges), m)
  {
    hide Sum;
    var sum, n := Sum(ranges), |ranges| as real;
    assert (sum / n) * n == sum;
    assert (sum / n) * m * n == (sum / n) * n * m;
  }

  lemma OpenBand(seen: seq<Candle>, s: Settings)
    requires Accepted(s) && |seen| > FirstIndex(s)
    ensures PointAt(seen, s).lower <= PointAt(seen, s).upper
  {
    hide Slope, FittedAt, Mean, TrueRange, Mul;
    WidthNonNegative(seen[|seen| - s.atrPeriod - 1..], s.widthMultiplier);
  }

  lemma WidthNonNegative(cs: seq<Candle>, m: real)
    requires |cs| >= 2 && m > 0.0
    ensures Mul(Mean(TrueRanges(cs)), m) >= 0.0
  {
    SumNonNegative(TrueRanges(cs));
    hide TrueRange, Sum;
    DivNonNegative(Sum(TrueRanges(cs)), (|cs| - 1) as real, m);
  }

  lemma DivNonNegative(x: real, n: real, m: real)
    requires x >= 0.0 && n > 0.0 && m > 0.0
    ensures Mul(x / n, m) >= 0.0
  {
    assert x / n >= 0.0;
  }
}
