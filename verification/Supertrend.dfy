/**
 * Supertrend: two ratcheting bands and a direction.
 *
 * The loop keeps no direction between bars. It recovers the previous one by asking whether the
 * band it published last was the upper band. `Recovered` is that code; `Carried` is the machine
 * that simply remembers its direction. The theorems say exactly when the two agree.
 */
module Supertrend {
  import opened Market
  import opened Smoothing

  datatype Direction = Rising | Falling
  datatype Bands = Bands(upper: real, lower: real)
  datatype Point = Point(time: int, direction: Direction, band: real, atr: real)

  function Ohlc4(c: Candle): real {
    (c.open + c.high + c.low + c.close) / 4.0
  }

  function Basic(c: Candle, atr: real, multiplier: real): Bands {
    Bands(Ohlc4(c) + Mul(multiplier, atr), Ohlc4(c) - Mul(multiplier, atr))
  }

  /** A band only tightens, unless the previous close has already left it behind. */
  function Ratchet(basic: Bands, before: Bands, previousClose: real): Bands {
    Bands(
      if basic.upper < before.upper || previousClose > before.upper then basic.upper else before.upper,
      if basic.lower > before.lower || previousClose < before.lower then basic.lower else before.lower)
  }

  function BandsAt(seen: seq<Candle>, period: nat, multiplier: real): Bands
    requires 1 <= period < |seen|
  {
    var n := |seen| - 1;
    var basic := Basic(seen[n], AtrOf(seen, period), multiplier);
    if n == period then basic
    else Ratchet(basic, BandsAt(seen[..n], period, multiplier), seen[n - 1].close)
  }

  function Active(d: Direction, b: Bands): real {
    if d == Rising then b.lower else b.upper
  }

  function Opening(c: Candle): Direction {
    if c.close >= Ohlc4(c) then Rising else Falling
  }

  function Next(wasFalling: bool, close: real, b: Bands): Direction {
    if wasFalling then (if close > b.upper then Rising else Falling)
    else if close < b.lower then Falling else Rising
  }

  /** The direction as the loop computes it, from the published band alone. */
  function Recovered(seen: seq<Candle>, period: nat, multiplier: real): Direction
    requires 1 <= period < |seen|
  {
    var n := |seen| - 1;
    if n == period then Opening(seen[n])
    else
      var before := BandsAt(seen[..n], period, multiplier);
      var active := Active(Recovered(seen[..n], period, multiplier), before);
      Next(active == before.upper, seen[n].close, BandsAt(seen, period, multiplier))
  }

  /** The direction of the machine that remembers it. */
  function Carried(seen: seq<Candle>, period: nat, multiplier: real): Direction
    requires 1 <= period < |seen|
  {
    var n := |seen| - 1;
    if n == period then Opening(seen[n])
    else Next(Carried(seen[..n], period, multiplier) == Falling, seen[n].close, BandsAt(seen, period, multiplier))
  }

  function PointAt(seen: seq<Candle>, period: nat, multiplier: real): Point
    requires 1 <= period < |seen|
  {
    var d := Recovered(seen, period, multiplier);
    Point(seen[|seen| - 1].time, d, Active(d, BandsAt(seen, period, multiplier)), AtrOf(seen, period))
  }

  function SupertrendOf(cs: seq<Candle>, period: nat, multiplier: real): (r: seq<Point>)
    requires 1 <= period < |cs|
    ensures |r| == |cs| - period
  {
    seq(|cs| - period, k requires 0 <= k < |cs| - period => PointAt(cs[..period + 1 + k], period, multiplier))
  }

  /** The loop of the source; `None` is the raised error. */
  method ComputeSupertrend(cs: seq<Candle>, period: int, multiplier: real) returns (r: Option<seq<Point>>)
    ensures r.None? <==> multiplier <= 0.0 || period < 1 || |cs| < period + 1
    ensures r.Some? ==> r.value == SupertrendOf(cs, period, multiplier)
  {
    hide AtrOf, BandsAt, Recovered, Active;
    if multiplier <= 0.0 {
      return None;
    }
    var averages := WilderAtrSeries(cs, period);
    if averages.None? {
      return None;
    }
    var atrs := averages.value;
    var upper, lower, activeBand := 0.0, 0.0, 0.0;
    var output: seq<Point> := [];
    for index := period to |cs|
      invariant |output| == index - period
      invariant forall k :: 0 <= k < |output| ==> output[k] == SupertrendOf(cs, period, multiplier)[k]
      invariant index > period ==> Bands(upper, lower) == BandsAt(cs[..index], period, multiplier)
      invariant index > period ==>
        activeBand == Active(Recovered(cs[..index], period, multiplier), Bands(upper, lower))
    {
      var direction, atr := Falling, atrs[index - period];
      assert cs[..period + 1 + (index - period)] == cs[..index + 1];
      if index == period {
        upper, lower, activeBand, direction := Open(cs[..index + 1], period, multiplier, atr);
      } else {
        assert cs[..index + 1][..index] == cs[..index];
        upper, lower, activeBand, direction := Advance(cs[..index + 1], period, multiplier, atr, upper, lower, activeBand);
      }
      var point := Point(cs[index].time, direction, activeBand, atr);
      assert point == PointAt(cs[..index + 1], period, multiplier);
      output := output + [point];
    }
    return Some(output);
  }

  method Open(seen: seq<Candle>, period: nat, multiplier: real, atr: real)
    returns (upper: real, lower: real, activeBand: real, direction: Direction)
    requires 1 <= period && |seen| == period + 1 && atr == AtrOf(seen, period)
    ensures Bands(upper, lower) == BandsAt(seen, period, multiplier)
    ensures direction == Recovered(seen, period, multiplier)
    ensures activeBand == Active(direction, Bands(upper, lower))
  {
    hide AtrOf, Mul, Ohlc4;
    var candle := seen[period];
    var source := Ohlc4(candle);
    upper, lower := source + Mul(multiplier, atr), source - Mul(multiplier, atr);
    direction := if candle.close >= source then Rising else Falling;
    activeBand := if direction == Rising then lower else upper;
  }

  method Advance(
    seen: seq<Candle>, period: nat, multiplier: real, atr: real,
    previousUpper: real, previousLower: real, previousActive: real)
    returns (upper: real, lower: real, activeBand: real, direction: Direction)
    requires 1 <= period && period + 1 < |seen| && atr == AtrOf(seen, period)
    requires Bands(previousUpper, previousLower) == BandsAt(seen[..|seen| - 1], period, multiplier)
    requires previousActive ==
             Active(Recovered(seen[..|seen| - 1], period, multiplier), Bands(previousUpper, previousLower))
    ensures Bands(upper, lower) == BandsAt(seen, period, multiplier)
    ensures direction == Recovered(seen, period, multiplier)
    ensures activeBand == Active(direction, Bands(upper, lower))
  {
    hide AtrOf, Mul, Ohlc4;
    var candle, previous := seen[|seen| - 1], seen[|seen| - 2];
    var source := Ohlc4(candle);
    var basicUpper, basicLower := source + Mul(multiplier, atr), source - Mul(multiplier, atr);
    upper := if basicUpper < previousUpper || previous.close > previousUpper then basicUpper else previousUpper;
    lower := if basicLower > previousLower || previous.close < previousLower then basicLower else previousLower;
    if previousActive == previousUpper {
      direction := if candle.close > upper then Rising else Falling;
    } else {
      direction := if candle.close < lower then Falling else Rising;
    }
    activeBand := if direction == Rising then lower else upper;
  }

  /** A published Supertrend point never changes when candles are appended. */
  lemma SupertrendNoRepaint(cs: seq<Candle>, period: nat, multiplier: real, m: nat)
    requires 1 <= period < m <= |cs|
    ensures SupertrendOf(cs[..m], period, multiplier) == SupertrendOf(cs, period, multiplier)[..m - period]
  {
    hide PointAt;
    forall k | 0 <= k < m - period
      ensures SupertrendOf(cs[..m], period, multiplier)[k] == SupertrendOf(cs, period, multiplier)[k]
    {
      assert cs[..m][..period + 1 + k] == cs[..period + 1 + k];
    }
  }

  // ------------------------------------------- the published series in prices

  /** What the opening bar publishes: bands around its four-price mean, rising if it closes no lower than that mean. */
  ghost predicate OpensWith(p: Point, b: Bands, c: Candle, atr: real, multiplier: real) {
    && 2.0 * (b.upper + b.lower) == c.open + c.high + c.low + c.close
    && b.upper - b.lower == 2.0 * (multiplier * atr)
    && p.time == c.time && p.atr == atr
    && (p.direction == Rising <==> 4.0 * c.close >= c.open + c.high + c.low + c.close)
    && p.band == (if p.direction == Rising then b.lower else b.upper)
  }

  /**
   * What a later bar publishes. Each band takes the bar's own value, the multiplier times ATR from
   * its four-price mean, when that is tighter or the last close has left the band behind, and
   * stays otherwise. If the band published last was the upper one, the bar rises exactly on a
   * close above the new upper band; otherwise it falls exactly on a close below the new lower one.
   */
  ghost predicate ContinuesWith(p: Point, last: Point, b: Bands, before: Bands, c: Candle, previousClose: real,
                                atr: real, multiplier: real)
  {
    var mean := (c.open + c.high + c.low + c.close) / 4.0;
    var up, low := mean + multiplier * atr, mean - multiplier * atr;
    && b.upper == (if up < before.upper || before.upper < previousClose then up else before.upper)
    && b.lower == (if before.lower < low || previousClose < before.lower then low else before.lower)
    && p.time == c.time && p.atr == atr
    && (if last.band == before.upper then p.direction == Rising <==> c.close > b.upper
        else p.direction == Falling <==> c.close < b.lower)
    && p.band == (if p.direction == Rising then b.lower else b.upper)
  }

  lemma OpeningPoint(seen: seq<Candle>, period: nat, multiplier: real)
    requires 1 <= period && |seen| == period + 1
    ensures OpensWith(PointAt(seen, period, multiplier), BandsAt(seen, period, multiplier), seen[period],
                      AtrOf(seen, period), multiplier)
  {
    hide AtrOf;
  }

  lemma LaterPoint(seen: seq<Candle>, period: nat, multiplier: real)
    requires 1 <= period && period + 1 < |seen|
    ensures var n := |seen| - 1;
            ContinuesWith(PointAt(seen, period, multiplier), PointAt(seen[..n], period, multiplier),
                          BandsAt(seen, period, multiplier), BandsAt(seen[..n], period, multiplier),
                          seen[n], seen[n - 1].close, AtrOf(seen, period), multiplier)
  {
    hide AtrOf;
    var n := |seen| - 1;
    var b, before := BandsAt(seen, period, multiplier), BandsAt(seen[..n], period, multiplier);
    assert b == Ratchet(Basic(seen[n], AtrOf(seen, period), multiplier), before, seen[n - 1].close);
    hide BandsAt;
  }

  /** The published series, bar by bar, in prices. */
  lemma PublishedExactly(cs: seq<Candle>, period: nat, multiplier: real, k: nat)
    requires 1 <= period && k < |cs| - period
    ensures var points, n := SupertrendOf(cs, period, multiplier), period + k;
            var b, atr := BandsAt(cs[..n + 1], period, multiplier), AtrOf(cs[..n + 1], period);
            if k == 0 then OpensWith(points[k], b, cs[n], atr, multiplier)
            else ContinuesWith(points[k], points[k - 1], b, BandsAt(cs[..n], period, multiplier),
                               cs[n], cs[n - 1].close, atr, multiplier)
  {
    hide PointAt, BandsAt, AtrOf, OpensWith, ContinuesWith;
    var n := period + k;
    if k == 0 {
      OpeningPoint(cs[..n + 1], period, multiplier);
    } else {
      assert cs[..n + 1][..n] == cs[..n];
      LaterPoint(cs[..n + 1], period, multiplier);
    }
  }

  // ------------------------------------- recovering versus remembering

  ghost predicate Collapsed(b: Bands) {
    b.upper == b.lower
  }

  /** One bar at which the equality test reads an up-trend as a down-trend and it matters. */
  ghost predicate Misread(seen: seq<Candle>, period: nat, multiplier: real)
    requires 1 <= period && period + 1 < |seen|
  {
    var n := |seen| - 1;
    var b := BandsAt(seen, period, multiplier);
    && Collapsed(BandsAt(seen[..n], period, multiplier))
    && Carried(seen[..n], period, multiplier) == Rising
    && (seen[n].close > b.upper <==> seen[n].close < b.lower)
  }

  ghost predicate Agree(cs: seq<Candle>, period: nat, multiplier: real)
    requires 1 <= period
  {
    forall n :: period < n <= |cs| ==> Recovered(cs[..n], period, multiplier) == Carried(cs[..n], period, multiplier)
  }

  ghost predicate NoMisread(cs: seq<Candle>, period: nat, multiplier: real)
    requires 1 <= period
  {
    forall n :: period + 1 < n <= |cs| ==> !Misread(cs[..n], period, multiplier)
  }

  /** The equality test is right except on a collapsed band in an up-trend. */
  lemma AgreementStep(seen: seq<Candle>, period: nat, multiplier: real)
    requires 1 <= period && period + 1 < |seen|
    requires var before := seen[..|seen| - 1];
             Recovered(before, period, multiplier) == Carried(before, period, multiplier)
    ensures Recovered(seen, period, multiplier) == Carried(seen, period, multiplier)
            <==> !Misread(seen, period, multiplier)
  {
    hide BandsAt;
  }

  /**
   * Exactly when the code refines the remembering machine on a whole run: it does if and only if
   * no bar in an up-trend follows a collapsed band without its close settling on one side of both
   * new bands.
   */
  lemma {:induction false} RefinesExactlyWhen(cs: seq<Candle>, period: nat, multiplier: real)
    requires 1 <= period
    ensures Agree(cs, period, multiplier) <==> NoMisread(cs, period, multiplier)
  {
    hide BandsAt, Recovered, Carried, Misread;
    if |cs| <= period {
    } else if |cs| == period + 1 {
      assert cs[..|cs|] == cs;
      OpeningAgrees(cs, period, multiplier);
    } else {
      var n := |cs|;
      var before := cs[..n - 1];
      RefinesExactlyWhen(before, period, multiplier);
      assert cs[..n] == cs;
      assert forall k :: 0 <= k <= n - 1 ==> before[..k] == cs[..k];
      if Agree(before, period, multiplier) {
        assert before[..n - 1] == before;
        assert Recovered(before, period, multiplier) == Carried(before, period, multiplier);
        AgreementStep(cs, period, multiplier);
      }
    }
  }

  lemma OpeningAgrees(cs: seq<Candle>, period: nat, multiplier: real)
    requires 1 <= period && |cs| == period + 1
    ensures Recovered(cs, period, multiplier) == Carried(cs, period, multiplier)
  {
  }

  /** In particular the two agree on every run whose bands stay apart. */
  lemma RefinesWhenBandsApart(cs: seq<Candle>, period: nat, multiplier: real)
    requires 1 <= period
    requires forall n :: period < n < |cs| ==> !Collapsed(BandsAt(cs[..n], period, multiplier))
    ensures Agree(cs, period, multiplier)
  {
    hide BandsAt, Recovered, Carried;
    forall n | period + 1 < n <= |cs| ensures !Misread(cs[..n], period, multiplier) {
      assert cs[..n][..n - 1] == cs[..n - 1];
    }
    RefinesExactlyWhen(cs, period, multiplier);
  }

  /** The condition is needed: a motionless market turns the code's direction over by itself. */
  lemma FlatMarketFlips()
    ensures var cs := [Still(0, 10.0), Still(60, 10.0), Still(120, 10.0)];
            && Carried(cs, 1, 2.0) == Rising
            && Recovered(cs, 1, 2.0) == Falling
  {
    var three := [Still(0, 10.0), Still(60, 10.0), Still(120, 10.0)];
    var two := three[..2];
    FlatBands(two, 10.0, 1, 2.0);
    FlatBands(three, 10.0, 1, 2.0);
    hide BandsAt;
    assert Recovered(two, 1, 2.0) == Rising == Carried(two, 1, 2.0);
  }

  /** A candle in which the price does not move. */
  function Still(time: int, price: real): Candle {
    Candle(time, price, price, price, price)
  }

  ghost predicate Motionless(cs: seq<Candle>, price: real) {
    forall i :: 0 <= i < |cs| ==> cs[i].open == cs[i].high == cs[i].low == cs[i].close == price
  }

  lemma {:induction false} FlatBands(cs: seq<Candle>, price: real, period: nat, multiplier: real)
    requires 1 <= period < |cs| && Motionless(cs, price)
    ensures BandsAt(cs, period, multiplier) == Bands(price, price)
  {
    FlatAtr(cs, price, period);
    hide AtrOf;
    if |cs| > period + 1 {
      FlatBands(cs[..|cs| - 1], price, period, multiplier);
    }
  }

  lemma FlatAtr(cs: seq<Candle>, price: real, period: nat)
    requires 1 <= period < |cs| && Motionless(cs, price)
    ensures AtrOf(cs, period) == 0.0
  {
    AlphaRange(period);
    SmoothWithinRange(TrueRanges(cs), period, WilderAlpha(period), 0.0, 0.0);
  }

  // ------------------------------------------- the band follows the trend

  /** The opening bar, or a bar that continues the direction of the bar before it. */
  ghost predicate Continues(seen: seq<Candle>, period: nat, multiplier: real)
    requires 1 <= period < |seen|
  {
    |seen| == period + 1
    || Recovered(seen[..|seen| - 1], period, multiplier) == Recovered(seen, period, multiplier)
  }

  /**
   * Candle n lets the lower band of an up-trend down: the band before it was entered from a
   * collapsed one, the close already lies below it, and the candle's own band is lower still.
   */
  ghost predicate Slips(cs: seq<Candle>, period: nat, multiplier: real, n: nat)
    requires 1 <= period < n < |cs|
  {
    var lower := BandsAt(cs[..n], period, multiplier).lower;
    && period + 1 < n && Collapsed(BandsAt(cs[..n - 1], period, multiplier))
    && cs[n - 1].close < lower
    && Basic(cs[n], AtrOf(cs[..n + 1], period), multiplier).lower < lower
  }

  /**
   * Once a trend is two bars old, or from the opening bar on, the published band of a down-trend
   * never rises, and that of an up-trend holds or rises exactly when the candle does not slip.
   */
  lemma BandFollowsTrend(cs: seq<Candle>, period: nat, multiplier: real, n: nat)
    requires 1 <= period < n < |cs| && multiplier > 0.0
    requires Continues(cs[..n], period, multiplier)
    ensures Recovered(cs[..n], period, multiplier) == Rising ==>
              (BandsAt(cs[..n], period, multiplier).lower <= BandsAt(cs[..n + 1], period, multiplier).lower
               <==> !Slips(cs, period, multiplier, n))
    ensures Recovered(cs[..n], period, multiplier) == Falling ==>
              BandsAt(cs[..n + 1], period, multiplier).upper <= BandsAt(cs[..n], period, multiplier).upper
  {
    hide AtrOf, Basic;
    var now := cs[..n];
    assert cs[..n + 1][..n] == now;
    if n == period + 1 {
      OpeningRespectsBand(now, period, multiplier);
    } else {
      assert now[..n - 1] == cs[..n - 1];
      TrendRespectsBand(now, period, multiplier);
    }
    hide Recovered;
  }

  lemma OpeningRespectsBand(seen: seq<Candle>, period: nat, multiplier: real)
    requires 1 <= period && |seen| == period + 1 && multiplier > 0.0
    ensures var close, b := seen[|seen| - 1].close, BandsAt(seen, period, multiplier);
            && (Recovered(seen, period, multiplier) == Rising ==> close >= b.lower)
            && (Recovered(seen, period, multiplier) == Falling ==> close <= b.upper)
  {
    AtrNonNegative(seen, period);
    hide AtrOf, Ohlc4;
    NonNegativeProduct(multiplier, AtrOf(seen, period));
  }

  /** Two bars into a trend the close is on the right side of the active band, a collapsed one aside. */
  lemma TrendRespectsBand(seen: seq<Candle>, period: nat, multiplier: real)
    requires 1 <= period && period + 1 < |seen| && Continues(seen, period, multiplier)
    ensures var close, b, before := seen[|seen| - 1].close, BandsAt(seen, period, multiplier),
                                    BandsAt(seen[..|seen| - 1], period, multiplier);
            && (Recovered(seen, period, multiplier) == Rising && !Collapsed(before) ==> close >= b.lower)
            && (Recovered(seen, period, multiplier) == Falling ==> close <= b.upper)
  {
    hide BandsAt;
  }

  /** The bars i to j belong to one trend, counted from its second bar or from the opening. */
  ghost predicate WithinTrend(cs: seq<Candle>, period: nat, multiplier: real, i: nat, j: nat, d: Direction)
    requires 1 <= period < i <= j <= |cs|
  {
    forall n :: i <= n + 1 && n <= j && period < n ==> Recovered(cs[..n], period, multiplier) == d
  }

  lemma TrendContinues(cs: seq<Candle>, period: nat, multiplier: real, i: nat, j: nat, d: Direction, n: nat)
    requires 1 <= period < i <= n <= j <= |cs| && WithinTrend(cs, period, multiplier, i, j, d)
    ensures Recovered(cs[..n], period, multiplier) == d && Continues(cs[..n], period, multiplier)
  {
    hide Recovered;
    assert cs[..n][..n - 1] == cs[..n - 1];
  }

  ghost predicate LowerNeverFalls(cs: seq<Candle>, period: nat, multiplier: real, i: nat, j: nat)
    requires 1 <= period < i <= j <= |cs|
  {
    forall k, l :: i <= k <= l <= j ==>
      BandsAt(cs[..k], period, multiplier).lower <= BandsAt(cs[..l], period, multiplier).lower
  }

  /** Over a whole stretch: the lower band of an up-trend never falls if and only if no candle of it slips. */
  lemma {:induction false} UpTrendRatchets(cs: seq<Candle>, period: nat, multiplier: real, i: nat, j: nat)
    requires 1 <= period < i <= j <= |cs| && multiplier > 0.0
    requires WithinTrend(cs, period, multiplier, i, j, Rising)
    ensures LowerNeverFalls(cs, period, multiplier, i, j)
            <==> forall n :: i <= n < j ==> !Slips(cs, period, multiplier, n)
    decreases j
  {
    hide BandsAt, Recovered, Slips;
    if i < j {
      UpTrendRatchets(cs, period, multiplier, i, j - 1);
      TrendContinues(cs, period, multiplier, i, j, Rising, j - 1);
      BandFollowsTrend(cs, period, multiplier, j - 1);
      hide WithinTrend;
    }
  }

  /** In particular when its bands stay apart. */
  lemma UpTrendRatchetsWhenBandsApart(cs: seq<Candle>, period: nat, multiplier: real, i: nat, j: nat)
    requires 1 <= period < i <= j <= |cs| && multiplier > 0.0
    requires WithinTrend(cs, period, multiplier, i, j, Rising)
    requires forall n :: i <= n + 1 && n < j && period < n ==> !Collapsed(BandsAt(cs[..n], period, multiplier))
    ensures LowerNeverFalls(cs, period, multiplier, i, j)
  {
    hide BandsAt, WithinTrend, LowerNeverFalls;
    UpTrendRatchets(cs, period, multiplier, i, j);
  }

  /** Over a whole down-trend the upper band never rises. */
  lemma {:induction false} DownTrendRatchets(cs: seq<Candle>, period: nat, multiplier: real, i: nat, j: nat)
    requires 1 <= period < i <= j <= |cs| && multiplier > 0.0
    requires WithinTrend(cs, period, multiplier, i, j, Falling)
    ensures forall k, l :: i <= k <= l <= j ==>
              BandsAt(cs[..l], period, multiplier).upper <= BandsAt(cs[..k], period, multiplier).upper
    decreases j
  {
    hide BandsAt, Recovered, Slips;
    if i < j {
      DownTrendRatchets(cs, period, multiplier, i, j - 1);
      TrendContinues(cs, period, multiplier, i, j, Falling, j - 1);
      BandFollowsTrend(cs, period, multiplier, j - 1);
      hide WithinTrend;
    }
  }

  // -------------------------------------------------- a slip, concretely

  function Flat(n: nat): (r: seq<Candle>)
    ensures |r| == n && forall i :: 0 <= i < n ==> r[i] == Still(60 * i, 10.0)
  {
    seq(n, i requires 0 <= i < n => Still(60 * i, 10.0))
  }

  /** After a motionless market, a bar that opens far above and closes just above where it was. */
  function Plunge(period: nat): Candle {
    Candle(60 * (period + 1), 20.0, 20.0, 10.5, 10.5)
  }

  function SlippingRun(period: nat): (cs: seq<Candle>)
    ensures |cs| == period + 3
  {
    Flat(period + 1) + [Plunge(period), Still(60 * (period + 2), 10.6)]
  }

  lemma PlungeAtr(period: nat)
    requires 1 <= period
    ensures AtrOf(Flat(period + 1) + [Plunge(period)], period) == 10.0 * WilderAlpha(period)
  {
    var flat := Flat(period + 1);
    var seen := flat + [Plunge(period)];
    FlatAtr(flat, 10.0, period);
    TrueRangesPrefix(seen, period + 1);
    assert seen[..period + 1] == flat;
    assert TrueRange(seen[period], seen[period + 1]) == 10.0;
    hide TrueRange, WilderAlpha;
  }

  lemma SmallShare(period: nat, multiplier: real)
    requires 1 <= period && 0.0 < multiplier <= 0.46 * period as real
    ensures Mul(multiplier, 10.0 * WilderAlpha(period)) <= 4.6
  {
    var alpha := WilderAlpha(period);
    AlphaRange(period);
    assert alpha * period as real == 1.0;
    assert (0.46 * period as real - multiplier) * alpha >= 0.0;
  }

  lemma AfterFlat(period: nat, multiplier: real)
    requires 1 <= period
    ensures var seen := SlippingRun(period)[..period + 1];
            BandsAt(seen, period, multiplier) == Bands(10.0, 10.0) && Recovered(seen, period, multiplier) == Rising
  {
    assert SlippingRun(period)[..period + 1] == Flat(period + 1);
    FlatBands(Flat(period + 1), 10.0, period, multiplier);
    hide BandsAt;
  }

  lemma AfterPlunge(period: nat, multiplier: real)
    requires 1 <= period && 0.0 < multiplier <= 0.46 * period as real
    ensures var seen := SlippingRun(period)[..period + 2];
            && BandsAt(seen, period, multiplier).upper == 10.0 && BandsAt(seen, period, multiplier).lower >= 10.65
            && Recovered(seen, period, multiplier) == Rising
  {
    var seen := SlippingRun(period)[..period + 2];
    assert seen == Flat(period + 1) + [Plunge(period)];
    assert seen[..period + 1] == SlippingRun(period)[..period + 1];
    AfterFlat(period, multiplier);
    PlungeAtr(period);
    SmallShare(period, multiplier);
    AtrNonNegative(seen, period);
    NonNegativeProduct(multiplier, AtrOf(seen, period));
    hide AtrOf, Mul, WilderAlpha, SlippingRun;
  }

  lemma AfterCalm(period: nat, multiplier: real)
    requires 1 <= period && 0.0 < multiplier <= 0.46 * period as real
    ensures BandsAt(SlippingRun(period), period, multiplier).lower <= 10.6
    ensures Recovered(SlippingRun(period), period, multiplier) == Rising
  {
    var cs := SlippingRun(period);
    assert cs[period + 1] == Plunge(period) && cs[period + 2] == Still(60 * (period + 2), 10.6);
    AfterPlunge(period, multiplier);
    AtrNonNegative(cs, period);
    NonNegativeProduct(multiplier, AtrOf(cs, period));
    hide AtrOf, Mul, SlippingRun;
  }

  /**
   * Slips happen: at every period and any multiplier up to 0.46 times it, the default settings
   * among them, a motionless stretch followed by two bars gives an up-trend of three bars whose
   * band falls on the third.
   */
  lemma UpTrendBandFalls(period: nat, multiplier: real)
    requires 1 <= period && 0.0 < multiplier <= 0.46 * period as real
    ensures var cs := SlippingRun(period);
            && WithinTrend(cs, period, multiplier, period + 1, period + 3, Rising)
            && BandsAt(cs[..period + 3], period, multiplier).lower < BandsAt(cs[..period + 2], period, multiplier).lower
            && !LowerNeverFalls(cs, period, multiplier, period + 1, period + 3)
  {
    hide BandsAt, Recovered, SlippingRun;
    var cs := SlippingRun(period);
    assert cs[..period + 3] == cs;
    AfterFlat(period, multiplier);
    AfterPlunge(period, multiplier);
    AfterCalm(period, multiplier);
  }
}
