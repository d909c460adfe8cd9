/** The confirmed chart-pattern detector, from raw candles and pivots to one observation. */
module ChartPattern {
  import opened Market
  import opened Smoothing
  import opened ChartGeometry
  import opened ChartLifecycle

  datatype Pattern = Pattern(
    kind: PatternKind, bias: Direction, state: State, points: seq<Swing>, upper: Line, lower: Line, available: int)

  function Before(cs: seq<Candle>, time: int): seq<Candle> {
    if |cs| == 0 then []
    else
      var n := |cs| - 1;
      Before(cs[..n], time) + (if cs[n].time < time then [cs[n]] else [])
  }

  /** Candles closed by the decision: time + duration <= decision. */
  function ClosedBy(cs: seq<Candle>, duration: int, decision: int): seq<Candle> {
    Before(cs, decision - duration + 1)
  }

  function Visible(swings: seq<Swing>, decision: int): seq<Swing> {
    if |swings| == 0 then []
    else
      var n := |swings| - 1;
      Visible(swings[..n], decision) + (if swings[n].availableAt <= decision then [swings[n]] else [])
  }

  function LatestAvailable(points: seq<Swing>): int
    requires |points| > 0
  {
    var n := |points| - 1;
    if n == 0 then points[0].availableAt
    else
      var rest := LatestAvailable(points[..n]);
      if points[n].availableAt > rest then points[n].availableAt else rest
  }

  function LastFive(swings: seq<Swing>): seq<Swing> {
    if |swings| <= 5 then swings else swings[|swings| - 5..]
  }

  function Select(reversal: Option<Boundaries>, consolidation: Option<Boundaries>): Option<Boundaries> {
    if reversal.None? || reversal.value.kind == DoubleTop || reversal.value.kind == DoubleBottom then
      if consolidation.Some? then consolidation else reversal
    else reversal
  }

  function Tolerance(history: seq<Candle>): real
    requires |history| >= 15
  {
    Mul(AtrOf(history, 14), 0.35)
  }

  function GeometryOf(points: seq<Swing>, history: seq<Candle>, duration: int): Option<Boundaries>
    requires |points| >= 3 && duration > 0 && DistinctTimes(points)
  {
    if |history| < 15 || Tolerance(history) <= 0.0 then None
    else
      var tolerance := Tolerance(history);
      Select(ReversalBoundaries(points, tolerance), ConvergingBoundaries(points, duration, tolerance))
  }

  lemma GeometryHasPoints(points: seq<Swing>, history: seq<Candle>, duration: int)
    requires |points| >= 3 && duration > 0 && DistinctTimes(points)
    ensures var g := GeometryOf(points, history, duration);
            g.Some? ==>
              && 3 <= |g.value.points| && points[|points| - 1] in g.value.points
              && forall p :: p in g.value.points ==> p in points
  {
    hide Tolerance, DistinctTimes, ReversalBoundaries, ConvergingBoundaries;
    if |history| >= 15 {
      var tolerance := Tolerance(history);
      if ReversalBoundaries(points, tolerance).Some? {
        ReversalRestsOnLatest(points, tolerance);
      }
      if ConvergingBoundaries(points, duration, tolerance).Some? {
        ConvergingRestsOnLatest(points, duration, tolerance);
      }
    }
    assert forall g: Boundaries :: RestsOnLatest(g, points) ==> g.points[|g.points| - 1] == points[|points| - 1];
  }

  function Observation(g: Boundaries, rows: seq<Candle>, duration: int, expiry: int): Pattern
    requires |g.points| > 0 && duration > 0
  {
    var available := LatestAvailable(g.points);
    var status := Replay(Frame(g, duration, available, expiry), rows);
    Pattern(g.kind, status.bias, status.state, g.points, g.upper, g.lower, available)
  }

  function Points(swings: seq<Swing>, decision: int): (r: seq<Swing>)
    ensures DistinctTimes(r)
  {
    var alternating := Alternating(Visible(swings, decision));
    AlternatingGuarantees(Visible(swings, decision));
    LastFive(alternating)
  }

  function Detect(candles: seq<Candle>, swings: seq<Swing>, duration: int, decision: int, expiry: int)
    : Option<Pattern>
    requires duration > 0
  {
    var rows, points := ClosedBy(candles, duration, decision), Points(swings, decision);
    if |rows| < 15 || |points| < 3 then None
    else
      var geometry := GeometryOf(points, Before(rows, points[|points| - 1].availableAt), duration);
      GeometryHasPoints(points, Before(rows, points[|points| - 1].availableAt), duration);
      if geometry.None? then None else Some(Observation(geometry.value, rows, duration, expiry))
  }

  /** The same detector assembled from the loops: pivot collapse, ATR and candle replay. */
  method ConfirmedChartPattern(candles: seq<Candle>, swings: seq<Swing>, duration: int, decision: int, expiry: int)
    returns (r: Option<Pattern>)
    requires duration > 0
    ensures r == Detect(candles, swings, duration, decision, expiry)
  {
    hide AtrOf, ReversalBoundaries, ConvergingBoundaries, Replay, Alternating, DistinctTimes;
    var rows := ClosedBy(candles, duration, decision);
    if |rows| < 15 {
      return None;
    }
    var alternating := AlternatingSwings(Visible(swings, decision));
    if |alternating| < 3 {
      return None;
    }
    var points := LastFive(alternating);
    assert points == Points(swings, decision);
    var history := Before(rows, points[|points| - 1].availableAt);
    if |history| < 15 {
      return None;
    }
    var range := Atr(history, 14);
    var tolerance := Mul(range.value, 0.35);
    if tolerance <= 0.0 {
      return None;
    }
    var reversal := ReversalBoundaries(points, tolerance);
    var consolidation := ConvergingBoundaries(points, duration, tolerance);
    var geometry := Select(reversal, consolidation);
    GeometryHasPoints(points, history, duration);
    if geometry.None? {
      return None;
    }
    var g := geometry.value;
    var available := LatestAvailable(g.points);
    var state, bias := RunLifecycle(Frame(g, duration, available, expiry), rows);
    return Some(Pattern(g.kind, bias, state, g.points, g.upper, g.lower, available));
  }

  // ------------------------------------------------- what is detected, exactly

  /**
   * Which geometry wins: none without fifteen candles of history or any range in them; a
   * five-pivot reversal if there is one; otherwise a consolidation; otherwise a double.
   */
  lemma WinnerExactly(points: seq<Swing>, history: seq<Candle>, duration: int)
    requires |points| >= 3 && duration > 0 && DistinctTimes(points)
    ensures |history| < 15 || AtrOf(history, 14) == 0.0 ==> GeometryOf(points, history, duration).None?
    ensures |history| >= 15 && AtrOf(history, 14) > 0.0 ==>
            var tolerance, g := 0.35 * AtrOf(history, 14), GeometryOf(points, history, duration);
            var consolidation := ConvergingBoundaries(points, duration, tolerance);
            && (HasFive(points, tolerance) ==> g == ReversalBoundaries(points, tolerance))
            && (!HasFive(points, tolerance) && consolidation.Some? ==> g == consolidation)
            && (!HasFive(points, tolerance) && consolidation.None? ==> g == ReversalBoundaries(points, tolerance))
            && (g.Some? <==> || consolidation.Some? || HasFive(points, tolerance)
                             || HasTwo(points, High, tolerance) || HasTwo(points, Low, tolerance))
  {
    hide AtrOf, ReversalBoundaries, ConvergingBoundaries, HasFive, HasTwo, DistinctTimes;
    if |history| >= 15 {
      ReversalExactly(points, Tolerance(history));
    }
  }

  lemma {:induction false} LatestAvailableExactly(points: seq<Swing>)
    requires |points| > 0
    ensures exists p :: p in points && p.availableAt == LatestAvailable(points)
    ensures forall p :: p in points ==> p.availableAt <= LatestAvailable(points)
  {
    var n := |points| - 1;
    assert points == points[..n] + [points[n]];
    assert points[n] in points;
    if n > 0 {
      LatestAvailableExactly(points[..n]);
      var p :| p in points[..n] && p.availableAt == LatestAvailable(points[..n]);
      assert p in points;
    }
  }

  /** The closed candles and the pivots a decision looks at, in raw times, order kept. */
  lemma InputsExactly(candles: seq<Candle>, swings: seq<Swing>, duration: int, decision: int)
    ensures forall c :: c in ClosedBy(candles, duration, decision) <==> c in candles && c.time + duration <= decision
    ensures forall s :: s in Visible(swings, decision) <==> s in swings && s.availableAt <= decision
    ensures var all := Alternating(Visible(swings, decision));
            Points(swings, decision) == if |all| <= 5 then all else all[|all| - 5..]
  {
    hide Before, Visible, Alternating, DistinctTimes;
    BeforeAll(candles, decision - duration + 1);
    VisibleOnly(swings, decision);
  }

  /** A pattern is reported exactly when its inputs suffice and some geometry is there, with what it reports. */
  lemma DetectExactly(candles: seq<Candle>, swings: seq<Swing>, duration: int, decision: int, expiry: int)
    requires duration > 0
    ensures var r, rows, points := Detect(candles, swings, duration, decision, expiry),
                                   ClosedBy(candles, duration, decision), Points(swings, decision);
            if |rows| < 15 || |points| < 3 then r.None?
            else
              var g := GeometryOf(points, Before(rows, points[|points| - 1].availableAt), duration);
              && (r.Some? <==> g.Some?)
              && (r.Some? ==> Reports(r.value, g.value, rows, duration, expiry))
  {
    hide Before, GeometryOf, DistinctTimes, Replay, Points;
    var rows, points := ClosedBy(candles, duration, decision), Points(swings, decision);
    if |rows| >= 15 && |points| >= 3 {
      var history := Before(rows, points[|points| - 1].availableAt);
      GeometryHasPoints(points, history, duration);
      var g := GeometryOf(points, history, duration);
      if g.Some? {
        LatestAvailableExactly(g.value.points);
        hide LatestAvailable;
      }
    }
  }

  /** The observation: the geometry as frozen, and where its replay from the latest pivot's availability has got to. */
  ghost predicate Reports(p: Pattern, g: Boundaries, rows: seq<Candle>, duration: int, expiry: int)
    requires duration > 0
  {
    && p.kind == g.kind && p.points == g.points && p.upper == g.upper && p.lower == g.lower && |g.points| > 0
    && (forall s :: s in g.points ==> s.availableAt <= p.available)
    && (exists s :: s in g.points && s.availableAt == p.available)
    && var f := Frame(g, duration, p.available, expiry);
       p.state == Replay(f, rows).state && p.bias == Replay(f, rows).bias
  }

  // ------------------------------------------------------- mirror symmetry

  function ReflectPattern(axis: real, p: Pattern): Pattern {
    Pattern(MirrorKind(p.kind), Flip(p.bias), p.state, ReflectSwings(axis, p.points),
      ReflectLine(axis, p.lower), ReflectLine(axis, p.upper), p.available)
  }

  function ReflectDetection(axis: real, r: Option<Pattern>): Option<Pattern> {
    match r
    case None => None
    case Some(p) => Some(ReflectPattern(axis, p))
  }

  lemma {:induction false} BeforeMirror(axis: real, cs: seq<Candle>, time: int)
    ensures Before(ReflectCandles(axis, cs), time) == ReflectCandles(axis, Before(cs, time))
  {
    if |cs| > 0 {
      var n := |cs| - 1;
      BeforeMirror(axis, cs[..n], time);
      assert ReflectCandles(axis, cs)[..n] == ReflectCandles(axis, cs[..n]);
    }
  }

  lemma {:induction false} VisibleMirror(axis: real, swings: seq<Swing>, decision: int)
    ensures Visible(ReflectSwings(axis, swings), decision) == ReflectSwings(axis, Visible(swings, decision))
  {
    if |swings| > 0 {
      var n := |swings| - 1;
      VisibleMirror(axis, swings[..n], decision);
      assert ReflectSwings(axis, swings)[..n] == ReflectSwings(axis, swings[..n]);
    }
  }

  lemma {:induction false} LatestAvailableMirror(axis: real, points: seq<Swing>)
    requires |points| > 0
    ensures LatestAvailable(ReflectSwings(axis, points)) == LatestAvailable(points)
  {
    var n := |points| - 1;
    if n > 0 {
      LatestAvailableMirror(axis, points[..n]);
      assert ReflectSwings(axis, points)[..n] == ReflectSwings(axis, points[..n]);
    }
  }

  lemma PointsMirror(axis: real, swings: seq<Swing>, decision: int)
    ensures Points(ReflectSwings(axis, swings), decision) == ReflectSwings(axis, Points(swings, decision))
  {
    hide Alternating, Visible, DistinctTimes;
    VisibleMirror(axis, swings, decision);
    AlternatingMirror(axis, Visible(swings, decision));
  }

  lemma SelectMirror(axis: real, reversal: Option<Boundaries>, consolidation: Option<Boundaries>)
    ensures Select(ReflectResult(axis, reversal), ReflectResult(axis, consolidation))
         == ReflectResult(axis, Select(reversal, consolidation))
  {
  }

  lemma GeometryMirror(axis: real, points: seq<Swing>, history: seq<Candle>, duration: int)
    requires |points| >= 3 && duration > 0 && DistinctTimes(points)
    ensures DistinctTimes(ReflectSwings(axis, points))
    ensures GeometryOf(ReflectSwings(axis, points), ReflectCandles(axis, history), duration)
         == ReflectResult(axis, GeometryOf(points, history, duration))
  {
    assert DistinctTimes(ReflectSwings(axis, points));
    hide AtrOf, ReversalBoundaries, ConvergingBoundaries, Select, ReflectResult, DistinctTimes;
    assert ReflectResult(axis, None) == None by { MirrorNothing(axis); }
    if |history| >= 15 {
      AtrMirror(axis, history, 14);
      var tolerance := Tolerance(history);
      ReversalMirror(axis, points, tolerance);
      ConvergingMirror(axis, points, duration, tolerance);
      SelectMirror(axis, ReversalBoundaries(points, tolerance), ConvergingBoundaries(points, duration, tolerance));
    }
  }

  lemma MirrorNothing(axis: real)
    ensures ReflectResult(axis, None) == None
  {
  }

  lemma ObservationMirror(axis: real, g: Boundaries, rows: seq<Candle>, duration: int, expiry: int)
    requires |g.points| > 0 && duration > 0
    ensures Observation(ReflectBoundaries(axis, g), ReflectCandles(axis, rows), duration, expiry)
         == ReflectPattern(axis, Observation(g, rows, duration, expiry))
  {
    hide Replay, LatestAvailable, MirrorKind, Flip;
    LatestAvailableMirror(axis, g.points);
    ReplayMirror(axis, Frame(g, duration, LatestAvailable(g.points), expiry), rows);
  }

  /**
   * Mirror symmetry of the whole detector: reflect every price about any level and exchange high
   * and low pivots, and the detector reports the mirrored pattern with mirrored boundaries, the
   * same lifecycle state and the opposite bias. Level zero is plain negation; above half the
   * highest price the reflected market is again one the platform can build (MirrorIsMarket).
   */
  lemma DetectMirror(axis: real, candles: seq<Candle>, swings: seq<Swing>, duration: int, decision: int, expiry: int)
    requires duration > 0
    ensures Detect(ReflectCandles(axis, candles), ReflectSwings(axis, swings), duration, decision, expiry)
         == ReflectDetection(axis, Detect(candles, swings, duration, decision, expiry))
  {
    hide Before, Points, GeometryOf, Observation, ReflectPattern, ReflectBoundaries, ReflectCandles, DistinctTimes;
    var rows, points := ClosedBy(candles, duration, decision), Points(swings, decision);
    BeforeMirror(axis, candles, decision - duration + 1);
    PointsMirror(axis, swings, decision);
    if |rows| >= 15 && |points| >= 3 {
      var available := points[|points| - 1].availableAt;
      var history := Before(rows, available);
      BeforeMirror(axis, rows, available);
      GeometryMirror(axis, points, history, duration);
      GeometryHasPoints(points, history, duration);
      var geometry := GeometryOf(points, history, duration);
      if geometry.Some? {
        ObservationMirror(axis, geometry.value, rows, duration, expiry);
      }
    }
  }

  /** What a confirmed pivot satisfies once constructed. */
  predicate ValidSwing(s: Swing) {
    s.occurredAt <= s.availableAt && s.price > 0.0
  }

  ghost predicate ValidMarket(candles: seq<Candle>, swings: seq<Swing>) {
    (forall c :: c in candles ==> ValidCandle(c)) && (forall s :: s in swings ==> ValidSwing(s))
  }

  /** The highest price, or zero when there is none. */
  function Ceiling(candles: seq<Candle>, swings: seq<Swing>): real
    decreases |candles| + |swings|
  {
    if |candles| > 0 then Max(candles[|candles| - 1].high, Ceiling(candles[..|candles| - 1], swings))
    else if |swings| > 0 then Max(swings[|swings| - 1].price, Ceiling(candles, swings[..|swings| - 1]))
    else 0.0
  }

  lemma {:induction false} CeilingBounds(candles: seq<Candle>, swings: seq<Swing>)
    ensures forall i :: 0 <= i < |candles| ==> candles[i].high <= Ceiling(candles, swings)
    ensures forall i :: 0 <= i < |swings| ==> swings[i].price <= Ceiling(candles, swings)
    decreases |candles| + |swings|
  {
    if |candles| > 0 {
      CeilingBounds(candles[..|candles| - 1], swings);
    } else if |swings| > 0 {
      CeilingBounds(candles, swings[..|swings| - 1]);
    }
  }

  /** Reflected about any level above half its highest price, a market the platform can build is one again. */
  lemma MirrorIsMarket(axis: real, candles: seq<Candle>, swings: seq<Swing>)
    requires ValidMarket(candles, swings) && Ceiling(candles, swings) < 2.0 * axis
    ensures ValidMarket(ReflectCandles(axis, candles), ReflectSwings(axis, swings))
  {
    CeilingBounds(candles, swings);
    hide Ceiling;
    forall c | c in ReflectCandles(axis, candles) ensures ValidCandle(c) {
      var i :| 0 <= i < |candles| && ReflectCandles(axis, candles)[i] == c;
      assert ValidCandle(candles[i]);
    }
    forall s | s in ReflectSwings(axis, swings) ensures ValidSwing(s) {
      var i :| 0 <= i < |swings| && ReflectSwings(axis, swings)[i] == s;
      assert ValidSwing(swings[i]);
    }
  }

  // --------------------------------------------- time: no leak, no relapse

  lemma {:induction false} BeforeAppend(a: seq<Candle>, b: seq<Candle>, time: int)
    ensures Before(a + b, time) == Before(a, time) + Before(b, time)
  {
    if |b| == 0 {
      assert a + b == a;
    } else {
      var n := |b| - 1;
      assert (a + b)[..|a + b| - 1] == a + b[..n];
      BeforeAppend(a, b[..n], time);
    }
  }

  lemma {:induction false} VisibleAppend(a: seq<Swing>, b: seq<Swing>, decision: int)
    ensures Visible(a + b, decision) == Visible(a, decision) + Visible(b, decision)
  {
    if |b| == 0 {
      assert a + b == a;
    } else {
      var n := |b| - 1;
      assert (a + b)[..|a + b| - 1] == a + b[..n];
      VisibleAppend(a, b[..n], decision);
    }
  }

  lemma {:induction false} BeforeAll(cs: seq<Candle>, time: int)
    ensures (forall c :: c in cs ==> c.time < time) ==> Before(cs, time) == cs
    ensures (forall c :: c in cs ==> c.time >= time) ==> Before(cs, time) == []
    ensures forall c :: c in Before(cs, time) <==> c in cs && c.time < time
  {
    if |cs| > 0 {
      var n := |cs| - 1;
      assert cs == cs[..n] + [cs[n]];
      BeforeAll(cs[..n], time);
    }
  }

  lemma {:induction false} VisibleOnly(swings: seq<Swing>, decision: int)
    ensures (forall s :: s in swings ==> s.availableAt > decision) ==> Visible(swings, decision) == []
    ensures (forall s :: s in swings ==> s.availableAt <= decision) ==> Visible(swings, decision) == swings
    ensures forall s :: s in Visible(swings, decision) <==> s in swings && s.availableAt <= decision
  {
    if |swings| > 0 {
      var n := |swings| - 1;
      assert swings == swings[..n] + [swings[n]];
      VisibleOnly(swings[..n], decision);
    }
  }

  /** Candles still open and pivots not yet confirmed at the decision cannot influence it. */
  lemma NoFutureLeakage(candles: seq<Candle>, later: seq<Candle>, swings: seq<Swing>, unconfirmed: seq<Swing>,
                        duration: int, decision: int, expiry: int)
    requires duration > 0
    requires forall c :: c in later ==> c.time + duration > decision
    requires forall s :: s in unconfirmed ==> s.availableAt > decision
    ensures Detect(candles + later, swings + unconfirmed, duration, decision, expiry)
         == Detect(candles, swings, duration, decision, expiry)
  {
    hide GeometryOf, Observation, DistinctTimes, Before, Visible, Alternating;
    BeforeAppend(candles, later, decision - duration + 1);
    BeforeAll(later, decision - duration + 1);
    VisibleAppend(swings, unconfirmed, decision);
    VisibleOnly(unconfirmed, decision);
    assert ClosedBy(candles + later, duration, decision) == ClosedBy(candles, duration, decision);
    assert Visible(swings + unconfirmed, decision) == Visible(swings, decision);
  }

  /** A reported pattern rests only on pivots already available, so confirmation never precedes them. */
  lemma PatternIsAvailable(candles: seq<Candle>, swings: seq<Swing>, duration: int, decision: int, expiry: int)
    requires duration > 0
    ensures var r := Detect(candles, swings, duration, decision, expiry);
            r.Some? ==> r.value.available <= decision && forall p :: p in r.value.points ==> p in swings
  {
    hide Before, Replay, GeometryOf, DistinctTimes, Alternating, Visible;
    var rows, points := ClosedBy(candles, duration, decision), Points(swings, decision);
    if |rows| >= 15 && |points| >= 3 {
      var history := Before(rows, points[|points| - 1].availableAt);
      GeometryHasPoints(points, history, duration);
      var geometry := GeometryOf(points, history, duration);
      if geometry.Some? {
        VisibleOnly(swings, decision);
        AlternatingGuarantees(Visible(swings, decision));
        LatestAvailableBound(geometry.value.points, decision);
      }
    }
  }

  lemma {:induction false} LatestAvailableBound(points: seq<Swing>, bound: int)
    requires |points| > 0 && forall p :: p in points ==> p.availableAt <= bound
    ensures LatestAvailable(points) <= bound
  {
    var n := |points| - 1;
    assert points[n] in points;
    if n > 0 {
      LatestAvailableBound(points[..n], bound);
    }
  }

  ghost predicate Chronological(cs: seq<Candle>) {
    forall i, j :: 0 <= i < j < |cs| ==> cs[i].time <= cs[j].time
  }

  lemma {:induction false} BeforeIsPrefix(cs: seq<Candle>, earlier: int, later: int)
    requires Chronological(cs) && earlier <= later
    ensures Before(cs, earlier) <= Before(cs, later)
  {
    if |cs| > 0 {
      var n := |cs| - 1;
      BeforeIsPrefix(cs[..n], earlier, later);
      if cs[n].time < earlier {
        assert forall c :: c in cs[..n] ==> c.time < earlier;
        BeforeAll(cs[..n], earlier);
        BeforeAll(cs[..n], later);
      }
    }
  }

  lemma {:induction false} BeforeTwice(cs: seq<Candle>, outer: int, inner: int)
    ensures Before(Before(cs, outer), inner) == Before(cs, if inner <= outer then inner else outer)
  {
    if |cs| > 0 {
      var n := |cs| - 1;
      BeforeTwice(cs[..n], outer, inner);
      BeforeAppend(Before(cs[..n], outer), if cs[n].time < outer then [cs[n]] else [], inner);
      BeforeAll([cs[n]], inner);
    }
  }

  lemma {:induction false} BeforeSame(cs: seq<Candle>, s: int, t: int)
    requires forall c :: c in cs ==> (c.time < s <==> c.time < t)
    ensures Before(cs, s) == Before(cs, t)
  {
    if |cs| > 0 {
      var n := |cs| - 1;
      assert cs == cs[..n] + [cs[n]];
      BeforeSame(cs[..n], s, t);
    }
  }

  /** The candles that set the tolerance: closed by the decision and opened before the last pivot was available. */
  function History(candles: seq<Candle>, duration: int, decision: int, available: int): seq<Candle> {
    Before(ClosedBy(candles, duration, decision), available)
  }

  /** No candle opened before the last pivot became available closes between the two decisions. */
  ghost predicate Settled(candles: seq<Candle>, duration: int, available: int, decision: int, later: int) {
    forall c :: c in candles && c.time < available && c.time + duration <= later ==> c.time + duration <= decision
  }

  /** Two decisions measure their tolerance on the same candles exactly when the history has settled. */
  lemma HistoryFrozenExactlyWhen(candles: seq<Candle>, duration: int, available: int, decision: int, later: int)
    requires decision <= later
    ensures History(candles, duration, decision, available) == History(candles, duration, later, available)
            <==> Settled(candles, duration, available, decision, later)
  {
    hide Before;
    var now, then' := decision - duration + 1, later - duration + 1;
    BeforeTwice(candles, now, available);
    BeforeTwice(candles, then', available);
    var s, t := if available <= now then available else now, if available <= then' then available else then';
    BeforeAll(candles, s);
    BeforeAll(candles, t);
    if Settled(candles, duration, available, decision, later) {
      BeforeSame(candles, s, t);
    } else {
      var c :| c in candles && c.time < available && c.time + duration <= later && c.time + duration > decision;
      assert c in Before(candles, t) && c !in Before(candles, s);
    }
  }

  /**
   * A pivot that becomes available as candle k of a strictly chronological series closes leaves
   * nothing unsettled, at any two later decisions, exactly when the next candle opens no earlier.
   */
  lemma PivotsOnCloseSettle(candles: seq<Candle>, k: nat, duration: int, available: int)
    requires k < |candles| && candles[k].time + duration == available
    requires forall i, j :: 0 <= i < j < |candles| ==> candles[i].time < candles[j].time
    ensures (forall decision, later ::
               available <= decision <= later ==> Settled(candles, duration, available, decision, later))
            <==> (k + 1 < |candles| ==> candles[k + 1].time >= available)
  {
    if k + 1 < |candles| && candles[k + 1].time < available {
      var next := candles[k + 1];
      assert next in candles;
      assert !Settled(candles, duration, available, available, next.time + duration);
    } else {
      forall c | c in candles && c.time < available ensures c.time + duration <= available {
        var i :| 0 <= i < |candles| && candles[i] == c;
        assert i <= k;
      }
    }
  }

  /** While no new pivot becomes visible, a later decision sees the same geometry once the history has settled. */
  lemma GeometryFreezes(
    candles: seq<Candle>, swings: seq<Swing>, duration: int, decision: int, later: int, expiry: int)
    requires duration > 0 && decision <= later && Chronological(candles)
    requires Visible(swings, decision) == Visible(swings, later)
    requires Detect(candles, swings, duration, decision, expiry).Some?
    requires var points := Points(swings, decision);
             |points| > 0 ==> Settled(candles, duration, points[|points| - 1].availableAt, decision, later)
    ensures var now, then' := Detect(candles, swings, duration, decision, expiry),
                              Detect(candles, swings, duration, later, expiry);
            && then'.Some?
            && then'.value.points == now.value.points && then'.value.kind == now.value.kind
            && then'.value.upper == now.value.upper && then'.value.lower == now.value.lower
            && (Terminal(now.value.state) ==> then' == now)
  {
    hide GeometryOf, DistinctTimes, Before, Visible, Alternating, Replay, Settled;
    var rows, rows' := ClosedBy(candles, duration, decision), ClosedBy(candles, duration, later);
    BeforeIsPrefix(candles, decision - duration + 1, later - duration + 1);
    var points := Points(swings, decision);
    assert Points(swings, later) == points;
    var available := points[|points| - 1].availableAt;
    HistoryFrozenExactlyWhen(candles, duration, available, decision, later);
    var history := Before(rows, available);
    assert history == Before(rows', available);
    GeometryHasPoints(points, history, duration);
    var g := GeometryOf(points, history, duration).value;
    assert rows'[..|rows|] == rows;
    TerminalLatches(Frame(g, duration, LatestAvailable(g.points), expiry), rows', |rows|);
  }

  /** A replay that has moved at all has seen a candle open at or after availability. */
  lemma MovedMeansEligible(f: Frame, rows: seq<Candle>)
    requires ValidFrame(f) && Replay(f, rows).state != Potential
    ensures exists c :: c in rows && c.time >= f.available
  {
    hide Step;
    OnlyEligibleMatter(f, rows);
    EligibleAvailable(f, rows);
    assert Eligible(f, rows)[0] in Eligible(f, rows);
  }

  /** Once the replay of a pattern has moved, every candle before its last pivot's availability has closed. */
  lemma MovedMeansSettled(
    candles: seq<Candle>, swings: seq<Swing>, duration: int, decision: int, later: int, expiry: int)
    requires duration > 0
    requires var r := Detect(candles, swings, duration, decision, expiry); r.Some? && r.value.state != Potential
    ensures var points := Points(swings, decision);
            |points| > 0 && Settled(candles, duration, points[|points| - 1].availableAt, decision, later)
  {
    hide GeometryOf, DistinctTimes, Before, Visible, Alternating, Replay;
    var rows, points := ClosedBy(candles, duration, decision), Points(swings, decision);
    var last := points[|points| - 1];
    var history := Before(rows, last.availableAt);
    GeometryHasPoints(points, history, duration);
    var g := GeometryOf(points, history, duration).value;
    LatestAvailableExactly(g.points);
    MovedMeansEligible(Frame(g, duration, LatestAvailable(g.points), expiry), rows);
    var c :| c in rows && c.time >= LatestAvailable(g.points);
    BeforeAll(candles, decision - duration + 1);
    assert c.time < decision - duration + 1;
  }

  /**
   * Terminal failures cannot reconfirm the same anchors. Whatever candles arrive, while no new
   * pivot becomes visible a pattern that has failed, been invalidated or expired reports exactly
   * the same observation forever.
   */
  lemma TerminalNeverReconfirms(
    candles: seq<Candle>, swings: seq<Swing>, duration: int, decision: int, later: int, expiry: int)
    requires duration > 0 && decision <= later && Chronological(candles)
    requires Visible(swings, decision) == Visible(swings, later)
    requires var r := Detect(candles, swings, duration, decision, expiry); r.Some? && Terminal(r.value.state)
    ensures Detect(candles, swings, duration, later, expiry) == Detect(candles, swings, duration, decision, expiry)
  {
    hide Detect, Points, Visible, Settled;
    MovedMeansSettled(candles, swings, duration, decision, later, expiry);
    GeometryFreezes(candles, swings, duration, decision, later, expiry);
  }

  // ------------------------------- a history that has not settled, concretely

  function Steady(n: nat): (r: seq<Candle>)
    ensures |r| == n && forall i :: 0 <= i < n ==> r[i] == Candle(60 * i, 10.0, 11.0, 9.0, 10.0)
  {
    seq(n, i requires 0 <= i < n => Candle(60 * i, 10.0, 11.0, 9.0, 10.0))
  }

  const SPIKE := Candle(900, 10.0, 111.0, 9.0, 10.0)
  const TWIN_PEAKS := [Swing(High, 0, 180, 11.0), Swing(Low, 60, 240, 9.0), Swing(High, 120, 930, 11.0)]

  lemma SteadyAtr()
    ensures AtrOf(Steady(15), 14) == 2.0
  {
    AlphaRange(14);
    var ranges := TrueRanges(Steady(15));
    assert forall i :: 0 <= i < |ranges| ==> ranges[i] == 2.0;
    SmoothWithinRange(ranges, 14, WilderAlpha(14), 2.0, 2.0);
  }

  lemma SpikeAtr()
    ensures AtrOf(Steady(15) + [SPIKE], 14) > 2.0
  {
    SteadyAtr();
    AlphaRange(14);
    var all := Steady(15) + [SPIKE];
    var ranges := TrueRanges(all);
    assert ranges[..14] == TrueRanges(Steady(15));
    assert ranges[14] == TrueRange(all[14], all[15]) == 102.0;
    hide TrueRanges, TrueRange;
    assert AtrOf(all, 14) == Toward(2.0, 102.0, WilderAlpha(14));
  }

  lemma TwinPeaksPoints(decision: int)
    requires decision >= 930
    ensures Visible(TWIN_PEAKS, decision) == TWIN_PEAKS && Points(TWIN_PEAKS, decision) == TWIN_PEAKS
  {
    hide Visible, Alternating;
    VisibleOnly(TWIN_PEAKS, decision);
    AlternatingIsIdempotent(TWIN_PEAKS);
  }

  lemma TwinPeaksGeometry(history: seq<Candle>)
    requires |history| >= 15 && AtrOf(history, 14) > 0.0 && DistinctTimes(TWIN_PEAKS)
    ensures var tolerance, g := Mul(AtrOf(history, 14), 0.35), GeometryOf(TWIN_PEAKS, history, 60);
            g.Some? && g.value.points == TWIN_PEAKS && g.value.upper == Line(11.0 + tolerance, 0.0)
  {
    assert Mul(AtrOf(history, 14), 0.35) > 0.0;
    hide AtrOf, FivePoint, Mul;
  }

  /** A double top whose upper boundary lies the tolerance above its peaks. */
  lemma TwinPeaksDetected(candles: seq<Candle>, rows: seq<Candle>, decision: int)
    requires decision >= 930 && rows == ClosedBy(candles, 60, decision) == Before(rows, 930)
    requires |rows| >= 15 && AtrOf(rows, 14) > 0.0
    ensures var r := Detect(candles, TWIN_PEAKS, 60, decision, 20);
            r.Some? && r.value.points == TWIN_PEAKS && r.value.upper == Line(11.0 + Mul(AtrOf(rows, 14), 0.35), 0.0)
  {
    TwinPeaksPoints(decision);
    assert DistinctTimes(TWIN_PEAKS);
    TwinPeaksGeometry(rows);
    hide AtrOf, Before, Replay, Points, DistinctTimes, GeometryOf;
  }

  /**
   * The condition is needed before the replay has moved: a pivot available inside a bar that is
   * still open at the first decision lets that bar into the tolerance of the second, and the same
   * anchors report a different boundary.
   */
  lemma UnsettledHistoryMovesBoundary()
    ensures var candles := Steady(15) + [SPIKE];
            && Chronological(candles) && Visible(TWIN_PEAKS, 930) == Visible(TWIN_PEAKS, 960)
            && var now, then' := Detect(candles, TWIN_PEAKS, 60, 930, 20), Detect(candles, TWIN_PEAKS, 60, 960, 20);
               now.Some? && then'.Some? && now.value.points == then'.value.points && now.value.upper != then'.value.upper
  {
    var steady, candles := Steady(15), Steady(15) + [SPIKE];
    SteadyAtr();
    SpikeAtr();
    SpikeRows();
    TwinPeaksPoints(930);
    TwinPeaksPoints(960);
    hide Before, Detect, AtrOf, Points, Visible, Steady;
    TwinPeaksDetected(candles, steady, 930);
    TwinPeaksDetected(candles, candles, 960);
  }

  lemma SpikeRows()
    ensures var steady, candles := Steady(15), Steady(15) + [SPIKE];
            && Chronological(candles)
            && steady == ClosedBy(candles, 60, 930) == Before(steady, 930)
            && candles == ClosedBy(candles, 60, 960) == Before(candles, 930)
  {
    hide Before;
    var steady, candles := Steady(15), Steady(15) + [SPIKE];
    BeforeAppend(steady, [SPIKE], 871);
    BeforeAll(steady, 871);
    BeforeAll([SPIKE], 871);
    BeforeAll(steady, 930);
    BeforeAll(candles, 901);
    BeforeAll(candles, 930);
  }
}
