/**
 * Replaying closed candles against frozen boundaries.
 *
 * `Replay` is the source's loop as a fold. `FirstEvent` says declaratively which event decided
 * the outcome, quantifying over candles instead of stepping through them.
 */
module ChartLifecycle {
  import opened Market
  import opened ChartGeometry

  datatype State = Potential | Confirmed | Failed | Invalidated | Expired
  datatype Status = Status(state: State, bias: Direction, elapsed: nat)

  /** Everything about a replay that the candles do not change. */
  datatype Frame = Frame(g: Boundaries, duration: int, available: int, expiry: int)

  ghost predicate ValidFrame(f: Frame) {
    f.duration > 0 && |f.g.points| > 0
  }

  predicate Terminal(s: State) {
    s == Failed || s == Invalidated || s == Expired
  }

  function OffsetOf(f: Frame, c: Candle): real
    requires ValidFrame(f)
  {
    Bars(c.time - f.g.points[0].occurredAt, f.duration)
  }

  /** The boundaries have met or crossed at this candle. */
  predicate Shut(f: Frame, c: Candle)
    requires ValidFrame(f)
  {
    LineAt(f.g.upper, OffsetOf(f, c)) <= LineAt(f.g.lower, OffsetOf(f, c))
  }

  function Breakout(f: Frame, c: Candle): Direction
    requires ValidFrame(f)
  {
    if c.close > LineAt(f.g.upper, OffsetOf(f, c)) then Bullish
    else if c.close < LineAt(f.g.lower, OffsetOf(f, c)) then Bearish
    else Neutral
  }

  function Initial(f: Frame): Status {
    Status(Potential, f.g.bias, 0)
  }

  /** One turn of the loop; a terminal status stands for having returned. */
  function Step(f: Frame, s: Status, c: Candle): Status
    requires ValidFrame(f)
  {
    if Terminal(s.state) || c.time < f.available then s
    else
      var elapsed := s.elapsed + 1;
      if Shut(f, c) || elapsed > f.expiry then Status(Expired, s.bias, elapsed)
      else
        var b := Breakout(f, c);
        if b == Neutral then Status(if s.state == Confirmed then Failed else s.state, s.bias, elapsed)
        else
          var bias := if s.bias == Neutral then b else s.bias;
          if b != bias then Status(if s.state == Confirmed then Failed else Invalidated, bias, elapsed)
          else Status(Confirmed, bias, elapsed)
  }

  function Replay(f: Frame, rows: seq<Candle>): Status
    requires ValidFrame(f)
  {
    if |rows| == 0 then Initial(f) else Step(f, Replay(f, rows[..|rows|-1]), rows[|rows|-1])
  }

  /** The loop with its early returns. */
  method RunLifecycle(f: Frame, rows: seq<Candle>) returns (state: State, bias: Direction)
    requires ValidFrame(f)
    ensures state == Replay(f, rows).state && bias == Replay(f, rows).bias
  {
    hide Shut, Breakout;
    state, bias := Potential, f.g.bias;
    var elapsed: nat := 0;
    for i := 0 to |rows|
      invariant Status(state, bias, elapsed) == Replay(f, rows[..i]) && !Terminal(state)
    {
      assert rows[..i + 1][..i] == rows[..i];
      TerminalLatches(f, rows, i + 1);
      var candle := rows[i];
      if candle.time < f.available {
        continue;
      }
      elapsed := elapsed + 1;
      if Shut(f, candle) || elapsed > f.expiry {
        return Expired, bias;
      }
      var breakout := Breakout(f, candle);
      if breakout == Neutral {
        if state == Confirmed {
          return Failed, bias;
        }
        continue;
      }
      if bias == Neutral {
        bias := breakout;
      }
      if breakout != bias {
        return if state == Confirmed then Failed else Invalidated, bias;
      }
      state := Confirmed;
    }
    assert rows[..|rows|] == rows;
  }

  /** Once a prefix has ended in a terminal state, no later candle changes anything. */
  lemma {:induction false} TerminalLatches(f: Frame, rows: seq<Candle>, m: nat)
    requires ValidFrame(f) && m <= |rows|
    ensures Terminal(Replay(f, rows[..m]).state) ==> Replay(f, rows) == Replay(f, rows[..m])
  {
    if m == |rows| {
      assert rows[..m] == rows;
    } else {
      var n := |rows| - 1;
      TerminalLatches(f, rows[..n], m);
      assert rows[..n][..m] == rows[..m];
    }
  }

  // ------------------------------------------------- only eligible candles

  function Eligible(f: Frame, rows: seq<Candle>): seq<Candle> {
    if |rows| == 0 then []
    else
      var n := |rows| - 1;
      Eligible(f, rows[..n]) + (if rows[n].time < f.available then [] else [rows[n]])
  }

  lemma {:induction false} EligibleAvailable(f: Frame, rows: seq<Candle>)
    ensures forall c :: c in Eligible(f, rows) <==> c in rows && c.time >= f.available
  {
    if |rows| > 0 {
      var n := |rows| - 1;
      EligibleAvailable(f, rows[..n]);
      assert rows == rows[..n] + [rows[n]];
    }
  }

  /** Candles before availability cannot affect the result. */
  lemma {:induction false} OnlyEligibleMatter(f: Frame, rows: seq<Candle>)
    requires ValidFrame(f)
    ensures Replay(f, rows) == Replay(f, Eligible(f, rows))
  {
    if |rows| > 0 {
      var n := |rows| - 1;
      OnlyEligibleMatter(f, rows[..n]);
      var before := Eligible(f, rows[..n]);
      if rows[n].time >= f.available {
        assert (before + [rows[n]])[..|before|] == before;
      } else {
        assert before + [] == before;
      }
    }
  }

  // ------------------------------------------- the declarative first event

  // The specification speaks of prices and times alone; it shares nothing with the code above.

  /** The upper boundary, in price, where the candle stands in time. */
  ghost function Ceiling(f: Frame, c: Candle): real
    requires ValidFrame(f)
  {
    f.g.upper.intercept + f.g.upper.slope * ((c.time - f.g.points[0].occurredAt) as real / f.duration as real)
  }

  /** The lower boundary there. */
  ghost function Floor(f: Frame, c: Candle): real
    requires ValidFrame(f)
  {
    f.g.lower.intercept + f.g.lower.slope * ((c.time - f.g.points[0].occurredAt) as real / f.duration as real)
  }

  ghost predicate ClosesInside(f: Frame, c: Candle)
    requires ValidFrame(f)
  {
    Floor(f, c) <= c.close <= Ceiling(f, c)
  }

  /** The candle closes outside on side d: above the upper boundary if bullish, below the lower if bearish. */
  ghost predicate ClosesOutside(f: Frame, c: Candle, d: Direction)
    requires ValidFrame(f)
  {
    (d == Bullish && c.close > Ceiling(f, c)) || (d == Bearish && c.close < Floor(f, c))
  }

  /** The code reads a candle as the specification does, while the boundaries are open. */
  lemma CodeReadsPrices(f: Frame, c: Candle)
    requires ValidFrame(f)
    ensures Shut(f, c) <==> Ceiling(f, c) <= Floor(f, c)
    ensures !Shut(f, c) ==>
      && (Breakout(f, c) == Neutral <==> ClosesInside(f, c))
      && (Breakout(f, c) == Bullish <==> ClosesOutside(f, c, Bullish))
      && (Breakout(f, c) == Bearish <==> ClosesOutside(f, c, Bearish))
  {
  }

  /** Candle k of the eligible run lapses the pattern: the boundaries have met or time is up. */
  ghost predicate Lapses(f: Frame, es: seq<Candle>, k: nat)
    requires ValidFrame(f) && k < |es|
  {
    Ceiling(f, es[k]) <= Floor(f, es[k]) || k + 1 > f.expiry
  }

  ghost predicate Live(f: Frame, es: seq<Candle>, n: nat)
    requires ValidFrame(f) && n <= |es|
  {
    forall k :: 0 <= k < n ==> !Lapses(f, es, k)
  }

  /** No close outside the boundaries among the first n candles. */
  ghost predicate Quiet(f: Frame, es: seq<Candle>, n: nat)
    requires ValidFrame(f) && n <= |es|
  {
    forall k :: 0 <= k < n ==> ClosesInside(f, es[k])
  }

  /** Candle i is the first to close outside, on an admissible side d, and every candle up to n stays there. */
  ghost predicate Outside(f: Frame, es: seq<Candle>, i: nat, n: nat, d: Direction)
    requires ValidFrame(f) && n <= |es|
  {
    && i < n && Quiet(f, es, i)
    && (f.g.bias == Neutral || f.g.bias == d)
    && forall k :: i <= k < n ==> ClosesOutside(f, es[k], d)
  }

  /** Which event decided the outcome (state, bias) over the eligible candles es. */
  ghost predicate FirstEvent(f: Frame, es: seq<Candle>, state: State, bias: Direction)
    requires ValidFrame(f)
  {
    match state
    case Potential => Live(f, es, |es|) && Quiet(f, es, |es|) && bias == f.g.bias
    case Confirmed => Live(f, es, |es|) && exists i :: Outside(f, es, i, |es|, bias)
    case Failed => exists i: nat, k: nat :: FailsAt(f, es, i, k, bias)
    case Invalidated => exists k: nat :: InvalidAt(f, es, k) && bias == f.g.bias
    case Expired => exists k: nat :: ExpiresAt(f, es, k, bias)
  }

  /** A close back inside, or on the far side, after a confirming close at i. */
  ghost predicate FailsAt(f: Frame, es: seq<Candle>, i: nat, k: nat, bias: Direction)
    requires ValidFrame(f)
  {
    k < |es| && Live(f, es, k + 1) && Outside(f, es, i, k, bias) && !ClosesOutside(f, es[k], bias)
  }

  /** The very first close outside is against a committed bias. */
  ghost predicate InvalidAt(f: Frame, es: seq<Candle>, k: nat)
    requires ValidFrame(f)
  {
    && k < |es| && Live(f, es, k + 1) && Quiet(f, es, k)
    && ((f.g.bias == Bullish && ClosesOutside(f, es[k], Bearish))
        || (f.g.bias == Bearish && ClosesOutside(f, es[k], Bullish)))
  }

  ghost predicate ExpiresAt(f: Frame, es: seq<Candle>, k: nat, bias: Direction)
    requires ValidFrame(f)
  {
    && k < |es| && Lapses(f, es, k) && Live(f, es, k)
    && ((Quiet(f, es, k) && bias == f.g.bias) || exists i :: Outside(f, es, i, k, bias))
  }

  ghost predicate AllAvailable(f: Frame, es: seq<Candle>) {
    forall k :: 0 <= k < |es| ==> es[k].time >= f.available
  }

  lemma {:induction false} QuietIsPotential(f: Frame, es: seq<Candle>, n: nat)
    requires ValidFrame(f) && AllAvailable(f, es) && n <= |es|
    requires Live(f, es, n) && Quiet(f, es, n)
    ensures Replay(f, es[..n]) == Status(Potential, f.g.bias, n)
  {
    hide Shut, Breakout, Ceiling, Floor;
    if n > 0 {
      QuietIsPotential(f, es, n - 1);
      assert es[..n][..n - 1] == es[..n - 1];
      assert !Lapses(f, es, n - 1) && ClosesInside(f, es[n - 1]);
      CodeReadsPrices(f, es[n - 1]);
    }
  }

  lemma {:induction false} OutsideIsConfirmed(f: Frame, es: seq<Candle>, i: nat, n: nat, d: Direction)
    requires ValidFrame(f) && AllAvailable(f, es) && n <= |es|
    requires Live(f, es, n) && Outside(f, es, i, n, d)
    ensures Replay(f, es[..n]) == Status(Confirmed, d, n)
  {
    hide Shut, Breakout, Ceiling, Floor;
    if n == i + 1 {
      QuietIsPotential(f, es, i);
    } else {
      OutsideIsConfirmed(f, es, i, n - 1, d);
    }
    assert es[..n][..n - 1] == es[..n - 1];
    assert !Lapses(f, es, n - 1) && ClosesOutside(f, es[n - 1], d);
    CodeReadsPrices(f, es[n - 1]);
  }

  /** The specification determines the replay: whatever event it names, that is the outcome. */
  lemma FirstEventDetermines(f: Frame, es: seq<Candle>, state: State, bias: Direction)
    requires ValidFrame(f) && AllAvailable(f, es)
    requires FirstEvent(f, es, state, bias)
    ensures Replay(f, es).state == state && Replay(f, es).bias == bias
  {
    hide Shut, Breakout, Ceiling, Floor;
    assert es[..|es|] == es;
    match state {
      case Potential =>
        QuietIsPotential(f, es, |es|);
      case Confirmed =>
        var i :| Outside(f, es, i, |es|, bias);
        OutsideIsConfirmed(f, es, i, |es|, bias);
      case Failed =>
        var i: nat, k: nat :| FailsAt(f, es, i, k, bias);
        OutsideIsConfirmed(f, es, i, k, bias);
        assert !Lapses(f, es, k);
        CodeReadsPrices(f, es[k]);
        TerminalStep(f, es, k);
      case Invalidated =>
        var k: nat :| InvalidAt(f, es, k);
        QuietIsPotential(f, es, k);
        assert !Lapses(f, es, k);
        CodeReadsPrices(f, es[k]);
        TerminalStep(f, es, k);
      case Expired =>
        var k: nat :| ExpiresAt(f, es, k, bias);
        if Quiet(f, es, k) && bias == f.g.bias {
          QuietIsPotential(f, es, k);
        } else {
          var i :| Outside(f, es, i, k, bias);
          OutsideIsConfirmed(f, es, i, k, bias);
        }
        CodeReadsPrices(f, es[k]);
        TerminalStep(f, es, k);
    }
  }

  /** If candle k ends the run, its step is the final status. */
  lemma TerminalStep(f: Frame, es: seq<Candle>, k: nat)
    requires ValidFrame(f) && k < |es|
    requires Terminal(Step(f, Replay(f, es[..k]), es[k]).state)
    ensures Replay(f, es) == Step(f, Replay(f, es[..k]), es[k])
  {
    hide Step;
    assert es[..k + 1][..k] == es[..k];
    TerminalLatches(f, es, k + 1);
  }

  lemma {:induction false} ReplayIsFirstEvent(f: Frame, es: seq<Candle>)
    requires ValidFrame(f) && AllAvailable(f, es)
    ensures FirstEvent(f, es, Replay(f, es).state, Replay(f, es).bias)
  {
    hide Shut, Breakout, Ceiling, Floor;
    if |es| > 0 {
      var n := |es| - 1;
      var before := es[..n];
      ReplayIsFirstEvent(f, before);
      var s := Replay(f, before);
      if Terminal(s.state) {
        TerminalEventPersists(f, es, s.state, s.bias);
      } else {
        LiveEventExtends(f, es);
      }
    }
  }

  /** A deciding event inside a prefix is the same event of the whole run. */
  lemma TerminalEventPersists(f: Frame, es: seq<Candle>, state: State, bias: Direction)
    requires ValidFrame(f) && |es| > 0 && Terminal(state)
    requires FirstEvent(f, es[..|es|-1], state, bias)
    ensures FirstEvent(f, es, state, bias)
  {
    hide Shut, Breakout, Ceiling, Floor;
    var before := es[..|es|-1];
    assert forall k :: 0 <= k < |before| ==> before[k] == es[k];
    match state {
      case Failed =>
        var i: nat, k: nat :| FailsAt(f, before, i, k, bias);
        SamePrefix(f, es, k + 1);
        SamePrefix(f, es, k);
        SamePrefix(f, es, i);
        assert FailsAt(f, es, i, k, bias);
      case Invalidated =>
        var k: nat :| InvalidAt(f, before, k);
        SamePrefix(f, es, k + 1);
        SamePrefix(f, es, k);
        assert InvalidAt(f, es, k);
      case Expired =>
        var k: nat :| ExpiresAt(f, before, k, bias);
        SamePrefix(f, es, k);
        if !(Quiet(f, before, k) && bias == f.g.bias) {
          var i :| Outside(f, before, i, k, bias);
          SamePrefix(f, es, i);
          assert Outside(f, es, i, k, bias);
        }
        assert ExpiresAt(f, es, k, bias);
    }
  }

  lemma SamePrefix(f: Frame, es: seq<Candle>, n: nat)
    requires ValidFrame(f) && n < |es|
    ensures Live(f, es[..|es|-1], n) == Live(f, es, n)
    ensures Quiet(f, es[..|es|-1], n) == Quiet(f, es, n)
  {
    hide Shut, Breakout, Ceiling, Floor;
    var before := es[..|es|-1];
    assert forall k :: 0 <= k < n ==> before[k] == es[k] && Lapses(f, before, k) == Lapses(f, es, k);
  }

  lemma LiveEventExtends(f: Frame, es: seq<Candle>)
    requires ValidFrame(f) && AllAvailable(f, es) && |es| > 0
    requires var s := Replay(f, es[..|es|-1]);
             !Terminal(s.state) && FirstEvent(f, es[..|es|-1], s.state, s.bias)
    ensures FirstEvent(f, es, Replay(f, es).state, Replay(f, es).bias)
  {
    hide Shut, Breakout, Ceiling, Floor;
    var n := |es| - 1;
    var before := es[..n];
    var s := Replay(f, before);
    assert forall k :: 0 <= k < n ==> before[k] == es[k];
    assert before[..n] == before;
    SamePrefix(f, es, n);
    if s.state == Potential {
      QuietIsPotential(f, before, n);
      PotentialExtends(f, es);
    } else {
      var i :| Outside(f, before, i, n, s.bias);
      OutsideIsConfirmed(f, before, i, n, s.bias);
      SamePrefix(f, es, i);
      assert Outside(f, es, i, n, s.bias);
      ConfirmedExtends(f, es, i, s.bias);
    }
  }

  lemma PotentialExtends(f: Frame, es: seq<Candle>)
    requires ValidFrame(f) && AllAvailable(f, es) && |es| > 0
    requires Replay(f, es[..|es|-1]) == Status(Potential, f.g.bias, |es| - 1)
    requires Live(f, es, |es| - 1) && Quiet(f, es, |es| - 1)
    ensures FirstEvent(f, es, Replay(f, es).state, Replay(f, es).bias)
  {
    hide Shut, Breakout, Ceiling, Floor;
    var n, c := |es| - 1, es[|es| - 1];
    var r := Replay(f, es);
    CodeReadsPrices(f, c);
    if Lapses(f, es, n) {
      assert ExpiresAt(f, es, n, r.bias);
    } else {
      assert Live(f, es, n + 1);
      if ClosesInside(f, c) {
        assert Quiet(f, es, n + 1);
      } else if f.g.bias == Neutral || f.g.bias == Breakout(f, c) {
        assert Outside(f, es, n, n + 1, r.bias);
      } else {
        assert InvalidAt(f, es, n);
      }
    }
  }

  lemma ConfirmedExtends(f: Frame, es: seq<Candle>, i: nat, d: Direction)
    requires ValidFrame(f) && AllAvailable(f, es) && |es| > 0
    requires Replay(f, es[..|es|-1]) == Status(Confirmed, d, |es| - 1)
    requires Live(f, es, |es| - 1) && Outside(f, es, i, |es| - 1, d)
    ensures FirstEvent(f, es, Replay(f, es).state, Replay(f, es).bias)
  {
    hide Shut, Breakout, Ceiling, Floor;
    var n := |es| - 1;
    CodeReadsPrices(f, es[n]);
    if Lapses(f, es, n) {
      assert ExpiresAt(f, es, n, d);
    } else {
      assert Live(f, es, n + 1);
      if ClosesOutside(f, es[n], d) {
        assert Outside(f, es, i, n + 1, d);
      } else {
        assert FailsAt(f, es, i, n, d);
      }
    }
  }

  /**
   * The replay is the first-event specification, both ways, on every candle sequence. It follows
   * that FAILED needs an earlier confirming close, INVALIDATED needs a committed bias and no
   * earlier close outside, and candles before availability count for nothing.
   */
  lemma LifecycleIsFirstEvent(f: Frame, rows: seq<Candle>, state: State, bias: Direction)
    requires ValidFrame(f)
    ensures FirstEvent(f, Eligible(f, rows), state, bias)
            <==> Replay(f, rows).state == state && Replay(f, rows).bias == bias
  {
    hide FirstEvent, Replay;
    var es := Eligible(f, rows);
    EligibleAvailable(f, rows);
    assert forall k :: 0 <= k < |es| ==> es[k] in es;
    OnlyEligibleMatter(f, rows);
    ReplayIsFirstEvent(f, es);
    if FirstEvent(f, es, state, bias) {
      FirstEventDetermines(f, es, state, bias);
    }
  }

  /** A run that contains a lapsing candle cannot still be open. */
  lemma {:induction false} LapseIsTerminal(f: Frame, es: seq<Candle>, k: nat)
    requires ValidFrame(f) && AllAvailable(f, es) && k < |es| && Lapses(f, es, k)
    ensures Terminal(Replay(f, es).state)
  {
    hide Shut, Breakout, Ceiling, Floor;
    ReplayIsFirstEvent(f, es);
    assert !Live(f, es, |es|);
  }

  /** A run of any pattern, reversal or consolidation, with more than `expiry` eligible candles has ended. */
  lemma ExpiryEnds(f: Frame, rows: seq<Candle>)
    requires ValidFrame(f) && |Eligible(f, rows)| > 0 && |Eligible(f, rows)| > f.expiry
    ensures Terminal(Replay(f, rows).state)
  {
    hide Replay, Breakout;
    var es := Eligible(f, rows);
    OnlyEligibleMatter(f, rows);
    EligibleAvailable(f, rows);
    assert forall k :: 0 <= k < |es| ==> es[k] in es;
    LapseIsTerminal(f, es, |es| - 1);
  }

  /**
   * So has a run with an eligible candle at or past the apex of its converging boundaries, which
   * every such pattern but a rectangle has, its slopes being different (ApexClosesBoundaries).
   */
  lemma ApexEnds(points: seq<Swing>, tolerance: real, f: Frame, rows: seq<Candle>)
    requires ValidFrame(f) && DistinctTimes(points)
    requires ConvergingBoundaries(points, f.duration, tolerance) == Some(f.g)
    requires f.g.kind != Rectangle && f.g.lower.slope != f.g.upper.slope
    requires exists c :: c in rows && c.time >= f.available && OffsetOf(f, c) >= Apex(f.g)
    ensures Terminal(Replay(f, rows).state)
  {
    hide Replay, ConvergingBoundaries, Breakout, Ceiling, Floor;
    var es := Eligible(f, rows);
    OnlyEligibleMatter(f, rows);
    EligibleAvailable(f, rows);
    assert forall k :: 0 <= k < |es| ==> es[k] in es;
    var c :| c in rows && c.time >= f.available && OffsetOf(f, c) >= Apex(f.g);
    var k :| 0 <= k < |es| && es[k] == c;
    ApexClosesBoundaries(points, f.duration, tolerance, OffsetOf(f, c));
    CodeReadsPrices(f, c);
    LapseIsTerminal(f, es, k);
  }

  // --------------------------------------------------------------- mirrors

  function ReflectFrame(axis: real, f: Frame): Frame {
    f.(g := ReflectBoundaries(axis, f.g))
  }

  function MirrorStatus(s: Status): Status {
    s.(bias := Flip(s.bias))
  }

  lemma LineAtMirror(axis: real, line: Line, x: real)
    ensures LineAt(ReflectLine(axis, line), x) == Reflect(axis, LineAt(line, x))
  {
    NegateProduct(line.slope, x);
  }

  lemma StepMirror(axis: real, f: Frame, s: Status, c: Candle)
    requires ValidFrame(f)
    ensures ValidFrame(ReflectFrame(axis, f))
    ensures Step(ReflectFrame(axis, f), MirrorStatus(s), ReflectCandle(axis, c)) == MirrorStatus(Step(f, s, c))
  {
    var x := OffsetOf(f, c);
    assert OffsetOf(ReflectFrame(axis, f), ReflectCandle(axis, c)) == x;
    LineAtMirror(axis, f.g.upper, x);
    LineAtMirror(axis, f.g.lower, x);
    hide LineAt, Bars, MirrorKind, ReflectSwings;
    assert Shut(ReflectFrame(axis, f), ReflectCandle(axis, c)) == Shut(f, c);
    if !Shut(f, c) {
      assert Breakout(ReflectFrame(axis, f), ReflectCandle(axis, c)) == Flip(Breakout(f, c));
    }
    hide Shut, Breakout;
  }

  /** Upside down, the same replay: same state, same count, bias flipped. */
  lemma {:induction false} ReplayMirror(axis: real, f: Frame, rows: seq<Candle>)
    requires ValidFrame(f)
    ensures ValidFrame(ReflectFrame(axis, f))
    ensures Replay(ReflectFrame(axis, f), ReflectCandles(axis, rows)) == MirrorStatus(Replay(f, rows))
  {
    assert ValidFrame(ReflectFrame(axis, f));
    if |rows| > 0 {
      var n := |rows| - 1;
      ReplayMirror(axis, f, rows[..n]);
      assert ReflectCandles(axis, rows)[..n] == ReflectCandles(axis, rows[..n]);
      StepMirror(axis, f, Replay(f, rows[..n]), rows[n]);
      hide Step, ReflectFrame;
    }
  }
}
