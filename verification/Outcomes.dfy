/** Post-hoc evaluation of an opportunity over a fixed horizon of later candles. */
module Outcomes {
  import opened Market

  datatype Bias = Bullish | Bearish
  datatype Status = PendingHorizon | Evaluated | NotEvaluable
  datatype Class = Favorable | Adverse | Mixed | InvalidatedFirst | TargetFirst | Unresolved
  datatype Reason = SequenceInvalid | DataGap | HorizonIncomplete | IntrabarOrderUnresolved

  /** The part of the evaluation that only exists once the horizon is complete. */
  datatype Findings = Findings(
    completedAt: int, favorable: real, adverse: real, barsToFavorable: nat, barsToAdverse: nat,
    invalidationHit: Option<bool>, targetHit: Option<bool>,
    targetFirst: Option<bool>, invalidationFirst: Option<bool>, potentialR: Option<real>, verdict: Class)

  datatype Evaluation =
    | Resolved(findings: Findings)
    | Open(status: Status, reason: Reason)

  function StatusOf(e: Evaluation): Status {
    match e
    case Resolved(_) => Evaluated
    case Open(status, _) => status
  }

  /** Inputs other than the candles; construction guarantees a positive horizon, duration and price. */
  datatype Query = Query(
    bias: Bias, reference: real, observedAt: int, horizon: int, duration: int,
    invalidation: Option<real>, target: Option<real>)

  predicate Accepted(q: Query) {
    q.horizon >= 1 && q.reference > 0.0 && q.duration > 0
  }

  // ------------------------------------------------------------- selection

  /** Candles that became available after the observation. */
  function Eligible(cs: seq<Candle>, observedAt: int): seq<Candle> {
    if |cs| == 0 then []
    else
      var n := |cs| - 1;
      Eligible(cs[..n], observedAt) + (if cs[n].time >= observedAt then [cs[n]] else [])
  }

  function Selected(cs: seq<Candle>, q: Query): seq<Candle>
    requires q.horizon >= 0
  {
    var es := Eligible(cs, q.observedAt);
    if |es| <= q.horizon then es else es[..q.horizon]
  }

  predicate OutOfOrder(s: seq<Candle>) {
    exists i :: 0 < i < |s| && s[i].time <= s[i - 1].time
  }

  predicate Gapped(s: seq<Candle>, q: Query) {
    |s| > 0 && (s[0].time - q.observedAt >= q.duration || exists i :: 0 < i < |s| && s[i].time - s[i - 1].time != q.duration)
  }

  // ------------------------------------------------------------ excursions

  function Gain(q: Query, c: Candle): real {
    if q.bias == Bullish then c.high - q.reference else q.reference - c.low
  }

  function Pain(q: Query, c: Candle): real {
    if q.bias == Bullish then q.reference - c.low else c.high - q.reference
  }

  function Gains(q: Query, s: seq<Candle>): (r: seq<real>)
    ensures |r| == |s| && forall i :: 0 <= i < |s| ==> r[i] == Gain(q, s[i])
  {
    seq(|s|, i requires 0 <= i < |s| => Gain(q, s[i]))
  }

  function Pains(q: Query, s: seq<Candle>): (r: seq<real>)
    ensures |r| == |s| && forall i :: 0 <= i < |s| ==> r[i] == Pain(q, s[i])
  {
    seq(|s|, i requires 0 <= i < |s| => Pain(q, s[i]))
  }

  /** Index of the first occurrence of the maximum. */
  function FirstBest(s: seq<real>): (k: nat)
    requires |s| > 0
    ensures k < |s|
  {
    if |s| == 1 then 0 else if s[|s|-1] > MaxOf(s[..|s|-1]) then |s| - 1 else FirstBest(s[..|s|-1])
  }

  lemma {:induction false} BestMeaning(s: seq<real>)
    requires |s| > 0
    ensures forall i :: 0 <= i < |s| ==> s[i] <= MaxOf(s)
    ensures s[FirstBest(s)] == MaxOf(s)
    ensures forall i :: 0 <= i < FirstBest(s) ==> s[i] < MaxOf(s)
  {
    if |s| > 1 {
      BestMeaning(s[..|s|-1]);
    }
  }

  // ---------------------------------------------------------------- levels

  predicate TouchesTarget(q: Query, c: Candle, level: real) {
    if q.bias == Bullish then c.high >= level else c.low <= level
  }

  predicate TouchesInvalidation(q: Query, c: Candle, level: real) {
    if q.bias == Bullish then c.low <= level else c.high >= level
  }

  predicate Touches(q: Query, favorable: bool, c: Candle, level: real) {
    if favorable then TouchesTarget(q, c, level) else TouchesInvalidation(q, c, level)
  }

  function FirstTouch(q: Query, favorable: bool, s: seq<Candle>, level: real): Option<nat> {
    if |s| == 0 then None
    else
      var earlier := FirstTouch(q, favorable, s[..|s|-1], level);
      if earlier.Some? then earlier
      else if Touches(q, favorable, s[|s|-1], level) then Some(|s| - 1)
      else None
  }

  lemma {:induction false} FirstTouchMeaning(q: Query, favorable: bool, s: seq<Candle>, level: real)
    ensures var r := FirstTouch(q, favorable, s, level);
            match r
            case None => forall i :: 0 <= i < |s| ==> !Touches(q, favorable, s[i], level)
            case Some(k) => && k < |s| && Touches(q, favorable, s[k], level)
                            && forall i :: 0 <= i < k ==> !Touches(q, favorable, s[i], level)
  {
    hide Touches;
    if |s| > 0 {
      FirstTouchMeaning(q, favorable, s[..|s|-1], level);
    }
  }

  function LevelTouch(q: Query, favorable: bool, s: seq<Candle>, level: Option<real>): Option<nat> {
    match level
    case None => None
    case Some(price) => FirstTouch(q, favorable, s, price)
  }

  /** The early-return index loop. */
  method FirstLevelHit(q: Query, favorable: bool, s: seq<Candle>, level: Option<real>) returns (r: Option<nat>)
    ensures r == LevelTouch(q, favorable, s, level)
  {
    if level.None? {
      return None;
    }
    for i := 0 to |s|
      invariant forall k :: 0 <= k < i ==> !Touches(q, favorable, s[k], level.value)
    {
      var candle := s[i];
      var hit;
      if favorable {
        hit := if q.bias == Bullish then candle.high >= level.value else candle.low <= level.value;
      } else {
        hit := if q.bias == Bullish then candle.low <= level.value else candle.high >= level.value;
      }
      if hit {
        FirstTouchMeaning(q, favorable, s, level.value);
        return Some(i);
      }
    }
    FirstTouchMeaning(q, favorable, s, level.value);
    return None;
  }

  // ------------------------------------------------------------ evaluation

  /** A hit is reported only for a level that is set and nonzero: zero counts as unset here. */
  function HitReport(level: Option<real>, touch: Option<nat>): Option<bool> {
    if level.Some? && level.value != 0.0 then Some(touch.Some?) else None
  }

  predicate Precedes(a: Option<nat>, b: Option<nat>) {
    a.Some? && (b.None? || a.value < b.value)
  }

  function Ordering(q: Query, a: Option<nat>, b: Option<nat>): Option<bool> {
    if q.target.Some? && q.invalidation.Some? then Some(Precedes(a, b)) else None
  }

  function ClassOf(targetFirst: Option<bool>, invalidationFirst: Option<bool>, mfe: real, mae: real): Class {
    if targetFirst == Some(true) then TargetFirst
    else if invalidationFirst == Some(true) then InvalidatedFirst
    else if mfe > mae then Favorable
    else if mae > mfe then Adverse
    else Mixed
  }

  function PotentialR(q: Query, mfe: real): Option<real> {
    if q.invalidation.Some? && Abs(q.reference - q.invalidation.value) > 0.0
    then Some(mfe / Abs(q.reference - q.invalidation.value)) else None
  }

  function Conclude(q: Query, s: seq<Candle>): Evaluation
    requires |s| > 0
  {
    var target, invalidation := LevelTouch(q, true, s, q.target), LevelTouch(q, false, s, q.invalidation);
    if target.Some? && target == invalidation then Open(NotEvaluable, IntrabarOrderUnresolved)
    else
      var gains, pains := Gains(q, s), Pains(q, s);
      var mfe, mae := Max(0.0, MaxOf(gains)), Max(0.0, MaxOf(pains));
      var targetFirst, invalidationFirst := Ordering(q, target, invalidation), Ordering(q, invalidation, target);
      Resolved(Findings(s[|s| - 1].time + q.duration, mfe, mae, FirstBest(gains) + 1, FirstBest(pains) + 1,
        HitReport(q.invalidation, invalidation), HitReport(q.target, target), targetFirst, invalidationFirst,
        PotentialR(q, mfe), ClassOf(targetFirst, invalidationFirst, mfe, mae)))
  }

  function EvaluateSelected(q: Query, s: seq<Candle>): Evaluation
    requires Accepted(q)
  {
    if OutOfOrder(s) then Open(NotEvaluable, SequenceInvalid)
    else if Gapped(s, q) then Open(NotEvaluable, DataGap)
    else if |s| < q.horizon then Open(PendingHorizon, HorizonIncomplete)
    else Conclude(q, s)
  }

  /** `None` is the raised error for inputs the evaluation does not accept. */
  function Evaluate(q: Query, cs: seq<Candle>): Option<Evaluation> {
    if !Accepted(q) then None else Some(EvaluateSelected(q, Selected(cs, q)))
  }

  /** The inputs refused: an empty horizon, a price that is not positive, a bar without length. */
  lemma RefusedExactly(q: Query, cs: seq<Candle>)
    ensures Evaluate(q, cs).None? <==> q.horizon < 1 || q.reference <= 0.0 || q.duration <= 0
  {
    hide Selected, EvaluateSelected;
  }

  // -------------------------------------------------- stability and coverage

  lemma {:induction false} EligibleAppend(a: seq<Candle>, b: seq<Candle>, observedAt: int)
    ensures Eligible(a + b, observedAt) == Eligible(a, observedAt) + Eligible(b, observedAt)
  {
    if |b| == 0 {
      assert a + b == a;
    } else {
      var n := |b| - 1;
      assert (a + b)[..|a + b| - 1] == a + b[..n];
      EligibleAppend(a, b[..n], observedAt);
    }
  }

  lemma {:induction false} EligibleFromObservation(cs: seq<Candle>, observedAt: int)
    ensures forall c :: c in Eligible(cs, observedAt) ==> c.time >= observedAt
  {
    if |cs| > 0 {
      EligibleFromObservation(cs[..|cs|-1], observedAt);
    }
  }

  lemma SelectedGrows(cs: seq<Candle>, later: seq<Candle>, q: Query)
    requires q.horizon >= 0
    ensures Selected(cs, q) <= Selected(cs + later, q)
    ensures |Selected(cs, q)| == q.horizon ==> Selected(cs + later, q) == Selected(cs, q)
  {
    EligibleAppend(cs, later, q.observedAt);
  }

  /**
   * Appending candles, of any times and in any order, never changes an evaluated outcome and
   * never makes a not-evaluable one evaluable again.
   */
  lemma LaterCandlesChangeNothing(q: Query, cs: seq<Candle>, later: seq<Candle>)
    requires Accepted(q)
    ensures var e, e' := Evaluate(q, cs).value, Evaluate(q, cs + later).value;
            && (StatusOf(e) == Evaluated ==> e' == e)
            && (StatusOf(e) == NotEvaluable ==> StatusOf(e') == NotEvaluable)
  {
    hide Conclude, Eligible;
    SelectedGrows(cs, later, q);
    var s, s' := Selected(cs, q), Selected(cs + later, q);
    ConcludeStatus(q, s);
    if |s| < q.horizon && StatusOf(EvaluateSelected(q, s)) == NotEvaluable {
      FlawsPersist(q, s, s');
    }
  }

  lemma ConcludeStatus(q: Query, s: seq<Candle>)
    ensures |s| > 0 ==> (Conclude(q, s).Open? <==> StatusOf(Conclude(q, s)) == NotEvaluable)
    ensures |s| > 0 ==> StatusOf(Conclude(q, s)) != PendingHorizon
  {
    hide Gains, Pains, MaxOf, FirstBest;
  }

  lemma FlawsPersist(q: Query, s: seq<Candle>, s': seq<Candle>)
    requires s <= s' && (OutOfOrder(s) || Gapped(s, q))
    ensures OutOfOrder(s') || Gapped(s', q)
  {
    if OutOfOrder(s) {
      var i :| 0 < i < |s| && s[i].time <= s[i - 1].time;
      assert s'[i].time <= s'[i - 1].time;
    } else if s[0].time - q.observedAt < q.duration {
      var i :| 0 < i < |s| && s[i].time - s[i - 1].time != q.duration;
      assert s'[i].time - s'[i - 1].time != q.duration;
    }
  }

  lemma {:induction false} GapFree(s: seq<Candle>, q: Query, i: nat)
    requires i < |s| && !Gapped(s, q)
    ensures s[i].time == s[0].time + i * q.duration
  {
    if i > 0 {
      GapFree(s, q, i - 1);
      assert i * q.duration == (i - 1) * q.duration + q.duration;
    }
  }

  /**
   * An evaluated outcome covered its horizon without a gap, so it completed within one bar of
   * horizon * duration after the observation.
   */
  lemma EvaluatedCoversHorizon(q: Query, cs: seq<Candle>)
    requires Accepted(q) && StatusOf(Evaluate(q, cs).value) == Evaluated
    ensures var s := Selected(cs, q);
            && |s| == q.horizon
            && (forall i :: 0 <= i < |s| ==> s[i].time == s[0].time + i * q.duration)
            && var elapsed := Evaluate(q, cs).value.findings.completedAt - q.observedAt;
               q.horizon * q.duration <= elapsed < (q.horizon + 1) * q.duration
  {
    hide Conclude, Eligible;
    var s := Selected(cs, q);
    assert !Gapped(s, q) && |s| == q.horizon;
    ConcludeCompletes(q, s);
    forall i | 0 <= i < |s| ensures s[i].time == s[0].time + i * q.duration {
      GapFree(s, q, i);
    }
    GapFree(s, q, |s| - 1);
    EligibleFromObservation(cs, q.observedAt);
    assert s[0] in Eligible(cs, q.observedAt);
    OneMoreBar(|s| - 1, q.duration);
    OneMoreBar(|s|, q.duration);
  }

  lemma ConcludeCompletes(q: Query, s: seq<Candle>)
    requires |s| > 0 && StatusOf(Conclude(q, s)) == Evaluated
    ensures Conclude(q, s).Resolved? && Conclude(q, s).findings.completedAt == s[|s| - 1].time + q.duration
  {
    hide Gains, Pains, MaxOf, FirstBest;
  }

  lemma OneMoreBar(n: int, duration: int)
    ensures n * duration + duration == (n + 1) * duration
  {
  }

  /** The first candle to touch either level touches both, so their order inside it is unknown. */
  ghost predicate TouchedTogether(q: Query, s: seq<Candle>) {
    && q.target.Some? && q.invalidation.Some?
    && exists k :: 0 <= k < |s| && FirstToTouchBoth(q, s, k)
  }

  ghost predicate FirstToTouchBoth(q: Query, s: seq<Candle>, k: nat)
    requires k < |s| && q.target.Some? && q.invalidation.Some?
  {
    && TouchesTarget(q, s[k], q.target.value) && TouchesInvalidation(q, s[k], q.invalidation.value)
    && forall i :: 0 <= i < k ==>
         !TouchesTarget(q, s[i], q.target.value) && !TouchesInvalidation(q, s[i], q.invalidation.value)
  }

  /** Whether an outcome can be evaluated, read off the selected candles before evaluating. */
  ghost predicate Evaluable(q: Query, s: seq<Candle>) {
    !OutOfOrder(s) && !Gapped(s, q) && |s| >= q.horizon && !TouchedTogether(q, s)
  }

  lemma TouchedTogetherMeans(q: Query, s: seq<Candle>)
    ensures var target, invalidation := LevelTouch(q, true, s, q.target), LevelTouch(q, false, s, q.invalidation);
            TouchedTogether(q, s) <==> target.Some? && target == invalidation
  {
    if q.target.Some? && q.invalidation.Some? {
      FirstTouchMeaning(q, true, s, q.target.value);
      FirstTouchMeaning(q, false, s, q.invalidation.value);
      hide FirstTouch;
      var t, v := FirstTouch(q, true, s, q.target.value), FirstTouch(q, false, s, q.invalidation.value);
      assert forall c :: Touches(q, true, c, q.target.value) == TouchesTarget(q, c, q.target.value);
      assert forall c :: Touches(q, false, c, q.invalidation.value) == TouchesInvalidation(q, c, q.invalidation.value);
      hide Touches, TouchesTarget, TouchesInvalidation;
      if t.Some? && t == v {
        assert FirstToTouchBoth(q, s, t.value);
      }
      if TouchedTogether(q, s) {
        var k :| 0 <= k < |s| && FirstToTouchBoth(q, s, k);
        assert t == Some(k) && v == Some(k);
      }
    }
  }

  /**
   * An outcome is evaluated exactly when its candles are ordered, gap-free and complete and no
   * candle is the first to touch both levels.
   */
  lemma EvaluatedExactlyWhen(q: Query, cs: seq<Candle>)
    requires Accepted(q)
    ensures StatusOf(Evaluate(q, cs).value) == Evaluated <==> Evaluable(q, Selected(cs, q))
  {
    hide Selected, TouchedTogether, LevelTouch, Gains, Pains, MaxOf, FirstBest;
    TouchedTogetherMeans(q, Selected(cs, q));
  }

  /** A pair of neighbours out of order, a late first candle or a step other than one bar, in raw times. */
  lemma FlawsExactly(q: Query, s: seq<Candle>)
    ensures OutOfOrder(s) <==> exists i, j :: 0 <= i < j < |s| && j == i + 1 && s[j].time <= s[i].time
    ensures !OutOfOrder(s) ==> forall i, j :: 0 <= i < j < |s| ==> s[i].time < s[j].time
    ensures !Gapped(s, q) <==>
            (|s| > 0 ==>
              && s[0].time < q.observedAt + q.duration
              && forall i, j :: 0 <= i < j < |s| && j == i + 1 ==> s[j].time == s[i].time + q.duration)
  {
    if !OutOfOrder(s) {
      forall i, j | 0 <= i < j < |s| ensures s[i].time < s[j].time {
        Ascending(s, i, j);
      }
    }
  }

  lemma {:induction false} Ascending(s: seq<Candle>, i: nat, j: nat)
    requires i < j < |s| && !OutOfOrder(s)
    ensures s[i].time < s[j].time
    decreases j
  {
    assert s[j - 1].time < s[j].time;
    if i < j - 1 {
      Ascending(s, i, j - 1);
    }
  }

  /** Why an outcome is not evaluated, flaws in their order of precedence. */
  lemma ReasonExactly(q: Query, cs: seq<Candle>)
    requires Accepted(q)
    ensures var s, e := Selected(cs, q), Evaluate(q, cs).value;
            && (e == Open(NotEvaluable, SequenceInvalid) <==> OutOfOrder(s))
            && (e == Open(NotEvaluable, DataGap) <==> !OutOfOrder(s) && Gapped(s, q))
            && (e == Open(PendingHorizon, HorizonIncomplete) <==> !OutOfOrder(s) && !Gapped(s, q) && |s| < q.horizon)
            && (e == Open(NotEvaluable, IntrabarOrderUnresolved) <==>
                  !OutOfOrder(s) && !Gapped(s, q) && |s| >= q.horizon && TouchedTogether(q, s))
  {
    hide Selected, TouchedTogether, LevelTouch, Gains, Pains, MaxOf, FirstBest;
    TouchedTogetherMeans(q, Selected(cs, q));
  }

  /** The candles evaluated: the first of those that opened at or after the observation, up to the horizon. */
  lemma {:induction false} SelectionExactly(cs: seq<Candle>, q: Query)
    requires Accepted(q)
    ensures forall c :: c in Eligible(cs, q.observedAt) <==> c in cs && c.time >= q.observedAt
    ensures var all, s := Eligible(cs, q.observedAt), Selected(cs, q);
            s <= all && |s| == if |all| <= q.horizon then |all| else q.horizon
  {
    if |cs| > 0 {
      var n := |cs| - 1;
      assert cs == cs[..n] + [cs[n]];
      SelectionExactly(cs[..n], q);
    }
  }

  // --------------------------------------------------------------- ordering

  lemma TargetFirstIsPrecedence(q: Query, s: seq<Candle>)
    requires |s| > 0 && q.target.Some? && q.invalidation.Some? && Conclude(q, s).Resolved?
    ensures var t, v := FirstTouch(q, true, s, q.target.value), FirstTouch(q, false, s, q.invalidation.value);
            Conclude(q, s).findings.verdict == TargetFirst <==> Precedes(t, v)
    ensures Conclude(q, s).findings.favorable >= MaxOf(Gains(q, s))
  {
    hide FirstTouch, MaxOf, FirstBest, PotentialR, Gains, Pains, Precedes;
  }

  /**
   * With both levels set, an evaluated outcome is TARGET_FIRST exactly when some candle touches
   * the target and no candle up to and including it touches the invalidation level; and then the
   * favourable excursion reaches at least as far as the target.
   */
  lemma TargetFirstExactlyWhen(q: Query, s: seq<Candle>)
    requires |s| > 0 && q.target.Some? && q.invalidation.Some? && Conclude(q, s).Resolved?
    ensures Conclude(q, s).findings.verdict == TargetFirst <==>
            exists k :: 0 <= k < |s| && TouchesTarget(q, s[k], q.target.value)
              && forall i :: 0 <= i <= k ==> !TouchesInvalidation(q, s[i], q.invalidation.value)
    ensures Conclude(q, s).findings.verdict == TargetFirst ==>
            Conclude(q, s).findings.favorable >=
              (if q.bias == Bullish then q.target.value - q.reference else q.reference - q.target.value)
  {
    var target, invalidation := q.target.value, q.invalidation.value;
    FirstTouchMeaning(q, true, s, target);
    FirstTouchMeaning(q, false, s, invalidation);
    BestMeaning(Gains(q, s));
    TargetFirstIsPrecedence(q, s);
    hide FirstTouch, MaxOf, FirstBest, PotentialR, Conclude, Ordering;
    var t, v := FirstTouch(q, true, s, target), FirstTouch(q, false, s, invalidation);
    assert LevelTouch(q, true, s, q.target) == t && LevelTouch(q, false, s, q.invalidation) == v;
    if Precedes(t, v) {
      var k := t.value;
      assert Touches(q, true, s[k], target);
      assert TouchesTarget(q, s[k], target);
      forall i | 0 <= i <= k ensures !TouchesInvalidation(q, s[i], invalidation) {
        assert !Touches(q, false, s[i], invalidation);
      }
      assert Gains(q, s)[k] <= MaxOf(Gains(q, s));
    }
    if exists k :: 0 <= k < |s| && TouchesTarget(q, s[k], target)
         && forall i :: 0 <= i <= k ==> !TouchesInvalidation(q, s[i], invalidation) {
      var k :| 0 <= k < |s| && TouchesTarget(q, s[k], target)
         && forall i :: 0 <= i <= k ==> !TouchesInvalidation(q, s[i], invalidation);
      assert Touches(q, true, s[k], target);
      assert t.Some? && t.value <= k;
      assert v.Some? ==> v.value > k;
    }
  }

  // ------------------------------------- findings in candles and levels alone

  ghost predicate ReachesTarget(q: Query, c: Candle) {
    && q.target.Some?
    && (q.bias == Bullish ==> c.high >= q.target.value) && (q.bias == Bearish ==> c.low <= q.target.value)
  }

  ghost predicate ReachesInvalidation(q: Query, c: Candle) {
    && q.invalidation.Some?
    && (q.bias == Bullish ==> c.low <= q.invalidation.value) && (q.bias == Bearish ==> c.high >= q.invalidation.value)
  }

  /** Both levels are set and some candle reaches the target with no invalidation up to and including it. */
  ghost predicate TargetComesFirst(q: Query, s: seq<Candle>) {
    && q.invalidation.Some?
    && exists k :: 0 <= k < |s| && ReachesTarget(q, s[k]) && forall i :: 0 <= i <= k ==> !ReachesInvalidation(q, s[i])
  }

  ghost predicate InvalidationComesFirst(q: Query, s: seq<Candle>) {
    && q.target.Some?
    && exists k :: 0 <= k < |s| && ReachesInvalidation(q, s[k]) && forall i :: 0 <= i <= k ==> !ReachesTarget(q, s[i])
  }

  lemma LevelTouchExactly(q: Query, s: seq<Candle>)
    ensures var t := LevelTouch(q, true, s, q.target);
            if t.None? then forall i :: 0 <= i < |s| ==> !ReachesTarget(q, s[i])
            else && t.value < |s| && ReachesTarget(q, s[t.value])
                 && forall i :: 0 <= i < t.value ==> !ReachesTarget(q, s[i])
    ensures var v := LevelTouch(q, false, s, q.invalidation);
            if v.None? then forall i :: 0 <= i < |s| ==> !ReachesInvalidation(q, s[i])
            else && v.value < |s| && ReachesInvalidation(q, s[v.value])
                 && forall i :: 0 <= i < v.value ==> !ReachesInvalidation(q, s[i])
  {
    if q.target.Some? {
      FirstTouchMeaning(q, true, s, q.target.value);
      assert forall c :: Touches(q, true, c, q.target.value) <==> ReachesTarget(q, c);
    }
    if q.invalidation.Some? {
      FirstTouchMeaning(q, false, s, q.invalidation.value);
      assert forall c :: Touches(q, false, c, q.invalidation.value) <==> ReachesInvalidation(q, c);
    }
    hide Touches, FirstTouch;
  }

  lemma OrderExactly(q: Query, s: seq<Candle>)
    ensures var t, v := LevelTouch(q, true, s, q.target), LevelTouch(q, false, s, q.invalidation);
            && (q.invalidation.Some? ==> (Precedes(t, v) <==> TargetComesFirst(q, s)))
            && (q.target.Some? ==> (Precedes(v, t) <==> InvalidationComesFirst(q, s)))
    ensures TargetComesFirst(q, s) || InvalidationComesFirst(q, s) ==> q.target.Some? && q.invalidation.Some?
  {
    LevelTouchExactly(q, s);
    hide LevelTouch;
    assert TargetComesFirst(q, s) ==> q.target.Some?;
    assert InvalidationComesFirst(q, s) ==> q.invalidation.Some?;
    hide ReachesTarget, ReachesInvalidation;
  }

  /** `x` is how far prices went a given way from the reference: zero, or the furthest candle's distance. */
  ghost predicate Furthest(x: real, q: Query, s: seq<Candle>, favorable: bool, bars: nat) {
    var up := favorable <==> q.bias == Bullish;
    && 1 <= bars <= |s| && x >= 0.0
    && (forall i :: 0 <= i < |s| ==> (if up then s[i].high - q.reference else q.reference - s[i].low) <= x)
    && (var best := if up then s[bars - 1].high - q.reference else q.reference - s[bars - 1].low;
        && x == Max(0.0, best)
        && (forall i :: 0 <= i < |s| ==> (if up then s[i].high - q.reference else q.reference - s[i].low) <= best)
        && (forall i :: 0 <= i < bars - 1 ==> (if up then s[i].high - q.reference else q.reference - s[i].low) < best))
  }

  /** Completion, excursions, levels hit and their order. */
  ghost predicate FindingsMean(f: Findings, q: Query, s: seq<Candle>)
    requires |s| > 0
  {
    && f.completedAt == s[|s| - 1].time + q.duration
    && Furthest(f.favorable, q, s, true, f.barsToFavorable)
    && Furthest(f.adverse, q, s, false, f.barsToAdverse)
    && f.targetHit == (if q.target.None? || q.target.value == 0.0 then None
                       else Some(exists i :: 0 <= i < |s| && ReachesTarget(q, s[i])))
    && f.invalidationHit == (if q.invalidation.None? || q.invalidation.value == 0.0 then None
                             else Some(exists i :: 0 <= i < |s| && ReachesInvalidation(q, s[i])))
    && f.targetFirst == (if q.target.None? || q.invalidation.None? then None else Some(TargetComesFirst(q, s)))
    && f.invalidationFirst == (if q.target.None? || q.invalidation.None? then None
                               else Some(InvalidationComesFirst(q, s)))
  }

  ghost predicate VerdictMeans(f: Findings, q: Query, s: seq<Candle>) {
    var first := TargetComesFirst(q, s) || InvalidationComesFirst(q, s);
    && (f.verdict == TargetFirst <==> TargetComesFirst(q, s))
    && (f.verdict == InvalidatedFirst <==> InvalidationComesFirst(q, s))
    && (f.verdict == Favorable <==> !first && f.favorable > f.adverse)
    && (f.verdict == Adverse <==> !first && f.favorable < f.adverse)
    && (f.verdict == Mixed <==> !first && f.favorable == f.adverse)
  }

  /** The favourable excursion in units of the distance to the invalidation level. */
  ghost predicate RewardMeans(f: Findings, q: Query) {
    && (f.potentialR.None? <==> q.invalidation.None? || q.invalidation.value == q.reference)
    && (f.potentialR.Some? ==> Mul(f.potentialR.value, Abs(q.reference - q.invalidation.value)) == f.favorable)
  }

  /** Everything an evaluated outcome reports, in the candles' prices and the query's levels. */
  lemma FindingsExactly(q: Query, s: seq<Candle>)
    requires |s| > 0 && Conclude(q, s).Resolved?
    ensures FindingsMean(Conclude(q, s).findings, q, s)
    ensures VerdictMeans(Conclude(q, s).findings, q, s)
    ensures RewardMeans(Conclude(q, s).findings, q)
  {
    hide Gains, Pains, MaxOf, FirstBest, LevelTouch, ReachesTarget, ReachesInvalidation, Furthest,
         TargetComesFirst, InvalidationComesFirst, PotentialR;
    var f := Conclude(q, s).findings;
    ExcursionExactly(q, s);
    HitExactly(q, s);
    OrderExactly(q, s);
    RewardExactly(q, f.favorable);
  }

  lemma HitExactly(q: Query, s: seq<Candle>)
    ensures LevelTouch(q, true, s, q.target).Some? <==> exists i :: 0 <= i < |s| && ReachesTarget(q, s[i])
    ensures LevelTouch(q, false, s, q.invalidation).Some? <==> exists i :: 0 <= i < |s| && ReachesInvalidation(q, s[i])
  {
    LevelTouchExactly(q, s);
    hide LevelTouch, ReachesTarget, ReachesInvalidation;
  }

  lemma RewardExactly(q: Query, mfe: real)
    ensures var r := PotentialR(q, mfe);
            && (r.None? <==> q.invalidation.None? || q.invalidation.value == q.reference)
            && (r.Some? ==> Mul(r.value, Abs(q.reference - q.invalidation.value)) == mfe)
  {
  }

  lemma ExcursionExactly(q: Query, s: seq<Candle>)
    requires |s| > 0
    ensures Furthest(Max(0.0, MaxOf(Gains(q, s))), q, s, true, FirstBest(Gains(q, s)) + 1)
    ensures Furthest(Max(0.0, MaxOf(Pains(q, s))), q, s, false, FirstBest(Pains(q, s)) + 1)
  {
    BestMeaning(Gains(q, s));
    BestMeaning(Pains(q, s));
    hide MaxOf, FirstBest;
    assert forall i :: 0 <= i < |s| ==> Gains(q, s)[i] == Gain(q, s[i]) && Pains(q, s)[i] == Pain(q, s[i]);
  }

  // --------------------------------------------------------------- symmetry

  function ReflectLevel(axis: real, level: Option<real>): Option<real> {
    match level
    case None => None
    case Some(price) => Some(Reflect(axis, price))
  }

  /** The opposite trade on the market reflected about the reference price. */
  function ReflectQuery(q: Query): Query {
    q.(bias := if q.bias == Bullish then Bearish else Bullish,
       invalidation := ReflectLevel(q.reference, q.invalidation),
       target := ReflectLevel(q.reference, q.target))
  }

  lemma {:induction false} FirstTouchReflect(q: Query, favorable: bool, s: seq<Candle>, level: real)
    ensures FirstTouch(ReflectQuery(q), favorable, ReflectCandles(q.reference, s), Reflect(q.reference, level))
         == FirstTouch(q, favorable, s, level)
  {
    if |s| > 0 {
      var n := |s| - 1;
      FirstTouchReflect(q, favorable, s[..n], level);
      assert ReflectCandles(q.reference, s)[..n] == ReflectCandles(q.reference, s[..n]);
    }
  }

  lemma {:induction false} EligibleReflect(axis: real, cs: seq<Candle>, observedAt: int)
    ensures Eligible(ReflectCandles(axis, cs), observedAt) == ReflectCandles(axis, Eligible(cs, observedAt))
  {
    hide Reflect;
    if |cs| > 0 {
      var n := |cs| - 1;
      EligibleReflect(axis, cs[..n], observedAt);
      assert ReflectCandles(axis, cs)[..n] == ReflectCandles(axis, cs[..n]);
    }
  }

  lemma SelectedReflect(q: Query, cs: seq<Candle>)
    requires Accepted(q)
    ensures Selected(ReflectCandles(q.reference, cs), ReflectQuery(q)) == ReflectCandles(q.reference, Selected(cs, q))
  {
    hide Reflect, Eligible;
    EligibleReflect(q.reference, cs, q.observedAt);
  }

  /** A level whose reported hit survives reflection: set and its mirror agree on being zero. */
  predicate ReflectsCleanly(axis: real, level: Option<real>) {
    level.Some? ==> (level.value == 0.0 <==> Reflect(axis, level.value) == 0.0)
  }

  lemma ExcursionsReflect(q: Query, s: seq<Candle>)
    ensures Gains(ReflectQuery(q), ReflectCandles(q.reference, s)) == Gains(q, s)
    ensures Pains(ReflectQuery(q), ReflectCandles(q.reference, s)) == Pains(q, s)
  {
  }

  lemma LevelTouchReflect(q: Query, favorable: bool, s: seq<Candle>, level: Option<real>)
    ensures LevelTouch(ReflectQuery(q), favorable, ReflectCandles(q.reference, s), ReflectLevel(q.reference, level))
         == LevelTouch(q, favorable, s, level)
  {
    if level.Some? {
      FirstTouchReflect(q, favorable, s, level.value);
    }
  }

  lemma PotentialRReflect(q: Query, mfe: real)
    ensures PotentialR(ReflectQuery(q), mfe) == PotentialR(q, mfe)
  {
    if q.invalidation.Some? {
      assert Abs(q.reference - Reflect(q.reference, q.invalidation.value)) == Abs(q.reference - q.invalidation.value);
    }
  }

  lemma ConcludeReflect(q: Query, s: seq<Candle>)
    requires |s| > 0
    ensures var e, e' := Conclude(q, s), Conclude(ReflectQuery(q), ReflectCandles(q.reference, s));
            e' == e <==> e.Open? || (ReflectsCleanly(q.reference, q.invalidation) && ReflectsCleanly(q.reference, q.target))
  {
    ExcursionsReflect(q, s);
    LevelTouchReflect(q, true, s, q.target);
    LevelTouchReflect(q, false, s, q.invalidation);
    PotentialRReflect(q, Max(0.0, MaxOf(Gains(q, s))));
    hide Gains, Pains, MaxOf, FirstBest, LevelTouch, PotentialR, ClassOf, Precedes;
  }

  /**
   * Bullish and bearish evaluation are mirror images about the reference price, exactly: the two
   * evaluations are equal unless the outcome can be evaluated and a level or its image is zero,
   * which the code treats as unset when it reports hits.
   */
  lemma ReflectionExactlyWhen(q: Query, cs: seq<Candle>)
    requires Accepted(q)
    ensures var e, e' := Evaluate(q, cs), Evaluate(ReflectQuery(q), ReflectCandles(q.reference, cs));
            e' == e <==>
              !Evaluable(q, Selected(cs, q))
              || (ReflectsCleanly(q.reference, q.invalidation) && ReflectsCleanly(q.reference, q.target))
  {
    EvaluatedExactlyWhen(q, cs);
    hide Conclude, Selected, ReflectsCleanly, Evaluable;
    SelectedReflect(q, cs);
    var s := Selected(cs, q);
    var s' := ReflectCandles(q.reference, s);
    assert forall i :: 0 <= i < |s| ==> s'[i].time == s[i].time;
    assert OutOfOrder(s') == OutOfOrder(s) && Gapped(s', ReflectQuery(q)) == Gapped(s, q);
    if |s| > 0 {
      ConcludeReflect(q, s);
      ConcludeStatus(q, s);
    }
  }

  /** The condition bites: a target at twice the reference reflects onto zero and its hit goes unreported. */
  lemma ZeroLevelBreaksSymmetry()
    ensures var q := Query(Bullish, 1.0, 0, 1, 60, None, Some(2.0));
            var cs := [Candle(0, 1.0, 2.0, 1.0, 2.0)];
            Evaluate(ReflectQuery(q), ReflectCandles(1.0, cs)) != Evaluate(q, cs)
  {
    var q := Query(Bullish, 1.0, 0, 1, 60, None, Some(2.0));
    var cs := [Candle(0, 1.0, 2.0, 1.0, 2.0)];
    hide Evaluate, Evaluable, Selected, ReflectQuery, ReflectCandles;
    assert !ReflectsCleanly(q.reference, q.target);
    OneCandleEvaluable(q, cs);
    ReflectionExactlyWhen(q, cs);
  }

  lemma OneCandleEvaluable(q: Query, cs: seq<Candle>)
    requires q.horizon == 1 && q.duration > 0 && q.invalidation.None? && |cs| == 1 && cs[0].time == q.observedAt
    ensures Evaluable(q, Selected(cs, q))
  {
    assert Eligible(cs[..0], q.observedAt) == [];
    assert Eligible(cs, q.observedAt) == cs;
  }
}
