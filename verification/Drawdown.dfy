/** Single-pass drawdown depth and duration over an equity curve. */
module Drawdown {
  import opened Market

  datatype EquityPoint = EquityPoint(time: int, equity: real)

  /** Highest equity among the first n points. */
  ghost function Peak(points: seq<EquityPoint>, n: nat): real
    requires 0 < n <= |points|
  {
    if n == 1 then points[0].equity else Max(Peak(points, n - 1), points[n - 1].equity)
  }

  /** The latest of the first n points at which the running peak was attained. */
  ghost function PeakIndex(points: seq<EquityPoint>, n: nat): (p: nat)
    requires 0 < n <= |points|
    ensures p < n
  {
    if n == 1 || points[n - 1].equity >= Peak(points, n - 1) then n - 1 else PeakIndex(points, n - 1)
  }

  /** Peak and PeakIndex mean what their names say. */
  lemma {:induction false} PeakMeaning(points: seq<EquityPoint>, n: nat)
    requires 0 < n <= |points|
    ensures var p := PeakIndex(points, n);
            && p < n && points[p].equity == Peak(points, n)
            && (forall i :: 0 <= i < n ==> points[i].equity <= Peak(points, n))
            && (forall i :: p < i < n ==> points[i].equity < Peak(points, n))
  {
    if n > 1 {
      PeakMeaning(points, n - 1);
    }
  }

  ghost function Fall(points: seq<EquityPoint>, i: nat, j: nat): real
    requires i <= j < |points|
  {
    points[i].equity - points[j].equity
  }

  /** The deepest fall from an earlier point to a later one, and nothing deeper. */
  ghost predicate IsMaxDrawdown(points: seq<EquityPoint>, n: nat, depth: real)
    requires n <= |points|
  {
    && (forall i, j :: 0 <= i <= j < n ==> Fall(points, i, j) <= depth)
    && (exists i, j :: 0 <= i <= j < n && Fall(points, i, j) == depth)
  }

  method MaxDrawdown(points: seq<EquityPoint>) returns (maximum: real)
    requires |points| > 0
    ensures IsMaxDrawdown(points, |points|, maximum)
    ensures maximum >= 0.0
  {
    var peak := points[0].equity;
    maximum := 0.0;
    for n := 0 to |points|
      invariant n == 0 ==> peak == points[0].equity && maximum == 0.0
      invariant n > 0 ==> peak == Peak(points, n) && IsMaxDrawdown(points, n, maximum)
      invariant maximum >= 0.0
    {
      hide IsMaxDrawdown;
      ghost var before := maximum;
      peak := Max(peak, points[n].equity);
      maximum := Max(maximum, peak - points[n].equity);
      DrawdownStep(points, n + 1, before);
    }
  }

  lemma DrawdownStep(points: seq<EquityPoint>, n: nat, before: real)
    requires 0 < n <= |points| && before >= 0.0
    requires n == 1 ==> before == 0.0
    requires n > 1 ==> IsMaxDrawdown(points, n - 1, before)
    ensures IsMaxDrawdown(points, n, Max(before, Peak(points, n) - points[n - 1].equity))
  {
    hide Peak, PeakIndex;
    PeakMeaning(points, n);
    var p, last := PeakIndex(points, n), n - 1;
    var fall := Fall(points, p, last);
    var depth := Max(before, fall);
    forall i, j | 0 <= i <= j < n ensures Fall(points, i, j) <= depth {
      if j == last {
        assert points[i].equity <= Peak(points, n);
      }
    }
    if n > 1 && before > fall {
      var i, j :| 0 <= i <= j < n - 1 && Fall(points, i, j) == before;
      assert Fall(points, i, j) == depth;
    } else {
      assert Fall(points, p, last) == depth;
    }
  }

  ghost predicate NonDecreasing(points: seq<EquityPoint>) {
    forall i, j :: 0 <= i <= j < |points| ==> points[i].equity <= points[j].equity
  }

  /** No drawdown exactly when equity never falls. */
  lemma ZeroDepth(points: seq<EquityPoint>, depth: real)
    requires |points| > 0 && IsMaxDrawdown(points, |points|, depth)
    ensures depth == 0.0 <==> NonDecreasing(points)
  {
    if NonDecreasing(points) {
      var i, j :| 0 <= i <= j < |points| && Fall(points, i, j) == depth;
      assert Fall(points, 0, 0) <= depth;
    }
    if depth == 0.0 {
      forall i, j | 0 <= i <= j < |points| ensures points[i].equity <= points[j].equity {
        assert Fall(points, i, j) <= 0.0;
      }
    }
  }

  /** Time under water at point j: since the running peak was last attained. */
  ghost function Underwater(points: seq<EquityPoint>, j: nat): int
    requires j < |points|
  {
    points[j].time - points[PeakIndex(points, j + 1)].time
  }

  ghost predicate IsLongestUnderwater(points: seq<EquityPoint>, n: nat, longest: int)
    requires n <= |points|
  {
    && longest >= 0
    && (forall j :: 0 <= j < n ==> Underwater(points, j) <= longest)
    && (longest == 0 || exists j :: 0 <= j < n && Underwater(points, j) == longest)
  }

  method DrawdownDuration(points: seq<EquityPoint>) returns (longest: int)
    requires |points| > 0
    ensures IsLongestUnderwater(points, |points|, longest)
  {
    var peakTime, peak := points[0].time, points[0].equity;
    longest := 0;
    for n := 0 to |points|
      invariant n == 0 ==> peak == points[0].equity
      invariant n > 0 ==> peak == Peak(points, n) && peakTime == points[PeakIndex(points, n)].time
      invariant IsLongestUnderwater(points, n, longest)
    {
      ghost var before := longest;
      if points[n].equity >= peak {
        peak := points[n].equity;
        peakTime := points[n].time;
      } else {
        longest := if points[n].time - peakTime > longest then points[n].time - peakTime else longest;
      }
      UnderwaterStep(points, n, before, longest);
    }
  }

  lemma UnderwaterStep(points: seq<EquityPoint>, n: nat, before: int, after: int)
    requires n < |points| && IsLongestUnderwater(points, n, before)
    requires after == (if Underwater(points, n) > before then Underwater(points, n) else before)
    ensures IsLongestUnderwater(points, n + 1, after)
  {
    if after == before && before != 0 {
      var j :| 0 <= j < n && Underwater(points, j) == before;
      assert Underwater(points, j) == after;
    } else if after != before {
      assert Underwater(points, n) == after;
    }
  }

  /** With strictly increasing times, time under water is zero exactly when equity never falls. */
  lemma ZeroDuration(points: seq<EquityPoint>, longest: int)
    requires |points| > 0 && IsLongestUnderwater(points, |points|, longest)
    requires forall i, j :: 0 <= i < j < |points| ==> points[i].time < points[j].time
    ensures longest == 0 <==> NonDecreasing(points)
  {
    if longest == 0 {
      forall i, j | 0 <= i <= j < |points| ensures points[i].equity <= points[j].equity {
        PeakMeaning(points, j + 1);
        assert Underwater(points, j) <= 0;
      }
    }
    if NonDecreasing(points) {
      forall j | 0 <= j < |points| ensures Underwater(points, j) == 0 {
        PeakMeaning(points, j + 1);
        var p := PeakIndex(points, j + 1);
        assert points[p].equity <= points[j].equity;
      }
    }
  }
}
