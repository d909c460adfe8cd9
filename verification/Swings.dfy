/** Confirmed swing pivots: strict extremes of a window that has closed on both sides. */
module Swings {
  import opened Market

  datatype SwingPoint = SwingPoint(index: nat, time: int, price: real, kind: SwingKind)

  function MinOf(s: seq<real>): real
    requires |s| > 0
  {
    if |s| == 1 then s[0] else Min(MinOf(s[..|s|-1]), s[|s|-1])
  }

  function Count(s: seq<real>, v: real): nat {
    if |s| == 0 then 0 else Count(s[..|s|-1], v) + (if s[|s|-1] == v then 1 else 0)
  }

  function Highs(cs: seq<Candle>): (r: seq<real>)
    ensures |r| == |cs| && forall i :: 0 <= i < |cs| ==> r[i] == cs[i].high
  {
    seq(|cs|, i requires 0 <= i < |cs| => cs[i].high)
  }

  function Lows(cs: seq<Candle>): (r: seq<real>)
    ensures |r| == |cs| && forall i :: 0 <= i < |cs| ==> r[i] == cs[i].low
  {
    seq(|cs|, i requires 0 <= i < |cs| => cs[i].low)
  }

  // ------------------------------------------------ the meaning of a pivot

  ghost predicate IsPeak(cs: seq<Candle>, i: int, left: nat, right: nat)
    requires left <= i < |cs| - right
  {
    forall j :: i - left <= j <= i + right && j != i ==> cs[j].high < cs[i].high
  }

  ghost predicate IsTrough(cs: seq<Candle>, i: int, left: nat, right: nat)
    requires left <= i < |cs| - right
  {
    forall j :: i - left <= j <= i + right && j != i ==> cs[j].low > cs[i].low
  }

  ghost function PivotsAt(cs: seq<Candle>, i: int, left: nat, right: nat): (r: seq<SwingPoint>)
    requires left <= i < |cs| - right
    ensures forall p :: p in r ==> p.index == i
  {
    (if IsPeak(cs, i, left, right) then [SwingPoint(i, cs[i].time, cs[i].high, High)] else [])
    + (if IsTrough(cs, i, left, right) then [SwingPoint(i, cs[i].time, cs[i].low, Low)] else [])
  }

  ghost function PivotsUpTo(cs: seq<Candle>, left: nat, right: nat, end: int): seq<SwingPoint>
    requires end <= |cs| - right
    decreases if end < left then 0 else end - left
  {
    if end <= left then [] else PivotsUpTo(cs, left, right, end - 1) + PivotsAt(cs, end - 1, left, right)
  }

  ghost function Pivots(cs: seq<Candle>, left: nat, right: nat): seq<SwingPoint> {
    PivotsUpTo(cs, left, right, |cs| - right)
  }

  // ------------------------------------------- the test the source applies

  lemma {:induction false} MaxOfProperty(s: seq<real>)
    requires |s| > 0
    ensures forall i :: 0 <= i < |s| ==> s[i] <= MaxOf(s)
    ensures exists i :: 0 <= i < |s| && s[i] == MaxOf(s)
  {
    if |s| > 1 {
      var t := s[..|s|-1];
      MaxOfProperty(t);
      var i :| 0 <= i < |t| && t[i] == MaxOf(t);
      assert s[i] == t[i];
      assert MaxOf(s) == s[i] || MaxOf(s) == s[|s|-1];
    } else {
      assert s[0] == MaxOf(s);
    }
  }

  lemma {:induction false} MinOfProperty(s: seq<real>)
    requires |s| > 0
    ensures forall i :: 0 <= i < |s| ==> s[i] >= MinOf(s)
    ensures exists i :: 0 <= i < |s| && s[i] == MinOf(s)
  {
    if |s| > 1 {
      var t := s[..|s|-1];
      MinOfProperty(t);
      var i :| 0 <= i < |t| && t[i] == MinOf(t);
      assert s[i] == t[i];
      assert MinOf(s) == s[i] || MinOf(s) == s[|s|-1];
    } else {
      assert s[0] == MinOf(s);
    }
  }

  lemma {:induction false} CountZero(s: seq<real>, v: real)
    ensures Count(s, v) == 0 <==> forall i :: 0 <= i < |s| ==> s[i] != v
  {
    if |s| > 0 {
      CountZero(s[..|s|-1], v);
    }
  }

  lemma {:induction false} CountOne(s: seq<real>, k: nat)
    requires k < |s|
    ensures Count(s, s[k]) >= 1
    ensures Count(s, s[k]) == 1 <==> forall i :: 0 <= i < |s| && i != k ==> s[i] != s[k]
  {
    var n := |s| - 1;
    var t := s[..n];
    if k == n {
      CountZero(t, s[k]);
    } else {
      CountOne(t, k);
      assert t[k] == s[k];
      if Count(s, s[k]) == 1 {
        assert forall i :: 0 <= i < |s| && i != k ==> s[i] != s[k];
      }
    }
  }

  /** Equal to the maximum and counted once is the same as strictly above every other. */
  lemma UniqueMaximum(s: seq<real>, k: nat)
    requires k < |s|
    ensures s[k] == MaxOf(s) && Count(s, s[k]) == 1 <==> forall i :: 0 <= i < |s| && i != k ==> s[i] < s[k]
  {
    MaxOfProperty(s);
    CountOne(s, k);
  }

  lemma UniqueMinimum(s: seq<real>, k: nat)
    requires k < |s|
    ensures s[k] == MinOf(s) && Count(s, s[k]) == 1 <==> forall i :: 0 <= i < |s| && i != k ==> s[i] > s[k]
  {
    MinOfProperty(s);
    CountOne(s, k);
  }

  lemma WindowTest(cs: seq<Candle>, i: int, left: nat, right: nat)
    requires left <= i < |cs| - right
    ensures var w := cs[i - left..i + right + 1];
            && (cs[i].high == MaxOf(Highs(w)) && Count(Highs(w), cs[i].high) == 1 <==> IsPeak(cs, i, left, right))
            && (cs[i].low == MinOf(Lows(w)) && Count(Lows(w), cs[i].low) == 1 <==> IsTrough(cs, i, left, right))
  {
    var w := cs[i - left..i + right + 1];
    var hs, ls := Highs(w), Lows(w);
    UniqueMaximum(hs, left);
    UniqueMinimum(ls, left);
    assert forall j :: i - left <= j <= i + right ==> cs[j] == w[j - (i - left)];
    assert forall j :: 0 <= j < |w| ==> w[j] == cs[j + (i - left)];
  }

  /** The loop of the source; `None` is the raised error. */
  method ConfirmedSwings(cs: seq<Candle>, left: int, right: int) returns (r: Option<seq<SwingPoint>>)
    ensures r.None? <==> left < 1 || right < 1 || |cs| < left + right + 1
    ensures r.Some? ==> r.value == Pivots(cs, left, right)
  {
    hide PivotsAt;
    if left < 1 || right < 1 || |cs| < left + right + 1 {
      return None;
    }
    var output: seq<SwingPoint> := [];
    for index := left to |cs| - right
      invariant output == PivotsUpTo(cs, left, right, index)
    {
      var found := TestWindow(cs, index, left, right);
      output := output + found;
    }
    return Some(output);
  }

  method TestWindow(cs: seq<Candle>, index: nat, left: nat, right: nat) returns (found: seq<SwingPoint>)
    requires left <= index < |cs| - right
    ensures found == PivotsAt(cs, index, left, right)
  {
    hide IsPeak, IsTrough, MaxOf, MinOf, Count;
    var window := cs[index - left..index + right + 1];
    WindowTest(cs, index, left, right);
    var high, low := cs[index].high, cs[index].low;
    found := [];
    if high == MaxOf(Highs(window)) && Count(Highs(window), high) == 1 {
      found := [SwingPoint(index, cs[index].time, high, High)];
    }
    if low == MinOf(Lows(window)) && Count(Lows(window), low) == 1 {
      found := found + [SwingPoint(index, cs[index].time, low, Low)];
    }
  }

  // ---------------------------------------------------------- consequences

  lemma {:induction false} PivotsUpToPrefix(cs: seq<Candle>, left: nat, right: nat, m: nat, end: int)
    requires m <= |cs| && end <= m - right
    ensures PivotsUpTo(cs[..m], left, right, end) == PivotsUpTo(cs, left, right, end)
    decreases if end < left then 0 else end - left
  {
    hide PivotsAt;
    if end > left {
      PivotsUpToPrefix(cs, left, right, m, end - 1);
      PivotsAtPrefix(cs, left, right, m, end - 1);
    }
  }

  lemma PivotsAtPrefix(cs: seq<Candle>, left: nat, right: nat, m: nat, i: int)
    requires m <= |cs| && left <= i < m - right
    ensures PivotsAt(cs[..m], i, left, right) == PivotsAt(cs, i, left, right)
  {
    var d := cs[..m];
    assert forall j :: 0 <= j < m ==> d[j] == cs[j];
    assert IsPeak(d, i, left, right) == IsPeak(cs, i, left, right);
    assert IsTrough(d, i, left, right) == IsTrough(cs, i, left, right);
    hide IsPeak, IsTrough;
  }

  /** Membership, and where in the list: exactly the pivots with a closed window. */
  lemma {:induction false} PivotsExactly(cs: seq<Candle>, left: nat, right: nat, end: int, p: SwingPoint)
    requires end <= |cs| - right
    ensures p in PivotsUpTo(cs, left, right, end) <==>
            left <= p.index < end && p in PivotsAt(cs, p.index, left, right)
    decreases if end < left then 0 else end - left
  {
    hide PivotsAt;
    if end > left {
      PivotsExactly(cs, left, right, end - 1, p);
    }
  }

  lemma {:induction false} PivotsGrow(cs: seq<Candle>, left: nat, right: nat, start: int, end: int)
    requires start <= end <= |cs| - right
    ensures PivotsUpTo(cs, left, right, start) <= PivotsUpTo(cs, left, right, end)
    decreases end - start
  {
    hide PivotsAt;
    if start < end {
      PivotsGrow(cs, left, right, start, end - 1);
    }
  }

  /**
   * No repaint: what a prefix confirmed stays, unmoved, at the front of what the full series
   * confirms, and anything newly confirmed lies at or after the prefix's unconfirmed right edge.
   */
  lemma SwingsNoRepaint(cs: seq<Candle>, left: nat, right: nat, m: nat)
    requires m <= |cs|
    ensures Pivots(cs[..m], left, right) <= Pivots(cs, left, right)
    ensures forall p :: p in Pivots(cs, left, right) ==>
              (p in Pivots(cs[..m], left, right) <==> p.index < m - right)
  {
    hide PivotsAt, PivotsUpTo;
    PivotsUpToPrefix(cs, left, right, m, m - right);
    PivotsGrow(cs, left, right, m - right, |cs| - right);
    forall p | p in Pivots(cs, left, right)
      ensures p in Pivots(cs[..m], left, right) <==> p.index < m - right
    {
      PivotsExactly(cs, left, right, |cs| - right, p);
      PivotsExactly(cs, left, right, m - right, p);
    }
  }

  /** Two pivots of the same kind are never within both windows' reach of each other. */
  lemma SwingsSpacing(cs: seq<Candle>, left: nat, right: nat, p: SwingPoint, q: SwingPoint)
    requires p in Pivots(cs, left, right) && q in Pivots(cs, left, right)
    requires p.kind == q.kind && p.index < q.index
    ensures q.index - p.index > left || q.index - p.index > right
  {
    hide PivotsUpTo;
    PivotsExactly(cs, left, right, |cs| - right, p);
    PivotsExactly(cs, left, right, |cs| - right, q);
    PivotMeans(cs, p, left, right);
    PivotMeans(cs, q, left, right);
    hide PivotsAt;
  }

  lemma PivotMeans(cs: seq<Candle>, p: SwingPoint, left: nat, right: nat)
    requires left <= p.index < |cs| - right && p in PivotsAt(cs, p.index, left, right)
    ensures p.kind == High ==> IsPeak(cs, p.index, left, right) && p.price == cs[p.index].high
    ensures p.kind == Low ==> IsTrough(cs, p.index, left, right) && p.price == cs[p.index].low
  {
    hide IsPeak, IsTrough;
  }
}
