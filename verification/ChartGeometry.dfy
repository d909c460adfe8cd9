/** Frozen chart boundaries built from confirmed pivots, and their mirror symmetry. */
module ChartGeometry {
  import opened Market

  datatype Swing = Swing(kind: SwingKind, occurredAt: int, availableAt: int, price: real)
  datatype Direction = Bullish | Bearish | Neutral

  datatype PatternKind =
    | HeadAndShoulders | InverseHeadAndShoulders
    | TripleTop | TripleBottom
    | DoubleTop | DoubleBottom
    | Rectangle
    | AscendingTriangle | DescendingTriangle
    | RisingWedge | FallingWedge
    | ConvergingTriangle

  datatype Line = Line(intercept: real, slope: real)

  datatype Boundaries = Boundaries(kind: PatternKind, bias: Direction, points: seq<Swing>, upper: Line, lower: Line)

  function LineAt(line: Line, x: real): real {
    line.intercept + Mul(line.slope, x)
  }

  /** A time distance counted in bars. */
  function Bars(seconds: int, duration: int): real
    requires duration > 0
  {
    seconds as real / duration as real
  }

  // ------------------------------------------------------- pivot selection

  function CountAt(swings: seq<Swing>, time: int): nat {
    if |swings| == 0 then 0
    else CountAt(swings[..|swings|-1], time) + (if swings[|swings|-1].occurredAt == time then 1 else 0)
  }

  predicate MoreExtreme(a: Swing, b: Swing) {
    if a.kind == High then a.price > b.price else a.price < b.price
  }

  function Push(result: seq<Swing>, s: Swing): seq<Swing> {
    var n := |result|;
    if n > 0 && s.kind == result[n - 1].kind then
      if MoreExtreme(s, result[n - 1]) then result[..n - 1] + [s] else result
    else result + [s]
  }

  function CollapseUpTo(swings: seq<Swing>, n: nat): seq<Swing>
    requires n <= |swings|
  {
    if n == 0 then []
    else
      var before := CollapseUpTo(swings, n - 1);
      if CountAt(swings, swings[n - 1].occurredAt) > 1 then before else Push(before, swings[n - 1])
  }

  function Alternating(swings: seq<Swing>): seq<Swing> {
    CollapseUpTo(swings, |swings|)
  }

  /** Collapse same-side pivots; pivots sharing an instant with another are dropped. */
  method AlternatingSwings(swings: seq<Swing>) returns (result: seq<Swing>)
    ensures result == Alternating(swings)
  {
    result := [];
    for i := 0 to |swings|
      invariant result == CollapseUpTo(swings, i)
    {
      var swing := swings[i];
      if CountAt(swings, swing.occurredAt) > 1 {
        continue;
      }
      if |result| > 0 && swing.kind == result[|result| - 1].kind {
        var last := result[|result| - 1];
        var moreExtreme := if swing.kind == High then swing.price > last.price else swing.price < last.price;
        if moreExtreme {
          result := result[..|result| - 1] + [swing];
        }
      } else {
        result := result + [swing];
      }
    }
  }

  ghost predicate Alternates(s: seq<Swing>) {
    forall i :: 0 < i < |s| ==> s[i - 1].kind != s[i].kind
  }

  ghost predicate DistinctTimes(s: seq<Swing>) {
    forall i, j :: 0 <= i < j < |s| ==> s[i].occurredAt != s[j].occurredAt
  }

  ghost predicate AtLeastAsExtreme(a: Swing, b: Swing) {
    a.kind == b.kind && (if a.kind == High then a.price >= b.price else a.price <= b.price)
  }

  /** Every unambiguous pivot among the first n survives or is outdone by a survivor of its side. */
  ghost predicate Covers(result: seq<Swing>, swings: seq<Swing>, n: nat)
    requires n <= |swings|
  {
    forall k :: 0 <= k < n && CountAt(swings, swings[k].occurredAt) <= 1 ==>
      exists r :: r in result && AtLeastAsExtreme(r, swings[k])
  }

  lemma {:induction false} CountAtLeast(swings: seq<Swing>, i: nat)
    requires i < |swings|
    ensures CountAt(swings, swings[i].occurredAt) >= 1
  {
    if i < |swings| - 1 {
      CountAtLeast(swings[..|swings|-1], i);
    }
  }

  lemma {:induction false} CountAtTwo(swings: seq<Swing>, i: nat, j: nat)
    requires i < j < |swings| && swings[i].occurredAt == swings[j].occurredAt
    ensures CountAt(swings, swings[i].occurredAt) >= 2
  {
    var before := swings[..|swings|-1];
    if j == |swings| - 1 {
      CountAtLeast(before, i);
    } else {
      CountAtTwo(before, i, j);
    }
  }

  ghost predicate FromFirst(result: seq<Swing>, swings: seq<Swing>, n: nat)
    requires n <= |swings|
  {
    forall r :: r in result ==> exists k :: 0 <= k < n && swings[k] == r
  }

  lemma {:induction false} CollapseProperties(swings: seq<Swing>, n: nat)
    requires n <= |swings|
    ensures Alternates(CollapseUpTo(swings, n))
    ensures DistinctTimes(CollapseUpTo(swings, n))
    ensures FromFirst(CollapseUpTo(swings, n), swings, n)
    ensures Covers(CollapseUpTo(swings, n), swings, n)
  {
    if n > 0 {
      CollapseProperties(swings, n - 1);
      var before, s := CollapseUpTo(swings, n - 1), swings[n - 1];
      if CountAt(swings, s.occurredAt) <= 1 {
        forall r | r in before ensures r.occurredAt != s.occurredAt {
          var k :| 0 <= k < n - 1 && swings[k] == r;
          if r.occurredAt == s.occurredAt {
            CountAtTwo(swings, k, n - 1);
          }
        }
        PushProperties(before, s);
        PushCovers(before, swings, n);
        assert swings[n - 1] == s;
      }
    }
  }

  lemma PushProperties(result: seq<Swing>, s: Swing)
    requires Alternates(result) && DistinctTimes(result)
    requires forall r :: r in result ==> r.occurredAt != s.occurredAt
    ensures Alternates(Push(result, s)) && DistinctTimes(Push(result, s))
    ensures forall r :: r in Push(result, s) ==> r in result || r == s
  {
  }

  lemma PushCovers(result: seq<Swing>, swings: seq<Swing>, n: nat)
    requires 0 < n <= |swings|
    requires Covers(result, swings, n - 1)
    ensures Covers(Push(result, swings[n - 1]), swings, n)
  {
    var s := swings[n - 1];
    var pushed := Push(result, s);
    forall k | 0 <= k < n && CountAt(swings, swings[k].occurredAt) <= 1
      ensures exists r :: r in pushed && AtLeastAsExtreme(r, swings[k])
    {
      var last := pushed[|pushed| - 1];
      assert last in pushed && AtLeastAsExtreme(last, s);
      if k < n - 1 {
        var r :| r in result && AtLeastAsExtreme(r, swings[k]);
        if r in pushed {
        } else {
          assert r == result[|result| - 1] && AtLeastAsExtreme(last, swings[k]);
        }
      }
    }
  }

  /**
   * What the selection guarantees: strictly alternating sides, pairwise distinct instants (so no
   * slope below ever divides by zero), only pivots of the input, no unambiguous pivot lost to a
   * weaker one, and in input order the leader of each one-sided run (AlternatingExactly).
   */
  lemma AlternatingGuarantees(swings: seq<Swing>)
    ensures Alternates(Alternating(swings)) && DistinctTimes(Alternating(swings))
    ensures forall r :: r in Alternating(swings) ==> r in swings
    ensures Covers(Alternating(swings), swings, |swings|)
    ensures exists cuts :: LeadersOf(Alternating(swings), Unambiguous(swings), cuts)
  {
    CollapseProperties(swings, |swings|);
    hide CollapseUpTo, LeadersOf;
    AlternatingExactly(swings, Alternating(swings));
  }

  // The selection as a specification: cut the unambiguous pivots into runs of one side, and keep
  // the first most extreme pivot of each run.

  function UnambiguousUpTo(swings: seq<Swing>, n: nat): seq<Swing>
    requires n <= |swings|
  {
    if n == 0 then []
    else UnambiguousUpTo(swings, n - 1)
         + (if CountAt(swings, swings[n - 1].occurredAt) > 1 then [] else [swings[n - 1]])
  }

  /** The pivots that share their instant with no other, in input order. */
  function Unambiguous(swings: seq<Swing>): seq<Swing> {
    UnambiguousUpTo(swings, |swings|)
  }

  /** p is the first most extreme pivot of the one-sided run u[a..b]. */
  ghost predicate LeadsRun(p: Swing, u: seq<Swing>, a: int, b: int) {
    && 0 <= a < b <= |u|
    && (forall i :: a <= i < b ==> u[i].kind == p.kind)
    && exists m :: a <= m < b && FirstExtreme(p, u, a, b, m)
  }

  ghost predicate FirstExtreme(p: Swing, u: seq<Swing>, a: int, b: int, m: int)
    requires 0 <= a <= m < b <= |u|
  {
    && u[m] == p
    && (forall i :: a <= i < m ==> MoreExtreme(p, u[i]))
    && (forall i :: a <= i < b ==> !MoreExtreme(u[i], p))
  }

  /** r keeps one pivot of each maximal one-sided run of u, in order; the runs start at the cuts. */
  ghost predicate LeadersOf(r: seq<Swing>, u: seq<Swing>, cuts: seq<int>) {
    && |cuts| == |r| + 1 && cuts[0] == 0 && cuts[|r|] == |u|
    && (forall k :: 0 <= k < |r| ==> LeadsRun(r[k], u, cuts[k], cuts[k + 1]))
    && Alternates(r)
  }

  lemma RunPersists(p: Swing, u: seq<Swing>, s: Swing, a: int, b: int)
    requires LeadsRun(p, u, a, b)
    ensures LeadsRun(p, u + [s], a, b)
  {
    var v := u + [s];
    assert forall i :: 0 <= i < |u| ==> v[i] == u[i];
    var m :| a <= m < b && FirstExtreme(p, u, a, b, m);
    assert FirstExtreme(p, v, a, b, m);
  }

  lemma RunExtends(p: Swing, u: seq<Swing>, s: Swing, a: int)
    requires LeadsRun(p, u, a, |u|) && s.kind == p.kind
    ensures LeadsRun(if MoreExtreme(s, p) then s else p, u + [s], a, |u| + 1)
  {
    var v := u + [s];
    assert forall i :: 0 <= i < |u| ==> v[i] == u[i];
    var m :| a <= m < |u| && FirstExtreme(p, u, a, |u|, m);
    if MoreExtreme(s, p) {
      assert FirstExtreme(s, v, a, |v|, |u|);
    } else {
      assert FirstExtreme(p, v, a, |v|, m);
    }
  }

  /** One more pivot extends the last run or opens a new one. */
  lemma PushLeads(r: seq<Swing>, u: seq<Swing>, cuts: seq<int>, s: Swing)
    requires LeadersOf(r, u, cuts)
    ensures exists next :: LeadersOf(Push(r, s), u + [s], next)
  {
    hide LeadsRun;
    var v, n := u + [s], |r|;
    var pushed := Push(r, s);
    forall k | 0 <= k < n ensures LeadsRun(r[k], v, cuts[k], cuts[k + 1]) {
      RunPersists(r[k], u, s, cuts[k], cuts[k + 1]);
    }
    if n > 0 && s.kind == r[n - 1].kind {
      RunExtends(r[n - 1], u, s, cuts[n - 1]);
      assert LeadersOf(pushed, v, cuts[..n] + [|v|]);
    } else {
      RunOpens(u, s);
      assert LeadersOf(pushed, v, cuts + [|v|]);
    }
  }

  lemma RunOpens(u: seq<Swing>, s: Swing)
    ensures LeadsRun(s, u + [s], |u|, |u| + 1)
  {
    assert FirstExtreme(s, u + [s], |u|, |u| + 1, |u|);
  }

  lemma {:induction false} CollapseLeads(swings: seq<Swing>, n: nat)
    requires n <= |swings|
    ensures exists cuts :: LeadersOf(CollapseUpTo(swings, n), UnambiguousUpTo(swings, n), cuts)
  {
    hide LeadersOf, CountAt, Push;
    if n == 0 {
      NothingToLead(swings);
    } else {
      CollapseLeads(swings, n - 1);
      var r, u := CollapseUpTo(swings, n - 1), UnambiguousUpTo(swings, n - 1);
      var cuts :| LeadersOf(r, u, cuts);
      if CountAt(swings, swings[n - 1].occurredAt) > 1 {
        assert UnambiguousUpTo(swings, n) == u;
        assert LeadersOf(CollapseUpTo(swings, n), UnambiguousUpTo(swings, n), cuts);
      } else {
        PushLeads(r, u, cuts, swings[n - 1]);
        var next :| LeadersOf(Push(r, swings[n - 1]), u + [swings[n - 1]], next);
        assert LeadersOf(CollapseUpTo(swings, n), UnambiguousUpTo(swings, n), next);
      }
    }
  }

  lemma NothingToLead(swings: seq<Swing>)
    ensures LeadersOf(CollapseUpTo(swings, 0), UnambiguousUpTo(swings, 0), [0])
  {
  }

  /** The last run reaches back as far as its side does. */
  lemma LastRunMaximal(r: seq<Swing>, u: seq<Swing>, cuts: seq<int>)
    requires LeadersOf(r, u, cuts) && |r| > 0
    ensures var n := |r| - 1;
            && LeadsRun(r[n], u, cuts[n], |u|)
            && (cuts[n] > 0 ==> u[cuts[n] - 1].kind != r[n].kind)
  {
    var n := |r| - 1;
    assert LeadsRun(r[n], u, cuts[n], cuts[n + 1]);
    if n > 0 {
      assert LeadsRun(r[n - 1], u, cuts[n - 1], cuts[n]);
    }
  }

  /** Two selections agree on where the last run starts. */
  lemma SameLastCut(r: seq<Swing>, c: seq<int>, s: seq<Swing>, d: seq<int>, u: seq<Swing>)
    requires LeadersOf(r, u, c) && LeadersOf(s, u, d) && |r| > 0 && |s| > 0
    ensures d[|s| - 1] <= c[|r| - 1]
  {
    LastRunMaximal(r, u, c);
    LastRunMaximal(s, u, d);
    hide LeadersOf;
    assert u[|u| - 1].kind == r[|r| - 1].kind == s[|s| - 1].kind;
  }

  lemma SameLeader(p: Swing, q: Swing, u: seq<Swing>, a: int, b: int)
    requires LeadsRun(p, u, a, b) && LeadsRun(q, u, a, b)
    ensures p == q
  {
    var m :| a <= m < b && FirstExtreme(p, u, a, b, m);
    var n :| a <= n < b && FirstExtreme(q, u, a, b, n);
    assert m == n;
  }

  /** Everything but the last run is a selection of everything before it. */
  lemma DropLastRun(r: seq<Swing>, u: seq<Swing>, cuts: seq<int>)
    requires LeadersOf(r, u, cuts) && |r| > 0
    ensures 0 <= cuts[|r| - 1] < |u| && LeadersOf(r[..|r| - 1], u[..cuts[|r| - 1]], cuts[..|r|])
  {
    var n := |r| - 1;
    assert LeadsRun(r[n], u, cuts[n], cuts[n + 1]);
    var v := u[..cuts[n]];
    forall k | 0 <= k < n ensures LeadsRun(r[k], v, cuts[k], cuts[k + 1]) {
      CutsOrdered(r, u, cuts, k + 1);
      assert LeadsRun(r[k], u, cuts[k], cuts[k + 1]);
      var m :| cuts[k] <= m < cuts[k + 1] && FirstExtreme(r[k], u, cuts[k], cuts[k + 1], m);
      assert FirstExtreme(r[k], v, cuts[k], cuts[k + 1], m);
    }
  }

  lemma {:induction false} CutsOrdered(r: seq<Swing>, u: seq<Swing>, cuts: seq<int>, k: nat)
    requires LeadersOf(r, u, cuts) && k < |r|
    ensures cuts[k] <= cuts[|r| - 1]
    decreases |r| - k
  {
    if k < |r| - 1 {
      CutsOrdered(r, u, cuts, k + 1);
      assert LeadsRun(r[k], u, cuts[k], cuts[k + 1]);
    }
  }

  lemma NoneExactly(r: seq<Swing>, u: seq<Swing>, cuts: seq<int>)
    requires LeadersOf(r, u, cuts)
    ensures |r| == 0 <==> |u| == 0
  {
    if |r| > 0 {
      LastRunMaximal(r, u, cuts);
    }
  }

  /** There is only one selection. */
  lemma {:induction false} LeadersUnique(r: seq<Swing>, c: seq<int>, s: seq<Swing>, d: seq<int>, u: seq<Swing>)
    requires LeadersOf(r, u, c) && LeadersOf(s, u, d)
    ensures r == s
    decreases |r|
  {
    NoneExactly(r, u, c);
    NoneExactly(s, u, d);
    if |u| > 0 {
      var m, n := |r| - 1, |s| - 1;
      SameLastCut(r, c, s, d, u);
      SameLastCut(s, d, r, c, u);
      LastRunMaximal(r, u, c);
      LastRunMaximal(s, u, d);
      SameLeader(r[m], s[n], u, c[m], |u|);
      DropLastRun(r, u, c);
      DropLastRun(s, u, d);
      hide LeadsRun;
      LeadersUnique(r[..m], c[..m + 1], s[..n], d[..n + 1], u[..c[m]]);
      assert r == r[..m] + [r[m]] && s == s[..n] + [s[n]];
    }
  }

  /**
   * Exactly what the selection computes: of the pivots that share their instant with no other, in
   * input order, the first most extreme one of each run of one side, and nothing else.
   */
  lemma AlternatingExactly(swings: seq<Swing>, r: seq<Swing>)
    ensures r == Alternating(swings) <==> exists cuts :: LeadersOf(r, Unambiguous(swings), cuts)
  {
    hide LeadersOf, CollapseUpTo, UnambiguousUpTo;
    CollapseLeads(swings, |swings|);
    var u := Unambiguous(swings);
    if exists cuts :: LeadersOf(r, u, cuts) {
      var c :| LeadersOf(r, u, c);
      var d :| LeadersOf(Alternating(swings), u, d);
      LeadersUnique(r, c, Alternating(swings), d, u);
    }
  }

  lemma {:induction false} CountAtMostOnce(swings: seq<Swing>, time: int)
    requires DistinctTimes(swings)
    ensures CountAt(swings, time) <= 1
    ensures (forall i :: 0 <= i < |swings| ==> swings[i].occurredAt != time) ==> CountAt(swings, time) == 0
  {
    if |swings| > 0 {
      CountAtMostOnce(swings[..|swings|-1], time);
    }
  }

  lemma {:induction false} CollapseKeepsAlternating(swings: seq<Swing>, n: nat)
    requires Alternates(swings) && DistinctTimes(swings) && n <= |swings|
    ensures CollapseUpTo(swings, n) == swings[..n]
  {
    if n > 0 {
      CollapseKeepsAlternating(swings, n - 1);
      CountAtMostOnce(swings, swings[n - 1].occurredAt);
      assert swings[..n] == swings[..n - 1] + [swings[n - 1]];
    }
  }

  /** The selection leaves alternating pivots of distinct instants alone; in particular it is idempotent. */
  lemma AlternatingIsIdempotent(swings: seq<Swing>)
    ensures Alternates(swings) && DistinctTimes(swings) ==> Alternating(swings) == swings
    ensures Alternating(Alternating(swings)) == Alternating(swings)
  {
    AlternatingGuarantees(swings);
    hide CollapseUpTo, Covers, Alternates, DistinctTimes;
    if Alternates(swings) && DistinctTimes(swings) {
      CollapseKeepsAlternating(swings, |swings|);
    }
    var kept := Alternating(swings);
    CollapseKeepsAlternating(kept, |kept|);
  }

  // ------------------------------------------------------ reversal patterns

  function Signed(top: bool, price: real): real {
    if top then price else -price
  }

  /** Neckline: the nearer of the two counter-pivots to the pattern's outside. */
  function Neck(top: bool, a: real, b: real): real {
    if top then Min(a, b) else Max(a, b)
  }

  /** The more extreme of two pivots of the pattern's own side. */
  function Outer(top: bool, a: real, b: real): real {
    if top then Max(a, b) else Min(a, b)
  }

  function Beyond(top: bool, price: real, tolerance: real): real {
    if top then price + tolerance else price - tolerance
  }

  function Reversing(top: bool, topKind: PatternKind, bottomKind: PatternKind, points: seq<Swing>,
                     outer: real, neck: real): Boundaries
  {
    if top then Boundaries(topKind, Bearish, points, Line(outer, 0.0), Line(neck, 0.0))
    else Boundaries(bottomKind, Bullish, points, Line(neck, 0.0), Line(outer, 0.0))
  }

  datatype Shape = Headed | Level | Shapeless

  function ShapeOf(left: real, head: real, right: real, tolerance: real): Shape {
    if Abs(left - right) <= tolerance && head > Max(left, right) + tolerance then Headed
    else if Max(Max(left, head), right) - Min(Min(left, head), right) <= tolerance then Level
    else Shapeless
  }

  /** The shape of the three outer pivots, turned so that outwards is up. */
  function OuterShape(p: seq<Swing>, tolerance: real): Shape
    requires |p| == 5
  {
    var top := p[0].kind == High;
    ShapeOf(Signed(top, p[0].price), Signed(top, p[2].price), Signed(top, p[4].price), tolerance)
  }

  function FivePoint(p: seq<Swing>, tolerance: real): Option<Boundaries>
    requires |p| == 5
  {
    var top := p[0].kind == High;
    var neck := Neck(top, p[1].price, p[3].price);
    match OuterShape(p, tolerance)
    case Headed =>
      var outer := Beyond(top, p[2].price, tolerance);
      Some(Reversing(top, HeadAndShoulders, InverseHeadAndShoulders, p, outer, neck))
    case Level =>
      var outer := Beyond(top, Outer(top, Outer(top, p[0].price, p[2].price), p[4].price), tolerance);
      Some(Reversing(top, TripleTop, TripleBottom, p, outer, neck))
    case Shapeless => None
  }

  function Doubled(a: Swing, b: Swing, c: Swing, tolerance: real): Option<Boundaries> {
    if a.kind != c.kind || Abs(a.price - c.price) > tolerance then None
    else
      var top := a.kind == High;
      var outer := Beyond(top, Outer(top, a.price, c.price), tolerance);
      Some(Reversing(top, DoubleTop, DoubleBottom, [a, b, c], outer, b.price))
  }

  function ReversalBoundaries(points: seq<Swing>, tolerance: real): Option<Boundaries>
    requires |points| >= 3
  {
    var n := |points|;
    if n == 5 && points[0].kind == points[2].kind == points[4].kind && FivePoint(points, tolerance).Some? then
      FivePoint(points, tolerance)
    else Doubled(points[n - 3], points[n - 2], points[n - 1], tolerance)
  }

  /** `v` bounds the prices at every other pivot, starting at `start`, and one of them attains it. */
  ghost predicate TopOfEvery(p: seq<Swing>, start: nat, v: real) {
    && (forall i :: start <= i < |p| && (i - start) % 2 == 0 ==> p[i].price <= v)
    && (exists i :: start <= i < |p| && (i - start) % 2 == 0 && p[i].price == v)
  }

  ghost predicate BottomOfEvery(p: seq<Swing>, start: nat, v: real) {
    && (forall i :: start <= i < |p| && (i - start) % 2 == 0 ==> p[i].price >= v)
    && (exists i :: start <= i < |p| && (i - start) % 2 == 0 && p[i].price == v)
  }

  /** Level boundaries around the pivots of a reversal pattern, with the bias towards the neckline. */
  ghost predicate Framed(g: Boundaries, tolerance: real) {
    && |g.points| >= 3 && g.upper.slope == 0.0 && g.lower.slope == 0.0
    && (g.points[0].kind == High ==>
          && g.bias == Bearish
          && TopOfEvery(g.points, 0, g.upper.intercept - tolerance)
          && BottomOfEvery(g.points, 1, g.lower.intercept))
    && (g.points[0].kind == Low ==>
          && g.bias == Bullish
          && BottomOfEvery(g.points, 0, g.lower.intercept + tolerance)
          && TopOfEvery(g.points, 1, g.upper.intercept))
  }

  /**
   * Every reversal pattern is framed level: its outer boundary lies the tolerance beyond its most
   * extreme pivot and its neckline on the most extreme counter-pivot; its pivots are the latest.
   */
  lemma ReversalFrame(points: seq<Swing>, tolerance: real)
    requires |points| >= 3 && tolerance >= 0.0 && ReversalBoundaries(points, tolerance).Some?
    ensures var g := ReversalBoundaries(points, tolerance).value;
            && Framed(g, tolerance)
            && |g.points| <= |points| && g.points == points[|points| - |g.points|..]
  {
    hide FivePoint, Doubled, Framed;
    var n := |points|;
    if n == 5 && points[0].kind == points[2].kind == points[4].kind && FivePoint(points, tolerance).Some? {
      FivePointFrame(points, tolerance);
    } else {
      DoubledFrame(points[n - 3], points[n - 2], points[n - 1], tolerance);
    }
  }

  lemma DoubledFrame(a: Swing, b: Swing, c: Swing, tolerance: real)
    requires Doubled(a, b, c, tolerance).Some?
    ensures Framed(Doubled(a, b, c, tolerance).value, tolerance)
    ensures Doubled(a, b, c, tolerance).value.points == [a, b, c]
  {
    var p := Doubled(a, b, c, tolerance).value.points;
    assert p[0] == a && p[1] == b && p[2] == c;
  }

  lemma FivePointFrame(p: seq<Swing>, tolerance: real)
    requires |p| == 5 && tolerance >= 0.0 && FivePoint(p, tolerance).Some?
    ensures Framed(FivePoint(p, tolerance).value, tolerance)
    ensures FivePoint(p, tolerance).value.points == p
  {
    var top := p[0].kind == High;
    FivePointOuter(p, tolerance);
    hide ShapeOf, Signed;
    var neck := Neck(top, p[1].price, p[3].price);
    assert neck == p[1].price || neck == p[3].price;
  }

  /** The outer level of a five-point pattern, stripped of the tolerance, tops its outer pivots. */
  lemma FivePointOuter(p: seq<Swing>, tolerance: real)
    requires |p| == 5 && tolerance >= 0.0 && FivePoint(p, tolerance).Some?
    ensures var g := FivePoint(p, tolerance).value;
            && (p[0].kind == High ==> TopOfEvery(p, 0, g.upper.intercept - tolerance))
            && (p[0].kind == Low ==> BottomOfEvery(p, 0, g.lower.intercept + tolerance))
  {
    var g := FivePoint(p, tolerance).value;
    var outer := if p[0].kind == High then g.upper.intercept - tolerance else g.lower.intercept + tolerance;
    assert p[0].price == outer || p[2].price == outer || p[4].price == outer;
  }

  // Which reversal a run of pivots is, on their sides and prices alone.

  /** Five pivots whose outer ones are all of one side. */
  ghost predicate FiveOf(p: seq<Swing>, side: SwingKind) {
    |p| == 5 && p[0].kind == side && p[2].kind == side && p[4].kind == side
  }

  /** Level shoulders and a head more than the tolerance beyond both. */
  ghost predicate HasHead(p: seq<Swing>, side: SwingKind, tolerance: real) {
    && FiveOf(p, side) && -tolerance <= p[0].price - p[4].price <= tolerance
    && (side == High ==> p[2].price > p[0].price + tolerance && p[2].price > p[4].price + tolerance)
    && (side == Low ==> p[2].price < p[0].price - tolerance && p[2].price < p[4].price - tolerance)
  }

  /** Three extremes no two of which are further apart than the tolerance. */
  ghost predicate HasThree(p: seq<Swing>, side: SwingKind, tolerance: real) {
    && FiveOf(p, side)
    && -tolerance <= p[0].price - p[2].price <= tolerance
    && -tolerance <= p[2].price - p[4].price <= tolerance
    && -tolerance <= p[0].price - p[4].price <= tolerance
  }

  ghost predicate HasTwo(p: seq<Swing>, side: SwingKind, tolerance: real) {
    && |p| >= 3 && p[|p| - 3].kind == side && p[|p| - 1].kind == side
    && -tolerance <= p[|p| - 3].price - p[|p| - 1].price <= tolerance
  }

  /** Some five-pivot reversal is there; nothing else is looked for then. */
  ghost predicate HasFive(p: seq<Swing>, tolerance: real) {
    || HasHead(p, High, tolerance) || HasHead(p, Low, tolerance)
    || HasThree(p, High, tolerance) || HasThree(p, Low, tolerance)
  }

  /** The kind of reversal and its pivots, each exactly when the prices say so. */
  ghost predicate ReversalNamed(r: Option<Boundaries>, p: seq<Swing>, tolerance: real) {
    && (r.Some? && r.value.kind == HeadAndShoulders <==> HasHead(p, High, tolerance))
    && (r.Some? && r.value.kind == InverseHeadAndShoulders <==> HasHead(p, Low, tolerance))
    && (r.Some? && r.value.kind == TripleTop <==> HasThree(p, High, tolerance))
    && (r.Some? && r.value.kind == TripleBottom <==> HasThree(p, Low, tolerance))
    && (r.Some? && r.value.kind == DoubleTop <==> !HasFive(p, tolerance) && HasTwo(p, High, tolerance))
    && (r.Some? && r.value.kind == DoubleBottom <==> !HasFive(p, tolerance) && HasTwo(p, Low, tolerance))
    && (r.None? <==>
          !HasFive(p, tolerance) && !HasTwo(p, High, tolerance) && !HasTwo(p, Low, tolerance))
    && (r.Some? ==> |p| >= 3 && r.value.points == (if HasFive(p, tolerance) then p else p[|p| - 3..]))
  }

  lemma FivePointExactly(p: seq<Swing>, tolerance: real)
    requires |p| == 5 && p[0].kind == p[2].kind == p[4].kind
    ensures FivePoint(p, tolerance).Some? <==> HasFive(p, tolerance)
    ensures FivePoint(p, tolerance).Some? ==> ReversalNamed(FivePoint(p, tolerance), p, tolerance)
  {
    OuterShapeExactly(p, tolerance);
    hide OuterShape, Neck, Outer, Beyond, HasHead, HasThree;
  }

  lemma OuterShapeExactly(p: seq<Swing>, tolerance: real)
    requires |p| == 5 && p[0].kind == p[2].kind == p[4].kind
    ensures OuterShape(p, tolerance) == Headed <==> HasHead(p, p[0].kind, tolerance)
    ensures OuterShape(p, tolerance) == Level <==> HasThree(p, p[0].kind, tolerance)
    ensures HasHead(p, High, tolerance) || HasThree(p, High, tolerance) ==> p[0].kind == High
    ensures HasHead(p, Low, tolerance) || HasThree(p, Low, tolerance) ==> p[0].kind == Low
  {
  }

  /** Every kind of reversal, and none at all, is reported exactly when the pivots' own prices show it. */
  lemma ReversalExactly(points: seq<Swing>, tolerance: real)
    requires |points| >= 3
    ensures ReversalNamed(ReversalBoundaries(points, tolerance), points, tolerance)
  {
    var n := |points|;
    hide FivePoint, HasHead, HasThree;
    if n == 5 && points[0].kind == points[2].kind == points[4].kind {
      FivePointExactly(points, tolerance);
    } else {
      NotFive(points, tolerance);
    }
    hide ReversalNamed;
    if !HasFive(points, tolerance) {
      DoubledExactly(points, tolerance);
    }
  }

  lemma NotFive(points: seq<Swing>, tolerance: real)
    requires !(|points| == 5 && points[0].kind == points[2].kind == points[4].kind)
    ensures !HasFive(points, tolerance)
  {
  }

  lemma DoubledExactly(points: seq<Swing>, tolerance: real)
    requires |points| >= 3 && !HasFive(points, tolerance)
    ensures var n := |points|;
            ReversalNamed(Doubled(points[n - 3], points[n - 2], points[n - 1], tolerance), points, tolerance)
  {
    hide HasHead, HasThree, Outer, Beyond;
    var n := |points|;
    assert points[n - 3..] == [points[n - 3], points[n - 2], points[n - 1]];
  }

  // ---------------------------------------------------- converging patterns

  function OfKind(points: seq<Swing>, kind: SwingKind): seq<Swing> {
    if |points| == 0 then []
    else (if points[0].kind == kind then [points[0]] else []) + OfKind(points[1..], kind)
  }

  predicate FlatPair(a: Swing, b: Swing, tolerance: real) {
    Abs(b.price - a.price) <= tolerance
  }

  function SlopeOf(a: Swing, b: Swing, duration: int): real
    requires duration > 0 && a.occurredAt != b.occurredAt
  {
    BarsNonZero(b.occurredAt - a.occurredAt, duration);
    (b.price - a.price) / Bars(b.occurredAt - a.occurredAt, duration)
  }

  lemma BarsNonZero(seconds: int, duration: int)
    requires duration > 0 && seconds != 0
    ensures Bars(seconds, duration) != 0.0
  {
  }

  /** The line through two pivots, flattened onto `outer` when their prices agree. */
  function BoundaryLine(a: Swing, b: Swing, origin: int, duration: int, tolerance: real, outer: real): Line
    requires duration > 0 && a.occurredAt != b.occurredAt
  {
    if FlatPair(a, b, tolerance) then Line(outer, 0.0)
    else
      var slope := SlopeOf(a, b, duration);
      Line(a.price - Mul(slope, Bars(a.occurredAt - origin, duration)), slope)
  }

  function ConsolidationKind(upperSlope: real, lowerSlope: real): (PatternKind, Direction) {
    if upperSlope == 0.0 then (AscendingTriangle, Neutral)
    else if lowerSlope == 0.0 then (DescendingTriangle, Neutral)
    else if upperSlope > 0.0 then (RisingWedge, Bearish)
    else if lowerSlope < 0.0 then (FallingWedge, Bullish)
    else (ConvergingTriangle, Neutral)
  }

  function Classify(points: seq<Swing>, upper: Line, lower: Line, bothFlat: bool): Option<Boundaries> {
    if upper.intercept <= lower.intercept then None
    else if bothFlat then Some(Boundaries(Rectangle, Neutral, points, upper, lower))
    else if upper.slope >= lower.slope then None
    else
      var (kind, bias) := ConsolidationKind(upper.slope, lower.slope);
      Some(Boundaries(kind, bias, points, upper, lower))
  }

  function LastFour(points: seq<Swing>): seq<Swing>
    requires |points| >= 4
  {
    points[|points| - 4..]
  }

  function FromPivots(points: seq<Swing>, highs: seq<Swing>, lows: seq<Swing>, duration: int, tolerance: real)
    : Option<Boundaries>
    requires |points| == 4 && |highs| == 2 && |lows| == 2 && duration > 0
    requires highs[0].occurredAt != highs[1].occurredAt && lows[0].occurredAt != lows[1].occurredAt
  {
    var origin := points[0].occurredAt;
    var upper := BoundaryLine(highs[0], highs[1], origin, duration, tolerance, Max(highs[0].price, highs[1].price));
    var lower := BoundaryLine(lows[0], lows[1], origin, duration, tolerance, Min(lows[0].price, lows[1].price));
    Classify(points, upper, lower,
      FlatPair(highs[0], highs[1], tolerance) && FlatPair(lows[0], lows[1], tolerance))
  }

  /** Distinct instants are what the caller's pivot selection guarantees; without them the source divides by zero. */
  function ConvergingBoundaries(points: seq<Swing>, duration: int, tolerance: real): Option<Boundaries>
    requires duration > 0 && DistinctTimes(points)
  {
    if |points| < 4 then None
    else
      var four := LastFour(points);
      var highs, lows := OfKind(four, High), OfKind(four, Low);
      if |highs| != 2 || |lows| != 2 then None
      else
        OfKindDistinct(four, High);
        OfKindDistinct(four, Low);
        FromPivots(four, highs, lows, duration, tolerance)
  }

  lemma {:induction false} OfKindDistinct(points: seq<Swing>, kind: SwingKind)
    requires DistinctTimes(points)
    ensures DistinctTimes(OfKind(points, kind))
    ensures forall p :: p in OfKind(points, kind) ==> p in points && p.kind == kind
  {
    if |points| > 0 {
      var rest := points[1..];
      assert forall i :: 0 <= i < |rest| ==> rest[i] == points[i + 1];
      OfKindDistinct(rest, kind);
      var tail := OfKind(rest, kind);
      forall p | p in tail ensures p.occurredAt != points[0].occurredAt {
        assert p in rest;
        var k :| 0 <= k < |rest| && rest[k] == p;
      }
    }
  }

  // ------------------------------------------------- what the lines touch

  /** A sloped boundary passes through both of its pivots. */
  lemma SlopedLineHitsPivots(a: Swing, b: Swing, origin: int, duration: int, tolerance: real, outer: real)
    requires duration > 0 && a.occurredAt != b.occurredAt && !FlatPair(a, b, tolerance)
    ensures var line := BoundaryLine(a, b, origin, duration, tolerance, outer);
            && LineAt(line, Bars(a.occurredAt - origin, duration)) == a.price
            && LineAt(line, Bars(b.occurredAt - origin, duration)) == b.price
  {
    var slope := SlopeOf(a, b, duration);
    var x, y := Bars(a.occurredAt - origin, duration), Bars(b.occurredAt - origin, duration);
    BarsNonZero(b.occurredAt - a.occurredAt, duration);
    BarsDifference(a.occurredAt - origin, b.occurredAt - origin, duration);
    assert Mul(slope, y - x) == b.price - a.price by {
      assert (b.price - a.price) / (y - x) == slope;
    }
    assert Mul(slope, y - x) == Mul(slope, y) - Mul(slope, x);
  }

  lemma BarsDifference(s: int, t: int, duration: int)
    requires duration > 0
    ensures Bars(t, duration) - Bars(s, duration) == Bars(t - s, duration)
  {
    var d := duration as real;
    assert (t - s) as real == t as real - s as real;
    assert (t as real - s as real) / d == t as real / d - s as real / d;
  }

  /** A flat boundary lies on the outer pivot and within the tolerance of the inner one. */
  lemma FlatLineBoundsPivots(a: Swing, b: Swing, origin: int, duration: int, tolerance: real, x: real)
    requires duration > 0 && a.occurredAt != b.occurredAt && FlatPair(a, b, tolerance)
    ensures var top := LineAt(BoundaryLine(a, b, origin, duration, tolerance, Max(a.price, b.price)), x);
            a.price <= top <= a.price + tolerance && b.price <= top <= b.price + tolerance
    ensures var bottom := LineAt(BoundaryLine(a, b, origin, duration, tolerance, Min(a.price, b.price)), x);
            a.price - tolerance <= bottom <= a.price && b.price - tolerance <= bottom <= b.price
  {
  }

  lemma {:induction false} OfKindExactly(points: seq<Swing>, kind: SwingKind, p: Swing)
    ensures p in OfKind(points, kind) <==> p in points && p.kind == kind
  {
    if |points| > 0 {
      assert points == [points[0]] + points[1..];
      OfKindExactly(points[1..], kind, p);
    }
  }

  /** A boundary built for a side meets a pivot of that side, or lies on it or the tolerance outside it when flat. */
  ghost predicate Meets(line: Line, p: Swing, x: real, tolerance: real) {
    var level := LineAt(line, x);
    if line.slope != 0.0 then level == p.price
    else if p.kind == High then p.price <= level <= p.price + tolerance
    else p.price - tolerance <= level <= p.price
  }

  lemma BoundaryMeets(a: Swing, b: Swing, p: Swing, origin: int, duration: int, tolerance: real, outer: real)
    requires duration > 0 && a.occurredAt != b.occurredAt && tolerance >= 0.0
    requires a.kind == b.kind && (p == a || p == b)
    requires outer == if a.kind == High then Max(a.price, b.price) else Min(a.price, b.price)
    ensures Meets(BoundaryLine(a, b, origin, duration, tolerance, outer), p,
                  Bars(p.occurredAt - origin, duration), tolerance)
  {
    if FlatPair(a, b, tolerance) {
      FlatLineBoundsPivots(a, b, origin, duration, tolerance, Bars(p.occurredAt - origin, duration));
    } else {
      SlopedLineHitsPivots(a, b, origin, duration, tolerance, outer);
      SlopeNonZero(a, b, duration);
    }
    hide LineAt, Bars, SlopeOf;
  }

  lemma SlopeNonZero(a: Swing, b: Swing, duration: int)
    requires duration > 0 && a.occurredAt != b.occurredAt && a.price != b.price
    ensures SlopeOf(a, b, duration) != 0.0
  {
    BarsNonZero(b.occurredAt - a.occurredAt, duration);
    var x, y := b.price - a.price, Bars(b.occurredAt - a.occurredAt, duration);
    assert (x / y) * y == x;
  }

  /**
   * The boundaries of every converging pattern pass through its own pivots: a sloped boundary
   * meets each pivot of its side, and a flat one lies on it or the tolerance outside it.
   */
  lemma BoundariesMeetPivots(points: seq<Swing>, duration: int, tolerance: real, p: Swing)
    requires duration > 0 && DistinctTimes(points) && tolerance >= 0.0
    requires ConvergingBoundaries(points, duration, tolerance).Some?
    requires p in ConvergingBoundaries(points, duration, tolerance).value.points
    ensures var g := ConvergingBoundaries(points, duration, tolerance).value;
            |g.points| > 0 && Meets(if p.kind == High then g.upper else g.lower, p,
                                    Bars(p.occurredAt - g.points[0].occurredAt, duration), tolerance)
  {
    var four := LastFour(points);
    var highs, lows := OfKind(four, High), OfKind(four, Low);
    OfKindDistinct(four, High);
    OfKindDistinct(four, Low);
    hide FromPivots, OfKind, Meets, Bars, DistinctTimes;
    FromPivotsMeet(four, highs, lows, duration, tolerance, p);
    OfKindExactly(four, p.kind, p);
  }

  lemma FromPivotsMeet(points: seq<Swing>, highs: seq<Swing>, lows: seq<Swing>, duration: int, tolerance: real, p: Swing)
    requires |points| == 4 && |highs| == 2 && |lows| == 2 && duration > 0 && tolerance >= 0.0
    requires highs[0].occurredAt != highs[1].occurredAt && lows[0].occurredAt != lows[1].occurredAt
    requires highs[0].kind == highs[1].kind == High && lows[0].kind == lows[1].kind == Low
    requires FromPivots(points, highs, lows, duration, tolerance).Some?
    ensures var g := FromPivots(points, highs, lows, duration, tolerance).value;
            && g.points == points
            && ((p.kind == High && p in highs) || (p.kind == Low && p in lows) ==>
                 Meets(if p.kind == High then g.upper else g.lower, p,
                       Bars(p.occurredAt - points[0].occurredAt, duration), tolerance))
  {
    hide BoundaryLine, Meets, FlatPair, Bars;
    var origin := points[0].occurredAt;
    if p.kind == High && p in highs {
      BoundaryMeets(highs[0], highs[1], p, origin, duration, tolerance, Max(highs[0].price, highs[1].price));
    }
    if p.kind == Low && p in lows {
      BoundaryMeets(lows[0], lows[1], p, origin, duration, tolerance, Min(lows[0].price, lows[1].price));
    }
  }

  // Which consolidation four pivots are, on their prices and instants alone.

  ghost predicate LevelPair(a: Swing, b: Swing, tolerance: real) {
    -tolerance <= b.price - a.price <= tolerance
  }

  /** Price change per second along a boundary; a level pair does not move. */
  ghost function Pace(a: Swing, b: Swing, tolerance: real): real
    requires a.occurredAt != b.occurredAt
  {
    if LevelPair(a, b, tolerance) then 0.0 else (b.price - a.price) / (b.occurredAt - a.occurredAt) as real
  }

  /** Where the boundary of a pair of one side stands at a given instant. */
  ghost function StandsAt(a: Swing, b: Swing, tolerance: real, instant: int): real
    requires a.occurredAt != b.occurredAt
  {
    if !LevelPair(a, b, tolerance) then a.price + Pace(a, b, tolerance) * (instant - a.occurredAt) as real
    else if a.kind == High then Max(a.price, b.price)
    else Min(a.price, b.price)
  }

  /** Two highs and two lows make a consolidation: apart at the first pivot, and level or closing in. */
  ghost predicate Consolidates(h: seq<Swing>, l: seq<Swing>, tolerance: real, origin: int)
    requires |h| == 2 && |l| == 2 && h[0].occurredAt != h[1].occurredAt && l[0].occurredAt != l[1].occurredAt
  {
    && StandsAt(l[0], l[1], tolerance, origin) < StandsAt(h[0], h[1], tolerance, origin)
    && ((LevelPair(h[0], h[1], tolerance) && LevelPair(l[0], l[1], tolerance))
        || Pace(h[0], h[1], tolerance) < Pace(l[0], l[1], tolerance))
  }

  /** Name and bias of a consolidation, each exactly when its two boundaries move that way. */
  ghost predicate NamedByPace(g: Boundaries, top: real, bottom: real) {
    && (g.kind == Rectangle <==> top == 0.0 && bottom == 0.0)
    && (g.kind == AscendingTriangle <==> top == 0.0 && bottom > 0.0)
    && (g.kind == DescendingTriangle <==> top < 0.0 && bottom == 0.0)
    && (g.kind == RisingWedge <==> top > 0.0 && bottom > 0.0)
    && (g.kind == FallingWedge <==> top < 0.0 && bottom < 0.0)
    && (g.kind == ConvergingTriangle <==> top < 0.0 && bottom > 0.0)
    && g.bias == (if top > 0.0 then Bearish else if bottom < 0.0 then Bullish else Neutral)
  }

  lemma PerSecond(x: real, seconds: int, duration: int)
    requires duration > 0 && seconds != 0
    ensures Bars(seconds, duration) != 0.0
    ensures x / Bars(seconds, duration) == x / seconds as real * duration as real
  {
    BarsNonZero(seconds, duration);
    var s, d, b := seconds as real, duration as real, Bars(seconds, duration);
    assert b * d == s;
    var q := x / s;
    assert q * s == x;
    assert (q * d) * b == q * (b * d) == x;
  }

  lemma OverBars(pace: real, seconds: int, duration: int)
    requires duration > 0
    ensures Mul(pace * duration as real, Bars(seconds, duration)) == pace * seconds as real
  {
    var d, b := duration as real, Bars(seconds, duration);
    assert b * d == seconds as real;
    assert (pace * d) * b == pace * (b * d);
  }

  /** The line the code draws through a pair is the one the specification describes. */
  lemma LineExactly(a: Swing, b: Swing, origin: int, duration: int, tolerance: real, outer: real)
    requires duration > 0 && a.occurredAt != b.occurredAt && a.kind == b.kind
    requires outer == if a.kind == High then Max(a.price, b.price) else Min(a.price, b.price)
    ensures var line := BoundaryLine(a, b, origin, duration, tolerance, outer);
            && line.intercept == StandsAt(a, b, tolerance, origin)
            && line.slope == Mul(Pace(a, b, tolerance), duration as real)
    ensures FlatPair(a, b, tolerance) <==> LevelPair(a, b, tolerance)
  {
    if !LevelPair(a, b, tolerance) {
      var pace := Pace(a, b, tolerance);
      PerSecond(b.price - a.price, b.occurredAt - a.occurredAt, duration);
      OverBars(pace, a.occurredAt - origin, duration);
      SignFlip(pace, a.occurredAt - origin);
    }
    hide Bars, Mul;
  }

  lemma SignFlip(pace: real, seconds: int)
    ensures pace * (-seconds) as real == -(pace * seconds as real)
  {
    assert (-seconds) as real == -(seconds as real);
  }

  lemma PaceNonZero(a: Swing, b: Swing, tolerance: real)
    requires a.occurredAt != b.occurredAt && tolerance >= 0.0
    ensures Pace(a, b, tolerance) == 0.0 <==> LevelPair(a, b, tolerance)
  {
    if !LevelPair(a, b, tolerance) {
      var x, s := b.price - a.price, (b.occurredAt - a.occurredAt) as real;
      assert (x / s) * s == x;
    }
  }

  lemma ScaleSigns(x: real, y: real, c: real)
    requires c > 0.0
    ensures (Mul(x, c) == 0.0 <==> x == 0.0) && (Mul(x, c) > 0.0 <==> x > 0.0)
    ensures (Mul(y, c) == 0.0 <==> y == 0.0) && (Mul(y, c) < 0.0 <==> y < 0.0)
    ensures Mul(x, c) < Mul(y, c) <==> x < y
  {
    assert x < y ==> (y - x) * c > 0.0;
    assert x > y ==> (x - y) * c > 0.0;
  }

  /** Found exactly when the pairs consolidate, then named, anchored and placed by them. */
  ghost predicate ConsolidationOf(g: Option<Boundaries>, points: seq<Swing>, h: seq<Swing>, l: seq<Swing>,
                                  duration: int, tolerance: real)
    requires |points| > 0 && |h| == 2 && |l| == 2
    requires h[0].occurredAt != h[1].occurredAt && l[0].occurredAt != l[1].occurredAt
  {
    var origin := points[0].occurredAt;
    && (g.Some? <==> Consolidates(h, l, tolerance, origin))
    && (g.Some? ==>
          && g.value.points == points && NamedByPace(g.value, Pace(h[0], h[1], tolerance), Pace(l[0], l[1], tolerance))
          && g.value.upper.intercept == StandsAt(h[0], h[1], tolerance, origin)
          && g.value.lower.intercept == StandsAt(l[0], l[1], tolerance, origin)
          && g.value.upper.slope == Mul(Pace(h[0], h[1], tolerance), duration as real)
          && g.value.lower.slope == Mul(Pace(l[0], l[1], tolerance), duration as real))
  }

  lemma ClassifyExactly(points: seq<Swing>, upper: Line, lower: Line, level: bool, top: real, bottom: real, scale: real)
    requires scale > 0.0 && upper.slope == Mul(top, scale) && lower.slope == Mul(bottom, scale)
    requires level <==> top == 0.0 && bottom == 0.0
    ensures var g := Classify(points, upper, lower, level);
            && (g.Some? <==> lower.intercept < upper.intercept && (level || top < bottom))
            && (g.Some? ==> && g.value.points == points && g.value.upper == upper && g.value.lower == lower
                            && NamedByPace(g.value, top, bottom))
  {
    ScaleSigns(top, bottom, scale);
    hide Mul;
  }

  lemma FromPivotsExactly(points: seq<Swing>, h: seq<Swing>, l: seq<Swing>, duration: int, tolerance: real)
    requires |points| == 4 && |h| == 2 && |l| == 2 && duration > 0 && tolerance >= 0.0
    requires h[0].occurredAt != h[1].occurredAt && l[0].occurredAt != l[1].occurredAt
    requires h[0].kind == h[1].kind == High && l[0].kind == l[1].kind == Low
    ensures ConsolidationOf(FromPivots(points, h, l, duration, tolerance), points, h, l, duration, tolerance)
  {
    var origin := points[0].occurredAt;
    LineExactly(h[0], h[1], origin, duration, tolerance, Max(h[0].price, h[1].price));
    LineExactly(l[0], l[1], origin, duration, tolerance, Min(l[0].price, l[1].price));
    PaceNonZero(h[0], h[1], tolerance);
    PaceNonZero(l[0], l[1], tolerance);
    hide BoundaryLine, Pace, StandsAt, LevelPair, FlatPair, Max, Min, Classify, NamedByPace, Mul;
    ClassifyExactly(points,
      BoundaryLine(h[0], h[1], origin, duration, tolerance, Max(h[0].price, h[1].price)),
      BoundaryLine(l[0], l[1], origin, duration, tolerance, Min(l[0].price, l[1].price)),
      FlatPair(h[0], h[1], tolerance) && FlatPair(l[0], l[1], tolerance),
      Pace(h[0], h[1], tolerance), Pace(l[0], l[1], tolerance), duration as real);
  }

  /** The pivots of one side among others, in order, when there are exactly two. */
  ghost predicate PairOf(pair: seq<Swing>, points: seq<Swing>, side: SwingKind) {
    |pair| == 2 && pair == OfKind(points, side) && pair[0].occurredAt != pair[1].occurredAt
  }

  /**
   * Exactly which consolidation, if any, the last four pivots make: two of each side, apart at the
   * first pivot, level or closing in, named after the way each boundary moves.
   */
  lemma ConvergingExactly(points: seq<Swing>, h: seq<Swing>, l: seq<Swing>, duration: int, tolerance: real)
    requires duration > 0 && DistinctTimes(points) && tolerance >= 0.0
    ensures ConvergingBoundaries(points, duration, tolerance).Some? ==>
              |points| >= 4 && |OfKind(points[|points| - 4..], High)| == |OfKind(points[|points| - 4..], Low)| == 2
    ensures |points| >= 4 && PairOf(h, points[|points| - 4..], High) && PairOf(l, points[|points| - 4..], Low) ==>
              ConsolidationOf(ConvergingBoundaries(points, duration, tolerance), points[|points| - 4..], h, l,
                              duration, tolerance)
  {
    hide FromPivots, OfKind, ConsolidationOf;
    if |points| >= 4 && PairOf(h, LastFour(points), High) && PairOf(l, LastFour(points), Low) {
      var four := LastFour(points);
      OfKindDistinct(four, High);
      OfKindDistinct(four, Low);
      assert h[0] in h && h[1] in h && l[0] in l && l[1] in l;
      FromPivotsExactly(four, h, l, duration, tolerance);
    }
  }

  /** Where two converging boundaries meet, counted in bars from the first pivot. */
  function Apex(g: Boundaries): real
    requires g.lower.slope != g.upper.slope
  {
    (g.upper.intercept - g.lower.intercept) / (g.lower.slope - g.upper.slope)
  }

  /**
   * Every converging pattern other than a rectangle has a finite apex ahead of its first pivot,
   * and its boundaries are open strictly before the apex and closed from it on. A rectangle's
   * boundaries never close.
   */
  lemma ApexClosesBoundaries(points: seq<Swing>, duration: int, tolerance: real, x: real)
    requires duration > 0 && DistinctTimes(points)
    requires ConvergingBoundaries(points, duration, tolerance).Some?
    ensures var g := ConvergingBoundaries(points, duration, tolerance).value;
            && (g.kind == Rectangle ==> LineAt(g.lower, x) < LineAt(g.upper, x))
            && (g.kind != Rectangle ==>
                 && g.upper.slope < g.lower.slope
                 && Apex(g) > 0.0
                 && (LineAt(g.upper, x) <= LineAt(g.lower, x) <==> Apex(g) <= x))
  {
    hide BoundaryLine, OfKind, DistinctTimes;
    var g := ConvergingBoundaries(points, duration, tolerance).value;
    if g.kind == Rectangle {
      RectangleIsFlat(points, duration, tolerance);
    } else {
      CrossAt(g.upper, g.lower, x);
    }
  }

  lemma RectangleIsFlat(points: seq<Swing>, duration: int, tolerance: real)
    requires duration > 0 && DistinctTimes(points)
    requires ConvergingBoundaries(points, duration, tolerance).Some?
    requires ConvergingBoundaries(points, duration, tolerance).value.kind == Rectangle
    ensures var g := ConvergingBoundaries(points, duration, tolerance).value;
            g.upper.slope == 0.0 && g.lower.slope == 0.0 && g.lower.intercept < g.upper.intercept
  {
    hide OfKind, DistinctTimes, SlopeOf;
  }

  lemma CrossAt(upper: Line, lower: Line, x: real)
    requires upper.intercept > lower.intercept && upper.slope < lower.slope
    ensures var apex := (upper.intercept - lower.intercept) / (lower.slope - upper.slope);
            apex > 0.0 && (LineAt(upper, x) <= LineAt(lower, x) <==> apex <= x)
  {
    var gap, close := upper.intercept - lower.intercept, lower.slope - upper.slope;
    var apex := gap / close;
    assert Mul(apex, close) == gap;
    assert LineAt(upper, x) - LineAt(lower, x) == gap - Mul(x, close);
    ScaleOrder(apex, x, close);
  }

  lemma ScaleOrder(a: real, x: real, c: real)
    requires c > 0.0
    ensures Mul(a, c) <= Mul(x, c) <==> a <= x
  {
    if a <= x {
      assert (x - a) * c >= 0.0;
    } else {
      assert (a - x) * c > 0.0;
    }
  }

  // ------------------------------------------------------- pivots in use

  /** g rests on the latest pivots, at least three of them. */
  ghost predicate RestsOnLatest(g: Boundaries, points: seq<Swing>) {
    3 <= |g.points| <= |points| && g.points == points[|points| - |g.points|..]
  }

  lemma ReversalRestsOnLatest(points: seq<Swing>, tolerance: real)
    requires |points| >= 3 && ReversalBoundaries(points, tolerance).Some?
    ensures RestsOnLatest(ReversalBoundaries(points, tolerance).value, points)
  {
    hide ShapeOf;
  }

  lemma ConvergingRestsOnLatest(points: seq<Swing>, duration: int, tolerance: real)
    requires duration > 0 && DistinctTimes(points) && ConvergingBoundaries(points, duration, tolerance).Some?
    ensures RestsOnLatest(ConvergingBoundaries(points, duration, tolerance).value, points)
  {
    hide DistinctTimes, OfKind, BoundaryLine;
  }

  // --------------------------------------------------------------- mirrors

  function ReflectSwing(axis: real, s: Swing): Swing {
    s.(kind := if s.kind == High then Low else High, price := Reflect(axis, s.price))
  }

  function ReflectSwings(axis: real, s: seq<Swing>): (r: seq<Swing>)
    ensures |r| == |s|
    ensures forall i :: 0 <= i < |s| ==> r[i] == ReflectSwing(axis, s[i])
  {
    seq(|s|, i requires 0 <= i < |s| => ReflectSwing(axis, s[i]))
  }

  function Flip(d: Direction): Direction {
    match d
    case Bullish => Bearish
    case Bearish => Bullish
    case Neutral => Neutral
  }

  function MirrorKind(k: PatternKind): PatternKind {
    match k
    case HeadAndShoulders => InverseHeadAndShoulders
    case InverseHeadAndShoulders => HeadAndShoulders
    case TripleTop => TripleBottom
    case TripleBottom => TripleTop
    case DoubleTop => DoubleBottom
    case DoubleBottom => DoubleTop
    case Rectangle => Rectangle
    case AscendingTriangle => DescendingTriangle
    case DescendingTriangle => AscendingTriangle
    case RisingWedge => FallingWedge
    case FallingWedge => RisingWedge
    case ConvergingTriangle => ConvergingTriangle
  }

  function ReflectLine(axis: real, line: Line): Line {
    Line(Reflect(axis, line.intercept), -line.slope)
  }

  function ReflectBoundaries(axis: real, g: Boundaries): Boundaries {
    Boundaries(MirrorKind(g.kind), Flip(g.bias), ReflectSwings(axis, g.points),
      ReflectLine(axis, g.lower), ReflectLine(axis, g.upper))
  }

  function ReflectResult(axis: real, r: Option<Boundaries>): Option<Boundaries> {
    match r
    case None => None
    case Some(g) => Some(ReflectBoundaries(axis, g))
  }

  lemma {:induction false} CountAtMirror(axis: real, swings: seq<Swing>, time: int)
    ensures CountAt(ReflectSwings(axis, swings), time) == CountAt(swings, time)
  {
    if |swings| > 0 {
      var n := |swings| - 1;
      CountAtMirror(axis, swings[..n], time);
      assert ReflectSwings(axis, swings)[..n] == ReflectSwings(axis, swings[..n]);
    }
  }

  lemma {:induction false} CollapseMirror(axis: real, swings: seq<Swing>, n: nat)
    requires n <= |swings|
    ensures CollapseUpTo(ReflectSwings(axis, swings), n) == ReflectSwings(axis, CollapseUpTo(swings, n))
  {
    if n > 0 {
      CollapseMirror(axis, swings, n - 1);
      CountAtMirror(axis, swings, swings[n - 1].occurredAt);
      PushMirror(axis, CollapseUpTo(swings, n - 1), swings[n - 1]);
    }
  }

  lemma PushMirror(axis: real, result: seq<Swing>, s: Swing)
    ensures Push(ReflectSwings(axis, result), ReflectSwing(axis, s)) == ReflectSwings(axis, Push(result, s))
  {
  }

  lemma AlternatingMirror(axis: real, swings: seq<Swing>)
    ensures Alternating(ReflectSwings(axis, swings)) == ReflectSwings(axis, Alternating(swings))
  {
    CollapseMirror(axis, swings, |swings|);
  }

  lemma FivePointMirror(axis: real, p: seq<Swing>, tolerance: real)
    requires |p| == 5
    ensures FivePoint(ReflectSwings(axis, p), tolerance) == ReflectResult(axis, FivePoint(p, tolerance))
  {
    var top, a, b, c := p[0].kind == High, p[0].price, p[2].price, p[4].price;
    OuterShapeMirror(axis, p, tolerance);
    LevelsMirror(axis, top, p[1].price, p[3].price, tolerance);
    LevelsMirror(axis, top, a, b, tolerance);
    LevelsMirror(axis, top, b, b, tolerance);
    LevelsMirror(axis, top, Outer(top, a, b), c, tolerance);
    var neck := Neck(top, p[1].price, p[3].price);
    ReversingMirror(axis, top, HeadAndShoulders, InverseHeadAndShoulders, p, Beyond(top, b, tolerance), neck);
    ReversingMirror(axis, top, TripleTop, TripleBottom, p, Beyond(top, Outer(top, Outer(top, a, b), c), tolerance), neck);
    hide OuterShape, Neck, Outer, Beyond, Reversing, Reflect, ReflectBoundaries;
  }

  lemma OuterShapeMirror(axis: real, p: seq<Swing>, tolerance: real)
    requires |p| == 5
    ensures OuterShape(ReflectSwings(axis, p), tolerance) == OuterShape(p, tolerance)
  {
    var top := p[0].kind == High;
    var shift := if top then -2.0 * axis else 2.0 * axis;
    ShapeShift(Signed(top, p[0].price), Signed(top, p[2].price), Signed(top, p[4].price), tolerance, shift);
    hide ShapeOf;
  }

  lemma ReversingMirror(axis: real, top: bool, topKind: PatternKind, bottomKind: PatternKind, points: seq<Swing>,
                        outer: real, neck: real)
    requires MirrorKind(topKind) == bottomKind && MirrorKind(bottomKind) == topKind
    ensures Reversing(!top, topKind, bottomKind, ReflectSwings(axis, points), Reflect(axis, outer), Reflect(axis, neck))
         == ReflectBoundaries(axis, Reversing(top, topKind, bottomKind, points, outer, neck))
  {
  }

  lemma LevelsMirror(axis: real, top: bool, a: real, b: real, tolerance: real)
    ensures Neck(!top, Reflect(axis, a), Reflect(axis, b)) == Reflect(axis, Neck(top, a, b))
    ensures Outer(!top, Reflect(axis, a), Reflect(axis, b)) == Reflect(axis, Outer(top, a, b))
    ensures Beyond(!top, Reflect(axis, a), tolerance) == Reflect(axis, Beyond(top, a, tolerance))
    ensures Beyond(!top, Reflect(axis, Outer(top, a, b)), tolerance)
         == Reflect(axis, Beyond(top, Outer(top, a, b), tolerance))
  {
  }

  /** A shape depends only on price differences. */
  lemma ShapeShift(left: real, head: real, right: real, tolerance: real, shift: real)
    ensures ShapeOf(left + shift, head + shift, right + shift, tolerance) == ShapeOf(left, head, right, tolerance)
  {
  }

  lemma DoubledMirror(axis: real, a: Swing, b: Swing, c: Swing, tolerance: real)
    ensures Doubled(ReflectSwing(axis, a), ReflectSwing(axis, b), ReflectSwing(axis, c), tolerance)
         == ReflectResult(axis, Doubled(a, b, c, tolerance))
  {
    assert ReflectSwings(axis, [a, b, c]) == [ReflectSwing(axis, a), ReflectSwing(axis, b), ReflectSwing(axis, c)];
  }

  lemma ReversalMirror(axis: real, points: seq<Swing>, tolerance: real)
    requires |points| >= 3
    ensures ReversalBoundaries(ReflectSwings(axis, points), tolerance)
         == ReflectResult(axis, ReversalBoundaries(points, tolerance))
  {
    hide FivePoint, Doubled;
    var n := |points|;
    if n == 5 {
      FivePointMirror(axis, points, tolerance);
    }
    DoubledMirror(axis, points[n - 3], points[n - 2], points[n - 1], tolerance);
  }

  lemma {:induction false} OfKindMirror(axis: real, points: seq<Swing>)
    ensures OfKind(ReflectSwings(axis, points), High) == ReflectSwings(axis, OfKind(points, Low))
    ensures OfKind(ReflectSwings(axis, points), Low) == ReflectSwings(axis, OfKind(points, High))
  {
    if |points| > 0 {
      OfKindMirror(axis, points[1..]);
      assert ReflectSwings(axis, points)[1..] == ReflectSwings(axis, points[1..]);
      MirrorPrepend(axis, points[0], OfKind(points[1..], points[0].kind));
      hide ReflectSwings;
    }
  }

  lemma MirrorPrepend(axis: real, s: Swing, rest: seq<Swing>)
    ensures ReflectSwings(axis, [s] + rest) == [ReflectSwing(axis, s)] + ReflectSwings(axis, rest)
  {
  }

  lemma BoundaryLineMirror(axis: real, a: Swing, b: Swing, origin: int, duration: int, tolerance: real, outer: real)
    requires duration > 0 && a.occurredAt != b.occurredAt
    ensures BoundaryLine(ReflectSwing(axis, a), ReflectSwing(axis, b), origin, duration, tolerance, Reflect(axis, outer))
         == ReflectLine(axis, BoundaryLine(a, b, origin, duration, tolerance, outer))
  {
    BarsNonZero(b.occurredAt - a.occurredAt, duration);
    NegateQuotient(b.price - a.price, Bars(b.occurredAt - a.occurredAt, duration));
    NegateProduct(SlopeOf(a, b, duration), Bars(a.occurredAt - origin, duration));
    hide Bars, Mul;
  }

  lemma NegateQuotient(x: real, y: real)
    requires y != 0.0
    ensures (-x) / y == -(x / y)
  {
  }

  lemma NegateProduct(x: real, y: real)
    ensures Mul(-x, y) == -Mul(x, y)
  {
  }

  lemma ClassifyMirror(axis: real, points: seq<Swing>, upper: Line, lower: Line, bothFlat: bool)
    ensures Classify(ReflectSwings(axis, points), ReflectLine(axis, lower), ReflectLine(axis, upper), bothFlat)
         == ReflectResult(axis, Classify(points, upper, lower, bothFlat))
  {
  }

  lemma ConvergingMirror(axis: real, points: seq<Swing>, duration: int, tolerance: real)
    requires duration > 0 && DistinctTimes(points)
    ensures DistinctTimes(ReflectSwings(axis, points))
    ensures ConvergingBoundaries(ReflectSwings(axis, points), duration, tolerance)
         == ReflectResult(axis, ConvergingBoundaries(points, duration, tolerance))
  {
    assert DistinctTimes(ReflectSwings(axis, points));
    if |points| >= 4 {
      var four := LastFour(points);
      assert LastFour(ReflectSwings(axis, points)) == ReflectSwings(axis, four);
      var highs, lows := OfKind(four, High), OfKind(four, Low);
      OfKindMirror(axis, four);
      OfKindDistinct(four, High);
      OfKindDistinct(four, Low);
      hide OfKind, FromPivots;
      if |highs| == 2 && |lows| == 2 {
        FromPivotsMirror(axis, four, highs, lows, duration, tolerance);
      }
    }
  }

  lemma FromPivotsMirror(
    axis: real, points: seq<Swing>, highs: seq<Swing>, lows: seq<Swing>, duration: int, tolerance: real)
    requires |points| == 4 && |highs| == 2 && |lows| == 2 && duration > 0
    requires highs[0].occurredAt != highs[1].occurredAt && lows[0].occurredAt != lows[1].occurredAt
    ensures FromPivots(ReflectSwings(axis, points), ReflectSwings(axis, lows), ReflectSwings(axis, highs),
                       duration, tolerance)
         == ReflectResult(axis, FromPivots(points, highs, lows, duration, tolerance))
  {
    hide BoundaryLine, Classify;
    var origin, top, bottom :=
      points[0].occurredAt, Max(highs[0].price, highs[1].price), Min(lows[0].price, lows[1].price);
    BoundaryLineMirror(axis, highs[0], highs[1], origin, duration, tolerance, top);
    BoundaryLineMirror(axis, lows[0], lows[1], origin, duration, tolerance, bottom);
    ClassifyMirror(axis, points,
      BoundaryLine(highs[0], highs[1], origin, duration, tolerance, top),
      BoundaryLine(lows[0], lows[1], origin, duration, tolerance, bottom),
      FlatPair(highs[0], highs[1], tolerance) && FlatPair(lows[0], lows[1], tolerance));
  }
}
