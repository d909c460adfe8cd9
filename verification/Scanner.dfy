/** Candidate deduplication, ranking and bounded selection in the opportunity scanner. */
module Scanner {
  import opened Market

  const SPOT := "SPOT"
  const FUTURES := "USD_M_FUTURES"

  datatype Stage = DiscoveredStage | QualifiedStage | VirtualEligibleStage
  datatype Disposition = Accepted | Rejected | Watch | WaitForRetest

  datatype Candidate = Candidate(
    symbol: string, market: string, key: string,
    exclusions: seq<string>, confirmationGaps: seq<string>, validationGaps: seq<string>, hardBlockers: seq<string>,
    setupScore: real, evidenceScore: real, marketScore: real, multiTimeframeScore: real, penalty: real,
    riskReward: Option<real>,
    rankScore: real, rankingEligible: bool, selected: bool)

  datatype Policy = Policy(
    setup: real, evidence: real, regime: real, liquidity: real, execution: real, rewardRisk: real, softPenalty: real,
    spotLimit: nat, futuresLimit: nat)

  /** What construction of a policy guarantees about its weights. */
  ghost predicate ValidPolicy(p: Policy) {
    && p.setup >= 0.0 && p.evidence >= 0.0 && p.regime >= 0.0 && p.liquidity >= 0.0
    && p.execution >= 0.0 && p.rewardRisk >= 0.0 && p.softPenalty >= 0.0
    && p.setup + p.evidence + p.regime + p.liquidity + p.execution + p.rewardRisk == 1.0
  }

  predicate IsAccepted(c: Candidate) {
    c.exclusions == []
  }

  function StageOf(c: Candidate): Stage {
    if c.exclusions != [] then DiscoveredStage
    else if c.confirmationGaps != [] || c.validationGaps != [] then QualifiedStage
    else VirtualEligibleStage
  }

  predicate VirtualEligible(c: Candidate) {
    StageOf(c) == VirtualEligibleStage
  }

  function DispositionOf(c: Candidate): Disposition {
    if c.exclusions != [] then Rejected
    else if c.confirmationGaps != [] then WaitForRetest
    else if VirtualEligible(c) then Accepted
    else Watch
  }

  predicate RankingEligible(c: Candidate) {
    VirtualEligible(c) && c.hardBlockers == []
  }

  // ---------------------------------------------------------------- ordering

  /** Python's string order: by character, a proper prefix first. */
  predicate LexLess(a: string, b: string) {
    |b| > 0 && (|a| == 0 || a[0] < b[0] || (a[0] == b[0] && LexLess(a[1..], b[1..])))
  }

  lemma {:induction false} LexTransitive(a: string, b: string, c: string)
    requires LexLess(a, b) && LexLess(b, c)
    ensures LexLess(a, c)
    decreases |a|
  {
    if |a| > 0 && a[0] == b[0] && b[0] == c[0] {
      LexTransitive(a[1..], b[1..], c[1..]);
    }
  }

  lemma {:induction false} LexTotal(a: string, b: string)
    ensures !(LexLess(a, b) && LexLess(b, a))
    ensures LexLess(a, b) || LexLess(b, a) || a == b
    decreases |a|
  {
    if |a| > 0 && |b| > 0 && a[0] == b[0] {
      LexTotal(a[1..], b[1..]);
      if a[1..] == b[1..] {
        assert a == [a[0]] + a[1..] && b == [b[0]] + b[1..];
      }
    }
  }

  /** The sort key (rejected first component, then descending score, then symbol). */
  datatype Rank = Rank(rejected: bool, score: real, symbol: string)

  predicate Outranks(a: Rank, b: Rank) {
    || (!a.rejected && b.rejected)
    || (a.rejected == b.rejected && (a.score > b.score || (a.score == b.score && LexLess(a.symbol, b.symbol))))
  }

  lemma OutranksTransitive(a: Rank, b: Rank, c: Rank)
    requires Outranks(a, b) && Outranks(b, c)
    ensures Outranks(a, c)
  {
    if LexLess(a.symbol, b.symbol) && LexLess(b.symbol, c.symbol) {
      LexTransitive(a.symbol, b.symbol, c.symbol);
    }
  }

  lemma OutranksTotal(a: Rank, b: Rank)
    ensures !(Outranks(a, b) && Outranks(b, a))
    ensures Outranks(a, b) || Outranks(b, a) || a == b
  {
    LexTotal(a.symbol, b.symbol);
  }

  /** "No worse than" is transitive. */
  lemma NoWorseTransitive(a: Rank, b: Rank, c: Rank)
    requires !Outranks(b, a) && !Outranks(c, b)
    ensures !Outranks(c, a)
  {
    OutranksTotal(a, b);
    OutranksTotal(b, c);
    OutranksTotal(a, c);
    if Outranks(a, b) && Outranks(b, c) {
      OutranksTransitive(a, b, c);
    }
  }

  /** Listing order: accepted before rejected. */
  function ListRank(c: Candidate): Rank {
    Rank(!IsAccepted(c), c.rankScore, c.symbol)
  }

  /** Selection order within a market, where acceptance plays no part. */
  function SelectionRank(c: Candidate): Rank {
    Rank(false, c.rankScore, c.symbol)
  }

  /** The string order: the first difference decides, or the shorter string if there is none. */
  lemma {:induction false} LexExactly(a: string, b: string)
    ensures LexLess(a, b) <==>
            exists k :: 0 <= k <= |a| && k < |b| && a[..k] == b[..k] && (k == |a| || a[k] < b[k])
    decreases |a|
  {
    if |a| > 0 && |b| > 0 && a[0] == b[0] {
      var s, t := a[1..], b[1..];
      LexExactly(s, t);
      if LexLess(a, b) {
        var k :| 0 <= k <= |s| && k < |t| && s[..k] == t[..k] && (k == |s| || s[k] < t[k]);
        assert a[..k + 1] == [a[0]] + s[..k] && b[..k + 1] == [b[0]] + t[..k];
      }
      if k :| 0 <= k <= |a| && k < |b| && a[..k] == b[..k] && (k == |a| || a[k] < b[k]) {
        assert k > 0;
        assert s[..k - 1] == a[..k][1..] && t[..k - 1] == b[..k][1..];
      }
    } else if |b| > 0 {
      assert a[..0] == b[..0];
      if k :| 0 <= k <= |a| && k < |b| && a[..k] == b[..k] && (k == |a| || a[k] < b[k]) {
        assert k > 0 ==> a[..k][0] == b[..k][0];
      }
    }
  }

  /** The listing: accepted before rejected, then the higher score, then the symbol in string order. */
  lemma ListingExactly(a: Candidate, b: Candidate)
    ensures Outranks(ListRank(a), ListRank(b)) <==>
            || (a.exclusions == [] && b.exclusions != [])
            || ((a.exclusions == [] <==> b.exclusions == []) &&
                (a.rankScore > b.rankScore || (a.rankScore == b.rankScore && LexLess(a.symbol, b.symbol))))
    ensures Outranks(SelectionRank(a), SelectionRank(b)) <==>
            a.rankScore > b.rankScore || (a.rankScore == b.rankScore && LexLess(a.symbol, b.symbol))
  {
  }

  // ----------------------------------------------------------------- sorting

  /** Stable insertion: after every element that does not rank strictly lower. */
  function Insert(s: seq<Candidate>, c: Candidate, rank: Candidate -> Rank): seq<Candidate> {
    if |s| == 0 then [c]
    else if Outranks(rank(c), rank(s[|s|-1])) then Insert(s[..|s|-1], c, rank) + [s[|s|-1]]
    else s + [c]
  }

  function SortBy(s: seq<Candidate>, rank: Candidate -> Rank): seq<Candidate> {
    if |s| == 0 then [] else Insert(SortBy(s[..|s|-1], rank), s[|s|-1], rank)
  }

  ghost predicate SortedBy(s: seq<Candidate>, rank: Candidate -> Rank) {
    forall i, j :: 0 <= i < j < |s| ==> !Outranks(rank(s[j]), rank(s[i]))
  }

  lemma {:induction false} InsertContents(s: seq<Candidate>, c: Candidate, rank: Candidate -> Rank)
    ensures multiset(Insert(s, c, rank)) == multiset(s) + multiset{c}
    ensures |Insert(s, c, rank)| == |s| + 1
    ensures forall x :: x in Insert(s, c, rank) <==> x in s || x == c
  {
    hide Outranks;
    if |s| > 0 {
      assert s == s[..|s|-1] + [s[|s|-1]];
      InsertContents(s[..|s|-1], c, rank);
    }
  }

  lemma {:induction false} InsertSorted(s: seq<Candidate>, c: Candidate, rank: Candidate -> Rank)
    requires SortedBy(s, rank)
    ensures SortedBy(Insert(s, c, rank), rank)
  {
    hide Outranks;
    if |s| > 0 {
      var n := |s| - 1;
      var last := s[n];
      if Outranks(rank(c), rank(last)) {
        InsertSorted(s[..n], c, rank);
        InsertContents(s[..n], c, rank);
        OutranksTotal(rank(c), rank(last));
        var t := Insert(s[..n], c, rank);
        forall i | 0 <= i < |t| ensures !Outranks(rank(last), rank(t[i])) {
          assert t[i] in t;
          if t[i] != c {
            var k :| 0 <= k < n && s[k] == t[i];
          }
        }
        SortedAppend(t, last, rank);
      } else {
        forall i | 0 <= i < |s| ensures !Outranks(rank(c), rank(s[i])) {
          if i < n {
            NoWorseTransitive(rank(s[i]), rank(last), rank(c));
          }
        }
        SortedAppend(s, c, rank);
      }
    }
  }

  lemma SortedAppend(s: seq<Candidate>, c: Candidate, rank: Candidate -> Rank)
    requires SortedBy(s, rank) && forall i :: 0 <= i < |s| ==> !Outranks(rank(c), rank(s[i]))
    ensures SortedBy(s + [c], rank)
  {
    hide Outranks;
  }

  /** Sorting yields an ordered permutation. */
  lemma {:induction false} SortBySorts(s: seq<Candidate>, rank: Candidate -> Rank)
    ensures SortedBy(SortBy(s, rank), rank)
    ensures multiset(SortBy(s, rank)) == multiset(s)
    ensures |SortBy(s, rank)| == |s|
    ensures forall x :: x in SortBy(s, rank) <==> x in s
  {
    if |s| > 0 {
      var n := |s| - 1;
      assert s == s[..n] + [s[n]];
      SortBySorts(s[..n], rank);
      InsertContents(SortBy(s[..n], rank), s[n], rank);
      InsertSorted(SortBy(s[..n], rank), s[n], rank);
    }
  }

  /** The candidates of one rank, in order. */
  ghost function Tied(s: seq<Candidate>, rank: Candidate -> Rank, r: Rank): seq<Candidate> {
    if |s| == 0 then []
    else Tied(s[..|s|-1], rank, r) + (if rank(s[|s|-1]) == r then [s[|s|-1]] else [])
  }

  lemma TiedAppend(s: seq<Candidate>, c: Candidate, rank: Candidate -> Rank, r: Rank)
    ensures Tied(s + [c], rank, r) == Tied(s, rank, r) + (if rank(c) == r then [c] else [])
  {
    assert (s + [c])[..|s|] == s;
  }

  lemma {:induction false} InsertIsStable(s: seq<Candidate>, c: Candidate, rank: Candidate -> Rank, r: Rank)
    ensures Tied(Insert(s, c, rank), rank, r) == Tied(s, rank, r) + (if rank(c) == r then [c] else [])
  {
    hide Outranks;
    TiedAppend(s, c, rank, r);
    if |s| > 0 && Outranks(rank(c), rank(s[|s|-1])) {
      var n := |s| - 1;
      OutranksTotal(rank(c), rank(s[n]));
      InsertIsStable(s[..n], c, rank, r);
      TiedAppend(Insert(s[..n], c, rank), s[n], rank, r);
    } else if |s| == 0 {
      assert s + [c] == [c];
    }
  }

  /** Sorting is stable: candidates of equal rank keep their order, which decides ties at the limit. */
  lemma {:induction false} SortIsStable(s: seq<Candidate>, rank: Candidate -> Rank, r: Rank)
    ensures Tied(SortBy(s, rank), rank, r) == Tied(s, rank, r)
  {
    hide Insert;
    if |s| > 0 {
      var n := |s| - 1;
      SortIsStable(s[..n], rank, r);
      InsertIsStable(SortBy(s[..n], rank), s[n], rank, r);
    }
  }

  // ----------------------------------------------------------- deduplication

  ghost predicate DistinctKeys(s: seq<Candidate>) {
    forall i, j :: 0 <= i < j < |s| ==> s[i].key != s[j].key
  }

  /** One candidate per key of the first n, each the best of its key. */
  ghost predicate BestPerKey(chosen: map<string, Candidate>, s: seq<Candidate>, n: nat)
    requires n <= |s|
  {
    && (forall k :: k in chosen ==> chosen[k].key == k && exists i :: 0 <= i < n && s[i] == chosen[k])
    && (forall i :: 0 <= i < n ==>
          s[i].key in chosen && !Outranks(ListRank(s[i]), ListRank(chosen[s[i].key])))
  }

  lemma BestStep(chosen: map<string, Candidate>, s: seq<Candidate>, n: nat)
    requires n < |s| && BestPerKey(chosen, s, n)
    ensures var c := s[n];
            var better := c.key !in chosen || Outranks(ListRank(c), ListRank(chosen[c.key]));
            BestPerKey(if better then chosen[c.key := c] else chosen, s, n + 1)
  {
    hide Outranks, ListRank;
    var c := s[n];
    var better := c.key !in chosen || Outranks(ListRank(c), ListRank(chosen[c.key]));
    if better {
      var next := chosen[c.key := c];
      OutranksTotal(ListRank(c), ListRank(c));
      forall i | 0 <= i < n + 1
        ensures s[i].key in next && !Outranks(ListRank(s[i]), ListRank(next[s[i].key]))
      {
        if i < n && s[i].key == c.key {
          OutranksTotal(ListRank(c), ListRank(chosen[c.key]));
          NoWorseTransitive(ListRank(c), ListRank(chosen[c.key]), ListRank(s[i]));
        }
      }
    }
  }

  /** The candidates a dictionary holds, in the order its keys were first inserted. */
  function InOrder(order: seq<string>, chosen: map<string, Candidate>): (r: seq<Candidate>)
    requires forall k :: k in order ==> k in chosen
    ensures |r| == |order| && forall i :: 0 <= i < |order| ==> r[i] == chosen[order[i]]
  {
    seq(|order|, i requires 0 <= i < |order| => chosen[order[i]])
  }

  ghost predicate Lists(order: seq<string>, chosen: map<string, Candidate>) {
    && (forall i, j :: 0 <= i < j < |order| ==> order[i] != order[j])
    && (forall k :: k in order <==> k in chosen)
  }

  /** For every candidate of s, r holds one of the same key that it does not outrank. */
  ghost predicate HoldsBest(r: seq<Candidate>, s: seq<Candidate>) {
    forall c :: c in s ==> exists b :: b in r && b.key == c.key && !Outranks(ListRank(c), ListRank(b))
  }

  /** Exactly one candidate per key, none outranked by another of its key, listed best first. */
  method Deduplicate(s: seq<Candidate>) returns (r: seq<Candidate>)
    ensures DistinctKeys(r) && SortedBy(r, ListRank)
    ensures forall c :: c in r ==> c in s
    ensures HoldsBest(r, s)
  {
    hide Outranks, ListRank, SortBy;
    var chosen: map<string, Candidate> := map[];
    var order: seq<string> := [];
    for n := 0 to |s|
      invariant BestPerKey(chosen, s, n) && Lists(order, chosen)
    {
      var c := s[n];
      BestStep(chosen, s, n);
      if c.key !in chosen {
        order := order + [c.key];
        chosen := chosen[c.key := c];
      } else if Outranks(ListRank(c), ListRank(chosen[c.key])) {
        chosen := chosen[c.key := c];
      }
    }
    var kept := InOrder(order, chosen);
    r := SortBy(kept, ListRank);
    DeduplicateConcludes(s, chosen, order, kept);
  }

  lemma DeduplicateConcludes(s: seq<Candidate>, chosen: map<string, Candidate>, order: seq<string>, kept: seq<Candidate>)
    requires BestPerKey(chosen, s, |s|) && Lists(order, chosen) && kept == InOrder(order, chosen)
    ensures var r := SortBy(kept, ListRank);
            && DistinctKeys(r) && SortedBy(r, ListRank)
            && (forall c :: c in r ==> c in s)
            && HoldsBest(r, s)
  {
    hide Outranks, ListRank, SortBy;
    SortBySorts(kept, ListRank);
    var r := SortBy(kept, ListRank);
    forall i | 0 <= i < |order| ensures kept[i].key == order[i] {
      assert order[i] in order;
    }
    assert DistinctKeys(kept);
    PermutationKeepsDistinctKeys(kept, r);
    forall c | c in r ensures c in s {
      var i :| 0 <= i < |kept| && kept[i] == c;
      assert order[i] in order;
    }
    forall c | c in s ensures exists b :: b in r && b.key == c.key && !Outranks(ListRank(c), ListRank(b)) {
      var i :| 0 <= i < |s| && s[i] == c;
      assert c.key in order;
      var j :| 0 <= j < |order| && order[j] == c.key;
      assert kept[j] in r && kept[j] == chosen[c.key];
    }
  }

  lemma {:induction false} PermutationKeepsDistinctKeys(a: seq<Candidate>, b: seq<Candidate>)
    requires DistinctKeys(a) && multiset(a) == multiset(b)
    ensures DistinctKeys(b)
  {
    forall i, j | 0 <= i < j < |b| ensures b[i].key != b[j].key {
      assert b[i] in multiset(b) && b[j] in multiset(b);
      assert b[i] in a && b[j] in a;
      if b[i] == b[j] {
        Repeated(b, i, j);
        Single(a, b[i]);
      }
    }
  }

  lemma Repeated(s: seq<Candidate>, i: nat, j: nat)
    requires i < j < |s| && s[i] == s[j]
    ensures multiset(s)[s[i]] >= 2
  {
    assert s == s[..j] + [s[j]] + s[j + 1..];
    assert s[i] in s[..j];
  }

  lemma {:induction false} Single(s: seq<Candidate>, c: Candidate)
    requires DistinctKeys(s)
    ensures multiset(s)[c] <= 1
  {
    if |s| > 0 {
      var n := |s| - 1;
      assert s == s[..n] + [s[n]];
      Single(s[..n], c);
      if s[n] == c {
        assert c !in s[..n];
      }
    }
  }

  // ----------------------------------------------------------------- scoring

  function RegimeScore(c: Candidate): real {
    if c.multiTimeframeScore > 0.0 then c.multiTimeframeScore
    else if c.confirmationGaps != [] then 25.0
    else if c.validationGaps != [] then 50.0
    else 60.0
  }

  function ExecutionScore(c: Candidate): real {
    if c.exclusions != [] then 0.0
    else if c.confirmationGaps != [] then 35.0
    else if c.validationGaps != [] then 55.0
    else 85.0
  }

  function RewardRiskScore(c: Candidate): real {
    match c.riskReward
    case None => 0.0
    case Some(ratio) => Min(100.0, Max(0.0, (ratio - 1.0) * 50.0))
  }

  function WeightedScore(c: Candidate, p: Policy): real {
    Mul(c.setupScore, p.setup) + Mul(c.evidenceScore, p.evidence) + Mul(RegimeScore(c), p.regime)
    + Mul(c.marketScore, p.liquidity) + Mul(ExecutionScore(c), p.execution) + Mul(RewardRiskScore(c), p.rewardRisk)
  }

  function RankScore(c: Candidate, p: Policy): real {
    if !RankingEligible(c) then 0.0
    else Max(0.0, Min(100.0, WeightedScore(c, p) - Mul(c.penalty, p.softPenalty)))
  }

  /**
   * The score of an eligible candidate with every weight on its own component. Having neither gaps
   * nor exclusions it executes at 85 and, without a multi-timeframe reading, aligns at 60; its
   * reward-to-risk ratio counts from nothing at one to the full hundred at three.
   */
  lemma ScoreExactly(c: Candidate, p: Policy)
    ensures RankingEligible(c) <==>
              c.exclusions == [] && c.confirmationGaps == [] && c.validationGaps == [] && c.hardBlockers == []
    ensures !RankingEligible(c) ==> RankScore(c, p) == 0.0
    ensures RankingEligible(c) ==>
            var regime := if c.multiTimeframeScore > 0.0 then c.multiTimeframeScore else 60.0;
            var reward := RewardRiskScore(c);
            var total := Mul(c.setupScore, p.setup) + Mul(c.evidenceScore, p.evidence) + Mul(regime, p.regime)
                         + Mul(c.marketScore, p.liquidity) + Mul(85.0, p.execution) + Mul(reward, p.rewardRisk)
                         - Mul(c.penalty, p.softPenalty);
            RankScore(c, p) == if total < 0.0 then 0.0 else if total > 100.0 then 100.0 else total
    ensures c.riskReward.None? ==> RewardRiskScore(c) == 0.0
    ensures c.riskReward.Some? ==>
            var ratio := c.riskReward.value;
            && (ratio <= 1.0 ==> RewardRiskScore(c) == 0.0)
            && (ratio >= 3.0 ==> RewardRiskScore(c) == 100.0)
            && (1.0 <= ratio <= 3.0 ==> RewardRiskScore(c) == 50.0 * (ratio - 1.0))
  {
    hide RewardRiskScore, Mul;
    RewardExactly(c);
  }

  /** The two readings a candidate's gaps decide, eligible or not. */
  lemma ComponentsExactly(c: Candidate)
    ensures RegimeScore(c) ==
            (if c.multiTimeframeScore > 0.0 then c.multiTimeframeScore
             else if c.confirmationGaps == [] && c.validationGaps == [] then 60.0
             else if c.confirmationGaps == [] then 50.0
             else 25.0)
    ensures ExecutionScore(c) ==
            (if c.exclusions == [] && c.confirmationGaps == [] && c.validationGaps == [] then 85.0
             else if c.exclusions == [] && c.confirmationGaps == [] then 55.0
             else if c.exclusions == [] then 35.0
             else 0.0)
  {
  }

  lemma RewardExactly(c: Candidate)
    ensures c.riskReward.None? ==> RewardRiskScore(c) == 0.0
    ensures c.riskReward.Some? ==>
            var ratio := c.riskReward.value;
            && (ratio <= 1.0 ==> RewardRiskScore(c) == 0.0)
            && (ratio >= 3.0 ==> RewardRiskScore(c) == 100.0)
            && (1.0 <= ratio <= 3.0 ==> RewardRiskScore(c) == 50.0 * (ratio - 1.0))
  {
  }

  ghost predicate ComponentsWithin(c: Candidate, lo: real, hi: real) {
    && lo <= c.setupScore <= hi && lo <= c.evidenceScore <= hi && lo <= RegimeScore(c) <= hi
    && lo <= c.marketScore <= hi && lo <= ExecutionScore(c) <= hi && lo <= RewardRiskScore(c) <= hi
  }

  /**
   * The score is a mean of its components less the penalty: whatever bounds the components bounds
   * the score, so the upper clamp never cuts and only a penalty can push it below the weakest one.
   */
  lemma RankScoreIsPenalizedMean(c: Candidate, p: Policy, lo: real, hi: real)
    requires ValidPolicy(p) && RankingEligible(c) && c.penalty >= 0.0
    requires 0.0 <= lo && hi <= 100.0 && ComponentsWithin(c, lo, hi)
    ensures RankScore(c, p) == Max(0.0, WeightedScore(c, p) - Mul(c.penalty, p.softPenalty))
    ensures Max(0.0, lo - Mul(c.penalty, p.softPenalty)) <= RankScore(c, p) <= hi
  {
    Weigh(c.setupScore, p.setup, lo, hi);
    Weigh(c.evidenceScore, p.evidence, lo, hi);
    Weigh(RegimeScore(c), p.regime, lo, hi);
    Weigh(c.marketScore, p.liquidity, lo, hi);
    Weigh(ExecutionScore(c), p.execution, lo, hi);
    Weigh(RewardRiskScore(c), p.rewardRisk, lo, hi);
    Weigh(c.penalty, p.softPenalty, 0.0, c.penalty);
    WeightsTotal(p, lo);
    WeightsTotal(p, hi);
    hide Mul, RegimeScore, ExecutionScore, RewardRiskScore;
  }

  lemma Weigh(x: real, w: real, lo: real, hi: real)
    requires w >= 0.0 && lo <= x <= hi
    ensures Mul(lo, w) <= Mul(x, w) <= Mul(hi, w)
  {
    assert (x - lo) * w >= 0.0 && (hi - x) * w >= 0.0;
  }

  lemma WeightsTotal(p: Policy, v: real)
    requires ValidPolicy(p)
    ensures Mul(v, p.setup) + Mul(v, p.evidence) + Mul(v, p.regime) + Mul(v, p.liquidity)
            + Mul(v, p.execution) + Mul(v, p.rewardRisk) == v
    ensures Mul(0.0, p.softPenalty) == 0.0
  {
    assert v * (p.setup + p.evidence + p.regime + p.liquidity + p.execution + p.rewardRisk) == v;
  }

  function Scored(c: Candidate, p: Policy): Candidate {
    c.(rankScore := RankScore(c, p), rankingEligible := RankingEligible(c))
  }

  function ScoreAll(s: seq<Candidate>, p: Policy): (r: seq<Candidate>)
    ensures |r| == |s| && forall i :: 0 <= i < |s| ==> r[i] == Scored(s[i], p)
  {
    seq(|s|, i requires 0 <= i < |s| => Scored(s[i], p))
  }

  // --------------------------------------------------------------- selection

  function EligibleIn(s: seq<Candidate>, market: string): seq<Candidate> {
    if |s| == 0 then []
    else
      var n := |s| - 1;
      EligibleIn(s[..n], market) + (if s[n].market == market && s[n].rankingEligible then [s[n]] else [])
  }

  function Take(s: seq<Candidate>, limit: nat): seq<Candidate> {
    if |s| <= limit then s else s[..limit]
  }

  function Shortlist(s: seq<Candidate>, market: string, limit: nat): seq<Candidate> {
    Take(SortBy(EligibleIn(s, market), SelectionRank), limit)
  }

  function KeySet(s: seq<Candidate>): set<string> {
    set c | c in s :: c.key
  }

  function TopKeys(s: seq<Candidate>, p: Policy): set<string> {
    KeySet(Shortlist(s, SPOT, p.spotLimit)) + KeySet(Shortlist(s, FUTURES, p.futuresLimit))
  }

  /** As many of the eligible candidates as the limit allows, none outranked by one left out. */
  ghost predicate IsTop(top: seq<Candidate>, eligible: seq<Candidate>, limit: nat) {
    && |top| == (if |eligible| <= limit then |eligible| else limit)
    && multiset(top) <= multiset(eligible)
    && (forall c :: c in top ==> c in eligible)
    && (forall c, u :: c in top && u in eligible && u !in top ==> !Outranks(SelectionRank(u), SelectionRank(c)))
  }

  /** The keys of the best eligible candidates of both markets, as many as each market's limit allows. */
  method SelectTopKeys(s: seq<Candidate>, p: Policy) returns (keys: set<string>)
    ensures keys == TopKeys(s, p)
    ensures exists spot, futures ::
              && IsTop(spot, EligibleIn(s, SPOT), p.spotLimit) && IsTop(futures, EligibleIn(s, FUTURES), p.futuresLimit)
              && keys == KeySet(spot) + KeySet(futures)
  {
    hide IsTop, Shortlist, EligibleIn, KeySet;
    keys := {};
    var markets := [(SPOT, p.spotLimit), (FUTURES, p.futuresLimit)];
    for i := 0 to |markets|
      invariant keys == (if i > 0 then KeySet(Shortlist(s, SPOT, p.spotLimit)) else {})
                      + (if i > 1 then KeySet(Shortlist(s, FUTURES, p.futuresLimit)) else {})
    {
      keys := keys + KeySet(Shortlist(s, markets[i].0, markets[i].1));
    }
    ShortlistIsTop(s, SPOT, p.spotLimit);
    ShortlistIsTop(s, FUTURES, p.futuresLimit);
  }

  function Mark(s: seq<Candidate>, keys: set<string>): (r: seq<Candidate>)
    ensures |r| == |s| && forall i :: 0 <= i < |s| ==> r[i] == s[i].(selected := s[i].key in keys)
  {
    seq(|s|, i requires 0 <= i < |s| => s[i].(selected := s[i].key in keys))
  }

  lemma {:induction false} EligibleInExactly(s: seq<Candidate>, market: string)
    ensures forall c :: c in EligibleIn(s, market) <==> c in s && c.market == market && c.rankingEligible
    ensures DistinctKeys(s) ==> DistinctKeys(EligibleIn(s, market))
  {
    if |s| > 0 {
      var n := |s| - 1;
      assert s == s[..n] + [s[n]];
      EligibleInExactly(s[..n], market);
      if DistinctKeys(s) {
        forall c | c in EligibleIn(s[..n], market) ensures c.key != s[n].key {
          var i :| 0 <= i < n && s[i] == c;
        }
      }
    }
  }

  lemma {:induction false} DistinctKeyCount(s: seq<Candidate>)
    requires DistinctKeys(s)
    ensures |KeySet(s)| == |s|
  {
    if |s| > 0 {
      var n := |s| - 1;
      DistinctKeyCount(s[..n]);
      assert s == s[..n] + [s[n]];
      assert KeySet(s) == KeySet(s[..n]) + {s[n].key};
      assert s[n].key !in KeySet(s[..n]);
    }
  }

  /** A market's shortlist: as many as allowed, only eligible, and the best of them. */
  lemma ShortlistIsTop(s: seq<Candidate>, market: string, limit: nat)
    ensures IsTop(Shortlist(s, market, limit), EligibleIn(s, market), limit)
    ensures DistinctKeys(s) ==> |KeySet(Shortlist(s, market, limit))| == |Shortlist(s, market, limit)|
  {
    hide Outranks, SelectionRank, SortBy, EligibleIn;
    var eligible := EligibleIn(s, market);
    SortBySorts(eligible, SelectionRank);
    var ordered := SortBy(eligible, SelectionRank);
    TakeIsTop(ordered, limit, SelectionRank);
    if DistinctKeys(s) {
      EligibleInExactly(s, market);
      PermutationKeepsDistinctKeys(eligible, ordered);
      DistinctKeyCount(Take(ordered, limit));
    }
  }

  lemma TakeIsTop(ordered: seq<Candidate>, limit: nat, rank: Candidate -> Rank)
    requires SortedBy(ordered, rank)
    ensures var top := Take(ordered, limit);
            && multiset(top) <= multiset(ordered)
            && (forall c :: c in top ==> c in ordered)
            && (forall c, u :: c in top && u in ordered && u !in top ==> !Outranks(rank(u), rank(c)))
  {
    hide Outranks;
    assert |ordered| > limit ==> ordered == ordered[..limit] + ordered[limit..];
    var top := Take(ordered, limit);
    assert forall i :: 0 <= i < |top| ==> top[i] == ordered[i] && top[i] in top;
    forall c, u | c in top && u in ordered && u !in top ensures !Outranks(rank(u), rank(c)) {
      var i :| 0 <= i < |top| && top[i] == c;
      var j :| 0 <= j < |ordered| && ordered[j] == u;
    }
  }

  /** Nothing with an exclusion, a gap or a hard blocker, or outside the two markets, is selected. */
  ghost predicate OnlyCleanSelected(r: seq<Candidate>) {
    forall c :: c in r && c.selected ==>
      && (c.market == SPOT || c.market == FUTURES)
      && c.exclusions == [] && c.confirmationGaps == [] && c.validationGaps == [] && c.hardBlockers == []
  }

  /** d is c with its score computed, marked one way or the other. */
  ghost predicate ScoredCopy(d: Candidate, c: Candidate, p: Policy) {
    d.(selected := c.selected) == Scored(c, p)
  }

  lemma CopyKeepsKey(d: Candidate, c: Candidate, p: Policy)
    requires ScoredCopy(d, c, p)
    ensures d.key == c.key
  {
  }

  /** Every candidate of r is one of s, scored, and marked one way or the other. */
  ghost predicate ScoredFrom(r: seq<Candidate>, s: seq<Candidate>, p: Policy) {
    forall d :: d in r ==> exists c :: c in s && ScoredCopy(d, c, p)
  }

  ghost predicate AllScored(r: seq<Candidate>, s: seq<Candidate>, p: Policy) {
    forall c :: c in s ==> exists d :: d in r && ScoredCopy(d, c, p)
  }

  ghost function ChosenKeys(r: seq<Candidate>, market: string): set<string> {
    set c | c in r && c.market == market && c.selected :: c.key
  }

  ghost function EligibleKeys(r: seq<Candidate>, market: string): set<string> {
    set c | c in r && c.market == market && c.rankingEligible :: c.key
  }

  /** What the report may be relied on for, market by market. */
  ghost predicate FairSelection(r: seq<Candidate>, market: string, limit: nat) {
    var chosen, eligible := |ChosenKeys(r, market)|, |EligibleKeys(r, market)|;
    && chosen == (if eligible <= limit then eligible else limit)
    && (forall c :: c in r && c.market == market && c.selected ==> c.rankingEligible)
    && (forall c, u :: c in r && u in r && c.market == u.market == market && c.selected && u.rankingEligible && !u.selected
          ==> !Outranks(SelectionRank(u), SelectionRank(c)))
  }

  /** The scored candidates, marked by key. */
  function ScoredAndMarked(s: seq<Candidate>, p: Policy): seq<Candidate> {
    var ranked := ScoreAll(s, p);
    Mark(ranked, TopKeys(ranked, p))
  }

  /**
   * Ranking and selection: a listed permutation of the scored input, marked by key. Over distinct
   * keys, which deduplication provides, each market selects as many eligible candidates as its
   * limit allows, the best ones, and never one with a gap, an exclusion or a hard blocker.
   */
  method ApplyRanking(s: seq<Candidate>, p: Policy) returns (r: seq<Candidate>)
    ensures SortedBy(r, ListRank) && multiset(r) == multiset(ScoredAndMarked(s, p))
    ensures AllScored(r, s, p) && ScoredFrom(r, s, p)
    ensures DistinctKeys(s) ==>
      && DistinctKeys(r)
      && FairSelection(r, SPOT, p.spotLimit) && FairSelection(r, FUTURES, p.futuresLimit)
      && OnlyCleanSelected(r)
  {
    hide Outranks, ListRank, SortBy, Scored, FairSelection, DistinctKeys, OnlyCleanSelected, AllScored, ScoredFrom, IsTop;
    var ranked := ScoreAll(s, p);
    var keys := SelectTopKeys(ranked, p);
    var marked := Mark(ranked, keys);
    r := SortBy(marked, ListRank);
    SortBySorts(marked, ListRank);
    OriginsKept(s, p, keys, r);
    if DistinctKeys(s) {
      ScoringKeepsKeys(s, p);
      MarkingKeepsKeys(ranked, keys);
      PermutationKeepsDistinctKeys(marked, r);
      MarkedFairly(ranked, p, keys, marked);
      FairnessIsOrderless(marked, r, SPOT, p.spotLimit);
      FairnessIsOrderless(marked, r, FUTURES, p.futuresLimit);
      SelectedAreClean(s, p, keys, r);
    }
  }

  /**
   * Distinct keys are needed: selection marks by key, so a rejected candidate that shares the key
   * of a selected one would be selected with it.
   */
  lemma SharedKeySpreadsSelection(c: Candidate, exclusion: string, p: Policy)
    requires RankingEligible(c) && c.market == SPOT && p.spotLimit > 0
    ensures var rejected := c.(exclusions := [exclusion]);
            var r := ScoredAndMarked([c, rejected], p);
            !OnlyCleanSelected(r)
  {
    hide RankScore, Shortlist, Outranks;
    var s := [c, c.(exclusions := [exclusion])];
    var ranked, r := ScoreAll(s, p), ScoredAndMarked(s, p);
    var top, eligible := Shortlist(ranked, SPOT, p.spotLimit), EligibleIn(ranked, SPOT);
    ShortlistIsTop(ranked, SPOT, p.spotLimit);
    EligibleInExactly(ranked, SPOT);
    assert ranked[0] in eligible && top[0] in top;
    assert top[0].key == c.key && c.key in KeySet(top);
    assert r[1] in r && r[1].selected;
  }

  lemma ScoringKeepsKeys(s: seq<Candidate>, p: Policy)
    requires DistinctKeys(s)
    ensures DistinctKeys(ScoreAll(s, p))
  {
    hide RankScore;
  }

  lemma MarkingKeepsKeys(s: seq<Candidate>, keys: set<string>)
    requires DistinctKeys(s)
    ensures DistinctKeys(Mark(s, keys))
  {
  }

  lemma OriginsKept(s: seq<Candidate>, p: Policy, keys: set<string>, r: seq<Candidate>)
    requires forall x :: x in r <==> x in Mark(ScoreAll(s, p), keys)
    ensures AllScored(r, s, p) && ScoredFrom(r, s, p)
  {
    hide RankScore, RankingEligible;
    var marked := Mark(ScoreAll(s, p), keys);
    forall c | c in s ensures exists d :: d in r && ScoredCopy(d, c, p) {
      var i :| 0 <= i < |s| && s[i] == c;
      assert marked[i] in r && ScoredCopy(marked[i], c, p);
    }
    forall d | d in r ensures exists c :: c in s && ScoredCopy(d, c, p) {
      var i :| 0 <= i < |marked| && marked[i] == d;
      assert s[i] in s && ScoredCopy(d, s[i], p);
    }
  }

  lemma SelectedAreClean(s: seq<Candidate>, p: Policy, keys: set<string>, r: seq<Candidate>)
    requires DistinctKeys(s)
    requires keys == TopKeys(ScoreAll(s, p), p)
    requires forall x :: x in r <==> x in Mark(ScoreAll(s, p), keys)
    ensures OnlyCleanSelected(r)
  {
    hide RankScore, SortBy, Shortlist, KeySet, DistinctKeys;
    var ranked := ScoreAll(s, p);
    var marked := Mark(ranked, keys);
    ScoringKeepsKeys(s, p);
    forall c | c in r && c.selected
      ensures && (c.market == SPOT || c.market == FUTURES)
              && c.exclusions == [] && c.confirmationGaps == [] && c.validationGaps == [] && c.hardBlockers == []
    {
      var i :| 0 <= i < |marked| && marked[i] == c;
      assert ranked[i].key in keys;
      KeyMeansMember(ranked, p, keys, i);
    }
  }

  /** A candidate whose key was chosen was itself shortlisted, in its own market. */
  lemma KeyMeansMember(s: seq<Candidate>, p: Policy, keys: set<string>, i: nat)
    requires DistinctKeys(s) && i < |s| && s[i].key in keys
    requires keys == TopKeys(s, p)
    ensures s[i].rankingEligible
    ensures || (s[i].market == SPOT && s[i] in Shortlist(s, SPOT, p.spotLimit))
            || (s[i].market == FUTURES && s[i] in Shortlist(s, FUTURES, p.futuresLimit))
  {
    hide Shortlist, Outranks;
    ShortlistIsTop(s, SPOT, p.spotLimit);
    ShortlistIsTop(s, FUTURES, p.futuresLimit);
    EligibleInExactly(s, SPOT);
    EligibleInExactly(s, FUTURES);
    var list := if s[i].key in KeySet(Shortlist(s, SPOT, p.spotLimit))
                then Shortlist(s, SPOT, p.spotLimit) else Shortlist(s, FUTURES, p.futuresLimit);
    var c :| c in list && c.key == s[i].key;
    assert c in s;
    var j :| 0 <= j < |s| && s[j] == c;
    assert i == j;
  }

  lemma MarkedFairly(s: seq<Candidate>, p: Policy, keys: set<string>, marked: seq<Candidate>)
    requires DistinctKeys(s) && marked == Mark(s, keys)
    requires keys == TopKeys(s, p)
    ensures FairSelection(marked, SPOT, p.spotLimit) && FairSelection(marked, FUTURES, p.futuresLimit)
  {
    hide FairSelection;
    assert SPOT[0] != FUTURES[0];
    FairIn(s, p, keys, marked, SPOT, p.spotLimit);
    FairIn(s, p, keys, marked, FUTURES, p.futuresLimit);
  }

  lemma FairIn(s: seq<Candidate>, p: Policy, keys: set<string>, marked: seq<Candidate>, market: string, limit: nat)
    requires DistinctKeys(s) && marked == Mark(s, keys)
    requires keys == TopKeys(s, p)
    requires (market == SPOT && limit == p.spotLimit) || (market == FUTURES && limit == p.futuresLimit)
    ensures FairSelection(marked, market, limit)
  {
    hide Outranks, Shortlist, SortBy;
    var top, eligible := Shortlist(s, market, limit), EligibleIn(s, market);
    ShortlistIsTop(s, market, limit);
    EligibleInExactly(s, market);
    DistinctKeyCount(eligible);
    assert SPOT[0] != FUTURES[0];
    forall i | 0 <= i < |s| && s[i].market == market ensures marked[i].selected <==> s[i] in top {
      if s[i].key in keys {
        KeyMeansMember(s, p, keys, i);
      }
      if s[i] in top {
        assert s[i].key in KeySet(top);
      }
    }
    ChosenAreTop(s, keys, marked, market, top);
    EligibleUnmarked(s, keys, marked, market, eligible);
    ChosenEligible(s, marked, market, top, eligible);
    ChosenBest(s, keys, marked, market, top, eligible);
    hide ChosenKeys, EligibleKeys, KeySet, EligibleIn;
  }

  lemma ChosenAreTop(s: seq<Candidate>, keys: set<string>, marked: seq<Candidate>, market: string, top: seq<Candidate>)
    requires marked == Mark(s, keys)
    requires forall c :: c in top ==> c in s && c.market == market
    requires forall i :: 0 <= i < |s| && s[i].market == market ==> (marked[i].selected <==> s[i] in top)
    ensures ChosenKeys(marked, market) == KeySet(top)
  {
    forall k ensures k in ChosenKeys(marked, market) <==> k in KeySet(top) {
      if k in ChosenKeys(marked, market) {
        var c :| c in marked && c.market == market && c.selected && c.key == k;
        var i :| 0 <= i < |marked| && marked[i] == c;
        assert s[i] in top;
      }
      if k in KeySet(top) {
        var c :| c in top && c.key == k;
        var i :| 0 <= i < |s| && s[i] == c;
        assert marked[i] in marked;
      }
    }
  }

  lemma EligibleUnmarked(s: seq<Candidate>, keys: set<string>, marked: seq<Candidate>, market: string,
                         eligible: seq<Candidate>)
    requires marked == Mark(s, keys)
    requires forall c :: c in eligible <==> c in s && c.market == market && c.rankingEligible
    ensures EligibleKeys(marked, market) == KeySet(eligible)
  {
    forall k ensures k in EligibleKeys(marked, market) <==> k in KeySet(eligible) {
      if k in EligibleKeys(marked, market) {
        var c :| c in marked && c.market == market && c.rankingEligible && c.key == k;
        var i :| 0 <= i < |marked| && marked[i] == c;
        assert s[i] in eligible;
      }
      if k in KeySet(eligible) {
        var c :| c in eligible && c.key == k;
        var i :| 0 <= i < |s| && s[i] == c;
        assert marked[i] in marked;
      }
    }
  }

  lemma ChosenEligible(s: seq<Candidate>, marked: seq<Candidate>, market: string, top: seq<Candidate>,
                       eligible: seq<Candidate>)
    requires |marked| == |s| && forall i :: 0 <= i < |s| ==> marked[i] == s[i].(selected := marked[i].selected)
    requires forall c :: c in top ==> c in eligible
    requires forall c :: c in eligible ==> c.rankingEligible
    requires forall i :: 0 <= i < |s| && s[i].market == market ==> (marked[i].selected <==> s[i] in top)
    ensures forall c :: c in marked && c.market == market && c.selected ==> c.rankingEligible
  {
    forall c | c in marked && c.market == market && c.selected ensures c.rankingEligible {
      var i :| 0 <= i < |marked| && marked[i] == c;
      assert s[i] in top;
    }
  }

  lemma ChosenBest(s: seq<Candidate>, keys: set<string>, marked: seq<Candidate>, market: string,
                   top: seq<Candidate>, eligible: seq<Candidate>)
    requires marked == Mark(s, keys)
    requires forall c :: c in eligible <==> c in s && c.market == market && c.rankingEligible
    requires forall i :: 0 <= i < |s| && s[i].market == market ==> (marked[i].selected <==> s[i] in top)
    requires forall c, u :: c in top && u in eligible && u !in top ==> !Outranks(SelectionRank(u), SelectionRank(c))
    ensures forall c, u ::
              (c in marked && u in marked && c.market == u.market == market && c.selected && u.rankingEligible && !u.selected)
              ==> !Outranks(SelectionRank(u), SelectionRank(c))
  {
    hide Outranks;
    forall c, u | c in marked && u in marked && c.market == u.market == market && c.selected
                  && u.rankingEligible && !u.selected
      ensures !Outranks(SelectionRank(u), SelectionRank(c))
    {
      var i :| 0 <= i < |marked| && marked[i] == c;
      var j :| 0 <= j < |marked| && marked[j] == u;
      assert s[i] in top && s[j] in eligible && s[j] !in top;
      assert SelectionRank(s[i]) == SelectionRank(c) && SelectionRank(s[j]) == SelectionRank(u);
    }
  }

  lemma FairnessIsOrderless(a: seq<Candidate>, b: seq<Candidate>, market: string, limit: nat)
    requires FairSelection(a, market, limit) && forall x :: x in b <==> x in a
    ensures FairSelection(b, market, limit)
  {
    hide Outranks;
    assert ChosenKeys(a, market) == ChosenKeys(b, market);
    assert EligibleKeys(a, market) == EligibleKeys(b, market);
  }

  /** Every candidate of r is the scored copy of a raw one that no raw candidate of its key outranks. */
  ghost predicate BestOfKey(r: seq<Candidate>, raw: seq<Candidate>, p: Policy) {
    forall d :: d in r ==> exists c :: c in raw && ScoredCopy(d, c, p) && Unbeaten(c, raw)
  }

  ghost predicate Unbeaten(c: Candidate, raw: seq<Candidate>) {
    forall u :: u in raw && u.key == c.key ==> !Outranks(ListRank(u), ListRank(c))
  }

  /** The scan report's pipeline: list, deduplicate, rank, select. */
  method RankedCandidates(raw: seq<Candidate>, p: Policy) returns (r: seq<Candidate>)
    ensures SortedBy(r, ListRank) && DistinctKeys(r)
    ensures Represents(r, raw) && BestOfKey(r, raw, p)
    ensures FairSelection(r, SPOT, p.spotLimit) && FairSelection(r, FUTURES, p.futuresLimit)
    ensures OnlyCleanSelected(r)
  {
    hide Outranks, ListRank, SortBy, FairSelection, DistinctKeys, SortedBy, OnlyCleanSelected, AllScored, ScoredFrom,
         HoldsBest, Represents, BestOfKey, ScoredAndMarked;
    var listed := SortBy(raw, ListRank);
    SortBySorts(raw, ListRank);
    var unique := Deduplicate(listed);
    r := ApplyRanking(unique, p);
    ListingKeepsBest(raw, listed, unique);
    KeysTrace(raw, unique, r, p);
    BestTrace(raw, unique, r, p);
  }

  /** Every key of s occurs in r. */
  ghost predicate Represents(r: seq<Candidate>, s: seq<Candidate>) {
    forall c :: c in s ==> exists d :: d in r && d.key == c.key
  }

  lemma ListingKeepsBest(raw: seq<Candidate>, listed: seq<Candidate>, unique: seq<Candidate>)
    requires HoldsBest(unique, listed) && forall c :: c in raw ==> c in listed
    ensures HoldsBest(unique, raw) && Represents(unique, raw)
  {
    hide Outranks, ListRank;
  }

  lemma KeysTrace(raw: seq<Candidate>, unique: seq<Candidate>, r: seq<Candidate>, p: Policy)
    requires Represents(unique, raw) && AllScored(r, unique, p)
    ensures Represents(r, raw)
  {
    hide ScoredCopy;
    forall c | c in raw ensures exists d :: d in r && d.key == c.key {
      var b :| b in unique && b.key == c.key;
      var d :| d in r && ScoredCopy(d, b, p);
      CopyKeepsKey(d, b, p);
    }
  }

  lemma BestTrace(raw: seq<Candidate>, unique: seq<Candidate>, r: seq<Candidate>, p: Policy)
    requires ScoredFrom(r, unique, p) && DistinctKeys(unique) && HoldsBest(unique, raw)
    requires forall c :: c in unique ==> c in raw
    ensures BestOfKey(r, raw, p)
  {
    hide ScoredCopy, Outranks, ListRank;
    forall c | c in unique ensures Unbeaten(c, raw) {
      forall u | u in raw && u.key == c.key ensures !Outranks(ListRank(u), ListRank(c)) {
        var b :| b in unique && b.key == u.key && !Outranks(ListRank(u), ListRank(b));
        var i :| 0 <= i < |unique| && unique[i] == b;
        var j :| 0 <= j < |unique| && unique[j] == c;
      }
    }
    hide Unbeaten;
    forall d | d in r ensures exists c :: c in raw && ScoredCopy(d, c, p) && Unbeaten(c, raw) {
      var c :| c in unique && ScoredCopy(d, c, p);
      assert c in raw && Unbeaten(c, raw);
    }
  }

  // ---------------------------------------------------------- funnel counts

  function CountDisposition(s: seq<Candidate>, d: Disposition): nat {
    if |s| == 0 then 0
    else CountDisposition(s[..|s|-1], d) + (if DispositionOf(s[|s|-1]) == d then 1 else 0)
  }

  function CountStage(s: seq<Candidate>, stage: Stage): nat {
    if |s| == 0 then 0 else CountStage(s[..|s|-1], stage) + (if StageOf(s[|s|-1]) == stage then 1 else 0)
  }

  /** Which disposition and stage a candidate has, on its own exclusions and gaps. */
  lemma DispositionExactly(c: Candidate)
    ensures DispositionOf(c) == Rejected <==> c.exclusions != []
    ensures DispositionOf(c) == WaitForRetest <==> c.exclusions == [] && c.confirmationGaps != []
    ensures DispositionOf(c) == Watch <==> c.exclusions == [] && c.confirmationGaps == [] && c.validationGaps != []
    ensures DispositionOf(c) == Accepted <==> c.exclusions == [] && c.confirmationGaps == [] && c.validationGaps == []
    ensures StageOf(c) == DiscoveredStage <==> c.exclusions != []
    ensures StageOf(c) == VirtualEligibleStage <==>
              c.exclusions == [] && c.confirmationGaps == [] && c.validationGaps == []
  {
  }

  /** The four dispositions partition the candidates, and agree with the funnel stages. */
  lemma {:induction false} DispositionsPartition(s: seq<Candidate>)
    ensures CountDisposition(s, Accepted) + CountDisposition(s, Rejected) + CountDisposition(s, Watch)
            + CountDisposition(s, WaitForRetest) == |s|
    ensures CountDisposition(s, Accepted) == CountStage(s, VirtualEligibleStage)
    ensures CountDisposition(s, Rejected) == CountStage(s, DiscoveredStage)
    ensures CountDisposition(s, Watch) + CountDisposition(s, WaitForRetest) == CountStage(s, QualifiedStage)
  {
    if |s| > 0 {
      DispositionsPartition(s[..|s|-1]);
    }
  }
}
