/**
 * Counterfactual accounting for decision-governance rules: which blocks were protective, which
 * were false, and what the equity curve would have been without them.
 */
module Counterfactual {
  import opened Market
  import opened Drawdown

  const SIMULATION_SENTINEL := "DGE_SIMULATION_NOT_APPROVED"
  const NOT_EVALUABLE := "DGE_COUNTERFACTUAL_NOT_EVALUABLE"
  const INCOMPLETE := "DGE_COUNTERFACTUAL_OUTCOME_EVIDENCE_INCOMPLETE"
  const NOT_ABLATABLE := "DGE_HIGHER_AUTHORITY_BLOCKER_NOT_ABLATABLE"

  /** A cycle that reached a decision; `vetoed` means a higher authority also blocked it. */
  datatype Cycle = Cycle(decision: string, createdAt: int, blockers: seq<string>, vetoed: bool)

  datatype Outcome = Outcome(
    decision: string, rule: string, observedAt: int, pnl: real, executionModel: string, replayState: string)

  datatype Key = Key(decision: string, rule: string)

  /** What outcomes are checked against. */
  datatype Context = Context(executionModel: string, replayState: string, replayEnd: int)

  datatype Error =
    | UnknownActivation | HigherAuthorityVeto | ExecutionModelMismatch | ReplayStateMismatch | OutsideReplayTime
    | EquityInvalid

  datatype Tally = Tally(evaluated: nat, protective: nat, falseBlocks: nat, lossAvoided: real, profitMissed: real)
  datatype RuleMetrics = RuleMetrics(rule: string, activations: nat, tally: Tally)
  datatype Metrics = Metrics(
    interventions: nat, evaluated: seq<Outcome>, total: Tally, rules: seq<RuleMetrics>, blockers: seq<string>)

  datatype Result<T> = Success(value: T) | Failure(error: Error)

  // ------------------------------------------------------------ activations

  predicate Ablatable(blocker: string) {
    blocker != SIMULATION_SENTINEL && "DGE_" <= blocker
  }

  function KeysOf(decision: string, blockers: seq<string>): seq<Key> {
    if |blockers| == 0 then []
    else
      var n := |blockers| - 1;
      KeysOf(decision, blockers[..n]) + (if Ablatable(blockers[n]) then [Key(decision, blockers[n])] else [])
  }

  /** Every rule activation of every decision, in order and with repetitions. */
  function Activations(cycles: seq<Cycle>): seq<Key> {
    if |cycles| == 0 then []
    else
      var n := |cycles| - 1;
      Activations(cycles[..n]) + KeysOf(cycles[n].decision, cycles[n].blockers)
  }

  function KeyOf(o: Outcome): Key {
    Key(o.decision, o.rule)
  }

  /** Looking a decision up finds its latest cycle, as a dictionary built in order does. */
  function CycleOf(cycles: seq<Cycle>, decision: string): Option<Cycle> {
    if |cycles| == 0 then None
    else if cycles[|cycles|-1].decision == decision then Some(cycles[|cycles|-1])
    else CycleOf(cycles[..|cycles|-1], decision)
  }

  function Check(cycles: seq<Cycle>, context: Context, o: Outcome): Option<Error> {
    match CycleOf(cycles, o.decision)
    case None => Some(UnknownActivation)
    case Some(cycle) =>
      if cycle.vetoed then Some(HigherAuthorityVeto)
      else if o.executionModel != context.executionModel then Some(ExecutionModelMismatch)
      else if o.replayState != context.replayState then Some(ReplayStateMismatch)
      else if !(cycle.createdAt <= o.observedAt <= context.replayEnd) then Some(OutsideReplayTime)
      else None
  }

  ghost predicate Admissible(cycles: seq<Cycle>, context: Context, outcomes: seq<Outcome>) {
    forall o :: o in outcomes ==> KeyOf(o) in Activations(cycles) && Check(cycles, context, o).None?
  }

  // What counts as an activation, and which outcomes are refused, in the records' own fields.

  /** The blockers that activate a rule: those with the prefix, other than the simulation sentinel. */
  ghost function ActivationsIn(blockers: seq<string>): set<int> {
    set j | 0 <= j < |blockers| && |blockers[j]| >= 4 && blockers[j][..4] == "DGE_"
         && blockers[j] != "DGE_SIMULATION_NOT_APPROVED"
  }

  /** How many blockers of all cycles activate a rule. */
  ghost function ActivationCount(cycles: seq<Cycle>): nat {
    if |cycles| == 0 then 0
    else ActivationCount(cycles[..|cycles|-1]) + |ActivationsIn(cycles[|cycles|-1].blockers)|
  }

  lemma AblatableExactly(blocker: string)
    ensures Ablatable(blocker) <==>
            |blocker| >= 4 && blocker[..4] == "DGE_" && blocker != "DGE_SIMULATION_NOT_APPROVED"
  {
  }

  lemma ActivationsInStep(blockers: seq<string>)
    requires |blockers| > 0
    ensures var n, before := |blockers| - 1, ActivationsIn(blockers[..|blockers| - 1]);
            && n !in before
            && ActivationsIn(blockers) == if Ablatable(blockers[n]) then before + {n} else before
  {
    AblatableExactly(blockers[|blockers| - 1]);
    hide Ablatable;
  }

  lemma ActivationsInRange(blockers: seq<string>)
    ensures forall j :: j in ActivationsIn(blockers) ==> 0 <= j < |blockers|
    ensures |blockers| == 0 ==> ActivationsIn(blockers) == {}
  {
  }

  lemma {:induction false} KeysOfExactly(decision: string, blockers: seq<string>)
    ensures |KeysOf(decision, blockers)| == |ActivationsIn(blockers)|
    ensures forall k :: k in KeysOf(decision, blockers) <==>
              exists j :: j in ActivationsIn(blockers) && k == Key(decision, blockers[j])
  {
    ActivationsInRange(blockers);
    hide ActivationsIn, Ablatable;
    if |blockers| > 0 {
      var n := |blockers| - 1;
      var before := ActivationsIn(blockers[..n]);
      ActivationsInRange(blockers[..n]);
      ActivationsInStep(blockers);
      KeysOfExactly(decision, blockers[..n]);
      forall k ensures k in KeysOf(decision, blockers) <==>
                       exists j :: j in ActivationsIn(blockers) && k == Key(decision, blockers[j])
      {
        if k in KeysOf(decision, blockers[..n]) {
          var j :| j in before && k == Key(decision, blockers[..n][j]);
          assert j in ActivationsIn(blockers) && k == Key(decision, blockers[j]);
        }
        if j :| j in before && k == Key(decision, blockers[j]) {
          assert blockers[..n][j] == blockers[j];
        }
      }
    }
  }

  /** The activations: as many as there are activating blockers, each under its decision and rule. */
  lemma {:induction false} ActivationsExactly(cycles: seq<Cycle>)
    ensures |Activations(cycles)| == ActivationCount(cycles)
    ensures forall k :: k in Activations(cycles) <==>
              exists c, j :: c in cycles && j in ActivationsIn(c.blockers) && k == Key(c.decision, c.blockers[j])
  {
    hide KeysOf, ActivationsIn;
    if |cycles| > 0 {
      var n := |cycles| - 1;
      ActivationsExactly(cycles[..n]);
      KeysOfExactly(cycles[n].decision, cycles[n].blockers);
      assert cycles == cycles[..n] + [cycles[n]];
    }
  }

  /**
   * Which outcomes are refused. The latest cycle of the outcome's decision decides: a veto of a
   * higher authority, another execution model, another replay state, or an observation before the
   * cycle or after the replay, in that order; a decision no cycle made is unknown.
   */
  lemma {:induction false} CheckExactly(cycles: seq<Cycle>, context: Context, o: Outcome, i: nat)
    ensures (forall c :: c in cycles ==> c.decision != o.decision) ==>
              Check(cycles, context, o) == Some(UnknownActivation)
    ensures i < |cycles| && cycles[i].decision == o.decision
            && (forall j :: i < j < |cycles| ==> cycles[j].decision != o.decision) ==>
              var c := cycles[i];
              var late := o.observedAt < c.createdAt || context.replayEnd < o.observedAt;
              var sameModel, sameState := o.executionModel == context.executionModel, o.replayState == context.replayState;
              && (Check(cycles, context, o) == Some(HigherAuthorityVeto) <==> c.vetoed)
              && (Check(cycles, context, o) == Some(ExecutionModelMismatch) <==> !c.vetoed && !sameModel)
              && (Check(cycles, context, o) == Some(ReplayStateMismatch) <==> !c.vetoed && sameModel && !sameState)
              && (Check(cycles, context, o) == Some(OutsideReplayTime) <==>
                    !c.vetoed && sameModel && sameState && late)
              && (Check(cycles, context, o) == None <==> !c.vetoed && sameModel && sameState && !late)
  {
    if |cycles| > 0 {
      var n := |cycles| - 1;
      assert cycles == cycles[..n] + [cycles[n]];
      if cycles[n].decision != o.decision {
        CheckExactly(cycles[..n], context, o, i);
      }
    }
  }

  // ---------------------------------------------------------------- tallies

  function Zero(): Tally {
    Tally(0, 0, 0, 0.0, 0.0)
  }

  function Plus(a: Tally, b: Tally): Tally {
    Tally(a.evaluated + b.evaluated, a.protective + b.protective, a.falseBlocks + b.falseBlocks,
      a.lossAvoided + b.lossAvoided, a.profitMissed + b.profitMissed)
  }

  function One(o: Outcome): Tally {
    Tally(1, if o.pnl < 0.0 then 1 else 0, if o.pnl > 0.0 then 1 else 0,
      if o.pnl < 0.0 then Abs(o.pnl) else 0.0, if o.pnl > 0.0 then o.pnl else 0.0)
  }

  function TallyOf(s: seq<Outcome>): Tally {
    if |s| == 0 then Zero() else Plus(TallyOf(s[..|s|-1]), One(s[|s|-1]))
  }

  function ForRule(s: seq<Outcome>, rule: string): seq<Outcome> {
    if |s| == 0 then []
    else ForRule(s[..|s|-1], rule) + (if s[|s|-1].rule == rule then [s[|s|-1]] else [])
  }

  function CountRule(keys: seq<Key>, rule: string): nat {
    if |keys| == 0 then 0
    else CountRule(keys[..|keys|-1], rule) + (if keys[|keys|-1].rule == rule then 1 else 0)
  }

  function NetPnl(s: seq<Outcome>): real {
    if |s| == 0 then 0.0 else NetPnl(s[..|s|-1]) + s[|s|-1].pnl
  }

  function SumRules(rules: seq<RuleMetrics>): Tally {
    if |rules| == 0 then Zero() else Plus(SumRules(rules[..|rules|-1]), rules[|rules|-1].tally)
  }

  function SumActivations(rules: seq<RuleMetrics>): nat {
    if |rules| == 0 then 0 else SumActivations(rules[..|rules|-1]) + rules[|rules|-1].activations
  }

  function RuleNames(rules: seq<RuleMetrics>): (r: seq<string>)
    ensures |r| == |rules| && forall i :: 0 <= i < |r| ==> r[i] == rules[i].rule
  {
    seq(|rules|, i requires 0 <= i < |rules| => rules[i].rule)
  }

  ghost predicate Distinct(names: seq<string>) {
    forall i, j :: 0 <= i < j < |names| ==> names[i] != names[j]
  }

  ghost predicate RulesReport(rules: seq<RuleMetrics>, keys: seq<Key>, s: seq<Outcome>) {
    forall i :: 0 <= i < |rules| ==>
      rules[i].activations == CountRule(keys, rules[i].rule) && rules[i].tally == TallyOf(ForRule(s, rules[i].rule))
  }

  /** Gains missed less losses avoided is the net result of everything blocked. */
  lemma {:induction false} NetPnlSplits(s: seq<Outcome>)
    ensures NetPnl(s) == TallyOf(s).profitMissed - TallyOf(s).lossAvoided
  {
    if |s| > 0 {
      NetPnlSplits(s[..|s|-1]);
    }
  }

  lemma {:induction false} TallyCounts(s: seq<Outcome>)
    ensures TallyOf(s).evaluated == |s|
  {
    if |s| > 0 {
      TallyCounts(s[..|s|-1]);
    }
  }

  // What a tally holds, counted index by index.

  /** The outcome belongs to the rule asked for, or no rule was asked for. */
  ghost predicate Asked(o: Outcome, rule: Option<string>) {
    rule.None? || o.rule == rule.value
  }

  ghost function LossSum(s: seq<Outcome>, rule: Option<string>): real {
    if |s| == 0 then 0.0
    else
      var n := |s| - 1;
      LossSum(s[..n], rule) - (if Asked(s[n], rule) && s[n].pnl < 0.0 then s[n].pnl else 0.0)
  }

  ghost function ProfitSum(s: seq<Outcome>, rule: Option<string>): real {
    if |s| == 0 then 0.0
    else
      var n := |s| - 1;
      ProfitSum(s[..n], rule) + (if Asked(s[n], rule) && s[n].pnl > 0.0 then s[n].pnl else 0.0)
  }

  datatype Ending = Any | Lost | Won

  /** Where the outcomes asked for stand: all of them, those that lost, or those that won. */
  ghost function Where(s: seq<Outcome>, rule: Option<string>, ended: Ending): set<int> {
    set i | 0 <= i < |s| && Asked(s[i], rule) && (ended.Lost? ==> s[i].pnl < 0.0) && (ended.Won? ==> s[i].pnl > 0.0)
  }

  /**
   * The tally counts the outcomes asked for, those that lost as protective and those that won as
   * false blocks, and sums the losses and the profits of each.
   */
  ghost predicate Counts(t: Tally, s: seq<Outcome>, rule: Option<string>) {
    && t.evaluated == |Where(s, rule, Any)|
    && t.protective == |Where(s, rule, Lost)|
    && t.falseBlocks == |Where(s, rule, Won)|
    && t.lossAvoided == LossSum(s, rule) && t.profitMissed == ProfitSum(s, rule)
  }

  lemma WhereStep(s: seq<Outcome>, rule: Option<string>, ended: Ending)
    requires |s| > 0
    ensures var n, o := |s| - 1, s[|s| - 1];
            |Where(s, rule, ended)| == |Where(s[..n], rule, ended)|
              + (if Asked(o, rule) && (ended.Lost? ==> o.pnl < 0.0) && (ended.Won? ==> o.pnl > 0.0) then 1 else 0)
  {
    hide Asked;
    var n := |s| - 1;
    var before, now := Where(s[..n], rule, ended), Where(s, rule, ended);
    assert n !in before;
    assert now == if n in now then before + {n} else before;
  }

  lemma CountsStep(t: Tally, s: seq<Outcome>, rule: Option<string>)
    requires |s| > 0 && Counts(t, s[..|s|-1], rule)
    ensures Counts(if Asked(s[|s|-1], rule) then Plus(t, One(s[|s|-1])) else t, s, rule)
  {
    WhereStep(s, rule, Any);
    WhereStep(s, rule, Lost);
    WhereStep(s, rule, Won);
    hide Where, Asked;
  }

  lemma NothingCounts(s: seq<Outcome>, rule: Option<string>)
    requires |s| == 0
    ensures Counts(Zero(), s, rule)
  {
    assert Where(s, rule, Any) == Where(s, rule, Lost) == Where(s, rule, Won) == {};
  }

  lemma {:induction false} TallyExactly(s: seq<Outcome>)
    ensures Counts(TallyOf(s), s, None)
  {
    hide Counts, Plus, One, Zero;
    if |s| == 0 {
      NothingCounts(s, None);
    } else {
      TallyExactly(s[..|s|-1]);
      CountsStep(TallyOf(s[..|s|-1]), s, None);
    }
  }

  lemma {:induction false} RuleTallyExactly(s: seq<Outcome>, rule: string)
    ensures Counts(TallyOf(ForRule(s, rule)), s, Some(rule))
  {
    hide Counts, Plus, One, Zero, TallyOf, ForRule;
    if |s| == 0 {
      NothingCounts(s, Some(rule));
      NothingForRule(s, rule);
    } else {
      var n := |s| - 1;
      RuleTallyExactly(s[..n], rule);
      CountsStep(TallyOf(ForRule(s[..n], rule)), s, Some(rule));
      assert s == s[..n] + [s[n]];
      ForRuleAppend(s[..n], s[n], rule);
    }
  }

  /** Where a rule's activations stand. */
  ghost function Firings(keys: seq<Key>, rule: string): set<int> {
    set i | 0 <= i < |keys| && keys[i].rule == rule
  }

  lemma FiringsStep(keys: seq<Key>, rule: string)
    requires |keys| > 0
    ensures var n := |keys| - 1;
            |Firings(keys, rule)| == |Firings(keys[..n], rule)| + (if keys[n].rule == rule then 1 else 0)
  {
    var n := |keys| - 1;
    var before, now := Firings(keys[..n], rule), Firings(keys, rule);
    assert n !in before;
    assert now == if n in now then before + {n} else before;
  }

  lemma {:induction false} CountRuleExactly(keys: seq<Key>, rule: string)
    ensures CountRule(keys, rule) == |Firings(keys, rule)|
  {
    if |keys| == 0 {
      assert Firings(keys, rule) == {};
    } else {
      CountRuleExactly(keys[..|keys|-1], rule);
      FiringsStep(keys, rule);
    }
  }

  // Conservation: summing over distinct rule names, an outcome (or activation) is counted once.

  function TallyOver(names: seq<string>, s: seq<Outcome>): Tally {
    if |names| == 0 then Zero()
    else Plus(TallyOver(names[..|names|-1], s), TallyOf(ForRule(s, names[|names|-1])))
  }

  function CountOver(names: seq<string>, keys: seq<Key>): nat {
    if |names| == 0 then 0 else CountOver(names[..|names|-1], keys) + CountRule(keys, names[|names|-1])
  }

  lemma ForRuleAppend(s: seq<Outcome>, o: Outcome, rule: string)
    ensures TallyOf(ForRule(s + [o], rule)) ==
            (if o.rule == rule then Plus(TallyOf(ForRule(s, rule)), One(o)) else TallyOf(ForRule(s, rule)))
  {
    assert (s + [o])[..|s|] == s;
    var t := ForRule(s, rule);
    if o.rule == rule {
      assert (t + [o])[..|t|] == t;
    } else {
      assert t + [] == t;
    }
  }

  lemma {:induction false} OneOutcomeOnce(names: seq<string>, s: seq<Outcome>, o: Outcome)
    requires Distinct(names)
    ensures TallyOver(names, s + [o]) ==
            (if o.rule in names then Plus(TallyOver(names, s), One(o)) else TallyOver(names, s))
  {
    hide TallyOf, ForRule, One, Plus;
    if |names| > 0 {
      var n := |names| - 1;
      var before, t, one := TallyOver(names[..n], s), TallyOf(ForRule(s, names[n])), One(o);
      MemberStep(names, o.rule);
      PlusShuffle(before, t, one);
      OneOutcomeOnce(names[..n], s, o);
      ForRuleAppend(s, o, names[n]);
      hide Distinct;
    }
  }

  lemma MemberStep(names: seq<string>, name: string)
    requires |names| > 0 && Distinct(names)
    ensures var n := |names| - 1;
            && Distinct(names[..n])
            && (name in names <==> name in names[..n] || name == names[n])
            && (name == names[n] ==> name !in names[..n])
  {
    var n := |names| - 1;
    assert names == names[..n] + [names[n]];
  }

  lemma PlusShuffle(a: Tally, b: Tally, c: Tally)
    ensures Plus(a, Plus(b, c)) == Plus(Plus(a, b), c)
    ensures Plus(Plus(a, c), b) == Plus(Plus(a, b), c)
  {
  }

  lemma {:induction false} OutcomesConserved(names: seq<string>, s: seq<Outcome>)
    requires Distinct(names) && forall o :: o in s ==> o.rule in names
    ensures TallyOver(names, s) == TallyOf(s)
  {
    if |s| == 0 {
      NothingToTally(names, s);
    } else {
      var n := |s| - 1;
      assert s == s[..n] + [s[n]];
      OutcomesConserved(names, s[..n]);
      OneOutcomeOnce(names, s[..n], s[n]);
    }
  }

  lemma NothingForRule(s: seq<Outcome>, rule: string)
    requires |s| == 0
    ensures TallyOf(ForRule(s, rule)) == Zero()
    ensures Plus(Zero(), Zero()) == Zero()
  {
    assert ForRule(s, rule) == [];
  }

  lemma {:induction false} NothingToTally(names: seq<string>, s: seq<Outcome>)
    requires |s| == 0
    ensures TallyOver(names, s) == Zero()
  {
    hide TallyOf, ForRule, Plus, Zero;
    if |names| > 0 {
      NothingToTally(names[..|names|-1], s);
      NothingForRule(s, names[|names|-1]);
    }
  }

  lemma {:induction false} NothingToCount(names: seq<string>, keys: seq<Key>)
    requires |keys| == 0
    ensures CountOver(names, keys) == 0
  {
    if |names| > 0 {
      NothingToCount(names[..|names|-1], keys);
    }
  }

  lemma {:induction false} OneActivationOnce(names: seq<string>, keys: seq<Key>, k: Key)
    requires Distinct(names)
    ensures CountOver(names, keys + [k]) == CountOver(names, keys) + (if k.rule in names then 1 else 0)
  {
    if |names| > 0 {
      MemberStep(names, k.rule);
      OneActivationOnce(names[..|names|-1], keys, k);
      assert (keys + [k])[..|keys|] == keys;
      hide Distinct;
    }
  }

  lemma {:induction false} ActivationsConserved(names: seq<string>, keys: seq<Key>)
    requires Distinct(names) && forall k :: k in keys ==> k.rule in names
    ensures CountOver(names, keys) == |keys|
  {
    if |keys| == 0 {
      NothingToCount(names, keys);
    } else {
      var n := |keys| - 1;
      assert keys == keys[..n] + [keys[n]];
      ActivationsConserved(names, keys[..n]);
      OneActivationOnce(names, keys[..n], keys[n]);
    }
  }

  lemma {:induction false} ReportSums(rules: seq<RuleMetrics>, keys: seq<Key>, s: seq<Outcome>)
    requires RulesReport(rules, keys, s)
    ensures SumRules(rules) == TallyOver(RuleNames(rules), s)
    ensures SumActivations(rules) == CountOver(RuleNames(rules), keys)
  {
    if |rules| > 0 {
      var n := |rules| - 1;
      ReportSums(rules[..n], keys, s);
      assert RuleNames(rules)[..n] == RuleNames(rules[..n]);
    }
  }

  /** The per-rule figures of a report add up to the totals. */
  lemma ReportConserves(rules: seq<RuleMetrics>, keys: seq<Key>, s: seq<Outcome>)
    requires RulesReport(rules, keys, s) && Distinct(RuleNames(rules))
    requires forall k :: k in keys ==> k.rule in RuleNames(rules)
    requires forall o :: o in s ==> KeyOf(o) in keys
    ensures SumRules(rules) == TallyOf(s)
    ensures SumActivations(rules) == |keys|
  {
    hide RulesReport, Distinct;
    ReportSums(rules, keys, s);
    forall o | o in s ensures o.rule in RuleNames(rules) {
      assert KeyOf(o).rule == o.rule;
    }
    OutcomesConserved(RuleNames(rules), s);
    ActivationsConserved(RuleNames(rules), keys);
  }

  // ----------------------------------------------------------- completeness

  ghost predicate DistinctKeys(s: seq<Outcome>) {
    forall i, j :: 0 <= i < j < |s| ==> KeyOf(s[i]) != KeyOf(s[j])
  }

  ghost predicate NoRepeats(keys: seq<Key>) {
    forall i, j :: 0 <= i < j < |keys| ==> keys[i] != keys[j]
  }

  ghost function KeySet(keys: seq<Key>): set<Key> {
    set k | k in keys
  }

  ghost function EvaluatedKeys(s: seq<Outcome>): set<Key> {
    set o | o in s :: KeyOf(o)
  }

  lemma {:induction false} DistinctCount(s: seq<Outcome>)
    requires DistinctKeys(s)
    ensures |EvaluatedKeys(s)| == |s|
  {
    if |s| > 0 {
      var n := |s| - 1;
      DistinctCount(s[..n]);
      assert s == s[..n] + [s[n]];
      assert EvaluatedKeys(s) == EvaluatedKeys(s[..n]) + {KeyOf(s[n])};
      assert KeyOf(s[n]) !in EvaluatedKeys(s[..n]);
    }
  }

  lemma NoRepeatsStep(keys: seq<Key>)
    requires |keys| > 0
    ensures var n := |keys| - 1;
            NoRepeats(keys) <==> NoRepeats(keys[..n]) && keys[n] !in keys[..n]
  {
    var n := |keys| - 1;
    assert forall i :: 0 <= i < n ==> keys[..n][i] == keys[i];
    if NoRepeats(keys[..n]) && keys[n] !in keys[..n] {
      assert forall i :: 0 <= i < n ==> keys[i] in keys[..n];
    }
  }

  lemma {:induction false} KeyCount(keys: seq<Key>)
    ensures |KeySet(keys)| <= |keys|
    ensures |KeySet(keys)| == |keys| <==> NoRepeats(keys)
  {
    if |keys| > 0 {
      var n := |keys| - 1;
      KeyCount(keys[..n]);
      NoRepeatsStep(keys);
      hide NoRepeats;
      assert keys == keys[..n] + [keys[n]];
      assert KeySet(keys) == KeySet(keys[..n]) + {keys[n]};
      if keys[n] in keys[..n] {
        assert KeySet(keys) == KeySet(keys[..n]);
      }
    }
  }

  /** As many evaluated outcomes as activations, exactly when each activation is distinct and evaluated. */
  lemma CompleteExactlyWhen(keys: seq<Key>, s: seq<Outcome>)
    requires DistinctKeys(s) && forall o :: o in s ==> KeyOf(o) in keys
    ensures |s| <= |keys|
    ensures |s| == |keys| <==> NoRepeats(keys) && forall k :: k in keys ==> k in EvaluatedKeys(s)
  {
    hide DistinctKeys, NoRepeats;
    DistinctCount(s);
    KeyCount(keys);
    assert EvaluatedKeys(s) <= KeySet(keys);
    SubsetSize(EvaluatedKeys(s), KeySet(keys));
    if forall k :: k in keys ==> k in EvaluatedKeys(s) {
      assert EvaluatedKeys(s) == KeySet(keys);
    } else {
      var k :| k in keys && k !in EvaluatedKeys(s);
      assert k in KeySet(keys);
    }
  }

  lemma SubsetSize(a: set<Key>, b: set<Key>)
    requires a <= b
    ensures |a| <= |b|
    ensures |a| == |b| ==> a == b
  {
    assert b == a + (b - a);
    assert |b| == |a| + |b - a|;
  }

  // ------------------------------------------------------------- the report

  /** Some decision carries a blocker that no DGE rule raised. */
  ghost predicate HigherAuthorityBlocked(cycles: seq<Cycle>) {
    exists c, b :: c in cycles && b in c.blockers && b != SIMULATION_SENTINEL && !("DGE_" <= b)
  }

  method CollectActivations(cycles: seq<Cycle>) returns (keys: seq<Key>, foreign: bool)
    ensures keys == Activations(cycles)
    ensures foreign <==> HigherAuthorityBlocked(cycles)
  {
    keys, foreign := [], false;
    for i := 0 to |cycles|
      invariant keys == Activations(cycles[..i])
      invariant foreign <==> HigherAuthorityBlocked(cycles[..i])
    {
      assert cycles[..i + 1][..i] == cycles[..i];
      assert cycles[..i + 1] == cycles[..i] + [cycles[i]];
      keys := keys + KeysOf(cycles[i].decision, cycles[i].blockers);
      if exists b :: b in cycles[i].blockers && b != SIMULATION_SENTINEL && !("DGE_" <= b) {
        var b :| b in cycles[i].blockers && b != SIMULATION_SENTINEL && !("DGE_" <= b);
        assert cycles[i] in cycles[..i + 1];
        foreign := true;
      }
    }
    assert cycles[..|cycles|] == cycles;
  }

  /**
   * The error raised for a set of outcomes that is not admissible: an unknown activation anywhere
   * comes first, then the first flaw of the first flawed outcome.
   */
  ghost predicate Raised(cycles: seq<Cycle>, context: Context, outcomes: seq<Outcome>, error: Error) {
    if exists o :: o in outcomes && KeyOf(o) !in Activations(cycles) then error == UnknownActivation
    else exists i :: 0 <= i < |outcomes| && Check(cycles, context, outcomes[i]) == Some(error)
           && forall j :: 0 <= j < i ==> Check(cycles, context, outcomes[j]).None?
  }

  method CheckOutcomes(cycles: seq<Cycle>, context: Context, keys: seq<Key>, outcomes: seq<Outcome>)
    returns (error: Option<Error>)
    requires keys == Activations(cycles)
    ensures error.None? <==> Admissible(cycles, context, outcomes)
    ensures error.Some? ==> Raised(cycles, context, outcomes, error.value)
  {
    hide Activations, Check;
    if exists o :: o in outcomes && KeyOf(o) !in keys {
      return Some(UnknownActivation);
    }
    for i := 0 to |outcomes|
      invariant forall j :: 0 <= j < i ==> Check(cycles, context, outcomes[j]).None?
    {
      var found := Check(cycles, context, outcomes[i]);
      if found.Some? {
        assert outcomes[i] in outcomes;
        return found;
      }
    }
    return None;
  }

  /** The outcome recorded for each key; a later one replaces an earlier one. */
  method IndexOutcomes(outcomes: seq<Outcome>) returns (byKey: map<Key, Outcome>)
    ensures forall k :: k in byKey <==> exists o :: o in outcomes && KeyOf(o) == k
    ensures forall k :: k in byKey ==> byKey[k] in outcomes && KeyOf(byKey[k]) == k
  {
    byKey := map[];
    for i := 0 to |outcomes|
      invariant forall k :: k in byKey <==> exists j :: 0 <= j < i && KeyOf(outcomes[j]) == k
      invariant forall k :: k in byKey ==> byKey[k] in outcomes && KeyOf(byKey[k]) == k
    {
      byKey := byKey[KeyOf(outcomes[i]) := outcomes[i]];
    }
  }

  /** One outcome per activated key that has one; the order of keys is left open. */
  method Evaluate(keys: seq<Key>, byKey: map<Key, Outcome>) returns (evaluated: seq<Outcome>)
    requires forall k :: k in byKey ==> KeyOf(byKey[k]) == k
    ensures DistinctKeys(evaluated)
    ensures forall o :: o in evaluated <==> KeyOf(o) in keys && KeyOf(o) in byKey && byKey[KeyOf(o)] == o
  {
    evaluated := [];
    var remaining := set k | k in keys;
    while remaining != {}
      invariant forall k :: k in remaining ==> k in keys
      invariant DistinctKeys(evaluated)
      invariant forall o :: o in evaluated <==>
        KeyOf(o) in keys && KeyOf(o) !in remaining && KeyOf(o) in byKey && byKey[KeyOf(o)] == o
      decreases remaining
    {
      var k :| k in remaining;
      remaining := remaining - {k};
      if k in byKey {
        assert forall i :: 0 <= i < |evaluated| ==> evaluated[i] in evaluated && KeyOf(evaluated[i]) != k;
        evaluated := evaluated + [byKey[k]];
      }
    }
  }

  method RuleBreakdown(keys: seq<Key>, evaluated: seq<Outcome>) returns (rules: seq<RuleMetrics>)
    ensures RulesReport(rules, keys, evaluated) && Distinct(RuleNames(rules))
    ensures forall k :: k in keys ==> k.rule in RuleNames(rules)
    ensures forall r :: r in RuleNames(rules) ==> exists k :: k in keys && k.rule == r
  {
    rules := [];
    var remaining := set k | k in keys :: k.rule;
    ghost var all := remaining;
    while remaining != {}
      invariant remaining <= all
      invariant RulesReport(rules, keys, evaluated) && Distinct(RuleNames(rules))
      invariant forall r :: r in RuleNames(rules) <==> r in all && r !in remaining
      decreases remaining
    {
      var rule :| rule in remaining;
      remaining := remaining - {rule};
      ghost var before := RuleNames(rules);
      rules := rules + [RuleMetrics(rule, CountRule(keys, rule), TallyOf(ForRule(evaluated, rule)))];
      assert RuleNames(rules) == before + [rule];
      assert forall i :: 0 <= i < |before| ==> before[i] in before;
    }
    forall k | k in keys ensures k.rule in RuleNames(rules) {
      assert k.rule in all;
    }
  }

  /** One of the given outcomes for every activation that has one, and nothing else. */
  ghost predicate Covering(s: seq<Outcome>, keys: seq<Key>, outcomes: seq<Outcome>) {
    && DistinctKeys(s)
    && (forall o :: o in s ==> o in outcomes)
    && (forall k :: k in EvaluatedKeys(s) <==> k in keys && exists o :: o in outcomes && KeyOf(o) == k)
  }

  /** A row counts its rule's activations and, among the outcomes evaluated, its rule's own. */
  ghost predicate RowCounts(row: RuleMetrics, keys: seq<Key>, s: seq<Outcome>) {
    && row.activations == |Firings(keys, row.rule)|
    && Counts(row.tally, s, Some(row.rule))
  }

  lemma RowsCount(rules: seq<RuleMetrics>, keys: seq<Key>, s: seq<Outcome>)
    requires RulesReport(rules, keys, s)
    ensures forall i :: 0 <= i < |rules| ==> RowCounts(rules[i], keys, s)
  {
    hide Counts, TallyOf, ForRule, CountRule;
    forall i | 0 <= i < |rules| ensures RowCounts(rules[i], keys, s) {
      CountRuleExactly(keys, rules[i].rule);
      RuleTallyExactly(s, rules[i].rule);
    }
  }

  /** Totals and the rows of the rules that fired, each exactly once; the rows add up to the totals. */
  ghost predicate Figures(m: Metrics, keys: seq<Key>) {
    && m.interventions == |keys| && m.total == TallyOf(m.evaluated) && m.total.evaluated == |m.evaluated|
    && NetPnl(m.evaluated) == m.total.profitMissed - m.total.lossAvoided
    && Counts(m.total, m.evaluated, None)
    && (forall i :: 0 <= i < |m.rules| ==> RowCounts(m.rules[i], keys, m.evaluated))
    && RulesReport(m.rules, keys, m.evaluated) && Distinct(RuleNames(m.rules))
    && (forall k :: k in keys ==> k.rule in RuleNames(m.rules))
    && (forall r :: r in RuleNames(m.rules) ==> exists k :: k in keys && k.rule == r)
    && SumActivations(m.rules) == m.interventions && SumRules(m.rules) == m.total
  }

  /** Every activation is distinct and has an outcome. */
  ghost predicate Complete(keys: seq<Key>, outcomes: seq<Outcome>) {
    NoRepeats(keys) && forall k :: k in keys ==> exists o :: o in outcomes && KeyOf(o) == k
  }

  ghost predicate BlockersDue(blockers: seq<string>, cycles: seq<Cycle>, outcomes: seq<Outcome>) {
    var keys := Activations(cycles);
    && (NOT_EVALUABLE in blockers <==> keys == [])
    && (INCOMPLETE in blockers <==> keys != [] && !Complete(keys, outcomes))
    && (NOT_ABLATABLE in blockers <==> HigherAuthorityBlocked(cycles))
  }

  /** What an effectiveness report holds. */
  ghost predicate Reports(m: Metrics, cycles: seq<Cycle>, outcomes: seq<Outcome>) {
    && Covering(m.evaluated, Activations(cycles), outcomes)
    && Figures(m, Activations(cycles))
    && BlockersDue(m.blockers, cycles, outcomes)
  }

  /**
   * The effectiveness report. Conservation: per-rule figures add up to the totals. Completeness:
   * with at least one activation, the INCOMPLETE blocker is absent exactly when the activations
   * are free of repetitions and each has an outcome.
   */
  method Effectiveness(cycles: seq<Cycle>, context: Context, outcomes: seq<Outcome>) returns (r: Result<Metrics>)
    ensures r.Success? <==> Admissible(cycles, context, outcomes)
    ensures r.Failure? ==> Raised(cycles, context, outcomes, r.error)
    ensures r.Success? ==> Reports(r.value, cycles, outcomes)
  {
    hide *;
    var keys, foreign := CollectActivations(cycles);
    var error := CheckOutcomes(cycles, context, keys, outcomes);
    if error.Some? {
      return Failure(error.value);
    }
    var byKey := IndexOutcomes(outcomes);
    var evaluated := Evaluate(keys, byKey);
    var rules := RuleBreakdown(keys, evaluated);
    var total := TallyOf(evaluated);
    var blockers := Blockers(|keys|, |evaluated|, foreign);
    var m := Metrics(|keys|, evaluated, total, rules, blockers);
    EvaluatedCovers(keys, outcomes, byKey, evaluated);
    FiguresHold(m, keys);
    BlockersHold(m, cycles, outcomes, foreign);
    Assemble(m, cycles, outcomes);
    return Success(m);
  }

  lemma Assemble(m: Metrics, cycles: seq<Cycle>, outcomes: seq<Outcome>)
    requires Covering(m.evaluated, Activations(cycles), outcomes) && Figures(m, Activations(cycles))
    requires BlockersDue(m.blockers, cycles, outcomes)
    ensures Reports(m, cycles, outcomes)
  {
    hide Covering, Figures, BlockersDue;
  }

  lemma FiguresHold(m: Metrics, keys: seq<Key>)
    requires m.interventions == |keys| && m.total == TallyOf(m.evaluated)
    requires RulesReport(m.rules, keys, m.evaluated) && Distinct(RuleNames(m.rules))
    requires forall k :: k in keys ==> k.rule in RuleNames(m.rules)
    requires forall r :: r in RuleNames(m.rules) ==> exists k :: k in keys && k.rule == r
    requires forall o :: o in m.evaluated ==> KeyOf(o) in keys
    ensures Figures(m, keys)
  {
    hide TallyOf, RulesReport, Distinct, RuleNames, Counts, RowCounts;
    ReportConserves(m.rules, keys, m.evaluated);
    RowsCount(m.rules, keys, m.evaluated);
    TallyExactly(m.evaluated);
    NetPnlSplits(m.evaluated);
    TallyCounts(m.evaluated);
  }

  lemma BlockersHold(m: Metrics, cycles: seq<Cycle>, outcomes: seq<Outcome>, foreign: bool)
    requires Covering(m.evaluated, Activations(cycles), outcomes)
    requires foreign <==> HigherAuthorityBlocked(cycles)
    requires m.blockers == Blockers(|Activations(cycles)|, |m.evaluated|, foreign)
    ensures BlockersDue(m.blockers, cycles, outcomes)
  {
    hide Activations, NoRepeats, DistinctKeys, HigherAuthorityBlocked, Blockers, EvaluatedKeys;
    var keys := Activations(cycles);
    forall o | o in m.evaluated ensures KeyOf(o) in keys {
      InEvaluatedKeys(m.evaluated, o);
    }
    CompleteExactlyWhen(keys, m.evaluated);
  }

  lemma InEvaluatedKeys(s: seq<Outcome>, o: Outcome)
    requires o in s
    ensures KeyOf(o) in EvaluatedKeys(s)
  {
  }

  /**
   * The blocker can be raised on full evidence: two cycles that share a decision activate the
   * same rule twice, and its one outcome is counted once.
   */
  lemma RepeatedDecisionIsIncomplete(m: Metrics)
    ensures var c := Cycle("d", 0, ["DGE_X"], false);
            var o := Outcome("d", "DGE_X", 0, 1.0, "", "");
            && Admissible([c, c], Context("", "", 0), [o])
            && (forall k :: k in Activations([c, c]) ==> exists e :: e in [o] && KeyOf(e) == k)
            && (Reports(m, [c, c], [o]) ==> INCOMPLETE in m.blockers)
  {
    var c := Cycle("d", 0, ["DGE_X"], false);
    var o := Outcome("d", "DGE_X", 0, 1.0, "", "");
    var k := Key("d", "DGE_X");
    RepeatedActivation(c);
    hide Activations, Covering, Figures;
    assert o in [o] && KeyOf(o) == k;
    assert [k, k][0] == [k, k][1];
  }

  lemma RepeatedActivation(c: Cycle)
    requires c == Cycle("d", 0, ["DGE_X"], false)
    ensures Activations([c, c]) == [Key("d", "DGE_X"), Key("d", "DGE_X")]
  {
    var k := Key("d", "DGE_X");
    assert Ablatable("DGE_X") by {
      assert |SIMULATION_SENTINEL| != |"DGE_X"|;
    }
    hide Ablatable;
    assert c.blockers[..0] == [] && KeysOf("d", c.blockers) == [k];
    assert [c, c][..1] == [c] && [c][..0] == [];
    assert Activations([c]) == [k];
  }

  lemma EvaluatedCovers(keys: seq<Key>, outcomes: seq<Outcome>, byKey: map<Key, Outcome>, evaluated: seq<Outcome>)
    requires forall k :: k in byKey <==> exists o :: o in outcomes && KeyOf(o) == k
    requires forall k :: k in byKey ==> byKey[k] in outcomes && KeyOf(byKey[k]) == k
    requires forall o :: o in evaluated <==> KeyOf(o) in keys && KeyOf(o) in byKey && byKey[KeyOf(o)] == o
    requires DistinctKeys(evaluated)
    ensures Covering(evaluated, keys, outcomes)
  {
    hide DistinctKeys;
    forall k ensures k in EvaluatedKeys(evaluated) <==> k in keys && exists o :: o in outcomes && KeyOf(o) == k {
      if k in keys && k in byKey {
        assert byKey[k] in evaluated;
      }
    }
  }

  function Blockers(activations: nat, evaluated: nat, foreign: bool): (r: seq<string>)
    ensures NOT_EVALUABLE in r <==> activations == 0
    ensures INCOMPLETE in r <==> activations != 0 && evaluated < activations
    ensures NOT_ABLATABLE in r <==> foreign
  {
    assert NOT_EVALUABLE[19] != INCOMPLETE[19] && NOT_ABLATABLE[4] != INCOMPLETE[4];
    (if activations == 0 then [NOT_EVALUABLE] else if evaluated < activations then [INCOMPLETE] else [])
    + (if foreign then [NOT_ABLATABLE] else [])
  }

  // ------------------------------------------------- the counterfactual curve

  const DAY := 86400

  /** An outcome counts from the day boundary after it was observed. */
  function DayOf(o: Outcome): int {
    o.observedAt / DAY * DAY + DAY
  }

  function PnlOn(outcomes: seq<Outcome>, day: int): real {
    if |outcomes| == 0 then 0.0
    else
      var n := |outcomes| - 1;
      PnlOn(outcomes[..n], day) + (if DayOf(outcomes[n]) == day then outcomes[n].pnl else 0.0)
  }

  function PnlThrough(outcomes: seq<Outcome>, day: int): real {
    if |outcomes| == 0 then 0.0
    else
      var n := |outcomes| - 1;
      PnlThrough(outcomes[..n], day) + (if DayOf(outcomes[n]) <= day then outcomes[n].pnl else 0.0)
  }

  /** The actual equity in force on a day: the latest observation, or the first before any. */
  function BaseAt(points: seq<EquityPoint>, day: int): real
    requires |points| > 0
  {
    var n := |points| - 1;
    if n == 0 || points[n].time <= day then points[n].equity else BaseAt(points[..n], day)
  }

  /** What construction of an equity curve guarantees. */
  ghost predicate ValidCurve(points: seq<EquityPoint>) {
    && |points| > 0
    && (forall i, j :: 0 <= i < j < |points| ==> points[i].time < points[j].time)
    && (forall i :: 0 <= i < |points| ==> points[i].equity > 0.0)
  }

  ghost function CurveDays(points: seq<EquityPoint>, outcomes: seq<Outcome>): set<int> {
    (set p | p in points :: p.time) + (set o | o in outcomes :: DayOf(o))
  }

  ghost predicate Increasing(days: seq<int>) {
    forall i, j :: 0 <= i < j < |days| ==> days[i] < days[j]
  }

  ghost function EquityOn(points: seq<EquityPoint>, outcomes: seq<Outcome>, day: int): real
    requires |points| > 0
  {
    BaseAt(points, day) + PnlThrough(outcomes, day)
  }

  ghost predicate IsCurve(curve: seq<EquityPoint>, points: seq<EquityPoint>, outcomes: seq<Outcome>)
    requires |points| > 0
  {
    && (forall i, j :: 0 <= i < j < |curve| ==> curve[i].time < curve[j].time)
    && (forall i :: 0 <= i < |curve| ==> curve[i].equity == EquityOn(points, outcomes, curve[i].time))
    && (forall d :: d in CurveDays(points, outcomes) <==> exists i :: 0 <= i < |curve| && curve[i].time == d)
  }

  lemma Inhabited(s: set<int>)
    requires s != {}
    ensures exists x :: x in s
  {
    assert (forall x :: x !in s) ==> s == {};
  }

  method Smallest(s: set<int>) returns (m: int)
    requires s != {}
    ensures m in s && forall x :: x in s ==> m <= x
  {
    Inhabited(s);
    m :| m in s;
    var rest := s - {m};
    while rest != {}
      invariant m in s && rest <= s
      invariant forall x :: x in s ==> x in rest || m <= x
      decreases rest
    {
      Inhabited(rest);
      var x :| x in rest;
      rest := rest - {x};
      if x < m {
        m := x;
      }
    }
  }

  method Sorted(s: set<int>) returns (days: seq<int>)
    ensures Increasing(days)
    ensures forall d :: d in days <==> d in s
  {
    days := [];
    var rest := s;
    while rest != {}
      invariant rest <= s && Increasing(days)
      invariant forall d :: d in s <==> d in rest || d in days
      invariant forall d, i :: d in rest && 0 <= i < |days| ==> days[i] < d
      decreases rest
    {
      var m := Smallest(rest);
      rest := rest - {m};
      days := days + [m];
    }
  }

  ghost predicate IndexesBase(base: map<int, real>, points: seq<EquityPoint>) {
    && (forall d :: d in base <==> exists k :: 0 <= k < |points| && points[k].time == d)
    && (forall k :: 0 <= k < |points| ==> points[k].time in base && base[points[k].time] == points[k].equity)
  }

  ghost predicate IndexesPnl(byDay: map<int, real>, outcomes: seq<Outcome>) {
    && (forall d :: d in byDay <==> exists o :: o in outcomes && DayOf(o) == d)
    && (forall d :: (if d in byDay then byDay[d] else 0.0) == PnlOn(outcomes, d))
  }

  method PnlByDay(outcomes: seq<Outcome>) returns (byDay: map<int, real>)
    ensures IndexesPnl(byDay, outcomes)
  {
    byDay := map[];
    for i := 0 to |outcomes|
      invariant forall d :: d in byDay <==> exists j :: 0 <= j < i && DayOf(outcomes[j]) == d
      invariant forall d :: (if d in byDay then byDay[d] else 0.0) == PnlOn(outcomes[..i], d)
    {
      assert outcomes[..i + 1][..i] == outcomes[..i];
      var day := DayOf(outcomes[i]);
      byDay := byDay[day := (if day in byDay then byDay[day] else 0.0) + outcomes[i].pnl];
    }
    assert outcomes[..|outcomes|] == outcomes;
  }

  lemma {:induction false} PnlStep(outcomes: seq<Outcome>, before: int, day: int)
    requires before < day
    requires forall o :: o in outcomes ==> DayOf(o) <= before || DayOf(o) >= day
    ensures PnlThrough(outcomes, day) == PnlThrough(outcomes, before) + PnlOn(outcomes, day)
  {
    hide DayOf;
    if |outcomes| > 0 {
      var n := |outcomes| - 1;
      assert outcomes[n] in outcomes;
      PnlStep(outcomes[..n], before, day);
    }
  }

  lemma {:induction false} PnlNone(outcomes: seq<Outcome>, day: int)
    requires forall o :: o in outcomes ==> DayOf(o) > day
    ensures PnlThrough(outcomes, day) == 0.0
  {
    hide DayOf;
    if |outcomes| > 0 {
      var n := |outcomes| - 1;
      assert outcomes[n] in outcomes;
      PnlNone(outcomes[..n], day);
    }
  }

  lemma {:induction false} PnlAll(outcomes: seq<Outcome>, day: int)
    requires forall o :: o in outcomes ==> DayOf(o) <= day
    ensures PnlThrough(outcomes, day) == NetPnl(outcomes)
  {
    hide DayOf;
    if |outcomes| > 0 {
      var n := |outcomes| - 1;
      assert outcomes[n] in outcomes;
      PnlAll(outcomes[..n], day);
    }
  }

  lemma {:induction false} BaseStep(points: seq<EquityPoint>, before: int, day: int)
    requires ValidCurve(points) && before < day
    requires forall i :: 0 <= i < |points| ==> points[i].time <= before || points[i].time > day
    ensures BaseAt(points, day) == BaseAt(points, before)
  {
    if |points| > 1 {
      BaseStep(points[..|points|-1], before, day);
    }
  }

  lemma {:induction false} BaseOn(points: seq<EquityPoint>, i: nat)
    requires ValidCurve(points) && i < |points|
    ensures BaseAt(points, points[i].time) == points[i].equity
  {
    var n := |points| - 1;
    if i < n {
      BaseOn(points[..n], i);
    }
  }

  lemma {:induction false} BaseFirst(points: seq<EquityPoint>, day: int)
    requires ValidCurve(points) && day < points[0].time
    ensures BaseAt(points, day) == points[0].equity
  {
    if |points| > 1 {
      BaseFirst(points[..|points|-1], day);
    }
  }

  /** Base and cumulative result advance one day at a time; `day` is the next one that matters. */
  lemma NextDay(points: seq<EquityPoint>, outcomes: seq<Outcome>, before: int, day: int)
    requires ValidCurve(points) && before < day
    requires forall d :: d in CurveDays(points, outcomes) ==> d <= before || d >= day
    ensures PnlThrough(outcomes, day) == PnlThrough(outcomes, before) + PnlOn(outcomes, day)
    ensures forall i :: 0 <= i < |points| && points[i].time == day ==> BaseAt(points, day) == points[i].equity
    ensures (forall i :: 0 <= i < |points| ==> points[i].time != day) ==> BaseAt(points, day) == BaseAt(points, before)
  {
    hide BaseAt, PnlThrough, PnlOn, DayOf;
    forall o | o in outcomes ensures DayOf(o) <= before || DayOf(o) >= day {
      assert DayOf(o) in CurveDays(points, outcomes);
    }
    PnlStep(outcomes, before, day);
    forall i | 0 <= i < |points| && points[i].time == day ensures BaseAt(points, day) == points[i].equity {
      BaseOn(points, i);
    }
    if forall i :: 0 <= i < |points| ==> points[i].time != day {
      forall i | 0 <= i < |points| ensures points[i].time <= before || points[i].time > day {
        assert points[i] in points && points[i].time in CurveDays(points, outcomes);
      }
      BaseStep(points, before, day);
    }
  }

  lemma BeforeAnyDay(points: seq<EquityPoint>, outcomes: seq<Outcome>, day: int)
    requires ValidCurve(points)
    requires forall d :: d in CurveDays(points, outcomes) ==> d > day
    ensures PnlThrough(outcomes, day) == 0.0 && BaseAt(points, day) == points[0].equity
  {
    hide BaseAt, PnlThrough, DayOf;
    forall o | o in outcomes ensures DayOf(o) > day {
      assert DayOf(o) in CurveDays(points, outcomes);
    }
    PnlNone(outcomes, day);
    assert points[0] in points && points[0].time in CurveDays(points, outcomes);
    BaseFirst(points, day);
  }

  ghost predicate ListsDays(days: seq<int>, points: seq<EquityPoint>, outcomes: seq<Outcome>) {
    Increasing(days) && forall d :: d in days <==> d in CurveDays(points, outcomes)
  }

  lemma NothingBetween(days: seq<int>, points: seq<EquityPoint>, outcomes: seq<Outcome>, i: nat)
    requires ListsDays(days, points, outcomes) && i < |days|
    ensures forall d :: d in CurveDays(points, outcomes) ==> d >= days[i] || (i > 0 && d <= days[i - 1])
  {
    hide CurveDays;
    forall d | d in CurveDays(points, outcomes) ensures d >= days[i] || (i > 0 && d <= days[i - 1]) {
      assert d in days;
      var k :| 0 <= k < |days| && days[k] == d;
    }
  }

  /** What the two running values hold before the i-th day is visited. */
  ghost predicate Running(days: seq<int>, points: seq<EquityPoint>, outcomes: seq<Outcome>, i: nat, base: real, sum: real)
    requires |points| > 0 && i <= |days|
  {
    if i == 0 then base == points[0].equity && sum == 0.0
    else base == BaseAt(points, days[i - 1]) && sum == PnlThrough(outcomes, days[i - 1])
  }

  method VisitDay(days: seq<int>, points: seq<EquityPoint>, outcomes: seq<Outcome>, i: nat,
                  base: map<int, real>, byDay: map<int, real>, currentBase: real, cumulative: real)
    returns (nextBase: real, nextSum: real)
    requires ValidCurve(points) && ListsDays(days, points, outcomes) && i < |days|
    requires IndexesBase(base, points) && IndexesPnl(byDay, outcomes)
    requires Running(days, points, outcomes, i, currentBase, cumulative)
    ensures Running(days, points, outcomes, i + 1, nextBase, nextSum)
  {
    hide BaseAt, PnlThrough, PnlOn, CurveDays, ValidCurve;
    var day := days[i];
    ghost var before := if i == 0 then day - 1 else days[i - 1];
    NothingBetween(days, points, outcomes, i);
    if i == 0 {
      BeforeAnyDay(points, outcomes, before);
    }
    NextDay(points, outcomes, before, day);
    nextBase := if day in base then base[day] else currentBase;
    nextSum := cumulative + (if day in byDay then byDay[day] else 0.0);
    if day in base {
      var k :| 0 <= k < |points| && points[k].time == day;
      assert BaseAt(points, day) == points[k].equity;
    }
  }

  ghost predicate Walked(curve: seq<EquityPoint>, days: seq<int>, points: seq<EquityPoint>, outcomes: seq<Outcome>)
    requires |points| > 0
  {
    |curve| <= |days| && forall k :: 0 <= k < |curve| ==>
      curve[k] == EquityPoint(days[k], EquityOn(points, outcomes, days[k])) && curve[k].equity > 0.0
  }

  lemma WalkedIsCurve(curve: seq<EquityPoint>, days: seq<int>, points: seq<EquityPoint>, outcomes: seq<Outcome>)
    requires |points| > 0 && ListsDays(days, points, outcomes)
    requires Walked(curve, days, points, outcomes) && |curve| == |days|
    ensures IsCurve(curve, points, outcomes) && StaysPositive(points, outcomes)
  {
    hide EquityOn, CurveDays;
    forall i | 0 <= i < |curve| ensures curve[i].time in CurveDays(points, outcomes) {
      assert days[i] in days;
    }
    forall d | d in CurveDays(points, outcomes)
      ensures EquityOn(points, outcomes, d) > 0.0 && exists i :: 0 <= i < |curve| && curve[i].time == d
    {
      assert d in days;
      var i :| 0 <= i < |days| && days[i] == d;
      assert curve[i].time == d;
    }
  }

  /** The day loop: values every listed day, or stops at the first that leaves no equity. */
  method WalkDays(days: seq<int>, points: seq<EquityPoint>, outcomes: seq<Outcome>,
                  base: map<int, real>, byDay: map<int, real>) returns (r: Option<seq<EquityPoint>>)
    requires ValidCurve(points) && ListsDays(days, points, outcomes)
    requires IndexesBase(base, points) && IndexesPnl(byDay, outcomes)
    ensures r.Some? ==> |r.value| == |days| && Walked(r.value, days, points, outcomes)
    ensures r.None? ==> exists i :: 0 <= i < |days| && EquityOn(points, outcomes, days[i]) <= 0.0
  {
    assert |points| > 0;
    hide BaseAt, PnlThrough, ValidCurve, ListsDays, IndexesBase, IndexesPnl;
    var currentBase, cumulative := points[0].equity, 0.0;
    var curve: seq<EquityPoint> := [];
    for i := 0 to |days|
      invariant |curve| == i && Walked(curve, days, points, outcomes)
      invariant Running(days, points, outcomes, i, currentBase, cumulative)
    {
      currentBase, cumulative := VisitDay(days, points, outcomes, i, base, byDay, currentBase, cumulative);
      var equity := currentBase + cumulative;
      assert equity == EquityOn(points, outcomes, days[i]);
      if equity <= 0.0 {
        return None;
      }
      curve := curve + [EquityPoint(days[i], equity)];
    }
    return Some(curve);
  }

  ghost predicate StaysPositive(points: seq<EquityPoint>, outcomes: seq<Outcome>)
    requires |points| > 0
  {
    forall d :: d in CurveDays(points, outcomes) ==> EquityOn(points, outcomes, d) > 0.0
  }

  /** `None` is the raised error: equity would not have stayed positive. */
  method CounterfactualCurve(points: seq<EquityPoint>, outcomes: seq<Outcome>) returns (r: Option<seq<EquityPoint>>)
    requires ValidCurve(points)
    ensures r.Some? <==> StaysPositive(points, outcomes)
    ensures r.Some? ==> IsCurve(r.value, points, outcomes)
  {
    assert |points| > 0;
    hide EquityOn, CurveDays, ValidCurve, IsCurve, ListsDays, IndexesBase, IndexesPnl, Increasing, Walked, StaysPositive;
    if |outcomes| == 0 {
      UnchangedCurve(points, outcomes);
      return Some(points);
    }
    var base := BaseByDay(points);
    var byDay := PnlByDay(outcomes);
    var days := Sorted(base.Keys + byDay.Keys);
    DaysAreCurveDays(points, outcomes, base, byDay, days);
    r := WalkDays(days, points, outcomes, base, byDay);
    if r.None? {
      ghost var i :| 0 <= i < |days| && EquityOn(points, outcomes, days[i]) <= 0.0;
      NotPositive(days, points, outcomes, i);
    } else {
      WalkedIsCurve(r.value, days, points, outcomes);
    }
  }

  lemma NotPositive(days: seq<int>, points: seq<EquityPoint>, outcomes: seq<Outcome>, i: nat)
    requires |points| > 0 && ListsDays(days, points, outcomes) && i < |days|
    requires EquityOn(points, outcomes, days[i]) <= 0.0
    ensures !StaysPositive(points, outcomes)
  {
    assert days[i] in days;
  }

  method BaseByDay(points: seq<EquityPoint>) returns (base: map<int, real>)
    requires ValidCurve(points)
    ensures IndexesBase(base, points)
  {
    base := map[];
    for n := 0 to |points|
      invariant forall d :: d in base <==> exists i :: 0 <= i < n && points[i].time == d
      invariant forall i :: 0 <= i < n ==> points[i].time in base && base[points[i].time] == points[i].equity
    {
      base := base[points[n].time := points[n].equity];
    }
  }

  lemma DaysAreCurveDays(points: seq<EquityPoint>, outcomes: seq<Outcome>,
                         base: map<int, real>, byDay: map<int, real>, days: seq<int>)
    requires IndexesBase(base, points) && IndexesPnl(byDay, outcomes)
    requires Increasing(days) && forall d :: d in days <==> d in base.Keys + byDay.Keys
    ensures ListsDays(days, points, outcomes)
  {
    hide DayOf;
    forall d ensures d in days <==> d in CurveDays(points, outcomes) {
      if d in base {
        var i :| 0 <= i < |points| && points[i].time == d;
        assert points[i] in points;
      }
      if d in CurveDays(points, outcomes) && exists p :: p in points && p.time == d {
        var p :| p in points && p.time == d;
        var i :| 0 <= i < |points| && points[i] == p;
        assert points[i].time == d;
      }
    }
  }

  lemma UnchangedCurve(points: seq<EquityPoint>, outcomes: seq<Outcome>)
    requires ValidCurve(points) && |outcomes| == 0
    ensures StaysPositive(points, outcomes) && IsCurve(points, points, outcomes)
  {
    hide BaseAt, DayOf;
    forall i | 0 <= i < |points| ensures points[i].equity == EquityOn(points, outcomes, points[i].time) {
      BaseOn(points, i);
    }
    forall d | d in CurveDays(points, outcomes)
      ensures EquityOn(points, outcomes, d) > 0.0 && exists i :: 0 <= i < |points| && points[i].time == d
    {
      var p :| p in points && p.time == d;
      var i :| 0 <= i < |points| && points[i] == p;
      BaseOn(points, i);
    }
  }

  /** An outcome counts from the first day boundary after its observation, which is a day of the curve. */
  lemma FirstDayExactly(points: seq<EquityPoint>, outcomes: seq<Outcome>, o: Outcome, day: int)
    requires |points| > 0 && day % 86400 == 0
    ensures EquityOn(points, outcomes + [o], day) - EquityOn(points, outcomes, day)
         == if o.observedAt < day then o.pnl else 0.0
    ensures o.observedAt < day ==>
            exists first :: first in CurveDays(points, outcomes + [o]) && first % 86400 == 0
                         && o.observedAt < first <= day && first - 86400 <= o.observedAt
  {
    assert (outcomes + [o])[..|outcomes|] == outcomes;
    assert DayOf(o) % 86400 == 0 && o.observedAt < DayOf(o) <= o.observedAt + 86400 by {
      DayOfBounds(o);
    }
    hide DayOf, BaseAt;
    assert o in outcomes + [o];
    assert DayOf(o) in CurveDays(points, outcomes + [o]);
  }

  lemma DayOfBounds(o: Outcome)
    ensures DayOf(o) % 86400 == 0 && o.observedAt < DayOf(o) <= o.observedAt + 86400
  {
  }

  /**
   * Conservation at the end of the curve: the final counterfactual equity differs from the final
   * actual equity by exactly the profit missed less the loss avoided.
   */
  lemma FinalEquityConserves(curve: seq<EquityPoint>, points: seq<EquityPoint>, outcomes: seq<Outcome>)
    requires ValidCurve(points) && IsCurve(curve, points, outcomes)
    ensures |curve| > 0
    ensures curve[|curve| - 1].equity - points[|points| - 1].equity
         == TallyOf(outcomes).profitMissed - TallyOf(outcomes).lossAvoided
  {
    hide PnlThrough, DayOf, TallyOf;
    var last := points[|points| - 1];
    assert last in points && last.time in CurveDays(points, outcomes);
    var end := curve[|curve| - 1].time;
    forall d | d in CurveDays(points, outcomes) ensures d <= end {
      var i :| 0 <= i < |curve| && curve[i].time == d;
    }
    forall o | o in outcomes ensures DayOf(o) <= end {
      assert DayOf(o) in CurveDays(points, outcomes);
    }
    PnlAll(outcomes, end);
    NetPnlSplits(outcomes);
  }

  // ------------------------------------------------ the report and the curve

  lemma {:induction false} PnlWithout(s: seq<Outcome>, k: nat, day: int)
    requires k < |s|
    ensures PnlThrough(s, day)
         == PnlThrough(s[..k] + s[k + 1..], day) + (if DayOf(s[k]) <= day then s[k].pnl else 0.0)
  {
    hide DayOf;
    var n := |s| - 1;
    var rest := s[..k] + s[k + 1..];
    if k == n {
      assert rest == s[..n];
    } else {
      PnlWithout(s[..n], k, day);
      assert rest[..n - 1] == s[..n][..k] + s[..n][k + 1..];
    }
  }

  lemma WithoutOne(s: seq<Outcome>, k: nat)
    requires DistinctKeys(s) && k < |s|
    ensures DistinctKeys(s[..k] + s[k + 1..])
    ensures forall o :: o in s[..k] + s[k + 1..] <==> o in s && o != s[k]
  {
    hide KeyOf;
    var rest := s[..k] + s[k + 1..];
    assert forall i :: 0 <= i < |rest| ==> rest[i] == s[if i < k then i else i + 1];
    forall o ensures o in rest <==> o in s && o != s[k] {
      if o in s && o != s[k] {
        var i :| 0 <= i < |s| && s[i] == o;
        assert rest[if i < k then i else i - 1] == o;
      }
    }
  }

  /** The result of a set of outcomes does not depend on the order they are listed in. */
  lemma {:induction false} PnlIsOrderless(a: seq<Outcome>, b: seq<Outcome>, day: int)
    requires DistinctKeys(a) && DistinctKeys(b) && |a| == |b| && forall o :: o in a ==> o in b
    ensures PnlThrough(a, day) == PnlThrough(b, day)
    decreases |a|
  {
    hide DayOf, DistinctKeys;
    if |a| > 0 {
      var n := |a| - 1;
      assert a[n] in a;
      var k :| 0 <= k < |b| && b[k] == a[n];
      WithoutOne(a, n);
      WithoutOne(b, k);
      var rest := b[..k] + b[k + 1..];
      assert a[..n] + a[n + 1..] == a[..n];
      forall o | o in a[..n] ensures o in rest {
        assert o in a && o != a[n];
      }
      PnlIsOrderless(a[..n], rest, day);
      PnlWithout(b, k, day);
    }
  }

  lemma PositivityIsOrderless(points: seq<EquityPoint>, a: seq<Outcome>, b: seq<Outcome>)
    requires |points| > 0 && DistinctKeys(a) && DistinctKeys(b) && forall o :: o in a <==> o in b
    ensures StaysPositive(points, a) == StaysPositive(points, b)
  {
    hide DayOf, DistinctKeys, BaseAt, PnlThrough;
    assert CurveDays(points, a) == CurveDays(points, b);
    assert EvaluatedKeys(a) == EvaluatedKeys(b);
    DistinctCount(a);
    DistinctCount(b);
    forall d ensures PnlThrough(a, d) == PnlThrough(b, d) {
      PnlIsOrderless(a, b, d);
    }
  }

  /** With one outcome per key, as the caller has checked, a covering selection is all of them. */
  lemma CoveringIsAll(s: seq<Outcome>, cycles: seq<Cycle>, context: Context, outcomes: seq<Outcome>)
    requires Covering(s, Activations(cycles), outcomes)
    requires DistinctKeys(outcomes) && Admissible(cycles, context, outcomes)
    ensures forall o :: o in s <==> o in outcomes
  {
    hide Activations, Check;
    forall o | o in outcomes ensures o in s {
      assert KeyOf(o) in EvaluatedKeys(s);
      var e :| e in s && KeyOf(e) == KeyOf(o);
      var i :| 0 <= i < |outcomes| && outcomes[i] == o;
      var j :| 0 <= j < |outcomes| && outcomes[j] == e;
    }
  }

  /**
   * The report together with the curve it implies. It fails on inadmissible outcomes, or when the
   * curve of the outcomes it evaluates would not stay positive, and otherwise succeeds; with one
   * outcome per key that is positivity of the curve of all outcomes. The curve ends away from the
   * actual one by exactly what the report's totals say.
   */
  method EffectivenessWithCurve(cycles: seq<Cycle>, context: Context, outcomes: seq<Outcome>, points: seq<EquityPoint>)
    returns (r: Result<(Metrics, seq<EquityPoint>)>)
    requires ValidCurve(points)
    ensures !Admissible(cycles, context, outcomes) ==> r.Failure? && Raised(cycles, context, outcomes, r.error)
    ensures r.Failure? && Admissible(cycles, context, outcomes) ==>
      && r.error == EquityInvalid
      && exists s :: Covering(s, Activations(cycles), outcomes) && !StaysPositive(points, s)
    ensures DistinctKeys(outcomes) ==>
      (r.Success? <==> Admissible(cycles, context, outcomes) && StaysPositive(points, outcomes))
    ensures r.Success? ==>
      var m, curve := r.value.0, r.value.1;
      && Reports(m, cycles, outcomes)
      && IsCurve(curve, points, m.evaluated) && StaysPositive(points, m.evaluated)
      && |curve| > 0
      && curve[|curve| - 1].equity - points[|points| - 1].equity == m.total.profitMissed - m.total.lossAvoided
  {
    assert |points| > 0;
    hide *;
    var report := Effectiveness(cycles, context, outcomes);
    if report.Failure? {
      return Failure(report.error);
    }
    var evaluated := report.value.evaluated;
    ReportMeans(report.value, cycles, outcomes);
    AllOutcomesDecide(points, evaluated, cycles, context, outcomes);
    var curve := CounterfactualCurve(points, evaluated);
    if curve.None? {
      return Failure(EquityInvalid);
    }
    FinalEquityConserves(curve.value, points, evaluated);
    return Success((report.value, curve.value));
  }

  lemma ReportMeans(m: Metrics, cycles: seq<Cycle>, outcomes: seq<Outcome>)
    requires Reports(m, cycles, outcomes)
    ensures Covering(m.evaluated, Activations(cycles), outcomes) && m.total == TallyOf(m.evaluated)
  {
    hide Covering, BlockersDue, RulesReport, Counts, RowCounts, Distinct;
  }

  /** With one outcome per key it makes no difference whether positivity is asked of those evaluated or of all. */
  lemma AllOutcomesDecide(points: seq<EquityPoint>, evaluated: seq<Outcome>, cycles: seq<Cycle>, context: Context,
                          outcomes: seq<Outcome>)
    requires |points| > 0 && Covering(evaluated, Activations(cycles), outcomes) && Admissible(cycles, context, outcomes)
    ensures DistinctKeys(outcomes) ==> (StaysPositive(points, evaluated) <==> StaysPositive(points, outcomes))
  {
    hide StaysPositive, Admissible, Activations, DistinctKeys, EvaluatedKeys;
    if DistinctKeys(outcomes) {
      CoveringIsAll(evaluated, cycles, context, outcomes);
      PositivityIsOrderless(points, evaluated, outcomes);
    }
  }
}
