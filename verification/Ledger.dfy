/** The append-only opportunity lifecycle ledger, over every interleaving of opportunities. */
module Ledger {
  import opened Market

  datatype State =
    | New | Discovered | WatchOnly | SetupForming | Developing | ConfirmationPending | ResearchCandidate
    | Qualified | Confirmed | ValidationPending | PaperEligible | VirtualEligible
    | Blocked | Rejected | Invalidated | Expired | Closed

  /** `content` stands for every field the ledger only compares. */
  datatype Event = Event(id: string, opportunity: string, state: State, time: int, content: string)

  datatype Error = IdentityChanged | TimeRegressed | TransitionInvalid | MustBeginWithObservation
  datatype Outcome = Accepted(events: seq<Event>) | Refused(error: Error)

  predicate Absorbing(s: State) {
    s == Invalidated || s == Expired || s == Closed || s == Rejected
  }

  predicate Observation(s: State) {
    s == New || s == Discovered || s == WatchOnly || s == SetupForming
  }

  /** The progression table; the five states missing from it are Blocked and the absorbing ones. */
  function Rank(s: State): Option<nat> {
    match s
    case Discovered => Some(0)
    case New => Some(0)
    case WatchOnly => Some(0)
    case SetupForming => Some(1)
    case Developing => Some(2)
    case ResearchCandidate => Some(2)
    case ConfirmationPending => Some(3)
    case Qualified => Some(4)
    case Confirmed => Some(5)
    case ValidationPending => Some(6)
    case PaperEligible => Some(7)
    case VirtualEligible => Some(8)
    case _ => None
  }

  predicate ValidTransition(current: State, target: State) {
    if current == target then true
    else if Absorbing(current) then false
    else if target == Blocked || Absorbing(target) then true
    else if current == Blocked then target == WatchOnly
    else
      (if Rank(target).Some? then Rank(target).value else -1) >= (if Rank(current).Some? then Rank(current).value else 100)
  }

  /** The transition relation without the table's defaults, which therefore never decide anything. */
  lemma TransitionExactly(current: State, target: State)
    ensures ValidTransition(current, target) <==>
            || current == target
            || (!Absorbing(current) && (
                  || target == Blocked || Absorbing(target)
                  || (current == Blocked && target == WatchOnly)
                  || (Rank(current).Some? && Rank(target).Some? && Rank(current).value <= Rank(target).value)))
  {
  }

  /** The stages of progress in their order, by name. */
  ghost const STAGES: seq<set<State>> := [
    {Discovered, New, WatchOnly}, {SetupForming}, {Developing, ResearchCandidate}, {ConfirmationPending},
    {Qualified}, {Confirmed}, {ValidationPending}, {PaperEligible}, {VirtualEligible}]

  ghost const ENDS: set<State> := {Invalidated, Expired, Closed, Rejected}

  /** No stage of progress holds the later state before the earlier one. */
  ghost predicate NoStepBack(current: State, target: State) {
    exists i, j :: 0 <= i <= j < |STAGES| && current in STAGES[i] && target in STAGES[j]
  }

  lemma StageOfRank(s: State, i: nat)
    requires i < |STAGES|
    ensures s in STAGES[i] <==> Rank(s) == Some(i)
  {
  }

  /**
   * The transitions by name: an ended opportunity stays as it is; a blocked one may only return to
   * watching or end; any other may be blocked or end, and otherwise moves within the stages of
   * progress and never to an earlier one.
   */
  lemma TransitionsByName(current: State, target: State)
    ensures current in ENDS ==> (ValidTransition(current, target) <==> target == current)
    ensures current == Blocked ==> (ValidTransition(current, target) <==> target in ENDS + {Blocked, WatchOnly})
    ensures current !in ENDS + {Blocked} && target in ENDS + {Blocked} ==> ValidTransition(current, target)
    ensures current !in ENDS + {Blocked} && target !in ENDS + {Blocked} ==>
              (ValidTransition(current, target) <==> NoStepBack(current, target))
    ensures Observation(target) <==> target in {New, Discovered, WatchOnly, SetupForming}
    ensures Absorbing(target) <==> target in ENDS
  {
    hide NoStepBack, ValidTransition;
    TransitionExactly(current, target);
    RankedOrNot(current);
    RankedOrNot(target);
    hide Absorbing, Rank, Observation, ENDS;
    if Rank(current).Some? && Rank(target).Some? {
      NoStepBackIsRank(current, target);
    }
  }

  /** Every state is blocked, an end or a stage of progress, and only one of them. */
  lemma RankedOrNot(s: State)
    ensures Absorbing(s) <==> s in ENDS
    ensures Rank(s).None? <==> s in ENDS + {Blocked}
    ensures Blocked !in ENDS && WatchOnly !in ENDS && Rank(WatchOnly).Some?
    ensures Observation(s) <==> s in {New, Discovered, WatchOnly, SetupForming}
  {
  }

  lemma NoStepBackIsRank(current: State, target: State)
    requires Rank(current).Some? && Rank(target).Some?
    ensures NoStepBack(current, target) <==> Rank(current).value <= Rank(target).value
  {
    var i, j := Rank(current).value, Rank(target).value;
    assert i < |STAGES| && j < |STAGES|;
    StageOfRank(current, i);
    StageOfRank(target, j);
    if NoStepBack(current, target) {
      var a, b :| 0 <= a <= b < |STAGES| && current in STAGES[a] && target in STAGES[b];
      StageOfRank(current, a);
      StageOfRank(target, b);
    }
    hide Rank, STAGES;
  }

  function History(l: seq<Event>, opportunity: string): seq<Event> {
    if |l| == 0 then []
    else
      var n := |l| - 1;
      History(l[..n], opportunity) + (if l[n].opportunity == opportunity then [l[n]] else [])
  }

  function FindById(l: seq<Event>, id: string): Option<Event> {
    if |l| == 0 then None
    else
      var earlier := FindById(l[..|l|-1], id);
      if earlier.Some? then earlier
      else if l[|l|-1].id == id then Some(l[|l|-1])
      else None
  }

  /** Whether an event with a new identity may follow this history. */
  function Admit(history: seq<Event>, e: Event): Option<Error> {
    if |history| > 0 then
      var latest := history[|history| - 1];
      if e.time < latest.time then Some(TimeRegressed)
      else if !ValidTransition(latest.state, e.state) then Some(TransitionInvalid)
      else None
    else if !Observation(e.state) then Some(MustBeginWithObservation)
    else None
  }

  function Append(l: seq<Event>, e: Event): Outcome {
    var existing := FindById(l, e.id);
    if existing.Some? then
      if existing.value != e then Refused(IdentityChanged) else Accepted(l)
    else
      var error := Admit(History(l, e.opportunity), e);
      if error.Some? then Refused(error.value) else Accepted(l + [e])
  }

  function AppendAll(l: seq<Event>, es: seq<Event>): Outcome
    decreases |es|
  {
    if |es| == 0 then Accepted(l)
    else
      var r := Append(l, es[0]);
      if r.Refused? then r else AppendAll(r.events, es[1..])
  }

  ghost predicate Reachable(l: seq<Event>) {
    exists es :: AppendAll([], es) == Accepted(l)
  }

  // ------------------------------------- what reachable ledgers look like

  ghost predicate UniqueIds(l: seq<Event>) {
    forall i, j :: 0 <= i < j < |l| ==> l[i].id != l[j].id
  }

  ghost predicate GoodHistory(h: seq<Event>) {
    && (|h| > 0 ==> Observation(h[0].state))
    && forall i :: 0 < i < |h| ==> h[i - 1].time <= h[i].time && ValidTransition(h[i - 1].state, h[i].state)
  }

  ghost predicate WellFormed(l: seq<Event>) {
    UniqueIds(l) && forall o :: GoodHistory(History(l, o))
  }

  lemma {:induction false} FindByIdMeaning(l: seq<Event>, id: string)
    ensures var r := FindById(l, id);
            && (r.Some? ==> r.value in l && r.value.id == id)
            && (r.None? ==> forall e :: e in l ==> e.id != id)
  {
    if |l| > 0 {
      var n := |l| - 1;
      FindByIdMeaning(l[..n], id);
      assert l == l[..n] + [l[n]];
    }
  }

  /** With unique ids, finding an event's id finds the event. */
  lemma FindRecorded(l: seq<Event>, e: Event)
    requires UniqueIds(l) && e in l
    ensures FindById(l, e.id) == Some(e)
  {
    FindByIdMeaning(l, e.id);
    var i :| 0 <= i < |l| && l[i] == e;
    var found := FindById(l, e.id).value;
    var j :| 0 <= j < |l| && l[j] == found;
  }

  /** What a history holds: the opportunity's events, all of them, in ledger order. */
  lemma {:induction false} HistoryExactly(l: seq<Event>, opportunity: string)
    ensures forall e :: e in History(l, opportunity) <==> e in l && e.opportunity == opportunity
    ensures multiset(History(l, opportunity)) <= multiset(l)
  {
    if |l| > 0 {
      var n := |l| - 1;
      HistoryExactly(l[..n], opportunity);
      assert l == l[..n] + [l[n]];
    }
  }

  /** What one append answers on a ledger with unique ids: each acceptance and each refusal exactly. */
  lemma AppendExactly(l: seq<Event>, e: Event)
    requires UniqueIds(l)
    ensures var r, h := Append(l, e), History(l, e.opportunity);
            var known := exists x :: x in l && x.id == e.id;
            var latest := if |h| > 0 then Some(h[|h| - 1]) else None;
            var early := latest.Some? && e.time < latest.value.time;
            && (r == Refused(IdentityChanged) <==> known && e !in l)
            && (r == Accepted(l) <==> e in l)
            && (r == Refused(TimeRegressed) <==> !known && early)
            && (r == Refused(TransitionInvalid) <==>
                  !known && latest.Some? && !early && !ValidTransition(latest.value.state, e.state))
            && (r == Refused(MustBeginWithObservation) <==> !known && latest.None? && !Observation(e.state))
            && (r == Accepted(l + [e]) <==>
                  !known && !early && (if latest.Some? then ValidTransition(latest.value.state, e.state)
                                       else Observation(e.state)))
  {
    hide ValidTransition, Observation, FindById, History;
    FindByIdMeaning(l, e.id);
    if e in l {
      FindRecorded(l, e);
    }
    assert |l + [e]| != |l|;
  }

  lemma HistoryAppend(l: seq<Event>, e: Event, o: string)
    ensures History(l + [e], o) == History(l, o) + (if e.opportunity == o then [e] else [])
  {
    assert (l + [e])[..|l|] == l;
  }

  lemma AdmitExtends(h: seq<Event>, e: Event)
    requires GoodHistory(h) && Admit(h, e).None?
    ensures GoodHistory(h + [e])
  {
    hide ValidTransition;
  }

  lemma NewIdExtends(l: seq<Event>, e: Event)
    requires UniqueIds(l) && FindById(l, e.id).None?
    ensures UniqueIds(l + [e])
  {
    FindByIdMeaning(l, e.id);
    hide FindById;
    assert forall i :: 0 <= i < |l| ==> l[i] in l;
  }

  lemma AppendKeepsWellFormed(l: seq<Event>, e: Event)
    requires WellFormed(l) && Append(l, e).Accepted?
    ensures WellFormed(Append(l, e).events)
  {
    hide GoodHistory, UniqueIds, Admit, FindById;
    if FindById(l, e.id).None? {
      NewIdExtends(l, e);
      forall o ensures GoodHistory(History(l + [e], o)) {
        HistoryAppend(l, e, o);
        assert GoodHistory(History(l, o));
        if o == e.opportunity {
          AdmitExtends(History(l, o), e);
        } else {
          assert History(l, o) + [] == History(l, o);
        }
      }
    }
  }

  lemma {:induction false} AppendAllKeepsWellFormed(l: seq<Event>, es: seq<Event>)
    requires WellFormed(l) && AppendAll(l, es).Accepted?
    ensures WellFormed(AppendAll(l, es).events)
    decreases |es|
  {
    hide WellFormed;
    if |es| > 0 {
      AppendKeepsWellFormed(l, es[0]);
      AppendAllKeepsWellFormed(Append(l, es[0]).events, es[1..]);
    }
  }

  lemma {:induction false} AppendAllConcat(l: seq<Event>, a: seq<Event>, b: seq<Event>)
    ensures AppendAll(l, a + b) ==
            (if AppendAll(l, a).Refused? then AppendAll(l, a) else AppendAll(AppendAll(l, a).events, b))
    decreases |a|
  {
    if |a| == 0 {
      assert a + b == b;
    } else {
      assert (a + b)[0] == a[0] && (a + b)[1..] == a[1..] + b;
      var r := Append(l, a[0]);
      if r.Accepted? {
        AppendAllConcat(r.events, a[1..], b);
      }
    }
  }

  lemma PrefixWellFormed(l: seq<Event>)
    requires WellFormed(l) && |l| > 0
    ensures WellFormed(l[..|l|-1])
    ensures Append(l[..|l|-1], l[|l|-1]) == Accepted(l)
  {
    hide ValidTransition;
    var n := |l| - 1;
    var before, e := l[..n], l[n];
    assert l == before + [e];
    forall o ensures GoodHistory(History(before, o)) {
      var h, h' := History(before, o), History(l, o);
      HistoryAppend(before, e, o);
      assert forall i :: 0 <= i < |h| ==> h[i] == h'[i];
      assert GoodHistory(h');
    }
    FindByIdMeaning(before, e.id);
    var h, h' := History(before, e.opportunity), History(l, e.opportunity);
    HistoryAppend(before, e, e.opportunity);
    assert GoodHistory(h') && h' == h + [e];
    if |h| > 0 {
      assert h'[|h| - 1] == h[|h| - 1] && h'[|h|] == e;
    } else {
      assert h'[0] == e;
    }
  }

  /** Folding append over a ledger's own events from empty rebuilds it exactly. */
  lemma {:induction false} ReplayRebuilds(l: seq<Event>)
    requires WellFormed(l)
    ensures AppendAll([], l) == Accepted(l)
  {
    if |l| > 0 {
      var n := |l| - 1;
      PrefixWellFormed(l);
      hide WellFormed;
      ReplayRebuilds(l[..n]);
      AppendAllConcat([], l[..n], [l[n]]);
      assert l[..n] + [l[n]] == l;
      Single(l[..n], l[n]);
    }
  }

  lemma Single(l: seq<Event>, e: Event)
    ensures AppendAll(l, [e]) == Append(l, e)
  {
    var r := Append(l, e);
    if r.Accepted? {
      assert AppendAll(r.events, [e][1..]) == Accepted(r.events);
    }
  }

  /** The reachable ledgers are exactly the well-formed ones. */
  lemma ReachableExactlyWellFormed(l: seq<Event>)
    ensures Reachable(l) <==> WellFormed(l)
  {
    hide WellFormed;
    if Reachable(l) {
      var es :| AppendAll([], es) == Accepted(l);
      EmptyWellFormed();
      AppendAllKeepsWellFormed([], es);
    }
    if WellFormed(l) {
      ReplayRebuilds(l);
    }
  }

  lemma EmptyWellFormed()
    ensures WellFormed([])
  {
  }

  /** Re-appending any recorded events, in any order and number, changes nothing. */
  lemma {:induction false} Idempotent(l: seq<Event>, es: seq<Event>)
    requires Reachable(l) && forall e :: e in es ==> e in l
    ensures AppendAll(l, es) == Accepted(l)
    decreases |es|
  {
    ReachableExactlyWellFormed(l);
    if |es| > 0 {
      assert es[0] in es;
      FindRecorded(l, es[0]);
      Idempotent(l, es[1..]);
    }
  }

  // -------------------------------------------------- facts of a history

  /** Times never regress, at any distance. */
  lemma {:induction false} TimesOrdered(h: seq<Event>, i: nat, j: nat)
    requires GoodHistory(h) && i <= j < |h|
    ensures h[i].time <= h[j].time
    decreases j - i
  {
    hide ValidTransition;
    if i < j {
      TimesOrdered(h, i, j - 1);
    }
  }

  /** After an absorbing state only that same state can be recorded. */
  lemma {:induction false} AbsorbingStays(h: seq<Event>, i: nat, j: nat)
    requires GoodHistory(h) && i <= j < |h| && Absorbing(h[i].state)
    ensures h[j].state == h[i].state
    decreases j - i
  {
    if i < j {
      AbsorbingStays(h, i, j - 1);
      assert ValidTransition(h[j - 1].state, h[j].state);
    }
  }

  /** Progress is lost only through a block: a lower rank needs a Blocked to WatchOnly step in between. */
  lemma {:induction false} RankFallsOnlyThroughBlock(h: seq<Event>, i: nat, j: nat)
    requires GoodHistory(h) && i < j < |h|
    requires Rank(h[i].state).Some? && Rank(h[j].state).Some?
    requires Rank(h[j].state).value < Rank(h[i].state).value
    ensures exists k :: i < k < j && h[k].state == Blocked && h[k + 1].state == WatchOnly
    decreases j - i
  {
    assert ValidTransition(h[j - 1].state, h[j].state);
    if Rank(h[j - 1].state).Some? {
      assert Rank(h[j - 1].state).value <= Rank(h[j].state).value;
      RankFallsOnlyThroughBlock(h, i, j - 1);
    } else {
      assert h[j - 1].state == Blocked && h[j].state == WatchOnly;
    }
  }

  /** The three facts together, for every reachable ledger and every opportunity in it. */
  lemma ReachableHistories(l: seq<Event>, o: string, i: nat, j: nat)
    requires Reachable(l) && i < j < |History(l, o)|
    ensures var h := History(l, o);
            && Observation(h[0].state)
            && h[i].time <= h[j].time
            && (Absorbing(h[i].state) ==> h[j].state == h[i].state)
            && (Rank(h[i].state).Some? && Rank(h[j].state).Some? && Rank(h[j].state).value < Rank(h[i].state).value ==>
                exists k :: i < k < j && h[k].state == Blocked && h[k + 1].state == WatchOnly)
  {
    ReachableExactlyWellFormed(l);
    var h := History(l, o);
    assert GoodHistory(h);
    hide ValidTransition, Rank, GoodHistory;
    assert Observation(h[0].state) by { StartsObserved(h); }
    TimesOrdered(h, i, j);
    if Absorbing(h[i].state) {
      AbsorbingStays(h, i, j);
    }
    if Rank(h[i].state).Some? && Rank(h[j].state).Some? && Rank(h[j].state).value < Rank(h[i].state).value {
      RankFallsOnlyThroughBlock(h, i, j);
    }
  }

  lemma StartsObserved(h: seq<Event>)
    requires GoodHistory(h) && |h| > 0
    ensures Observation(h[0].state)
  {
  }

  // -------------------------------------------------------- interleaving

  /** Two ledgers no append can tell apart. */
  ghost predicate Equivalent(a: seq<Event>, b: seq<Event>) {
    && (forall o :: History(a, o) == History(b, o))
    && (forall e :: e in a <==> e in b)
  }

  lemma SameLookup(a: seq<Event>, b: seq<Event>, id: string)
    requires WellFormed(a) && WellFormed(b) && Equivalent(a, b)
    ensures FindById(a, id) == FindById(b, id)
  {
    FindByIdMeaning(a, id);
    FindByIdMeaning(b, id);
    if FindById(a, id).Some? {
      FindRecorded(b, FindById(a, id).value);
    }
  }

  lemma EquivalentStep(a: seq<Event>, b: seq<Event>, e: Event)
    requires WellFormed(a) && WellFormed(b) && Equivalent(a, b)
    ensures Append(a, e).Refused? <==> Append(b, e).Refused?
    ensures Append(a, e).Refused? ==> Append(a, e) == Append(b, e)
    ensures Append(a, e).Accepted? ==> Equivalent(Append(a, e).events, Append(b, e).events)
  {
    SameLookup(a, b, e.id);
    assert History(a, e.opportunity) == History(b, e.opportunity);
    EquivalentExtends(a, b, e);
    hide WellFormed, Admit, Equivalent, FindById;
  }

  lemma EquivalentExtends(a: seq<Event>, b: seq<Event>, e: Event)
    requires Equivalent(a, b)
    ensures Equivalent(a + [e], b + [e])
  {
    forall o ensures History(a + [e], o) == History(b + [e], o) {
      HistoryAppend(a, e, o);
      HistoryAppend(b, e, o);
    }
  }

  lemma {:induction false} EquivalentRun(a: seq<Event>, b: seq<Event>, es: seq<Event>)
    requires WellFormed(a) && WellFormed(b) && Equivalent(a, b)
    ensures AppendAll(a, es).Refused? <==> AppendAll(b, es).Refused?
    ensures AppendAll(a, es).Accepted? ==> Equivalent(AppendAll(a, es).events, AppendAll(b, es).events)
    decreases |es|
  {
    hide WellFormed, Equivalent;
    if |es| > 0 {
      EquivalentStep(a, b, es[0]);
      if Append(a, es[0]).Accepted? {
        AppendKeepsWellFormed(a, es[0]);
        AppendKeepsWellFormed(b, es[0]);
        EquivalentRun(Append(a, es[0]).events, Append(b, es[0]).events, es[1..]);
      }
    }
  }

  /** Appending e does not change what another opportunity's event with another id meets. */
  lemma AppendIndependent(l: seq<Event>, x: Event, y: Event)
    requires x.id != y.id && x.opportunity != y.opportunity
    ensures FindById(l + [x], y.id) == FindById(l, y.id)
    ensures History(l + [x], y.opportunity) == History(l, y.opportunity)
  {
    assert (l + [x])[..|l|] == l;
    HistoryAppend(l, x, y.opportunity);
  }

  function Pair(l: seq<Event>, x: Event, y: Event): Outcome {
    if Append(l, x).Refused? then Append(l, x) else Append(Append(l, x).events, y)
  }

  lemma PairMeaning(l: seq<Event>, x: Event, y: Event)
    ensures AppendAll(l, [x, y]) == Pair(l, x, y)
  {
    AppendAllConcat(l, [x], [y]);
    assert [x] + [y] == [x, y];
    Single(l, x);
    if Append(l, x).Accepted? {
      Single(Append(l, x).events, y);
    }
  }

  lemma PairCommutes(l: seq<Event>, x: Event, y: Event)
    requires x.id != y.id && x.opportunity != y.opportunity
    ensures Pair(l, x, y).Refused? <==> Pair(l, y, x).Refused?
    ensures Pair(l, x, y).Accepted? ==> Equivalent(Pair(l, x, y).events, Pair(l, y, x).events)
  {
    AppendIndependent(l, x, y);
    AppendIndependent(l, y, x);
    SwapEquivalent(l, x, y);
    hide Admit, Equivalent, FindById, History;
    if Pair(l, x, y).Accepted? {
      SelfEquivalent(Pair(l, x, y).events);
    }
  }

  lemma SelfEquivalent(l: seq<Event>)
    ensures Equivalent(l, l)
  {
  }

  lemma SwapEquivalent(l: seq<Event>, x: Event, y: Event)
    requires x.opportunity != y.opportunity
    ensures Equivalent(l + [x] + [y], l + [y] + [x])
  {
    forall o ensures History(l + [x] + [y], o) == History(l + [y] + [x], o) {
      HistoryAppend(l, x, o);
      HistoryAppend(l + [x], y, o);
      HistoryAppend(l, y, o);
      HistoryAppend(l + [y], x, o);
    }
  }

  /**
   * Swapping two adjacent events of different opportunities, anywhere in any run, preserves
   * acceptance and every opportunity's history.
   */
  lemma InterleavingCommutes(l: seq<Event>, before: seq<Event>, x: Event, y: Event, after: seq<Event>)
    requires Reachable(l) && x.id != y.id && x.opportunity != y.opportunity
    ensures var r, s := AppendAll(l, before + [x, y] + after), AppendAll(l, before + [y, x] + after);
            && (r.Accepted? <==> s.Accepted?)
            && (r.Accepted? ==> Equivalent(r.events, s.events))
  {
    ReachableExactlyWellFormed(l);
    hide WellFormed, Equivalent, Append, AppendAll, Pair;
    AppendAllConcat(l, before + [x, y], after);
    AppendAllConcat(l, before + [y, x], after);
    AppendAllConcat(l, before, [x, y]);
    AppendAllConcat(l, before, [y, x]);
    if AppendAll(l, before).Accepted? {
      AppendAllKeepsWellFormed(l, before);
      var m := AppendAll(l, before).events;
      PairMeaning(m, x, y);
      PairMeaning(m, y, x);
      PairCommutes(m, x, y);
      if Pair(m, x, y).Accepted? {
        AppendAllKeepsWellFormed(m, [x, y]);
        AppendAllKeepsWellFormed(m, [y, x]);
        EquivalentRun(Pair(m, x, y).events, Pair(m, y, x).events, after);
      }
    }
  }
}
