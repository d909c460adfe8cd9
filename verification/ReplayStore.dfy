/**
 * Checkpointing a historical replay: an append-only log that a longer run of the same request may
 * extend and nothing else may change, and the reset history kept beside it.
 */
module ReplayStore {
  import opened Market

  const GENESIS := "GENESIS"
  const RESET_CONFIRMATION := "CONFIRM_VIRTUAL_WALLET_RESET"
  const SPOT := "SPOT"
  const FUTURES := "USD_M_FUTURES"
  const MAXIMUM_CAPITAL := 1000.0

  datatype Epoch = Epoch(market: string, portfolioId: string, initialCapital: real)
  datatype Portfolio = Portfolio(market: string, portfolioId: string, initialEquity: real, detail: string)

  /** The two hashes of a request are carried as opaque values. */
  datatype Request = Request(runId: string, seedHash: string, auditHash: string, epochs: seq<Epoch>)

  /** `lastObserved` is the time of the last cycle, `latestObserved` the latest time of any cycle. */
  datatype RunResult = RunResult(
    request: Request, cycleHashes: seq<string>, semanticHash: string, auditHash: string,
    portfolios: seq<Portfolio>, openPositions: nat, lastObserved: int, latestObserved: int, detail: string)

  datatype Checkpoint = Checkpoint(
    runId: string, seedHash: string, requestAudit: string, semanticHash: string, auditHash: string,
    lastSequence: int, cycleHashes: seq<string>, persistedAt: int, portfolios: seq<Portfolio>,
    detail: string, previous: string)

  /** A recorded reset; `closing` holds the final portfolios its epoch summaries are taken from. */
  datatype Reset = Reset(
    runId: string, semanticHash: string, auditHash: string, resetAt: int,
    finalized: seq<Epoch>, closing: seq<Portfolio>, spotCapital: real, futuresCapital: real)

  datatype Error =
    | RequestMismatch | MarketScopeMismatch | EpochMismatch
    | PersistenceConflict | CheckpointDivergence | IdempotencyConflict
    | ConfirmationRequired | ResetPrecedesReplay | StateNotPersisted | CapitalPerMarket

  datatype Result<+T> = Ok(value: T) | Err(error: Error)

  // --------------------------------------------------------------- binding

  function EpochOf(epochs: seq<Epoch>, market: string): Option<Epoch> {
    if |epochs| == 0 then None
    else if epochs[|epochs|-1].market == market then Some(epochs[|epochs|-1])
    else EpochOf(epochs[..|epochs|-1], market)
  }

  predicate SameMarkets(epochs: seq<Epoch>, portfolios: seq<Portfolio>) {
    && (forall e :: e in epochs ==> exists p :: p in portfolios && p.market == e.market)
    && (forall p :: p in portfolios ==> exists e :: e in epochs && e.market == p.market)
  }

  predicate FundedBy(epochs: seq<Epoch>, portfolios: seq<Portfolio>) {
    forall p :: p in portfolios ==>
      match EpochOf(epochs, p.market)
      case None => false
      case Some(e) => p.portfolioId == e.portfolioId && p.initialEquity == e.initialCapital
  }

  function BindingError(request: Request, state: Checkpoint): Option<Error> {
    if state.runId != request.runId || state.seedHash != request.seedHash || state.requestAudit != request.auditHash
    then Some(RequestMismatch)
    else if !SameMarkets(request.epochs, state.portfolios) then Some(MarketScopeMismatch)
    else if !FundedBy(request.epochs, state.portfolios) then Some(EpochMismatch)
    else None
  }

  /** What construction of a run result guarantees. */
  ghost predicate ValidResult(r: RunResult) {
    |r.cycleHashes| > 0 && SameMarkets(r.request.epochs, r.portfolios) && FundedBy(r.request.epochs, r.portfolios)
  }

  function FromResult(r: RunResult, persistedAt: int, previous: string): Checkpoint {
    Checkpoint(r.request.runId, r.request.seedHash, r.request.auditHash, r.semanticHash, r.auditHash,
      |r.cycleHashes| - 1, r.cycleHashes, persistedAt, r.portfolios, r.detail, previous)
  }

  // ------------------------------------------------------ one call, as values

  function Latest(log: seq<Checkpoint>): Option<Checkpoint> {
    if |log| == 0 then None else Some(log[|log| - 1])
  }

  function RestoreFrom(log: seq<Checkpoint>, request: Request): Result<Option<Checkpoint>> {
    match Latest(log)
    case None => Ok(None)
    case Some(state) =>
      match BindingError(request, state)
      case Some(error) => Err(error)
      case None => Ok(Some(state))
  }

  predicate AuditUsed(log: seq<Checkpoint>, auditHash: string) {
    exists c :: c in log && c.auditHash == auditHash
  }

  /** The checkpoint a persist call would write, or why it writes nothing. */
  datatype Verdict = Write(state: Checkpoint) | AlreadyPersisted | Refuse(error: Error)

  function Judge(digest: Checkpoint -> string, log: seq<Checkpoint>, r: RunResult, persistedAt: int): Verdict {
    var restored := RestoreFrom(log, r.request);
    if restored.Err? then Refuse(restored.error)
    else if restored.value.None? then Write(FromResult(r, persistedAt, GENESIS))
    else
      var last := restored.value.value;
      var state := FromResult(r, persistedAt, digest(last));
      if last.auditHash == state.auditHash then AlreadyPersisted
      else if state.lastSequence <= last.lastSequence then Refuse(PersistenceConflict)
      else if !(last.cycleHashes <= state.cycleHashes) then Refuse(CheckpointDivergence)
      else if AuditUsed(log, state.auditHash) then
        // the audit store compares the whole event recorded under that identity
        if state in log then AlreadyPersisted else Refuse(IdempotencyConflict)
      else Write(state)
  }

  function After(digest: Checkpoint -> string, log: seq<Checkpoint>, r: RunResult, persistedAt: int): seq<Checkpoint> {
    match Judge(digest, log, r, persistedAt)
    case Write(state) => log + [state]
    case _ => log
  }

  /** The epoch that funds a market: the last one named for it. */
  lemma {:induction false} EpochOfExactly(epochs: seq<Epoch>, market: string)
    ensures match EpochOf(epochs, market)
            case None => forall e :: e in epochs ==> e.market != market
            case Some(e) => exists i :: 0 <= i < |epochs| && epochs[i] == e && e.market == market
                                     && forall j :: i < j < |epochs| ==> epochs[j].market != market
  {
    if |epochs| > 0 {
      var n := |epochs| - 1;
      assert epochs == epochs[..n] + [epochs[n]];
      EpochOfExactly(epochs[..n], market);
    }
  }

  /** What binds a checkpoint to a request, and which difference is reported first. */
  lemma BindingExactly(request: Request, state: Checkpoint)
    ensures var same := state.runId == request.runId && state.seedHash == request.seedHash
                        && state.requestAudit == request.auditHash;
            var scope := (set e | e in request.epochs :: e.market) == (set p | p in state.portfolios :: p.market);
            && (BindingError(request, state) == Some(RequestMismatch) <==> !same)
            && (BindingError(request, state) == Some(MarketScopeMismatch) <==> same && !scope)
            && (BindingError(request, state) == None <==>
                  same && scope && forall p :: p in state.portfolios ==>
                    EpochOf(request.epochs, p.market).Some?
                    && p.portfolioId == EpochOf(request.epochs, p.market).value.portfolioId
                    && p.initialEquity == EpochOf(request.epochs, p.market).value.initialCapital)
            && (BindingError(request, state).Some? ==>
                  BindingError(request, state).value in {RequestMismatch, MarketScopeMismatch, EpochMismatch})
  {
    ScopeExactly(request.epochs, state.portfolios);
    hide SameMarkets, EpochOf;
  }

  lemma ScopeExactly(epochs: seq<Epoch>, portfolios: seq<Portfolio>)
    ensures SameMarkets(epochs, portfolios) <==>
            (set e | e in epochs :: e.market) == (set p | p in portfolios :: p.market)
  {
    var a, b := set e | e in epochs :: e.market, set p | p in portfolios :: p.market;
    if SameMarkets(epochs, portfolios) {
      assert a == b;
    } else if a == b {
      forall e | e in epochs ensures exists p :: p in portfolios && p.market == e.market {
        assert e.market in b;
      }
      forall p | p in portfolios ensures exists e :: e in epochs && e.market == p.market {
        assert p.market in a;
      }
    }
  }

  /** What a written checkpoint records: the result's own identity, cycles and wallets, the time and the link. */
  lemma WrittenExactly(digest: Checkpoint -> string, log: seq<Checkpoint>, r: RunResult, persistedAt: int)
    requires ValidResult(r) && Judge(digest, log, r, persistedAt).Write?
    ensures var state := Judge(digest, log, r, persistedAt).state;
            && state.runId == r.request.runId && state.seedHash == r.request.seedHash
            && state.requestAudit == r.request.auditHash
            && state.semanticHash == r.semanticHash && state.auditHash == r.auditHash
            && state.cycleHashes == r.cycleHashes && state.lastSequence + 1 == |r.cycleHashes|
            && state.persistedAt == persistedAt && state.portfolios == r.portfolios && state.detail == r.detail
            && state.previous == (if log == [] then GENESIS else digest(log[|log| - 1]))
            && After(digest, log, r, persistedAt) == log + [state]
            && BindingError(r.request, state).None?
  {
    hide SameMarkets, FundedBy;
  }

  /** Why a call writes nothing, each reason exactly. */
  lemma RefusalExactly(digest: Checkpoint -> string, log: seq<Checkpoint>, r: RunResult, persistedAt: int)
    requires |log| > 0
    ensures var last, v := log[|log| - 1], Judge(digest, log, r, persistedAt);
            var bound, again := BindingError(r.request, last).None?, last.auditHash == r.auditHash;
            var longer := |r.cycleHashes| - 1 > last.lastSequence;
            && (v.Refuse? && v.error in {RequestMismatch, MarketScopeMismatch, EpochMismatch} <==> !bound)
            && (v == Refuse(PersistenceConflict) <==> bound && !again && !longer)
            && (v == Refuse(CheckpointDivergence) <==>
                  bound && !again && longer && !(last.cycleHashes <= r.cycleHashes))
            && (bound && again ==> v == AlreadyPersisted)
  {
    BindingExactly(r.request, log[|log| - 1]);
    hide SameMarkets, FundedBy, BindingError, EpochOf;
  }

  // -------------------------------------------------------- the chain property

  ghost predicate Bound(a: Checkpoint, b: Checkpoint) {
    a.runId == b.runId && a.seedHash == b.seedHash && a.requestAudit == b.requestAudit
  }

  /** Everything the log promises about any two of its records, near or far. */
  ghost predicate Chained(digest: Checkpoint -> string, log: seq<Checkpoint>) {
    && (forall i :: 0 <= i < |log| ==> log[i].lastSequence == |log[i].cycleHashes| - 1 >= 0)
    && (|log| > 0 ==> log[0].previous == GENESIS)
    && (forall i :: 0 < i < |log| ==> log[i].previous == digest(log[i - 1]))
    && (forall i, j :: 0 <= i < j < |log| ==>
          && Bound(log[i], log[j])
          && log[i].lastSequence < log[j].lastSequence
          && log[i].cycleHashes < log[j].cycleHashes
          && log[i].auditHash != log[j].auditHash)
  }

  lemma WriteExtendsChain(digest: Checkpoint -> string, log: seq<Checkpoint>, r: RunResult, persistedAt: int)
    requires Chained(digest, log) && ValidResult(r)
    ensures Chained(digest, After(digest, log, r, persistedAt))
  {
    hide SameMarkets, FundedBy;
    var verdict := Judge(digest, log, r, persistedAt);
    if verdict.Write? && |log| > 0 {
      var last, state, n := log[|log| - 1], verdict.state, |log|;
      var log' := log + [state];
      assert BindingError(r.request, last).None? && Bound(last, state);
      assert last.cycleHashes < state.cycleHashes;
      forall i | 0 <= i < n
        ensures Bound(log[i], state) && log[i].lastSequence < state.lastSequence
             && log[i].cycleHashes < state.cycleHashes && log[i].auditHash != state.auditHash
      {
        assert log[i] in log;
        if i < n - 1 {
          PrefixTransitive(log[i].cycleHashes, last.cycleHashes, state.cycleHashes);
        }
      }
    }
  }

  lemma PrefixTransitive(a: seq<string>, b: seq<string>, c: seq<string>)
    requires a < b && b < c
    ensures a < c
  {
  }

  /**
   * Exactly when a call grows the log: the log is empty, or the result belongs to the request of
   * the latest checkpoint, carries an audit identity not yet used, and strictly extends that
   * checkpoint's cycles.
   */
  lemma GrowsExactlyWhen(digest: Checkpoint -> string, log: seq<Checkpoint>, r: RunResult, persistedAt: int)
    requires Chained(digest, log) && ValidResult(r)
    ensures After(digest, log, r, persistedAt) != log <==>
            |log| == 0 ||
            (var last := log[|log| - 1];
             && BindingError(r.request, last).None?
             && (forall c :: c in log ==> c.auditHash != r.auditHash)
             && last.cycleHashes < r.cycleHashes)
  {
    hide SameMarkets, FundedBy, Chained;
    var verdict := Judge(digest, log, r, persistedAt);
    if verdict.Write? {
      assert |After(digest, log, r, persistedAt)| == |log| + 1;
    }
    if |log| > 0 {
      var last := log[|log| - 1];
      assert last in log;
      LatestSequence(digest, log);
    }
  }

  lemma LatestSequence(digest: Checkpoint -> string, log: seq<Checkpoint>)
    requires Chained(digest, log) && |log| > 0
    ensures log[|log| - 1].lastSequence == |log[|log| - 1].cycleHashes| - 1
  {
  }

  /** Re-persisting the latest result, at any time, is a no-op. */
  lemma RepersistIsNoOp(digest: Checkpoint -> string, log: seq<Checkpoint>, r: RunResult, at: int, later: int)
    requires ValidResult(r) && Judge(digest, log, r, at).Write?
    ensures Judge(digest, After(digest, log, r, at), r, later) == AlreadyPersisted
    ensures RestoreFrom(After(digest, log, r, at), r.request) == Ok(Some(Judge(digest, log, r, at).state))
  {
    hide SameMarkets, FundedBy;
  }

  /** A result that is not longer, or that disagrees with the recorded cycles, never changes the log. */
  lemma OlderOrDivergingChangesNothing(digest: Checkpoint -> string, log: seq<Checkpoint>, r: RunResult, at: int)
    requires Chained(digest, log) && ValidResult(r) && |log| > 0
    requires !(log[|log| - 1].cycleHashes < r.cycleHashes)
    ensures After(digest, log, r, at) == log
  {
    GrowsExactlyWhen(digest, log, r, at);
  }

  // -------------------------------------------------------------- whole runs

  datatype Call = Call(result: RunResult, persistedAt: int)

  function RunCalls(digest: Checkpoint -> string, log: seq<Checkpoint>, calls: seq<Call>): seq<Checkpoint>
    decreases |calls|
  {
    if |calls| == 0 then log
    else RunCalls(digest, After(digest, log, calls[0].result, calls[0].persistedAt), calls[1..])
  }

  /** Every sequence of persist calls keeps the chain and only ever extends the log. */
  lemma {:induction false} RunKeepsChain(digest: Checkpoint -> string, log: seq<Checkpoint>, calls: seq<Call>)
    requires Chained(digest, log) && forall c :: c in calls ==> ValidResult(c.result)
    ensures Chained(digest, RunCalls(digest, log, calls))
    ensures log <= RunCalls(digest, log, calls)
    decreases |calls|
  {
    hide Chained, ValidResult, Judge;
    if |calls| > 0 {
      var c := calls[0];
      WriteExtendsChain(digest, log, c.result, c.persistedAt);
      RunKeepsChain(digest, After(digest, log, c.result, c.persistedAt), calls[1..]);
    }
  }

  lemma EmptyChain(digest: Checkpoint -> string)
    ensures Chained(digest, [])
  {
  }

  /** From an empty store: what any two records of any run's log have to do with each other. */
  lemma EveryRunIsChained(digest: Checkpoint -> string, calls: seq<Call>, i: nat, j: nat)
    requires forall c :: c in calls ==> ValidResult(c.result)
    requires i < j < |RunCalls(digest, [], calls)|
    ensures var log := RunCalls(digest, [], calls);
            && log[0].previous == GENESIS
            && log[j].previous == digest(log[j - 1])
            && Bound(log[i], log[j])
            && log[i].lastSequence < log[j].lastSequence
            && log[i].cycleHashes < log[j].cycleHashes
            && log[i].auditHash != log[j].auditHash
  {
    EmptyChain(digest);
    RunKeepsChain(digest, [], calls);
  }

  // ---------------------------------------------------------------- resetting

  datatype Capital = Capital(market: string, amount: real)

  predicate OneCapitalPerMarket(capitals: seq<Capital>) {
    && |capitals| == 2
    && ((capitals[0].market == SPOT && capitals[1].market == FUTURES)
        || (capitals[0].market == FUTURES && capitals[1].market == SPOT))
  }

  function ResetRecord(r: RunResult, resetAt: int, capitals: seq<Capital>): Reset
    requires OneCapitalPerMarket(capitals)
  {
    var spotFirst := capitals[0].market == SPOT;
    Reset(r.request.runId, r.semanticHash, r.auditHash, resetAt, r.request.epochs, r.portfolios,
      if spotFirst then capitals[0].amount else capitals[1].amount,
      if spotFirst then capitals[1].amount else capitals[0].amount)
  }

  /** The result is the very one the latest checkpoint recorded, for the request that checkpoint is bound to. */
  ghost predicate IsLatest(log: seq<Checkpoint>, r: RunResult) {
    && |log| > 0 && BindingError(r.request, log[|log| - 1]).None?
    && log[|log| - 1].semanticHash == r.semanticHash && log[|log| - 1].auditHash == r.auditHash
  }

  /** Everything a reset call is checked for before it looks at open positions. */
  ghost predicate ResetAllowed(
    log: seq<Checkpoint>, r: RunResult, resetAt: int, capitals: seq<Capital>, confirmation: string)
  {
    && confirmation == RESET_CONFIRMATION && resetAt >= r.latestObserved
    && IsLatest(log, r) && OneCapitalPerMarket(capitals)
  }

  /** One capital per market: two entries, one of each market, in either order. */
  lemma CapitalsExactly(capitals: seq<Capital>)
    ensures OneCapitalPerMarket(capitals) <==>
            |capitals| == 2 && (set c | c in capitals :: c.market) == {SPOT, FUTURES}
  {
    assert SPOT[0] != FUTURES[0];
    if |capitals| == 2 {
      var a, b := capitals[0], capitals[1];
      assert capitals == [a, b];
      assert (set c | c in capitals :: c.market) == {a.market, b.market};
      if {a.market, b.market} == {SPOT, FUTURES} {
        assert a.market in {SPOT, FUTURES} && b.market in {SPOT, FUTURES};
        assert SPOT in {a.market, b.market} && FUTURES in {a.market, b.market};
      }
    }
  }

  /** What a reset records: the result it closes and the new capital of each market. */
  lemma ResetRecordExactly(r: RunResult, resetAt: int, capitals: seq<Capital>, c: Capital)
    requires OneCapitalPerMarket(capitals) && c in capitals
    ensures var x := ResetRecord(r, resetAt, capitals);
            && x.runId == r.request.runId && x.semanticHash == r.semanticHash && x.auditHash == r.auditHash
            && x.resetAt == resetAt && x.finalized == r.request.epochs && x.closing == r.portfolios
            && (c.market == SPOT ==> x.spotCapital == c.amount)
            && (c.market == FUTURES ==> x.futuresCapital == c.amount)
    ensures c.market in {SPOT, FUTURES}
  {
    assert SPOT[0] != FUTURES[0];
  }

  predicate SourceUsed(resets: seq<Reset>, semanticHash: string) {
    exists x :: x in resets && x.semanticHash == semanticHash
  }

  /** Resets never share a source result, and each finalizes a result that is on record. */
  ghost predicate ResetsSound(resets: seq<Reset>, log: seq<Checkpoint>) {
    && (forall i, j :: 0 <= i < j < |resets| ==> resets[i].semanticHash != resets[j].semanticHash)
    && (forall x :: x in resets ==>
          && 0.0 < x.spotCapital <= MAXIMUM_CAPITAL && 0.0 < x.futuresCapital <= MAXIMUM_CAPITAL
          && exists c :: c in log && c.semanticHash == x.semanticHash && c.auditHash == x.auditHash)
  }

  datatype ResetOutcome = Completed(persisted: bool) | Blocked

  class Store {
    const digest: Checkpoint -> string
    var log: seq<Checkpoint>
    var resets: seq<Reset>

    ghost predicate Valid()
      reads this
    {
      Chained(digest, log) && ResetsSound(resets, log)
    }

    constructor (digest: Checkpoint -> string)
      ensures Valid() && log == [] && resets == [] && this.digest == digest
    {
      this.digest := digest;
      log, resets := [], [];
    }

    method Restore(request: Request) returns (r: Result<Option<Checkpoint>>)
      ensures r == RestoreFrom(log, request)
    {
      if |log| == 0 {
        return Ok(None);
      }
      var state := log[|log| - 1];
      var error := BindingError(request, state);
      if error.Some? {
        return Err(error.value);
      }
      return Ok(Some(state));
    }

    /** Ok(true): written; Ok(false): this result is already on record; Err: refused, log untouched. */
    method Persist(result: RunResult, persistedAt: Option<int>) returns (r: Result<bool>)
      requires Valid() && ValidResult(result)
      modifies this`log
      ensures Valid()
      ensures var at := if persistedAt.Some? then persistedAt.value else result.lastObserved;
              var verdict := Judge(digest, old(log), result, at);
              && log == After(digest, old(log), result, at)
              && r == (match verdict
                       case Write(_) => Ok(true)
                       case AlreadyPersisted => Ok(false)
                       case Refuse(error) => Err(error))
    {
      var at := if persistedAt.Some? then persistedAt.value else result.lastObserved;
      WriteExtendsChain(digest, log, result, at);
      hide Chained, ValidResult, SameMarkets, FundedBy, BindingError, ResetsSound, AuditUsed;
      var restored := Restore(result.request);
      if restored.Err? {
        return Err(restored.error);
      }
      var previous := restored.value;
      var previousHash := if previous.Some? then digest(previous.value) else GENESIS;
      var state := FromResult(result, at, previousHash);
      if previous.Some? {
        if previous.value.auditHash == state.auditHash {
          return Ok(false);
        }
        if state.lastSequence <= previous.value.lastSequence {
          return Err(PersistenceConflict);
        }
        if !(previous.value.cycleHashes <= state.cycleHashes) {
          return Err(CheckpointDivergence);
        }
      }
      if AuditUsed(log, state.auditHash) {
        if state in log {
          return Ok(false);
        }
        return Err(IdempotencyConflict);
      }
      ghost var before := log;
      log := log + [state];
      ResetsStaySound(resets, before, state);
      return Ok(true);
    }

    /**
     * Finalize flat epochs; touches neither the checkpoint log nor any earlier reset. A reset is
     * written exactly when it is allowed, the epochs are flat and its source result is unused;
     * repeating the recorded one is a no-op, and anything else about a used source is a conflict.
     */
    method ResetWalletEpochs(result: RunResult, resetAt: int, capitals: seq<Capital>, confirmation: string)
      returns (r: Result<ResetOutcome>)
      requires Valid()
      requires forall c :: c in capitals ==> 0.0 < c.amount <= MAXIMUM_CAPITAL
      modifies this`resets
      ensures Valid()
      ensures var allowed := ResetAllowed(log, result, resetAt, capitals, confirmation);
              var flat, used := result.openPositions == 0, SourceUsed(old(resets), result.semanticHash);
              && (r == Ok(Completed(true)) <==> allowed && flat && !used)
              && (r == Ok(Completed(false)) <==>
                    allowed && flat && ResetRecord(result, resetAt, capitals) in old(resets))
              && (r == Ok(Blocked) <==> allowed && !flat)
              && (r == Err(IdempotencyConflict) <==>
                    allowed && flat && used && ResetRecord(result, resetAt, capitals) !in old(resets))
      ensures r == Ok(Completed(true)) ==> resets == old(resets) + [ResetRecord(result, resetAt, capitals)]
      ensures r != Ok(Completed(true)) ==> resets == old(resets)
      ensures r == Err(ConfirmationRequired) <==> confirmation != RESET_CONFIRMATION
      ensures r == Err(ResetPrecedesReplay) <==> confirmation == RESET_CONFIRMATION && resetAt < result.latestObserved
      ensures confirmation == RESET_CONFIRMATION && resetAt >= result.latestObserved && !IsLatest(log, result) ==>
              var mismatch := if |log| == 0 then None else BindingError(result.request, log[|log| - 1]);
              r == Err(if mismatch.Some? then mismatch.value else StateNotPersisted)
      ensures r == Err(CapitalPerMarket) <==>
              && confirmation == RESET_CONFIRMATION && resetAt >= result.latestObserved
              && IsLatest(log, result) && !OneCapitalPerMarket(capitals)
    {
      hide Chained, SameMarkets, FundedBy, ResetsSound;
      if confirmation != RESET_CONFIRMATION {
        return Err(ConfirmationRequired);
      }
      if resetAt < result.latestObserved {
        return Err(ResetPrecedesReplay);
      }
      var restored := Restore(result.request);
      if restored.Err? {
        return Err(restored.error);
      }
      if restored.value.None? || restored.value.value.semanticHash != result.semanticHash
         || restored.value.value.auditHash != result.auditHash {
        return Err(StateNotPersisted);
      }
      if !OneCapitalPerMarket(capitals) {
        return Err(CapitalPerMarket);
      }
      if result.openPositions > 0 {
        return Ok(Blocked);
      }
      var record := ResetRecord(result, resetAt, capitals);
      if SourceUsed(resets, record.semanticHash) {
        if record in resets {
          return Ok(Completed(false));
        }
        return Err(IdempotencyConflict);
      }
      ResetAppends(resets, log, result, resetAt, capitals);
      resets := resets + [record];
      return Ok(Completed(true));
    }
  }

  lemma ResetAppends(resets: seq<Reset>, log: seq<Checkpoint>, r: RunResult, resetAt: int, capitals: seq<Capital>)
    requires ResetsSound(resets, log) && OneCapitalPerMarket(capitals)
    requires forall c :: c in capitals ==> 0.0 < c.amount <= MAXIMUM_CAPITAL
    requires |log| > 0 && log[|log| - 1].semanticHash == r.semanticHash && log[|log| - 1].auditHash == r.auditHash
    requires !SourceUsed(resets, ResetRecord(r, resetAt, capitals).semanticHash)
    ensures ResetsSound(resets + [ResetRecord(r, resetAt, capitals)], log)
  {
    assert log[|log| - 1] in log;
    assert capitals[0] in capitals && capitals[1] in capitals;
    assert forall i :: 0 <= i < |resets| ==> resets[i] in resets;
  }

  lemma ResetsStaySound(resets: seq<Reset>, log: seq<Checkpoint>, state: Checkpoint)
    requires ResetsSound(resets, log)
    ensures ResetsSound(resets, log + [state])
  {
    forall x | x in resets
      ensures exists c :: c in log + [state] && c.semanticHash == x.semanticHash && c.auditHash == x.auditHash
    {
      var c :| c in log && c.semanticHash == x.semanticHash && c.auditHash == x.auditHash;
      assert c in log + [state];
    }
  }
}
