/** The session governance hook: a baseline and a pending flag per session, over any event trace. */
module Hook {
  import opened Market

  type Snapshot = string

  datatype Kind = SessionStart | UserPromptSubmit | Stop

  const CHANGED := "WORKSPACE_CHANGED_DURING_VALIDATION"

  /**
   * One event with everything the environment answers while it is handled. `failed` means some
   * inspection raised, before any session state is written.
   */
  datatype Event = Event(
    kind: Kind, session: string, before: Snapshot, after: Snapshot,
    validator: seq<string>, quality: seq<string>, git: seq<string>, continued: bool, failed: bool)

  datatype Record = Record(baseline: Snapshot, pending: bool)

  datatype Response =
    | Context
    | Silent
    | Passed
    | GitBlocked(reasons: seq<string>, final: bool)
    | Blocked(reasons: seq<string>, final: bool)
    | Error

  function BlockersOf(e: Event): seq<string> {
    e.validator + e.quality + e.git + (if e.after != e.before then [CHANGED] else [])
  }

  /** What one event does to its own session's record. */
  function Step(state: Option<Record>, e: Event): (Option<Record>, Response) {
    if e.failed then (state, Error)
    else if e.kind != Stop then
      if !(state.Some? && state.value.pending) && (e.kind == UserPromptSubmit || state.None?)
      then (Some(Record(e.before, false)), Context)
      else (state, Context)
    else if state.Some? && state.value.baseline == e.before && !state.value.pending then
      (state, if e.git == [] then Silent else GitBlocked(e.git, e.continued))
    else
      var blockers := BlockersOf(e);
      (Some(Record(e.after, blockers != [])), if blockers == [] then Passed else Blocked(blockers, e.continued))
  }

  /** Names a session's file; any function will do, and sessions it does not tell apart share a file. */
  type Digest = string -> string

  type Files = map<string, Record>

  function RecordOf(digest: Digest, files: Files, session: string): Option<Record> {
    if digest(session) in files then Some(files[digest(session)]) else None
  }

  function Apply(digest: Digest, files: Files, e: Event): Files {
    match Step(RecordOf(digest, files, e.session), e).0
    case None => files
    case Some(record) => files[digest(e.session) := record]
  }

  function Answer(digest: Digest, files: Files, e: Event): Response {
    Step(RecordOf(digest, files, e.session), e).1
  }

  class GovernanceHook {
    const digest: Digest
    var files: Files

    constructor (digest: Digest)
      ensures files == map[] && this.digest == digest
    {
      this.digest := digest;
      files := map[];
    }

    /** Load, branch, overwrite. */
    method HandleEvent(e: Event) returns (r: Response)
      modifies this`files
      ensures files == Apply(digest, old(files), e) && r == Answer(digest, old(files), e)
    {
      if e.failed {
        return Error;
      }
      var file := digest(e.session);
      var known := file in files;
      var pending := known && files[file].pending;
      if e.kind != Stop {
        if !pending && (e.kind == UserPromptSubmit || !known) {
          files := files[file := Record(e.before, false)];
        }
        return Context;
      }
      if known && files[file].baseline == e.before && !pending {
        if e.git == [] {
          return Silent;
        }
        return GitBlocked(e.git, e.continued);
      }
      var blockers := e.validator;
      blockers := blockers + e.quality;
      blockers := blockers + e.git;
      if e.after != e.before {
        blockers := blockers + [CHANGED];
      }
      files := files[file := Record(e.after, blockers != [])];
      if blockers != [] {
        return Blocked(blockers, e.continued);
      }
      return Passed;
    }
  }

  // ----------------------------------------------------------- one step safe

  ghost predicate Pending(digest: Digest, files: Files, session: string) {
    digest(session) in files && files[digest(session)].pending
  }

  /** A Stop that validated with nothing to report, on a workspace that held still. */
  ghost predicate CleanStop(digest: Digest, files: Files, e: Event) {
    e.kind == Stop && Answer(digest, files, e) == Passed
  }

  lemma CleanStopMeans(digest: Digest, files: Files, e: Event)
    requires CleanStop(digest, files, e)
    ensures e.validator == [] && e.quality == [] && e.git == [] && e.after == e.before
    ensures Apply(digest, files, e) == files[digest(e.session) := Record(e.before, false)]
  {
  }

  /** No event touches the record of a session with another digest. */
  lemma SessionsAreIsolated(digest: Digest, files: Files, e: Event, session: string)
    requires digest(session) != digest(e.session)
    ensures RecordOf(digest, Apply(digest, files, e), session) == RecordOf(digest, files, session)
  {
  }

  /** A pending flag is cleared only by a clean Stop of that session; anything else leaves it pending. */
  lemma PendingClearedOnlyByCleanStop(digest: Digest, files: Files, e: Event, session: string)
    requires Pending(digest, files, session)
    ensures !Pending(digest, Apply(digest, files, e), session)
            <==> digest(e.session) == digest(session) && CleanStop(digest, files, e)
  {
    if digest(e.session) != digest(session) {
      SessionsAreIsolated(digest, files, e, session);
    }
  }

  /** Prompts and resumptions never replace the baseline of a pending session. */
  lemma PromptsKeepPendingBaseline(digest: Digest, files: Files, e: Event)
    requires Pending(digest, files, e.session) && e.kind != Stop
    ensures Apply(digest, files, e) == files
  {
    assert files[digest(e.session) := files[digest(e.session)]] == files;
  }

  /** A Stop with no recorded state, a pending one, or a workspace other than the recorded one runs the validator. */
  lemma StopWithoutCleanRecordValidates(digest: Digest, files: Files, e: Event)
    requires e.kind == Stop && !e.failed && (
               || digest(e.session) !in files || Pending(digest, files, e.session)
               || files[digest(e.session)].baseline != e.before)
    ensures Answer(digest, files, e).Passed? || Answer(digest, files, e).Blocked?
    ensures Answer(digest, files, e).Passed? <==>
            e.validator == [] && e.quality == [] && e.git == [] && e.after == e.before
  {
  }

  /**
   * Every Stop that did not fail. If the session has a record that is not pending and whose
   * baseline is the workspace as it stands, nothing is validated: the answer is silence, or the
   * git blockers if there are any, and the record stays. In every other case, a changed workspace
   * above all, the validator decides: the answer passes or carries exactly the validator, quality
   * and git blockers and the change marker, and the record becomes the workspace after validation,
   * pending unless there was nothing to report.
   */
  lemma StopExactly(digest: Digest, files: Files, e: Event)
    requires e.kind == Stop && !e.failed
    ensures var file, answer := digest(e.session), Answer(digest, files, e);
            var standing := file in files && !files[file].pending && files[file].baseline == e.before;
            var marker := if e.after == e.before then [] else [CHANGED];
            var found := e.validator + e.quality + e.git + marker;
            && (answer.Silent? || answer.GitBlocked? <==> standing)
            && (answer.Passed? || answer.Blocked? <==> !standing)
            && (standing ==>
                  && Apply(digest, files, e) == files
                  && answer == if e.git == [] then Silent else GitBlocked(e.git, e.continued))
            && (!standing ==>
                  && Apply(digest, files, e) == files[file := Record(e.after, found != [])]
                  && answer == if found == [] then Passed else Blocked(found, e.continued))
  {
    if digest(e.session) in files {
      assert files[digest(e.session) := files[digest(e.session)]] == files;
    }
  }

  /**
   * Every start or prompt that did not fail: the workspace becomes the baseline exactly when
   * nothing is pending and it is a prompt or the first event of the session; else nothing changes.
   */
  lemma StartExactly(digest: Digest, files: Files, e: Event)
    requires e.kind != Stop && !e.failed
    ensures Answer(digest, files, e) == Context
    ensures var file := digest(e.session);
            var records := file !in files || (!files[file].pending && e.kind == UserPromptSubmit);
            Apply(digest, files, e) == if records then files[file := Record(e.before, false)] else files
  {
    if digest(e.session) in files {
      assert files[digest(e.session) := files[digest(e.session)]] == files;
    }
  }

  /** An event whose inspection failed reports an error and changes nothing. */
  lemma FailureExactly(digest: Digest, files: Files, e: Event)
    ensures Answer(digest, files, e) == Error <==> e.failed
    ensures e.failed ==> Apply(digest, files, e) == files
  {
    if digest(e.session) in files {
      assert files[digest(e.session) := files[digest(e.session)]] == files;
    }
  }

  // ------------------------------------------------------------ whole traces

  function FilesAfter(digest: Digest, trace: seq<Event>, n: nat): Files
    requires n <= |trace|
  {
    if n == 0 then map[] else Apply(digest, FilesAfter(digest, trace, n - 1), trace[n - 1])
  }

  function AnswerAt(digest: Digest, trace: seq<Event>, n: nat): Response
    requires n < |trace|
  {
    Answer(digest, FilesAfter(digest, trace, n), trace[n])
  }

  /**
   * Event k records a clean baseline b for the session: a prompt or first start while nothing was
   * pending, or a clean Stop.
   */
  ghost predicate RecordsClean(digest: Digest, trace: seq<Event>, k: nat, session: string, b: Snapshot)
    requires k < |trace|
  {
    var e, files := trace[k], FilesAfter(digest, trace, k);
    && digest(e.session) == digest(session) && !e.failed && e.before == b
    && ( || CleanStop(digest, files, e)
         || (e.kind == UserPromptSubmit && !Pending(digest, files, session))
         || (e.kind == SessionStart && digest(session) !in files))
  }

  /** No event in [from, to) leaves the session with a different record. */
  ghost predicate Untouched(digest: Digest, trace: seq<Event>, session: string, from: nat, to: nat)
    requires from <= to <= |trace|
  {
    forall j :: from <= j <= to ==>
      RecordOf(digest, FilesAfter(digest, trace, j), session) == RecordOf(digest, FilesAfter(digest, trace, from), session)
  }

  /** A clean record on file was put there by an identifiable event and has stood since. */
  lemma {:induction false} CleanRecordHasSource(digest: Digest, trace: seq<Event>, n: nat, session: string)
    requires n <= |trace|
    requires digest(session) in FilesAfter(digest, trace, n) && !FilesAfter(digest, trace, n)[digest(session)].pending
    ensures exists k :: 0 <= k < n && Untouched(digest, trace, session, k + 1, n)
                     && RecordsClean(digest, trace, k, session, FilesAfter(digest, trace, n)[digest(session)].baseline)
  {
    var e, before, now := trace[n - 1], FilesAfter(digest, trace, n - 1), FilesAfter(digest, trace, n);
    if RecordOf(digest, before, session) == RecordOf(digest, now, session) {
      CleanRecordHasSource(digest, trace, n - 1, session);
      var k :| 0 <= k < n - 1 && Untouched(digest, trace, session, k + 1, n - 1)
            && RecordsClean(digest, trace, k, session, before[digest(session)].baseline);
      assert RecordOf(digest, before, session) == RecordOf(digest, FilesAfter(digest, trace, k + 1), session);
      assert Untouched(digest, trace, session, k + 1, n);
    } else {
      if digest(e.session) != digest(session) {
        SessionsAreIsolated(digest, before, e, session);
      }
      assert RecordsClean(digest, trace, n - 1, session, now[digest(session)].baseline);
      assert Untouched(digest, trace, session, n, n);
    }
  }

  /**
   * A silent Stop is sound: the workspace it sees is exactly the one last recorded clean for the
   * session, by a prompt or first start with nothing pending or by a clean Stop, and that record
   * has stood untouched since.
   */
  lemma SilentStopIsSound(digest: Digest, trace: seq<Event>, n: nat)
    requires n < |trace| && AnswerAt(digest, trace, n) == Silent
    ensures trace[n].kind == Stop && trace[n].git == []
    ensures exists k :: 0 <= k < n && Untouched(digest, trace, trace[n].session, k + 1, n)
                     && RecordsClean(digest, trace, k, trace[n].session, trace[n].before)
  {
    CleanRecordHasSource(digest, trace, n, trace[n].session);
  }

  /** Event k is a clean Stop on the session's record. */
  ghost predicate CleanStopAt(digest: Digest, trace: seq<Event>, session: string, k: nat)
    requires k < |trace|
  {
    digest(trace[k].session) == digest(session) && CleanStop(digest, FilesAfter(digest, trace, k), trace[k])
  }

  /** However long the trace, what was pending and no longer is has seen a clean Stop in between. */
  lemma {:induction false} PendingEndsAtCleanStop(digest: Digest, trace: seq<Event>, session: string, i: nat, j: nat)
    requires i <= j <= |trace|
    requires Pending(digest, FilesAfter(digest, trace, i), session)
    requires !Pending(digest, FilesAfter(digest, trace, j), session)
    ensures exists k :: i <= k < j && CleanStopAt(digest, trace, session, k)
    decreases j
  {
    hide Pending, Apply, CleanStop;
    if Pending(digest, FilesAfter(digest, trace, j - 1), session) {
      PendingClearedOnlyByCleanStop(digest, FilesAfter(digest, trace, j - 1), trace[j - 1], session);
      assert CleanStopAt(digest, trace, session, j - 1);
    } else {
      PendingEndsAtCleanStop(digest, trace, session, i, j - 1);
    }
  }

  /** A blocking validation leaves its session pending, and no pending session stops in silence. */
  lemma BlockedIsPending(digest: Digest, files: Files, e: Event)
    ensures Answer(digest, files, e).Blocked? ==> Pending(digest, Apply(digest, files, e), e.session)
    ensures Answer(digest, files, e) == Silent ==> !Pending(digest, files, e.session)
  {
  }

  /**
   * After a blocking validation no later Stop of the session is silent until one has passed, and
   * the pass was on a workspace that held still with nothing to report.
   */
  lemma NoSilenceBeforeRepair(digest: Digest, trace: seq<Event>, i: nat, j: nat)
    requires i < j < |trace| && digest(trace[i].session) == digest(trace[j].session)
    requires AnswerAt(digest, trace, i).Blocked? && AnswerAt(digest, trace, j) == Silent
    ensures exists k :: i < k < j && CleanStopAt(digest, trace, trace[i].session, k)
  {
    BlockedIsPending(digest, FilesAfter(digest, trace, i), trace[i]);
    BlockedIsPending(digest, FilesAfter(digest, trace, j), trace[j]);
    hide Apply, Answer, CleanStopAt;
    assert FilesAfter(digest, trace, i + 1) == Apply(digest, FilesAfter(digest, trace, i), trace[i]);
    hide FilesAfter;
    PendingEndsAtCleanStop(digest, trace, trace[i].session, i + 1, j);
  }
}
