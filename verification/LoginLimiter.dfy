/** Sliding-window login limiter (src/auth.rs) driven by the login handler (src/admin.rs). */
module LoginLimiter {
  import opened Util

  const MAX_FAILURES := 5
  const WINDOW_SECONDS := 900
  const RETENTION_SECONDS := 86400

  datatype Attempt = Attempt(key: string, success: bool, at: int)
  type Attempts = seq<Attempt>

  /** Failed attempts of `key` in the half-open window (after, upTo]. */
  function Failures(attempts: Attempts, key: string, after: int, upTo: int): nat {
    if attempts == [] then 0
    else
      var a := attempts[|attempts| - 1];
      Failures(attempts[..|attempts| - 1], key, after, upTo) +
        if a.key == key && !a.success && after < a.at <= upTo then 1 else 0
  }

  /** The query counts every failure younger than the window, with no upper end. */
  function FailuresSince(attempts: Attempts, key: string, after: int): nat {
    if attempts == [] then 0
    else
      var a := attempts[|attempts| - 1];
      FailuresSince(attempts[..|attempts| - 1], key, after) + if a.key == key && !a.success && after < a.at then 1 else 0
  }

  function IsRateLimited(attempts: Attempts, key: string, now: int): bool {
    FailuresSince(attempts, key, now - WINDOW_SECONDS) >= MAX_FAILURES
  }

  function WithoutFailures(attempts: Attempts, key: string): Attempts {
    if attempts == [] then []
    else
      var a := attempts[|attempts| - 1];
      var before := WithoutFailures(attempts[..|attempts| - 1], key);
      if a.key == key && !a.success then before else before + [a]
  }

  function Pruned(attempts: Attempts, now: int): Attempts {
    if attempts == [] then []
    else
      var a := attempts[|attempts| - 1];
      var before := Pruned(attempts[..|attempts| - 1], now);
      if a.at < now - RETENTION_SECONDS then before else before + [a]
  }

  /** `at` lists, in order, the positions in `before` of the rows of `after`. */
  ghost predicate Positions(before: Attempts, after: Attempts, at: seq<int>) {
    && |at| == |after|
    && (forall i, j | 0 <= i < j < |at| :: at[i] < at[j])
    && (forall i | 0 <= i < |at| :: 0 <= at[i] < |before| && after[i] == before[at[i]])
  }

  /** The positions of exactly the rows that `gone` spares. */
  ghost predicate Spares(before: Attempts, at: seq<int>, gone: Attempt -> bool) {
    forall j | 0 <= j < |before| :: j in at <==> !gone(before[j])
  }

  /** `after` is `before` without exactly the rows `gone` says, the others in their old order. */
  ghost predicate Deleted(before: Attempts, after: Attempts, gone: Attempt -> bool) {
    exists at :: Positions(before, after, at) && Spares(before, at, gone)
  }

  lemma PositionsOnLast(before: Attempts, after: Attempts, last: Attempt, at: seq<int>)
    requires Positions(before, after, at)
    ensures Positions(before + [last], after, at) && Positions(before + [last], after + [last], at + [|before|])
  {
  }

  lemma SparesOnLast(before: Attempts, after: Attempts, last: Attempt, at: seq<int>, gone: Attempt -> bool)
    requires Positions(before, after, at) && Spares(before, at, gone)
    ensures Spares(before + [last], if gone(last) then at else at + [|before|], gone)
  {
    var more := if gone(last) then at else at + [|before|];
    forall j | 0 <= j < |before + [last]|
      ensures j in more <==> !gone((before + [last])[j])
    {
      if j < |before| {
        assert j in more <==> j in at;
      } else {
        assert forall i | 0 <= i < |at| :: at[i] != j;
        assert !gone(last) ==> more[|at|] == j;
      }
    }
  }

  /** One more row at the end, deleted or not. */
  lemma DeletedOnLast(before: Attempts, after: Attempts, last: Attempt, gone: Attempt -> bool)
    requires Deleted(before, after, gone)
    ensures Deleted(before + [last], if gone(last) then after else after + [last], gone)
  {
    hide Positions, Spares;
    var at :| Positions(before, after, at) && Spares(before, at, gone);
    PositionsOnLast(before, after, last, at);
    SparesOnLast(before, after, last, at, gone);
  }

  lemma NothingDeleted(gone: Attempt -> bool)
    ensures Deleted([], [], gone)
  {
    assert Positions([], [], []) && Spares([], [], gone);
  }

  function TooOld(now: int): Attempt -> bool {
    (a: Attempt) => a.at < now - RETENTION_SECONDS
  }

  function FailureOf(key: string): Attempt -> bool {
    (a: Attempt) => a.key == key && !a.success
  }

  lemma {:induction false} PruningDeletesOld(attempts: Attempts, now: int)
    ensures Deleted(attempts, Pruned(attempts, now), TooOld(now))
  {
    hide Deleted;
    if attempts == [] {
      NothingDeleted(TooOld(now));
    } else {
      var before, last := attempts[..|attempts| - 1], attempts[|attempts| - 1];
      PruningDeletesOld(before, now);
      DeletedOnLast(before, Pruned(before, now), last, TooOld(now));
      assert before + [last] == attempts;
    }
  }

  lemma {:induction false} ClearingDeletesFailures(attempts: Attempts, key: string)
    ensures Deleted(attempts, WithoutFailures(attempts, key), FailureOf(key))
  {
    hide Deleted;
    if attempts == [] {
      NothingDeleted(FailureOf(key));
    } else {
      var before, last := attempts[..|attempts| - 1], attempts[|attempts| - 1];
      ClearingDeletesFailures(before, key);
      DeletedOnLast(before, WithoutFailures(before, key), last, FailureOf(key));
      assert before + [last] == attempts;
    }
  }

  datatype Answer = TooManyRequests | WrongPassword | LoggedIn | ServerError

  /**
    * One login request. The limiter is read at `checkedAt`; the row is stamped at `at`, after the
    * password was verified. A store that refuses the read or the write answers with a server error
    * and keeps nothing, on the success path as well, where the three writes share one transaction.
    */
  datatype Request = Request(key: string, passwordOk: bool, readOk: bool, storeOk: bool, checkedAt: int, at: int)

  function Answered(attempts: Attempts, r: Request): Answer {
    if !r.readOk then ServerError
    else if IsRateLimited(attempts, r.key, r.checkedAt) then TooManyRequests
    else if !r.storeOk then ServerError
    else if r.passwordOk then LoggedIn
    else WrongPassword
  }

  function Handled(attempts: Attempts, r: Request): Attempts {
    match Answered(attempts, r)
    case TooManyRequests => attempts
    case ServerError => attempts
    case WrongPassword => attempts + [Attempt(r.key, false, r.at)]
    case LoggedIn => WithoutFailures(attempts + [Attempt(r.key, true, r.at)], r.key)
  }

  class LoginStore {
    var attempts: Attempts
    var sessions: nat

    constructor ()
      ensures attempts == [] && sessions == 0
    {
      attempts, sessions := [], 0;
    }

    method CountFailures(key: string, now: int) returns (limited: bool)
      ensures limited == IsRateLimited(attempts, key, now)
    {
      var failures := 0;
      for i := 0 to |attempts|
        invariant failures == FailuresSince(attempts[..i], key, now - WINDOW_SECONDS)
      {
        assert attempts[..i + 1][..i] == attempts[..i];
        var a := attempts[i];
        if a.key == key && !a.success && a.at > now - WINDOW_SECONDS {
          failures := failures + 1;
        }
      }
      assert attempts[..|attempts|] == attempts;
      limited := failures >= MAX_FAILURES;
    }

    method RecordAttempt(key: string, success: bool, at: int)
      modifies this`attempts
      ensures attempts == old(attempts) + [Attempt(key, success, at)]
    {
      attempts := attempts + [Attempt(key, success, at)];
    }

    method ClearAttempts(key: string)
      modifies this`attempts
      ensures attempts == WithoutFailures(old(attempts), key)
      ensures Deleted(old(attempts), attempts, FailureOf(key))
    {
      ClearingDeletesFailures(attempts, key);
      attempts := WithoutFailures(attempts, key);
    }

    method PruneAttempts(now: int)
      modifies this`attempts
      ensures attempts == Pruned(old(attempts), now)
      ensures Deleted(old(attempts), attempts, TooOld(now))
    {
      PruningDeletesOld(attempts, now);
      attempts := Pruned(attempts, now);
    }

    method EstablishSession(key: string, at: int)
      modifies this
      ensures attempts == WithoutFailures(old(attempts) + [Attempt(key, true, at)], key)
      ensures sessions == old(sessions) + 1
    {
      hide Deleted;
      RecordAttempt(key, true, at);
      ClearAttempts(key);
      sessions := sessions + 1;
    }

    method LoginSubmit(r: Request) returns (answer: Answer)
      modifies this
      ensures answer == Answered(old(attempts), r)
      ensures attempts == Handled(old(attempts), r)
      ensures sessions == old(sessions) + if answer.LoggedIn? then 1 else 0
    {
      if !r.readOk {
        return ServerError;
      }
      var limited := CountFailures(r.key, r.checkedAt);
      if limited {
        return TooManyRequests;
      }
      if !r.storeOk {
        return ServerError;
      }
      if !r.passwordOk {
        RecordAttempt(r.key, false, r.at);
        return WrongPassword;
      }
      EstablishSession(r.key, r.at);
      answer := LoggedIn;
    }
  }

  // ----- Runs -----

  datatype Step = Login(request: Request) | Prune(now: int)

  function StepStart(s: Step): int {
    match s case Login(r) => r.checkedAt case Prune(now) => now
  }

  function StepEnd(s: Step): int {
    match s case Login(r) => r.at case Prune(now) => now
  }

  /** Handlers are serialised and the clock never runs backwards. */
  ghost predicate Serialised(steps: seq<Step>) {
    && (forall i | 0 <= i < |steps| :: StepStart(steps[i]) <= StepEnd(steps[i]))
    && (forall i, j | 0 <= i < j < |steps| :: StepEnd(steps[i]) <= StepStart(steps[j]))
  }

  function Run(steps: seq<Step>): Attempts {
    if steps == [] then []
    else Stepped(Run(steps[..|steps| - 1]), steps[|steps| - 1])
  }

  function Stepped(attempts: Attempts, step: Step): Attempts {
    match step
    case Login(r) => Handled(attempts, r)
    case Prune(now) => Pruned(attempts, now)
  }

  /** What the client of the last step was answered; a pruning step answers nobody. */
  function LastAnswer(steps: seq<Step>): Option<Answer>
    requires steps != []
  {
    match steps[|steps| - 1]
    case Login(r) => Some(Answered(Run(steps[..|steps| - 1]), r))
    case Prune(_) => None
  }

  // ----- Counting -----

  lemma {:induction false} FailuresNarrow(attempts: Attempts, key: string, a: int, b: int, c: int, d: int)
    requires c <= a && b <= d
    ensures Failures(attempts, key, a, b) <= Failures(attempts, key, c, d)
  {
    if attempts != [] {
      FailuresNarrow(attempts[..|attempts| - 1], key, a, b, c, d);
    }
  }

  lemma {:induction false} FailuresUpTo(attempts: Attempts, key: string, after: int, now: int)
    requires Predate(attempts, now)
    ensures FailuresSince(attempts, key, after) == Failures(attempts, key, after, now)
  {
    if attempts != [] {
      FailuresUpTo(attempts[..|attempts| - 1], key, after, now);
    }
  }

  lemma {:induction false} FailuresWithout(attempts: Attempts, other: string, key: string, after: int, upTo: int)
    ensures Failures(WithoutFailures(attempts, other), key, after, upTo) ==
            if key == other then 0 else Failures(attempts, key, after, upTo)
    ensures forall a | a in WithoutFailures(attempts, other) :: a in attempts
  {
    if attempts != [] {
      var before := attempts[..|attempts| - 1];
      FailuresWithout(before, other, key, after, upTo);
      FailuresAppend(WithoutFailures(before, other), attempts[|attempts| - 1], key, after, upTo);
    }
  }

  lemma FailuresAppend(attempts: Attempts, a: Attempt, key: string, after: int, upTo: int)
    ensures Failures(attempts + [a], key, after, upTo) ==
            Failures(attempts, key, after, upTo) + if a.key == key && !a.success && after < a.at <= upTo then 1 else 0
  {
    assert (attempts + [a])[..|attempts|] == attempts;
  }

  lemma {:induction false} PrunedKeepsRecent(attempts: Attempts, now: int)
    ensures forall a | a in Pruned(attempts, now) :: a in attempts
  {
    if attempts != [] {
      PrunedKeepsRecent(attempts[..|attempts| - 1], now);
    }
  }

  lemma {:induction false} FailuresPruned(attempts: Attempts, now: int, key: string, after: int, upTo: int)
    ensures var kept := Failures(Pruned(attempts, now), key, after, upTo);
            var all := Failures(attempts, key, after, upTo);
            kept <= all && (after >= now - RETENTION_SECONDS ==> kept == all)
  {
    if attempts != [] {
      var before, last := attempts[..|attempts| - 1], attempts[|attempts| - 1];
      FailuresPruned(before, now, key, after, upTo);
      if last.at >= now - RETENTION_SECONDS {
        assert Pruned(attempts, now) == Pruned(before, now) + [last];
        FailuresAppend(Pruned(before, now), last, key, after, upTo);
      }
    }
  }

  /** Appending a wrong password, in terms of what the limiter counted. */
  lemma RecordedFailureFits(attempts: Attempts, r: Request, key: string, upTo: int)
    requires Predate(attempts, r.checkedAt)
    requires r.checkedAt <= r.at && Answered(attempts, r).WrongPassword?
    requires Failures(attempts, key, upTo - WINDOW_SECONDS, upTo) <= MAX_FAILURES
    ensures Failures(Handled(attempts, r), key, upTo - WINDOW_SECONDS, upTo) <= MAX_FAILURES
  {
    FailuresAppend(attempts, Attempt(r.key, false, r.at), key, upTo - WINDOW_SECONDS, upTo);
    if key == r.key && upTo - WINDOW_SECONDS < r.at <= upTo {
      FailuresUpTo(attempts, key, r.checkedAt - WINDOW_SECONDS, r.checkedAt);
      FailuresClip(attempts, key, upTo - WINDOW_SECONDS, upTo, r.checkedAt);
      FailuresNarrow(attempts, key, upTo - WINDOW_SECONDS, r.checkedAt, r.checkedAt - WINDOW_SECONDS, r.checkedAt);
    }
  }

  lemma {:induction false} FailuresClip(attempts: Attempts, key: string, after: int, upTo: int, now: int)
    requires Predate(attempts, now)
    requires now <= upTo
    ensures Failures(attempts, key, after, upTo) == Failures(attempts, key, after, now)
  {
    if attempts != [] {
      FailuresClip(attempts[..|attempts| - 1], key, after, upTo, now);
    }
  }

  ghost predicate Predate(attempts: Attempts, now: int) {
    forall a | a in attempts :: a.at <= now
  }

  lemma StepPredates(attempts: Attempts, step: Step)
    requires Predate(attempts, StepStart(step)) && StepStart(step) <= StepEnd(step)
    ensures Predate(Stepped(attempts, step), StepEnd(step))
  {
    match step
    case Prune(now) => PrunedKeepsRecent(attempts, now);
    case Login(r) =>
      if Answered(attempts, r).LoggedIn? {
        FailuresWithout(attempts + [Attempt(r.key, true, r.at)], r.key, "", 0, 0);
      }
  }

  lemma {:induction false} RowsPredate(steps: seq<Step>)
    requires Serialised(steps) && steps != []
    ensures Predate(Run(steps), StepEnd(steps[|steps| - 1]))
  {
    var before, last := steps[..|steps| - 1], steps[|steps| - 1];
    if before != [] {
      RowsPredate(before);
      assert StepEnd(steps[|steps| - 2]) <= StepStart(last);
    }
    StepPredates(Run(before), last);
  }

  lemma RowsPredateStep(steps: seq<Step>)
    requires Serialised(steps) && steps != []
    ensures Predate(Run(steps[..|steps| - 1]), StepStart(steps[|steps| - 1]))
  {
    var before := steps[..|steps| - 1];
    if before != [] {
      RowsPredate(before);
      assert StepEnd(before[|before| - 1]) <= StepStart(steps[|steps| - 1]);
    }
  }

  // ----- Main results -----

  /** In every window of every serialised run, wherever it is placed, at most MAX_FAILURES failures are stored per key. */
  lemma {:induction false} StoredFailuresBounded(steps: seq<Step>, key: string, upTo: int)
    requires Serialised(steps)
    ensures Failures(Run(steps), key, upTo - WINDOW_SECONDS, upTo) <= MAX_FAILURES
  {
    if steps != [] {
      var before := steps[..|steps| - 1];
      StoredFailuresBounded(before, key, upTo);
      RowsPredateStep(steps);
      match steps[|steps| - 1]
      case Prune(now) => FailuresPruned(Run(before), now, key, upTo - WINDOW_SECONDS, upTo);
      case Login(r) =>
        match Answered(Run(before), r) {
          case WrongPassword => RecordedFailureFits(Run(before), r, key, upTo);
          case LoggedIn =>
            FailuresAppend(Run(before), Attempt(r.key, true, r.at), key, upTo - WINDOW_SECONDS, upTo);
            FailuresWithout(Run(before) + [Attempt(r.key, true, r.at)], r.key, key, upTo - WINDOW_SECONDS, upTo);
          case _ =>
        }
    }
  }

  /** Wrong-password answers given to `key` in (after, upTo] since its last successful login. */
  function WrongAnswers(steps: seq<Step>, key: string, after: int, upTo: int): nat {
    if steps == [] then 0
    else
      var before := steps[..|steps| - 1];
      match steps[|steps| - 1]
      case Prune(_) => WrongAnswers(before, key, after, upTo)
      case Login(r) =>
        if r.key == key && Answered(Run(before), r).LoggedIn? then 0
        else WrongAnswers(before, key, after, upTo) +
               if r.key == key && Answered(Run(before), r).WrongPassword? && after < r.at <= upTo then 1 else 0
  }

  /** Until it is older than the retention period, every wrong answer since the last success is still stored. */
  lemma {:induction false} WrongAnswersAreStored(steps: seq<Step>, key: string, after: int, upTo: int)
    requires Serialised(steps)
    requires forall i | 0 <= i < |steps| && steps[i].Prune? :: steps[i].now - RETENTION_SECONDS <= after
    ensures WrongAnswers(steps, key, after, upTo) == Failures(Run(steps), key, after, upTo)
  {
    if steps != [] {
      var before := steps[..|steps| - 1];
      WrongAnswersAreStored(before, key, after, upTo);
      match steps[|steps| - 1]
      case Prune(now) => FailuresPruned(Run(before), now, key, after, upTo);
      case Login(r) =>
        match Answered(Run(before), r) {
          case WrongPassword => FailuresAppend(Run(before), Attempt(r.key, false, r.at), key, after, upTo);
          case LoggedIn =>
            FailuresAppend(Run(before), Attempt(r.key, true, r.at), key, after, upTo);
            FailuresWithout(Run(before) + [Attempt(r.key, true, r.at)], r.key, key, after, upTo);
          case _ =>
        }
    }
  }

  /**
    * Between two successful logins a client is told "wrong password" at most MAX_FAILURES times in
    * any window of the run, whatever is pruned meanwhile. How many passwords are checked is another matter.
    */
  lemma {:induction false} GuessesBounded(steps: seq<Step>, key: string, upTo: int)
    requires Serialised(steps)
    ensures WrongAnswers(steps, key, upTo - WINDOW_SECONDS, upTo) <= MAX_FAILURES
  {
    if steps != [] {
      var before, last := steps[..|steps| - 1], steps[|steps| - 1];
      GuessesBounded(before, key, upTo);
      if last.Login? && last.request.key == key && Answered(Run(before), last.request).WrongPassword?
         && upTo - WINDOW_SECONDS < last.request.at <= upTo {
        RecentGuessesCounted(steps, key, upTo);
      }
    }
  }

  /** When a guess is answered, the recent guesses are exactly what the limiter just counted. */
  lemma RecentGuessesCounted(steps: seq<Step>, key: string, upTo: int)
    requires Serialised(steps) && steps != []
    requires var last := steps[|steps| - 1];
             && last.Login? && last.request.key == key
             && Answered(Run(steps[..|steps| - 1]), last.request).WrongPassword?
             && upTo - WINDOW_SECONDS < last.request.at <= upTo
    ensures WrongAnswers(steps[..|steps| - 1], key, upTo - WINDOW_SECONDS, upTo) < MAX_FAILURES
  {
    hide Failures, FailuresSince, WrongAnswers, Run;
    var before, r := steps[..|steps| - 1], steps[|steps| - 1].request;
    var after := upTo - WINDOW_SECONDS;
    RowsPredateStep(steps);
    forall i | 0 <= i < |before| && before[i].Prune?
      ensures before[i].now - RETENTION_SECONDS <= after
    {
      assert StepEnd(steps[i]) <= StepStart(steps[|steps| - 1]);
    }
    WrongAnswersAreStored(before, key, after, upTo);
    FailuresClip(Run(before), key, after, upTo, r.checkedAt);
    FailuresNarrow(Run(before), key, after, r.checkedAt, r.checkedAt - WINDOW_SECONDS, r.checkedAt);
    FailuresUpTo(Run(before), key, r.checkedAt - WINDOW_SECONDS, r.checkedAt);
  }

  /**
    * A client is turned away exactly when it was told "wrong password" at least five times in the last
    * fifteen minutes since its last success, whatever was pruned; a store that cannot be read answers first.
    */
  lemma LimitedExactly(steps: seq<Step>, r: Request)
    requires Serialised(steps + [Login(r)])
    ensures Answered(Run(steps), r) == TooManyRequests <==>
            r.readOk && WrongAnswers(steps, r.key, r.checkedAt - 15 * 60, r.checkedAt) >= 5
  {
    hide WrongAnswers, Failures, FailuresSince, Run;
    var all, after := steps + [Login(r)], r.checkedAt - WINDOW_SECONDS;
    assert all[..|all| - 1] == steps && all[|all| - 1] == Login(r);
    RowsPredateStep(all);
    assert Serialised(steps) by {
      assert forall i | 0 <= i < |steps| :: all[i] == steps[i];
    }
    forall i | 0 <= i < |steps| && steps[i].Prune?
      ensures steps[i].now - RETENTION_SECONDS <= after
    {
      assert all[i] == steps[i] && StepEnd(all[i]) <= StepStart(all[|steps|]);
    }
    WrongAnswersAreStored(steps, r.key, after, r.checkedAt);
    FailuresUpTo(Run(steps), r.key, after, r.checkedAt);
  }

  /** A successful login leaves its own record last and no failure of the key; nothing else is lost or moved. */
  lemma LoginIsRecorded(attempts: Attempts, r: Request)
    requires Answered(attempts, r).LoggedIn?
    ensures var after := Handled(attempts, r);
            && after != [] && after[|after| - 1] == Attempt(r.key, true, r.at)
            && Deleted(attempts, after[..|after| - 1], FailureOf(r.key))
  {
    hide Deleted;
    ClearingDeletesFailures(attempts, r.key);
    var recorded := attempts + [Attempt(r.key, true, r.at)];
    assert recorded[..|recorded| - 1] == attempts;
    var kept := WithoutFailures(attempts, r.key);
    assert (kept + [Attempt(r.key, true, r.at)])[..|kept|] == kept;
  }

  // ----- Password checks, which come before the write that records them -----

  /** The request's password is compared with the hash and found wrong. */
  predicate ChecksWrong(attempts: Attempts, r: Request) {
    r.readOk && !IsRateLimited(attempts, r.key, r.checkedAt) && !r.passwordOk
  }

  /** Wrong-password checks made for `key` in (after, upTo] since its last successful login. */
  function WrongChecks(steps: seq<Step>, key: string, after: int, upTo: int): nat {
    if steps == [] then 0
    else
      var before := steps[..|steps| - 1];
      match steps[|steps| - 1]
      case Prune(_) => WrongChecks(before, key, after, upTo)
      case Login(r) =>
        if r.key == key && Answered(Run(before), r).LoggedIn? then 0
        else WrongChecks(before, key, after, upTo) +
               if r.key == key && ChecksWrong(Run(before), r) && after < r.at <= upTo then 1 else 0
  }

  /** Those of them whose record the store refused, so that nothing counts them later. */
  function RefusedRecords(steps: seq<Step>, key: string, after: int, upTo: int): nat {
    if steps == [] then 0
    else
      var before := steps[..|steps| - 1];
      match steps[|steps| - 1]
      case Prune(_) => RefusedRecords(before, key, after, upTo)
      case Login(r) =>
        if r.key == key && Answered(Run(before), r).LoggedIn? then 0
        else RefusedRecords(before, key, after, upTo) +
               if r.key == key && ChecksWrong(Run(before), r) && !r.storeOk && after < r.at <= upTo then 1 else 0
  }

  lemma {:induction false} ChecksAreAnsweredOrRefused(steps: seq<Step>, key: string, after: int, upTo: int)
    ensures WrongChecks(steps, key, after, upTo) ==
            WrongAnswers(steps, key, after, upTo) + RefusedRecords(steps, key, after, upTo)
  {
    hide Run, IsRateLimited;
    if steps != [] {
      ChecksAreAnsweredOrRefused(steps[..|steps| - 1], key, after, upTo);
    }
  }

  lemma {:induction false} NothingRefused(steps: seq<Step>, key: string, after: int, upTo: int)
    requires forall i | 0 <= i < |steps| && steps[i].Login? && steps[i].request.key == key :: steps[i].request.storeOk
    ensures RefusedRecords(steps, key, after, upTo) == 0
  {
    if steps != [] {
      NothingRefused(steps[..|steps| - 1], key, after, upTo);
    }
  }

  /**
    * Between two successful logins at most MAX_FAILURES passwords are checked and found wrong in any
    * window, beyond those whose record the store refused; so at most MAX_FAILURES when it refuses none.
    */
  lemma ChecksBounded(steps: seq<Step>, key: string, upTo: int)
    requires Serialised(steps)
    ensures var after := upTo - WINDOW_SECONDS;
            && WrongChecks(steps, key, after, upTo) <= MAX_FAILURES + RefusedRecords(steps, key, after, upTo)
            && ((forall i | 0 <= i < |steps| && steps[i].Login? && steps[i].request.key == key :: steps[i].request.storeOk) ==>
                  WrongChecks(steps, key, after, upTo) <= MAX_FAILURES)
  {
    var after := upTo - WINDOW_SECONDS;
    GuessesBounded(steps, key, upTo);
    ChecksAreAnsweredOrRefused(steps, key, after, upTo);
    if forall i | 0 <= i < |steps| && steps[i].Login? && steps[i].request.key == key :: steps[i].request.storeOk {
      NothingRefused(steps, key, after, upTo);
    }
  }

  /** A wrong password checked and answered at one moment, with a store that takes its record or refuses it. */
  function WrongAt(key: string, now: int, storeOk: bool): Step {
    Login(Request(key, false, true, storeOk, now, now))
  }

  /** At one moment, wrong passwords whose record is refused and then others whose record is stored. */
  function WrongRun(key: string, now: int, refused: nat, stored: nat): seq<Step> {
    if stored > 0 then WrongRun(key, now, refused, stored - 1) + [WrongAt(key, now, true)]
    else if refused > 0 then WrongRun(key, now, refused - 1, 0) + [WrongAt(key, now, false)]
    else []
  }

  lemma {:induction false} WrongRunIsSerialised(key: string, now: int, refused: nat, stored: nat)
    ensures Serialised(WrongRun(key, now, refused, stored))
    ensures forall x | x in WrongRun(key, now, refused, stored) :: StepStart(x) == StepEnd(x) == now
  {
    if stored > 0 {
      WrongRunIsSerialised(key, now, refused, stored - 1);
    } else if refused > 0 {
      WrongRunIsSerialised(key, now, refused - 1, 0);
    }
  }

  /** Where a run of wrong passwords stands: what is stored, checked, refused and answered. */
  ghost predicate Standing(steps: seq<Step>, key: string, now: int, refused: nat, stored: nat) {
    var after := now - WINDOW_SECONDS;
    && |Run(steps)| == stored && FailuresSince(Run(steps), key, after) == stored
    && WrongChecks(steps, key, after, now) == refused + stored
    && RefusedRecords(steps, key, after, now) == refused
  }

  lemma NoneStanding(key: string, now: int)
    ensures Standing([], key, now, 0, 0)
  {
  }

  lemma OneMoreWrong(before: seq<Step>, key: string, now: int, refused: nat, stored: nat, storeOk: bool)
    requires Standing(before, key, now, refused, stored) && stored < MAX_FAILURES
    ensures Standing(before + [WrongAt(key, now, storeOk)], key, now,
                     if storeOk then refused else refused + 1, if storeOk then stored + 1 else stored)
  {
    var steps, last := before + [WrongAt(key, now, storeOk)], WrongAt(key, now, storeOk).request;
    assert steps[..|steps| - 1] == before;
    assert !IsRateLimited(Run(before), key, now) && ChecksWrong(Run(before), last);
    if storeOk {
      var attempts := Run(before) + [Attempt(key, false, now)];
      assert attempts[..|attempts| - 1] == Run(before);
      assert Run(steps) == attempts;
    }
  }

  lemma {:induction false} WrongRunStands(key: string, now: int, refused: nat, stored: nat)
    requires stored <= MAX_FAILURES
    ensures Standing(WrongRun(key, now, refused, stored), key, now, refused, stored)
  {
    hide Standing;
    if stored > 0 {
      WrongRunStands(key, now, refused, stored - 1);
      OneMoreWrong(WrongRun(key, now, refused, stored - 1), key, now, refused, stored - 1, true);
    } else if refused > 0 {
      WrongRunStands(key, now, refused - 1, 0);
      OneMoreWrong(WrongRun(key, now, refused - 1, 0), key, now, refused - 1, 0, false);
    } else {
      NoneStanding(key, now);
    }
  }

  /** A store that refuses writes leaves checks unbounded: any number fits one window and none is remembered. */
  lemma RefusedChecksUnbounded(key: string, now: int, n: nat)
    ensures var steps := WrongRun(key, now, n, 0);
            Serialised(steps) && Run(steps) == [] && WrongChecks(steps, key, now - WINDOW_SECONDS, now) == n
  {
    hide Run, WrongChecks, Serialised;
    WrongRunIsSerialised(key, now, n, 0);
    WrongRunStands(key, now, n, 0);
  }

  /** With at most `refused` records refused in the window, at most `limit` wrong passwords are checked in it. */
  ghost predicate ChecksWithin(steps: seq<Step>, key: string, upTo: int, refused: nat, limit: nat) {
    var after := upTo - WINDOW_SECONDS;
    Serialised(steps) && RefusedRecords(steps, key, after, upTo) <= refused ==> WrongChecks(steps, key, after, upTo) <= limit
  }

  /**
    * The bound is exact: over all runs in which at most `refused` records of the window are refused, a
    * limit on the checks holds exactly when it allows MAX_FAILURES and every one of those.
    */
  lemma ChecksLimitIsExact(refused: nat, limit: nat)
    ensures (forall steps, key, upTo :: ChecksWithin(steps, key, upTo, refused, limit)) <==> limit >= MAX_FAILURES + refused
  {
    hide Serialised, WrongChecks, RefusedRecords;
    if limit >= MAX_FAILURES + refused {
      forall steps, key, upTo
        ensures ChecksWithin(steps, key, upTo, refused, limit)
      {
        if Serialised(steps) {
          ChecksBounded(steps, key, upTo);
        }
      }
    } else {
      WrongRunIsSerialised("", 0, refused, MAX_FAILURES);
      WrongRunStands("", 0, refused, MAX_FAILURES);
      assert !ChecksWithin(WrongRun("", 0, refused, MAX_FAILURES), "", 0, refused, limit);
    }
  }

  /** So MAX_FAILURES limits the checks exactly when nothing is refused: a single refused record already breaks it. */
  lemma MaxFailuresNeedsEveryRecord(refused: nat)
    ensures (forall steps, key, upTo :: ChecksWithin(steps, key, upTo, refused, MAX_FAILURES)) <==> refused == 0
  {
    hide ChecksWithin;
    ChecksLimitIsExact(refused, MAX_FAILURES);
  }

  function WithoutPrunes(steps: seq<Step>): seq<Step> {
    if steps == [] then []
    else
      var before := WithoutPrunes(steps[..|steps| - 1]);
      if steps[|steps| - 1].Prune? then before else before + [steps[|steps| - 1]]
  }

  /** The stores of a run with and without its pruning agree on every window younger than the retention. */
  lemma {:induction false} PruningLosesNothingRecent(steps: seq<Step>, now: int, key: string, after: int, upTo: int)
    requires Serialised(steps) && (steps != [] ==> StepEnd(steps[|steps| - 1]) <= now)
    requires now - RETENTION_SECONDS <= after
    ensures Failures(Run(steps), key, after, upTo) == Failures(Run(WithoutPrunes(steps)), key, after, upTo)
    decreases |steps|, 1
  {
    if steps != [] {
      var before, last := steps[..|steps| - 1], steps[|steps| - 1];
      if before != [] {
        assert StepEnd(before[|before| - 1]) <= StepStart(last) <= StepEnd(last);
      }
      PruningLosesNothingRecent(before, now, key, after, upTo);
      match last
      case Prune(at) => FailuresPruned(Run(before), at, key, after, upTo);
      case Login(r) =>
        var bare := WithoutPrunes(before);
        assert (bare + [last])[..|bare|] == bare;
        PruningKeepsAnswers(steps);
        FailuresOfHandled(Run(before), r, key, after, upTo);
        FailuresOfHandled(Run(bare), r, key, after, upTo);
    }
  }

  lemma FailuresOfHandled(attempts: Attempts, r: Request, key: string, after: int, upTo: int)
    ensures Failures(Handled(attempts, r), key, after, upTo) ==
            match Answered(attempts, r)
            case LoggedIn => if key == r.key then 0 else Failures(attempts, key, after, upTo)
            case WrongPassword => Failures(attempts, key, after, upTo) + (if key == r.key && after < r.at <= upTo then 1 else 0)
            case _ => Failures(attempts, key, after, upTo)
  {
    FailuresAppend(attempts, Attempt(r.key, r.passwordOk, r.at), key, after, upTo);
    FailuresWithout(attempts + [Attempt(r.key, true, r.at)], r.key, key, after, upTo);
  }

  /** The limiter counts the same failures with and without the pruning of a run. */
  lemma {:induction false} PruningKeepsCount(steps: seq<Step>, key: string, now: int)
    requires Serialised(steps) && (steps != [] ==> StepEnd(steps[|steps| - 1]) <= now)
    ensures IsRateLimited(Run(steps), key, now) == IsRateLimited(Run(WithoutPrunes(steps)), key, now)
    decreases |steps|, 2
  {
    var after := now - WINDOW_SECONDS;
    PruningLosesNothingRecent(steps, now, key, after, now);
    if steps != [] {
      RowsPredate(steps);
    }
    BareRunPredates(steps, now);
    FailuresUpTo(Run(steps), key, after, now);
    FailuresUpTo(Run(WithoutPrunes(steps)), key, after, now);
  }

  /** Pruning is invisible: every login is answered as it would be had nothing ever been pruned. */
  lemma {:induction false} PruningKeepsAnswers(steps: seq<Step>)
    requires Serialised(steps) && steps != [] && steps[|steps| - 1].Login?
    ensures LastAnswer(steps) == LastAnswer(WithoutPrunes(steps))
    decreases |steps|, 0
  {
    var before, r := steps[..|steps| - 1], steps[|steps| - 1].request;
    var bare := WithoutPrunes(before);
    assert WithoutPrunes(steps) == bare + [steps[|steps| - 1]];
    assert (bare + [steps[|steps| - 1]])[..|bare|] == bare;
    if before != [] {
      assert StepEnd(steps[|steps| - 2]) <= StepStart(steps[|steps| - 1]);
    }
    PruningKeepsCount(before, r.key, r.checkedAt);
  }

  lemma {:induction false} BareRunPredates(steps: seq<Step>, now: int)
    requires Serialised(steps) && (steps != [] ==> StepEnd(steps[|steps| - 1]) <= now)
    ensures Predate(Run(WithoutPrunes(steps)), now)
  {
    if steps != [] {
      var before, last := steps[..|steps| - 1], steps[|steps| - 1];
      if before != [] {
        assert StepEnd(before[|before| - 1]) <= StepStart(last) <= StepEnd(last);
      }
      BareRunPredates(before, StepStart(last));
      if last.Login? {
        var bare := WithoutPrunes(before);
        assert (bare + [last])[..|bare|] == bare;
        StepPredates(Run(bare), last);
      }
    }
  }

  // ----- Binding a session to a workspace -----

  /** A default workspace, else the only active one, else none: an ambiguous tenant is never guessed. */
  function SelectWorkspace(defaultId: Option<int>, activeIds: seq<int>): Option<int> {
    if defaultId.Some? then defaultId
    else if |activeIds| == 1 then Some(activeIds[0])
    else None
  }

  /** The default wins; without one a workspace is chosen only when it is the only active one. */
  lemma TenantIsNeverGuessed(defaultId: Option<int>, activeIds: seq<int>, id: int)
    ensures SelectWorkspace(defaultId, activeIds) == Some(id) <==> defaultId == Some(id) || (defaultId == None && activeIds == [id])
  {
  }

  function Fetched(activeIds: seq<int>, limit: nat): seq<int> {
    if |activeIds| <= limit then activeIds else activeIds[..limit]
  }

  /** The number of active ids fetched never matters exactly when it is at least two. */
  lemma TwoRowsSuffice(limit: nat)
    ensures (forall defaultId, activeIds :: SelectWorkspace(defaultId, Fetched(activeIds, limit)) == SelectWorkspace(defaultId, activeIds))
            <==> limit >= 2
  {
    if limit < 2 {
      var ids := if limit == 0 then [1] else [1, 2];
      assert SelectWorkspace(None, Fetched(ids, limit)) != SelectWorkspace(None, ids);
    }
  }
}
