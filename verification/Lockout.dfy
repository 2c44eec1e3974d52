/** Failed-attempt counters: the password lockout of `login` and the TOTP cooldown of `verify_totp`. */
module Lockout {
  import opened Common

  const MAX_FAILURES := 5
  const PASSWORD_LOCKOUT := 900 * SECOND
  const TOTP_LOCKOUT := 60 * SECOND

  /** `Locked` carries the Retry-After header, in whole seconds. */
  datatype Verdict = Granted | Failed | Replayed | Locked(retryAfter: int) | LockedForGood

  // ---------------------------------------------------------------------------
  // One attempt
  // ---------------------------------------------------------------------------

  datatype PasswordLock = PasswordLock(failures: nat, lockedUntil: Option<Time>)

  const NO_FAILURES := PasswordLock(0, None)

  predicate IsLocked(l: PasswordLock, now: Time) {
    l.lockedUntil.Some? && now < l.lockedUntil.value
  }

  function TryPassword(l: PasswordLock, now: Time, correct: bool): (PasswordLock, Verdict) {
    if IsLocked(l, now) then (l, Locked((l.lockedUntil.value - now) / SECOND)) else
    var cleared := if l.lockedUntil.Some? then NO_FAILURES else l;
    if correct then (NO_FAILURES, Granted) else
    var n := cleared.failures + 1;
    (PasswordLock(n, if n >= MAX_FAILURES then Some(now + PASSWORD_LOCKOUT) else None), Failed)
  }

  /** The TOTP columns of a user row. */
  datatype TotpLock = TotpLock(failures: nat, lastFailure: Option<Time>, lastUsed: Option<string>)

  /** `max` is the TOTP_MAX_FAILURES setting; `valid` is what the authenticator library says of the code. */
  function TryTotp(l: TotpLock, now: Time, code: string, valid: bool, max: nat): (TotpLock, Verdict) {
    if l.failures >= max && l.lastFailure.None? then (l, LockedForGood)
    else if l.failures >= max && now - l.lastFailure.value < TOTP_LOCKOUT then
      (l, Locked((TOTP_LOCKOUT - (now - l.lastFailure.value)) / SECOND))
    else
      var cleared := if l.failures >= max then l.(failures := 0, lastFailure := None) else l;
      if !valid then (cleared.(failures := cleared.failures + 1, lastFailure := Some(now)), Failed)
      else if l.lastUsed == Some(code) then (cleared, Replayed)
      else (TotpLock(0, None, Some(code)), Granted)
  }

  /**
   What one password attempt means. A password is granted exactly when it is right and the account is not locked,
   fails exactly when it is wrong and the account is not locked, and is not even looked at while the account is locked.
   A failure adds one to the counter, which starts again when a lock has run out; the fifth locks for 900 seconds.
   */
  lemma PasswordAttempt(l: PasswordLock, now: Time, correct: bool)
    ensures var (l', verdict) := TryPassword(l, now, correct);
            var locked := l.lockedUntil.Some? && now < l.lockedUntil.value;
            && (verdict == Granted <==> correct && !locked)
            && (verdict == Failed <==> !correct && !locked)
            && (verdict.Locked? <==> locked)
            && (verdict == Granted ==> l'.failures == 0 && l'.lockedUntil.None?)
            && (verdict == Failed ==>
                  && l'.failures == (if l.lockedUntil.Some? then 1 else l.failures + 1)
                  && l'.lockedUntil == if l'.failures < 5 then None else Some(now + 900 * SECOND))
            && (verdict.Locked? ==>
                  && l' == l
                  && verdict.retryAfter * SECOND <= l.lockedUntil.value - now < (verdict.retryAfter + 1) * SECOND)
  {
  }

  /**
   What one TOTP attempt means. The cooldown blocks while the counter is at the limit and its last failure is under
   sixty seconds old, or unknown. Otherwise a wrong code fails and is counted, the code accepted last is a replay,
   and any other right code is granted and becomes the last one.
   */
  lemma CodeAttempt(l: TotpLock, now: Time, code: string, valid: bool, max: nat)
    ensures var (l', verdict) := TryTotp(l, now, code, valid, max);
            var blocked := l.failures >= max && (l.lastFailure.None? || now - l.lastFailure.value < 60 * SECOND);
            && (verdict == Granted <==> valid && !blocked && l.lastUsed != Some(code))
            && (verdict == Replayed <==> valid && !blocked && l.lastUsed == Some(code))
            && (verdict == Failed <==> !valid && !blocked)
            && (verdict.Locked? <==> blocked && l.lastFailure.Some?)
            && (verdict == LockedForGood <==> blocked && l.lastFailure.None?)
            && (blocked ==> l' == l)
            && (verdict == Granted ==> l' == TotpLock(0, None, Some(code)))
            && (verdict == Failed ==>
                l' == TotpLock((if l.failures < max then l.failures else 0) + 1, Some(now), l.lastUsed))
            && (verdict == Replayed ==>
                  l' == if l.failures < max then l else TotpLock(0, None, l.lastUsed))
            && (verdict.Locked? ==>
                  verdict.retryAfter * SECOND <= l.lastFailure.value +
                      60 * SECOND - now < (verdict.retryAfter + 1) * SECOND)
  {
  }

  // ---------------------------------------------------------------------------
  // Runs
  // ---------------------------------------------------------------------------

  datatype PasswordTry = PasswordTry(now: Time, correct: bool)

  datatype TotpAttempt = TotpAttempt(now: Time, code: string, valid: bool)

  /** The lock after a run from a fresh counter. */
  function PasswordRun(attempts: seq<PasswordTry>): PasswordLock {
    if attempts == [] then NO_FAILURES
    else
      var last := attempts[|attempts| - 1];
      TryPassword(PasswordRun(attempts[..|attempts| - 1]), last.now, last.correct).0
  }

  function PasswordVerdict(attempts: seq<PasswordTry>): Verdict
    requires attempts != []
  {
    var last := attempts[|attempts| - 1];
    TryPassword(PasswordRun(attempts[..|attempts| - 1]), last.now, last.correct).1
  }

  /** The times of the attempts that counted as failures. */
  function PasswordFailures(attempts: seq<PasswordTry>): seq<Time> {
    if attempts == [] then []
    else
      var before := PasswordFailures(attempts[..|attempts| - 1]);
      if PasswordVerdict(attempts) == Failed then before + [attempts[|attempts| - 1].now] else before
  }

  ghost predicate NoPasswordGranted(attempts: seq<PasswordTry>) {
    forall n :: 0 < n <= |attempts| ==> PasswordVerdict(attempts[..n]) != Granted
  }

  function TotpRun(start: TotpLock, attempts: seq<TotpAttempt>, max: nat): TotpLock {
    if attempts == [] then start
    else
      var last := attempts[|attempts| - 1];
      TryTotp(TotpRun(start, attempts[..|attempts| - 1], max), last.now, last.code, last.valid, max).0
  }

  function TotpVerdict(start: TotpLock, attempts: seq<TotpAttempt>, max: nat): Verdict
    requires attempts != []
  {
    var last := attempts[|attempts| - 1];
    TryTotp(TotpRun(start, attempts[..|attempts| - 1], max), last.now, last.code, last.valid, max).1
  }

  function TotpFailures(start: TotpLock, attempts: seq<TotpAttempt>, max: nat): seq<Time> {
    if attempts == [] then []
    else
      var before := TotpFailures(start, attempts[..|attempts| - 1], max);
      if TotpVerdict(start, attempts, max) == Failed then before + [attempts[|attempts| - 1].now] else before
  }

  ghost predicate NoTotpGranted(start: TotpLock, attempts: seq<TotpAttempt>, max: nat) {
    forall n :: 0 < n <= |attempts| ==> TotpVerdict(start, attempts[..n], max) != Granted
  }

  // ---------------------------------------------------------------------------
  // The rate bound
  // ---------------------------------------------------------------------------

  ghost predicate Nondecreasing(times: seq<Time>) {
    forall i, j :: 0 <= i <= j < |times| ==> times[i] <= times[j]
  }

  /** Any failure comes at least a pause after the one `max` before it. */
  ghost predicate Spaced(times: seq<Time>, max: nat, pause: Time) {
    forall i :: 0 <= i && i + max < |times| ==> times[i] + pause <= times[i + max]
  }

  /**
   `count` failures since the counter last stood at zero, the failure times so far and the clock: the current
   batch began a pause after the batch before it, and so will the next one if it is about to begin.
   */
  ghost predicate Batched(times: seq<Time>, count: nat, clock: Time, max: nat, pause: Time) {
    && count <= max && count <= |times|
    && Nondecreasing(times) && Spaced(times, max, pause)
    && (times != [] ==> times[|times| - 1] <= clock)
    && (0 < count < |times| ==> times[|times| - count - 1] + pause <= times[|times| - count])
    && (count == 0 && times != [] ==> times[|times| - 1] + pause <= clock)
  }

  lemma CountReset(times: seq<Time>, count: nat, clock: Time, now: Time, max: nat, pause: Time)
    requires Batched(times, count, clock, max, pause) && clock <= now && pause >= 0
    requires times != [] ==> times[|times| - 1] + pause <= now
    ensures Batched(times, 0, now, max, pause)
  {
  }

  lemma {:induction false} SpacedBound(times: seq<Time>, max: nat, pause: Time, i: nat, k: nat)
    requires Spaced(times, max, pause) && i + max * k < |times|
    ensures times[i + max * k] >= times[i] + pause * k
    decreases k
  {
    if k == 0 {
    } else {
      assert max * k == max * (k - 1) + max && pause * k == pause * (k - 1) + pause;
      SpacedBound(times, max, pause, i, k - 1);
      assert times[i + max * (k - 1)] + pause <= times[i + max * (k - 1) + max];
    }
  }

  function Clock(attempts: seq<PasswordTry>): Time
    requires attempts != []
  {
    attempts[|attempts| - 1].now
  }

  ghost predicate PasswordClock(attempts: seq<PasswordTry>) {
    forall i, j :: 0 <= i <= j < |attempts| ==> attempts[i].now <= attempts[j].now
  }

  ghost predicate TotpClock(attempts: seq<TotpAttempt>) {
    forall i, j :: 0 <= i <= j < |attempts| ==> attempts[i].now <= attempts[j].now
  }

  /** The lock is set exactly at five failures, to fifteen minutes after the last. */
  ghost predicate LockAtFive(l: PasswordLock, failures: seq<Time>) {
    && (l.lockedUntil.Some? <==> l.failures == MAX_FAILURES)
    && (l.lockedUntil.Some? ==> failures != [] && l.lockedUntil.value == failures[|failures| - 1] + PASSWORD_LOCKOUT)
  }

  lemma PasswordStep(l: PasswordLock, failures: seq<Time>, clock: Time, now: Time, correct: bool)
    requires Batched(failures, l.failures, clock, MAX_FAILURES, PASSWORD_LOCKOUT) && LockAtFive(l, failures) &&
             clock <= now
    requires TryPassword(l, now, correct).1 != Granted
    ensures var (l', verdict) := TryPassword(l, now, correct);
            var failures' := if verdict == Failed then failures + [now] else failures;
            Batched(failures', l'.failures, now, MAX_FAILURES, PASSWORD_LOCKOUT) && LockAtFive(l', failures')
  {
  }

  lemma PasswordPrefix(attempts: seq<PasswordTry>)
    requires attempts != [] && NoPasswordGranted(attempts) && PasswordClock(attempts)
    ensures var init, last := attempts[..|attempts| - 1], attempts[|attempts| - 1];
            && NoPasswordGranted(init) && PasswordClock(init)
            && (init != [] ==> init[|init| - 1].now <= last.now)
    ensures PasswordVerdict(attempts) != Granted
  {
    var init := attempts[..|attempts| - 1];
    assert attempts[..|attempts|] == attempts;
    forall m | 0 < m <= |init| ensures PasswordVerdict(init[..m]) != Granted {
      assert init[..m] == attempts[..m];
    }
  }

  lemma {:induction false} PasswordInvariant(attempts: seq<PasswordTry>)
    requires attempts != [] && NoPasswordGranted(attempts) && PasswordClock(attempts)
    ensures Batched(PasswordFailures(attempts), PasswordRun(attempts).failures, Clock(attempts), MAX_FAILURES,
             PASSWORD_LOCKOUT)
    ensures LockAtFive(PasswordRun(attempts), PasswordFailures(attempts))
  {
    var init, last := attempts[..|attempts| - 1], attempts[|attempts| - 1];
    PasswordPrefix(attempts);
    if init == [] {
      PasswordStep(NO_FAILURES, [], last.now, last.now, last.correct);
    } else {
      PasswordInvariant(init);
      PasswordStep(PasswordRun(init), PasswordFailures(init), Clock(init), last.now, last.correct);
    }
  }

  /**
   In every serialised run with a nondecreasing clock and no successful login, failures come at most five to a
   quarter of an hour: failure i + 5k is at least 900k seconds after failure i. The account is locked exactly
   when the count stands at five.
   */
  lemma PasswordRateBound(attempts: seq<PasswordTry>, i: nat, k: nat)
    requires attempts != [] && NoPasswordGranted(attempts) && PasswordClock(attempts)
    requires i + MAX_FAILURES * k < |PasswordFailures(attempts)|
    ensures PasswordFailures(attempts)[i + MAX_FAILURES * k] >= PasswordFailures(attempts)[i] + PASSWORD_LOCKOUT * k
    ensures PasswordRun(attempts).lockedUntil.Some? <==> PasswordRun(attempts).failures == MAX_FAILURES
  {
    PasswordInvariant(attempts);
    SpacedBound(PasswordFailures(attempts), MAX_FAILURES, PASSWORD_LOCKOUT, i, k);
  }

  /** A counter that is not at zero remembers when its last failure was. */
  ghost predicate RemembersLast(l: TotpLock, failures: seq<Time>) {
    l.failures > 0 ==> failures != [] && l.lastFailure == Some(failures[|failures| - 1])
  }

  /** A step with the counter below the limit. */
  lemma TotpOpenStep(l: TotpLock, failures: seq<Time>, clock: Time, a: TotpAttempt, max: nat)
    requires l.failures < max && Batched(failures, l.failures, clock, max, TOTP_LOCKOUT) &&
             RemembersLast(l, failures) && clock <= a.now
    requires TryTotp(l, a.now, a.code, a.valid, max).1 != Granted
    ensures var (l', verdict) := TryTotp(l, a.now, a.code, a.valid, max);
            var failures' := if verdict == Failed then failures + [a.now] else failures;
            Batched(failures', l'.failures, a.now, max, TOTP_LOCKOUT) && RemembersLast(l', failures')
  {
  }

  lemma TotpStep(l: TotpLock, failures: seq<Time>, clock: Time, a: TotpAttempt, max: nat)
    requires max > 0 && Batched(failures, l.failures, clock, max, TOTP_LOCKOUT) && RemembersLast(l, failures) &&
             clock <= a.now
    requires TryTotp(l, a.now, a.code, a.valid, max).1 != Granted
    ensures var (l', verdict) := TryTotp(l, a.now, a.code, a.valid, max);
            var failures' := if verdict == Failed then failures + [a.now] else failures;
            Batched(failures', l'.failures, a.now, max, TOTP_LOCKOUT) && RemembersLast(l', failures')
  {
    if l.failures < max {
      TotpOpenStep(l, failures, clock, a, max);
    } else if a.now - l.lastFailure.value >= TOTP_LOCKOUT {
      var reset := l.(failures := 0, lastFailure := None);
      CountReset(failures, l.failures, clock, a.now, max, TOTP_LOCKOUT);
      assert TryTotp(reset, a.now, a.code, a.valid, max) == TryTotp(l, a.now, a.code, a.valid, max);
      TotpOpenStep(reset, failures, a.now, a, max);
    }
  }

  lemma TotpPrefix(start: TotpLock, attempts: seq<TotpAttempt>, max: nat)
    requires attempts != [] && NoTotpGranted(start, attempts, max) && TotpClock(attempts)
    ensures var init, last := attempts[..|attempts| - 1], attempts[|attempts| - 1];
            && NoTotpGranted(start, init, max) && TotpClock(init)
            && (init != [] ==> init[|init| - 1].now <= last.now)
    ensures TotpVerdict(start, attempts, max) != Granted
  {
    var init := attempts[..|attempts| - 1];
    assert attempts[..|attempts|] == attempts;
    forall m | 0 < m <= |init| ensures TotpVerdict(start, init[..m], max) != Granted {
      assert init[..m] == attempts[..m];
    }
  }

  lemma {:induction false} TotpInvariant(start: TotpLock, attempts: seq<TotpAttempt>, max: nat)
    requires max > 0 && start.failures == 0
    requires attempts != [] && NoTotpGranted(start, attempts, max) && TotpClock(attempts)
    ensures Batched(TotpFailures(start, attempts, max), TotpRun(start, attempts, max).failures,
                    attempts[|attempts| - 1].now, max, TOTP_LOCKOUT)
    ensures RemembersLast(TotpRun(start, attempts, max), TotpFailures(start, attempts, max))
  {
    var init, last := attempts[..|attempts| - 1], attempts[|attempts| - 1];
    TotpPrefix(start, attempts, max);
    if init == [] {
      TotpStep(start, [], last.now, last, max);
    } else {
      TotpInvariant(start, init, max);
      TotpStep(TotpRun(start, init, max), TotpFailures(start, init, max), init[|init| - 1].now, last, max);
    }
  }

  /** The same for TOTP codes: at most `max` wrong codes a minute, and never a permanent lockout. */
  lemma TotpRateBound(start: TotpLock, attempts: seq<TotpAttempt>, max: nat, i: nat, k: nat)
    requires max > 0 && start.failures == 0
    requires attempts != [] && NoTotpGranted(start, attempts, max) && TotpClock(attempts)
    requires i + max * k < |TotpFailures(start, attempts, max)|
    ensures TotpFailures(start, attempts, max)[i + max * k] >= TotpFailures(start, attempts, max)[i] + TOTP_LOCKOUT * k
    ensures TotpRun(start, attempts, max).failures >= max ==> TotpRun(start, attempts, max).lastFailure.Some?
  {
    TotpInvariant(start, attempts, max);
    SpacedBound(TotpFailures(start, attempts, max), max, TOTP_LOCKOUT, i, k);
  }

  /**
   Waiting out the Retry-After of a 423 falls short by less than a second: the account is open again exactly at
   that moment if the remaining lock time was a whole number of seconds, and always one second later.
   */
  lemma RetryAfterFallsShort(l: PasswordLock, now: Time, correct: bool)
    requires TryPassword(l, now, correct).1.Locked?
    ensures var wait := TryPassword(l, now, correct).1.retryAfter * SECOND;
            && wait >= 0
            && (!IsLocked(l, now + wait) <==> (l.lockedUntil.value - now) % SECOND == 0)
            && !IsLocked(l, now + wait + SECOND)
            && forall t :: now <= t < now + wait ==> IsLocked(l, t)
  {
  }
}
