/** Exactly what each sign-in step hands out and records, and the run of steps behind every complete token. */
module SignInSteps {
  import opened Common
  import opened Lockout
  import opened SecondFactor
  import OneTimeCodes

  // ---------------------------------------------------------------------------
  // What passing a factor takes
  // ---------------------------------------------------------------------------

  /** The user may get a token at all: active, and enrolled if the tenant mandates it. */
  ghost predicate MayEnter(s: World, u: string) {
    u in s.users && s.users[u].active && (s.users[u].mandate ==> s.users[u].enrolled)
  }

  /** In this step user u passes a first factor. */
  ghost predicate PassesFirst(s: World, step: Step, u: string) {
    match step
    case PasswordLogin(x, refused, correct, _) =>
      && x == u && MayEnter(s, u) && !refused && correct
      && (s.users[u].password.lockedUntil.Some? ==> s.users[u].password.lockedUntil.value <= s.now)
    case GoogleCallback(x, _) => x == u
    case MailedLogin(x) => x == u && MayEnter(s, u)
    case _ => false
  }

  /** The pending token was handed out, is unexpired, and belongs to an active, enrolled user. */
  ghost predicate Gate(s: World, token: Pending) {
    && token in s.pending && s.now < token.exp
    && token.user in s.users && s.users[token.user].active && s.users[token.user].enrolled
  }

  /** In this step user u passes a second factor. */
  ghost predicate PassesSecond(s: World, step: Step, u: string) {
    match step
    case VerifyTotp(token, code, valid, max, _) =>
      && token.user == u && Gate(s, token) && valid
      && var totp := s.users[u].totp;
         && (totp.failures < max || (totp.lastFailure.Some? && s.now - totp.lastFailure.value >= 60 * SECOND))
         && totp.lastUsed != Some(code)
    case VerifyBackup(token, hash, _) =>
      token.user == u && Gate(s, token) && s.users[u].backup.Some? && hash in s.users[u].backup.value
    case _ => false
  }

  /** The device cookie a first-factor request carried. */
  function CookieOf(step: Step): Option<string> {
    match step
    case PasswordLogin(_, _, _, cookie) => cookie
    case GoogleCallback(_, cookie) => cookie
    case _ => None
  }

  /** The cookie a second-factor request asked to be remembered by. */
  function RememberOf(step: Step): Option<string> {
    match step
    case VerifyTotp(_, _, _, _, remember) => remember
    case VerifyBackup(_, _, remember) => remember
    case _ => None
  }

  ghost predicate Enrolled(s: World, u: string) {
    u in s.users && s.users[u].enrolled
  }

  /** A non-empty cookie of an unexpired device of that user. */
  ghost predicate Bypasses(s: World, u: string, cookie: Option<string>) {
    exists d :: d in s.devices && d.user == u && Some(d.cookie) == cookie && d.cookie != "" && s.now < d.expiresAt
  }

  // ---------------------------------------------------------------------------
  // What one step does
  // ---------------------------------------------------------------------------

  /** User u gets a complete token in this step. */
  ghost predicate GetsToken(s: World, step: Step, u: string) {
    PassesSecond(s, step, u) || (PassesFirst(s, step, u) && (Enrolled(s, u) ==> Bypasses(s, u, CookieOf(step))))
  }

  ghost predicate Logged(s: World, step: Step, e: Event) {
    e in Apply(s, step).log[|s.log|..]
  }

  lemma LogGrows(s: World, step: Step)
    ensures |s.log| <= |Apply(s, step).log| && Apply(s, step).log[..|s.log|] == s.log
    ensures Apply(s, step).now == if step.Tick? then s.now + step.elapsed else s.now
  {
  }

  lemma TrustsIff(s: World, u: string, cookie: Option<string>)
    ensures Trusts(s.devices, u, cookie, s.now) <==> Bypasses(s, u, cookie)
  {
  }

  /** A pending token lasts 300 seconds, up to the whole second. */
  ghost predicate ExpiryOf(now: Time, exp: Time) {
    exp % SECOND == 0 && now + 299 * SECOND < exp <= now + 300 * SECOND
  }

  /** A first-factor step as a whole. */
  ghost predicate FirstStep(s: World, step: Step, u: string, s': World) {
    && s'.devices == s.devices
    && if !PassesFirst(s, step, u) then s'.log == s.log && s'.pending == s.pending
       else if Enrolled(s, u) && !Bypasses(s, u, CookieOf(step)) then
         && s'.log == s.log + [FirstFactorPassed(u, s.now, CookieOf(step))]
         && exists exp :: s'.pending == s.pending + {Pending(u, s.now, exp)} && ExpiryOf(s.now, exp)
       else
         && s'.log == s.log + [FirstFactorPassed(u, s.now, CookieOf(step)), TokenIssued(u, s.now, Enrolled(s, u))]
         && s'.pending == s.pending
  }

  lemma PendingExpiry(s: World, u: string, cookie: Option<string>)
    ensures exists exp ::
              IssuePending(s, u, cookie).pending == s.pending + {Pending(u, s.now, exp)} && ExpiryOf(s.now, exp)
  {
    assert IssuePending(s, u, cookie).pending == s.pending + {Pending(u, s.now, WholeSeconds(s.now + PENDING_TTL))};
  }

  lemma PasswordStep(s: World, u: string, refused: bool, correct: bool, cookie: Option<string>)
    ensures var step := PasswordLogin(u, refused, correct, cookie); FirstStep(s, step, u, Apply(s, step))
  {
    TrustsIff(s, u, cookie);
    if u in s.users {
      PasswordAttempt(s.users[u].password, s.now, correct);
    }
    PendingExpiry(s, u, cookie);
  }

  lemma GoogleStep(s: World, u: string, cookie: Option<string>)
    ensures var step := GoogleCallback(u, cookie); FirstStep(s, step, u, Apply(s, step))
  {
    TrustsIff(s, u, cookie);
    PendingExpiry(s, u, cookie);
  }

  lemma MailedStep(s: World, u: string)
    ensures var step := MailedLogin(u); FirstStep(s, step, u, Apply(s, step))
  {
    TrustsIff(s, u, None);
    PendingExpiry(s, u, None);
  }

  /** A second-factor step as a whole. */
  ghost predicate SecondStep(s: World, step: Step, u: string, s': World) {
    && s'.pending == s.pending
    && if !PassesSecond(s, step, u) then s'.log == s.log && s'.devices == s.devices
       else
         var passed := [SecondFactorPassed(u, s.now), TokenIssued(u, s.now, true)];
         match RememberOf(step)
         case None => s'.log == s.log + passed && s'.devices == s.devices
         case Some(cookie) =>
           && s'.log == s.log + passed + [DeviceTrusted(u, s.now, cookie)]
           && s'.devices == s.devices + {Device(u, cookie, s.now, s.now + 30 * DAY)}
  }

  lemma TotpStep(s: World, token: Pending, code: string, valid: bool, max: nat, remember: Option<string>)
    ensures var step := VerifyTotp(token, code, valid, max, remember); SecondStep(s, step, token.user, Apply(s, step))
  {
    if token.user in s.users {
      CodeAttempt(s.users[token.user].totp, s.now, code, valid, max);
    }
  }

  lemma RedeemedIff(stored: Option<seq<string>>, hash: string)
    ensures OneTimeCodes.Redeem(stored, hash).1 == OneTimeCodes.Redeemed <==> stored.Some? && hash in stored.value
  {
    OneTimeCodes.RedeemExactly(stored, hash);
  }

  lemma BackupRefused(s: World, token: Pending, hash: string, remember: Option<string>)
    requires !PassesSecond(s, VerifyBackup(token, hash, remember), token.user)
    ensures var s' := AfterVerifyBackup(s, token, hash, remember);
            s'.pending == s.pending && s'.log == s.log && s'.devices == s.devices
  {
    if token.user in s.users {
      RedeemedIff(s.users[token.user].backup, hash);
    }
  }

  lemma BackupPassed(s: World, token: Pending, hash: string, remember: Option<string>)
    requires PassesSecond(s, VerifyBackup(token, hash, remember), token.user)
    ensures SecondStep(s, VerifyBackup(token, hash, remember), token.user, AfterVerifyBackup(s, token, hash, remember))
  {
    var u := token.user;
    RedeemedIff(s.users[u].backup, hash);
    var codes := OneTimeCodes.Redeem(s.users[u].backup, hash).0;
    var s0 := s.(users := s.users[u := s.users[u].(backup := codes)]);
    assert AfterVerifyBackup(s, token, hash, remember) == IssueAfterSecondFactor(s0, u, remember);
  }

  lemma BackupStep(s: World, token: Pending, hash: string, remember: Option<string>)
    ensures var step := VerifyBackup(token, hash, remember); SecondStep(s, step, token.user, Apply(s, step))
  {
    if PassesSecond(s, VerifyBackup(token, hash, remember), token.user) {
      BackupPassed(s, token, hash, remember);
    } else {
      BackupRefused(s, token, hash, remember);
    }
  }

  /** The other steps hand out nothing. */
  lemma OtherStep(s: World, step: Step)
    requires step.Tick? || step.ActivateTotp? || step.ForgetDevices? || step.Administer?
    ensures var s' := Apply(s, step);
            && s'.log == s.log && s'.pending == s.pending
            && s'.devices == if step.ForgetDevices? then s.devices - step.devices else s.devices
  {
  }

  /** The user a factor step is about. */
  function Subject(step: Step): Option<string> {
    match step
    case PasswordLogin(u, _, _, _) => Some(u)
    case GoogleCallback(u, _) => Some(u)
    case MailedLogin(u) => Some(u)
    case VerifyTotp(token, _, _, _, _) => Some(token.user)
    case VerifyBackup(token, _, _) => Some(token.user)
    case _ => None
  }

  ghost predicate FirstFactorStep(step: Step) {
    step.PasswordLogin? || step.GoogleCallback? || step.MailedLogin?
  }

  lemma StepExactly(s: World, step: Step)
    ensures match Subject(step)
            case None =>
              && Apply(s, step).log == s.log && Apply(s, step).pending == s.pending
              && Apply(s, step).devices == if step.ForgetDevices? then s.devices - step.devices else s.devices
            case Some(u) =>
              if FirstFactorStep(step) then FirstStep(s, step, u, Apply(s, step))
              else SecondStep(s, step, u, Apply(s, step))
  {
    match step
    case PasswordLogin(u, refused, correct, cookie) => PasswordStep(s, u, refused, correct, cookie);
    case GoogleCallback(u, cookie) => GoogleStep(s, u, cookie);
    case MailedLogin(u) => MailedStep(s, u);
    case VerifyTotp(token, code, valid, max, remember) => TotpStep(s, token, code, valid, max, remember);
    case VerifyBackup(token, hash, remember) => BackupStep(s, token, hash, remember);
    case _ => OtherStep(s, step);
  }

  lemma PassesOnlySubject(s: World, step: Step, u: string)
    ensures PassesFirst(s, step, u) ==> Subject(step) == Some(u) && FirstFactorStep(step)
    ensures PassesSecond(s, step, u) ==> Subject(step) == Some(u) && !FirstFactorStep(step)
  {
  }

  /** A step logs a passed second factor exactly for the user who passes one in it. */
  lemma SecondFactorIff(s: World, step: Step, u: string, t: Time)
    ensures Logged(s, step, SecondFactorPassed(u, t)) <==> PassesSecond(s, step, u) && t == s.now
  {
    StepExactly(s, step);
    PassesOnlySubject(s, step, u);
    var log' := Apply(s, step).log;
    if PassesSecond(s, step, u) {
      assert log'[|s.log|..][0] == SecondFactorPassed(u, s.now);
    }
  }

  /** A step logs a passed first factor exactly for the user who passes one in it, with the cookie presented. */
  lemma FirstFactorIff(s: World, step: Step, u: string, t: Time, cookie: Option<string>)
    ensures Logged(s, step, FirstFactorPassed(u, t, cookie)) <==>
              PassesFirst(s, step, u) && t == s.now && cookie == CookieOf(step)
  {
    StepExactly(s, step);
    PassesOnlySubject(s, step, u);
    var log' := Apply(s, step).log;
    if PassesFirst(s, step, u) {
      assert log'[|s.log|..][0] == FirstFactorPassed(u, s.now, CookieOf(step));
    }
  }

  /**
   A step issues a complete token exactly to a user who passes a second factor in it, or who passes a first factor in it
   and is not enrolled or presents the cookie of an unexpired trusted device.
   */
  lemma TokenIff(s: World, step: Step, u: string, t: Time, enrolled: bool)
    ensures Logged(s, step, TokenIssued(u, t, enrolled)) <==>
              GetsToken(s, step, u) && t == s.now && enrolled == Enrolled(s, u)
  {
    StepExactly(s, step);
    PassesOnlySubject(s, step, u);
    var log' := Apply(s, step).log;
    if GetsToken(s, step, u) {
      assert log'[|s.log|..][1] == TokenIssued(u, s.now, Enrolled(s, u));
    }
  }

  /** And a pending token exactly to an enrolled user who passes a first factor without such a device. */
  lemma PendingIff(s: World, step: Step, p: Pending)
    requires p !in s.pending
    ensures p in Apply(s, step).pending <==>
              && PassesFirst(s, step, p.user) && Enrolled(s, p.user) && !Bypasses(s, p.user, CookieOf(step))
              && p.issuedAt == s.now && ExpiryOf(s.now, p.exp)
  {
    StepExactly(s, step);
    PassesOnlySubject(s, step, p.user);
  }

  /** A device becomes trusted exactly in a step in which its user passes the second factor and asks for it. */
  lemma DeviceIff(s: World, step: Step, d: Device)
    requires d !in s.devices
    ensures d in Apply(s, step).devices <==>
              && PassesSecond(s, step, d.user) && RememberOf(step) == Some(d.cookie)
              && d.createdAt == s.now && d.expiresAt == s.now + 30 * DAY
  {
    StepExactly(s, step);
    PassesOnlySubject(s, step, d.user);
  }

  // ---------------------------------------------------------------------------
  // What one step does to the users
  // ---------------------------------------------------------------------------

  /** Enrolment happens by a right code of an active user and is never undone. */
  lemma EnrolmentIff(s: World, step: Step, u: string)
    ensures Enrolled(Apply(s, step), u) <==>
              Enrolled(s, u) || (step.ActivateTotp? && step.user == u && step.valid && u in s.users &&
                  s.users[u].active)
  {
  }

  /** Only the Google callback makes a user; it makes one without MFA, and reactivates an inactive one. */
  lemma AccountsExactly(s: World, step: Step, u: string)
    ensures u in Apply(s, step).users <==> u in s.users || step == GoogleCallback(u, CookieOf(step))
    ensures u in Apply(s, step).users && u !in s.users ==>
              Apply(s, step).users[u] == User(true, false, false, PasswordLock(0, None), TotpLock(0, None, None), None)
    ensures u in s.users ==>
              var user := Apply(s, step).users[u];
              && user.active == (if step.Administer? && step.user == u then step.active
                                 else s.users[u].active || step == GoogleCallback(u, CookieOf(step)))
              && user.mandate == if step.Administer? && step.user == u then step.mandate else s.users[u].mandate
  {
  }

  /** The password is looked at: the user is known and active, and no earlier check refuses. */
  ghost predicate AsksPassword(s: World, step: Step, u: string) {
    step.PasswordLogin? && step.user == u && u in s.users && s.users[u].active && !step.refused
  }

  ghost predicate PasswordOpen(s: World, u: string)
    requires u in s.users
  {
    s.users[u].password.lockedUntil.Some? ==> s.users[u].password.lockedUntil.value <= s.now
  }

  /**
   Every password looked at while the account is open counts, whether the login then goes on or not: a right one
   clears the counter, a wrong one adds to it or, after a lock, starts it again. Nothing else touches the counter.
   */
  lemma PasswordColumns(s: World, step: Step, u: string)
    requires u in s.users
    ensures var before, after := s.users[u].password, Apply(s, step).users[u].password;
            if !AsksPassword(s, step, u) || !PasswordOpen(s, u) then after == before
            else if step.correct then after == PasswordLock(0, None)
            else
              && after.failures == (if before.lockedUntil.Some? then 1 else before.failures + 1)
              && after.lockedUntil == if after.failures < 5 then None else Some(s.now + 900 * SECOND)
  {
    if step.PasswordLogin? && step.user == u {
      PasswordAttempt(s.users[u].password, s.now, step.correct);
    }
  }

  ghost predicate CooledDown(s: World, u: string, max: nat)
    requires u in s.users
  {
    var totp := s.users[u].totp;
    totp.failures < max || (totp.lastFailure.Some? && s.now - totp.lastFailure.value >= 60 * SECOND)
  }

  /**
   A code looked at outside the cooldown is counted when wrong and becomes the last one when granted; a replay only
   ends an expired cooldown. Besides, enrolment clears the counter.
   */
  lemma TotpColumns(s: World, step: Step, u: string)
    requires u in s.users
    ensures var before, after := s.users[u].totp, Apply(s, step).users[u].totp;
            if step.VerifyTotp? && step.token.user == u && Gate(s, step.token) && CooledDown(s, u, step.max) then
              var open := if before.failures < step.max then before else TotpLock(0, None, before.lastUsed);
              if PassesSecond(s, step, u) then after == TotpLock(0, None, Some(step.code))
              else if step.valid then after == open
              else after == TotpLock(open.failures + 1, Some(s.now), before.lastUsed)
            else if !Enrolled(s, u) && Enrolled(Apply(s, step), u) then
              after == TotpLock(0, before.lastFailure, before.lastUsed)
            else
              after == before
  {
    if step.VerifyTotp? && step.token.user == u {
      CodeAttempt(s.users[u].totp, s.now, step.code, step.valid, step.max);
    }
  }

  /** Passing with a backup code takes out one copy of its hash; besides, enrolment stores a new list. */
  lemma BackupColumn(s: World, step: Step, u: string)
    requires u in s.users
    ensures var before, after := s.users[u].backup, Apply(s, step).users[u].backup;
            if step.VerifyBackup? && PassesSecond(s, step, u) then
              && after != Some([])
              && OneTimeCodes.TakesOut(before.value, step.hash, OneTimeCodes.Hashes(after))
            else if !Enrolled(s, u) && Enrolled(Apply(s, step), u) then after == Some(step.backup)
            else after == before
  {
    if step.VerifyBackup? && step.token.user == u {
      OneTimeCodes.RedeemExactly(s.users[u].backup, step.hash);
    }
  }

  // ---------------------------------------------------------------------------
  // The steps behind a complete token
  // ---------------------------------------------------------------------------

  /** The world before the k-th step. */
  function Before(s: World, steps: seq<Step>, k: nat): World
    requires k <= |steps|
  {
    Run(s, steps[..k])
  }

  lemma {:induction false} RunSnoc(s: World, steps: seq<Step>, step: Step)
    ensures Run(s, steps + [step]) == Apply(Run(s, steps), step)
    decreases |steps|
  {
    if steps == [] {
      assert [] + [step] == [step] && [step][1..] == [];
    } else {
      RunSnoc(Apply(s, steps[0]), steps[1..], step);
      assert (steps + [step])[1..] == steps[1..] + [step];
    }
  }

  lemma LastStep(s: World, steps: seq<Step>)
    requires steps != []
    ensures Run(s, steps) == Apply(Before(s, steps, |steps| - 1), steps[|steps| - 1])
  {
    RunSnoc(s, steps[..|steps| - 1], steps[|steps| - 1]);
    assert steps == steps[..|steps| - 1] + [steps[|steps| - 1]];
  }

  /** What is before a step of a prefix is before it in the whole. */
  lemma BeforePrefix(s: World, steps: seq<Step>, n: nat, k: nat)
    requires k <= n <= |steps|
    ensures Before(s, steps[..n], k) == Before(s, steps, k)
  {
    assert steps[..n][..k] == steps[..k];
  }

  lemma {:induction false} ClockRun(s: World, steps: seq<Step>, k: nat)
    requires k <= |steps|
    ensures Before(s, steps, k).now <= Run(s, steps).now
    decreases |steps|
  {
    if k == |steps| {
      assert steps[..k] == steps;
    } else {
      LastStep(s, steps);
      LogGrows(Before(s, steps, |steps| - 1), steps[|steps| - 1]);
      ClockRun(s, steps[..|steps| - 1], k);
      BeforePrefix(s, steps, |steps| - 1, k);
    }
  }

  /** In step m user u passed a first factor, less than 300 seconds before t. */
  ghost predicate FirstAt(s: World, steps: seq<Step>, m: nat, u: string, issuedAt: Time) {
    m < |steps| && PassesFirst(Before(s, steps, m), steps[m], u) && Before(s, steps, m).now == issuedAt
  }

  lemma {:induction false} PendingTraced(s: World, steps: seq<Step>, p: Pending)
    requires s.pending == {} && p in Run(s, steps).pending
    ensures p.exp <= p.issuedAt + 300 * SECOND
    ensures exists m :: FirstAt(s, steps, m, p.user, p.issuedAt)
    decreases |steps|
  {
    if steps == [] {
    } else {
      var n := |steps| - 1;
      LastStep(s, steps);
      if p in Before(s, steps, n).pending {
        PendingTraced(s, steps[..n], p);
        var m :| FirstAt(s, steps[..n], m, p.user, p.issuedAt);
        BeforePrefix(s, steps, n, m);
        assert FirstAt(s, steps, m, p.user, p.issuedAt);
      } else {
        PendingIff(Before(s, steps, n), steps[n], p);
        assert FirstAt(s, steps, n, p.user, p.issuedAt);
      }
    }
  }

  /** In step j user u passed a second factor and had a device remembered by this cookie. */
  ghost predicate RememberedAt(s: World, steps: seq<Step>, j: nat, u: string, cookie: string, at: Time) {
    && j < |steps| && PassesSecond(Before(s, steps, j), steps[j], u)
    && RememberOf(steps[j]) == Some(cookie) && Before(s, steps, j).now == at
  }

  lemma {:induction false} DeviceTraced(s: World, steps: seq<Step>, d: Device)
    requires s.devices == {} && d in Run(s, steps).devices
    ensures d.expiresAt == d.createdAt + 30 * DAY
    ensures exists j :: RememberedAt(s, steps, j, d.user, d.cookie, d.createdAt)
    decreases |steps|
  {
    if steps == [] {
    } else {
      var n := |steps| - 1;
      LastStep(s, steps);
      if d in Before(s, steps, n).devices {
        DeviceTraced(s, steps[..n], d);
        var j :| RememberedAt(s, steps[..n], j, d.user, d.cookie, d.createdAt);
        BeforePrefix(s, steps, n, j);
        assert RememberedAt(s, steps, j, d.user, d.cookie, d.createdAt);
      } else {
        DeviceIff(Before(s, steps, n), steps[n], d);
        assert RememberedAt(s, steps, n, d.user, d.cookie, d.createdAt);
      }
    }
  }

  /** Event i was logged in step k. */
  ghost predicate LoggedAt(s: World, steps: seq<Step>, k: nat, i: nat) {
    && k < |steps|
    && |Before(s, steps, k).log| <= i < |Apply(Before(s, steps, k), steps[k]).log|
    && i < |Run(s, steps).log| && Apply(Before(s, steps, k), steps[k]).log[i] == Run(s, steps).log[i]
  }

  lemma {:induction false} EventTraced(s: World, steps: seq<Step>, i: nat) returns (k: nat)
    requires s.log == [] && i < |Run(s, steps).log|
    ensures LoggedAt(s, steps, k, i)
    decreases |steps|
  {
    var n := |steps| - 1;
    LastStep(s, steps);
    LogGrows(Before(s, steps, n), steps[n]);
    if i < |Before(s, steps, n).log| {
      k := EventTraced(s, steps[..n], i);
      BeforePrefix(s, steps, n, k);
      assert Run(s, steps[..n]) == Before(s, steps, n);
      assert Run(s, steps).log[i] == Before(s, steps, n).log[i];
    } else {
      k := n;
    }
  }

  /**
   The steps behind a complete token issued at t to an enrolled user u in step k: u passed a second factor in step j,
   which either is step k, on top of a first factor passed less than 300 seconds before, or had the device remembered,
   less than thirty days before, whose cookie accompanied the first factor of step k.
   */
  ghost predicate TokenTrace(s: World, steps: seq<Step>, k: nat, j: nat, u: string, t: Time) {
    && j <= k < |steps| && Before(s, steps, k).now == t && PassesSecond(Before(s, steps, j), steps[j], u)
    && if j == k then
         exists m: nat :: m < k && PassesFirst(Before(s, steps, m), steps[m], u) &&
             0 <= t - Before(s, steps, m).now < 300 * SECOND
       else
         && PassesFirst(Before(s, steps, k), steps[k], u) && 0 <= t - Before(s, steps, j).now < 30 * DAY
         && RememberOf(steps[j]).Some? && RememberOf(steps[j]) == CookieOf(steps[k])
  }

  lemma TraceInRequest(s: World, steps: seq<Step>, k: nat, u: string)
    requires Initial(s) && k < |steps| && PassesSecond(Before(s, steps, k), steps[k], u)
    ensures TokenTrace(s, steps, k, k, u, Before(s, steps, k).now)
  {
    var token := steps[k].token;
    PendingTraced(s, steps[..k], token);
    var m :| FirstAt(s, steps[..k], m, u, token.issuedAt);
    BeforePrefix(s, steps, k, m);
    ClockRun(s, steps[..k], m);
    assert 0 <= Before(s, steps, k).now - Before(s, steps, m).now < 300 * SECOND;
  }

  lemma TraceByDevice(s: World, steps: seq<Step>, k: nat, u: string) returns (j: nat)
    requires Initial(s) && k < |steps| && PassesFirst(Before(s, steps, k), steps[k], u)
    requires Bypasses(Before(s, steps, k), u, CookieOf(steps[k]))
    ensures TokenTrace(s, steps, k, j, u, Before(s, steps, k).now)
  {
    var t := Before(s, steps, k);
    var d :| d in t.devices && d.user == u && Some(d.cookie) == CookieOf(steps[k]) && t.now < d.expiresAt;
    DeviceTraced(s, steps[..k], d);
    j :| RememberedAt(s, steps[..k], j, u, d.cookie, d.createdAt);
    BeforePrefix(s, steps, k, j);
    ClockRun(s, steps[..k], j);
  }

  /**
   In any run, whoever presents whatever: behind every complete token issued to an enrolled user is a step in which that
   user passed TOTP or backup verification - with a valid code that was not the last one used and no cooldown in
   force, or with a stored hash - in the same request or, through a remembered device, less than thirty days before.
   */
  lemma EveryTokenHasSecondFactor(s: World, steps: seq<Step>, i: nat, u: string, t: Time)
    requires Initial(s) && i < |Run(s, steps).log| && Run(s, steps).log[i] == TokenIssued(u, t, true)
    ensures exists k, j :: LoggedAt(s, steps, k, i) && TokenTrace(s, steps, k, j, u, t)
  {
    var k := EventTraced(s, steps, i);
    var before := Before(s, steps, k);
    assert Apply(before, steps[k]).log[|before.log|..][i - |before.log|] == TokenIssued(u, t, true);
    assert Logged(before, steps[k], TokenIssued(u, t, true));
    TokenIff(before, steps[k], u, t, true);
    if PassesSecond(before, steps[k], u) {
      TraceInRequest(s, steps, k, u);
    } else {
      var j := TraceByDevice(s, steps, k, u);
    }
  }
}
