/**
 The second-factor gate over whole runs: password login, Google, magic link, e-mail code, TOTP and backup
 verification, trusted devices. Handlers run one at a time; signatures, cookies and hashes are ideal, so a
 presented token or cookie is accepted only if it was handed out.
 */
module SecondFactor {
  import opened Common
  import opened Lockout
  import OneTimeCodes

  /** `mandate` is the tenant's require_mfa. */
  datatype User = User(
    active: bool, enrolled: bool, mandate: bool,
    password: PasswordLock, totp: TotpLock, backup: Option<seq<string>>)

  /** An mfa_pending token. Its expiry is the `exp` claim, which is cut to whole seconds. */
  datatype Pending = Pending(user: string, issuedAt: Time, exp: Time)

  datatype Device = Device(user: string, cookie: string, createdAt: Time, expiresAt: Time)

  /** A first factor is recorded with the device cookie the request carried. */
  datatype Event =
    | FirstFactorPassed(user: string, at: Time, cookie: Option<string>)
    | SecondFactorPassed(user: string, at: Time)
    | TokenIssued(user: string, at: Time, enrolled: bool)
    | DeviceTrusted(user: string, at: Time, secret: string)

  /** `log` is history. */
  datatype World = World(
    now: Time, users: map<string, User>, devices: set<Device>, pending: set<Pending>, log: seq<Event>)

  const PENDING_TTL := 300 * SECOND
  const DEVICE_TTL := 30 * DAY

  datatype Step =
    | Tick(elapsed: nat)
    | PasswordLogin(user: string, refused: bool, correct: bool, cookie: Option<string>)
    | GoogleCallback(user: string, cookie: Option<string>)
    | MailedLogin(user: string)
    | VerifyTotp(token: Pending, code: string, valid: bool, max: nat, remember: Option<string>)
    | VerifyBackup(token: Pending, hash: string, remember: Option<string>)
    | ActivateTotp(user: string, valid: bool, backup: seq<string>)
    | ForgetDevices(devices: set<Device>)
    | Administer(user: string, active: bool, mandate: bool)

  // ---------------------------------------------------------------------------
  // Steps
  // ---------------------------------------------------------------------------

  function WholeSeconds(t: Time): (cut: Time)
    ensures cut <= t < cut + SECOND
  {
    t / SECOND * SECOND
  }

  /** `is_trusted_device` */
  predicate Trusts(devices: set<Device>, user: string, cookie: Option<string>, now: Time) {
    cookie.Some? && cookie.value != ""
    && exists d :: d in devices && d.user == user && d.cookie == cookie.value && now < d.expiresAt
  }

  /** Hand out a complete token, or an mfa_pending one. */
  function IssueToken(s: World, u: string, cookie: Option<string>): World
    requires u in s.users
  {
    s.(log := s.log + [FirstFactorPassed(u, s.now, cookie), TokenIssued(u, s.now, s.users[u].enrolled)])
  }

  function IssuePending(s: World, u: string, cookie: Option<string>): World {
    s.(pending := s.pending + {Pending(u, s.now, WholeSeconds(s.now + PENDING_TTL))},
       log := s.log + [FirstFactorPassed(u, s.now, cookie)])
  }

  /** `login`. `refused` stands for the checks before the lockout: unknown tenant, IP policy, unverified address. */
  function AfterPasswordLogin(s: World, u: string, refused: bool, correct: bool, cookie: Option<string>): World {
    if u !in s.users || refused || !s.users[u].active then s else
    var (lock, verdict) := TryPassword(s.users[u].password, s.now, correct);
    var s' := s.(users := s.users[u := s.users[u].(password := lock)]);
    if verdict != Granted then s'
    else if s.users[u].mandate && !s.users[u].enrolled then s'
    else if s.users[u].enrolled && !Trusts(s.devices, u, cookie, s.now) then IssuePending(s', u, cookie)
    else IssueToken(s', u, cookie)
  }

  /** `google_callback` after the upsert, which creates the user or sets an existing one active. */
  function AfterGoogle(s: World, u: string, cookie: Option<string>): World {
    var user := if u in s.users then s.users[u].(active := true)
                else User(true, false, false, NO_FAILURES, TotpLock(0, None, None), None);
    var s' := s.(users := s.users[u := user]);
    if user.enrolled && !Trusts(s.devices, u, cookie, s.now) then IssuePending(s', u, cookie) else
        IssueToken(s', u, cookie)
  }

  /** Magic link and e-mail code, once the link or code itself is accepted: no trusted-device bypass. */
  function AfterMailedLogin(s: World, u: string): World {
    if u !in s.users || !s.users[u].active then s
    else if s.users[u].mandate && !s.users[u].enrolled then s
    else if s.users[u].enrolled then IssuePending(s, u, None)
    else IssueToken(s, u, None)
  }

  /** `read_mfa_pending_token` and the user lookup of both second-factor handlers. */
  predicate Redeemable(s: World, token: Pending) {
    token in s.pending && s.now < token.exp && token.user in s.users && s.users[token.user].active
  }

  function IssueAfterSecondFactor(s: World, u: string, remember: Option<string>): World
    requires u in s.users
  {
    var s' := s.(log := s.log + [SecondFactorPassed(u, s.now), TokenIssued(u, s.now, s.users[u].enrolled)]);
    match remember
    case None => s'
    case Some(cookie) =>
      s'.(devices := s'.devices + {Device(u, cookie, s.now, s.now + DEVICE_TTL)},
          log := s'.log + [DeviceTrusted(u, s.now, cookie)])
  }

  function AfterVerifyTotp(s: World, token: Pending, code: string, valid: bool, max: nat,
      remember: Option<string>): World {
    if !Redeemable(s, token) || !s.users[token.user].enrolled then s else
    var u := token.user;
    var (lock, verdict) := TryTotp(s.users[u].totp, s.now, code, valid, max);
    var s' := s.(users := s.users[u := s.users[u].(totp := lock)]);
    if verdict == Granted then IssueAfterSecondFactor(s', u, remember) else s'
  }

  function AfterVerifyBackup(s: World, token: Pending, h: string, remember: Option<string>): World {
    if !Redeemable(s, token) || !s.users[token.user].enrolled then s else
    var u := token.user;
    var (codes, redemption) := OneTimeCodes.Redeem(s.users[u].backup, h);
    var s' := s.(users := s.users[u := s.users[u].(backup := codes)]);
    if redemption == OneTimeCodes.Redeemed then IssueAfterSecondFactor(s', u, remember) else s'
  }

  function AfterActivateTotp(s: World, u: string, valid: bool, backup: seq<string>): World {
    if u !in s.users || !s.users[u].active || s.users[u].enrolled || !valid then s
    else
      var user := s.users[u];
      s.(users := s.users[u := user.(enrolled := true, totp := user.totp.(failures := 0), backup := Some(backup))])
  }

  function Apply(s: World, step: Step): World {
    match step
    case Tick(d) => s.(now := s.now + d)
    case PasswordLogin(u, refused, correct, cookie) => AfterPasswordLogin(s, u, refused, correct, cookie)
    case GoogleCallback(u, cookie) => AfterGoogle(s, u, cookie)
    case MailedLogin(u) => AfterMailedLogin(s, u)
    case VerifyTotp(token, code, valid, max, remember) => AfterVerifyTotp(s, token, code, valid, max, remember)
    case VerifyBackup(token, h, remember) => AfterVerifyBackup(s, token, h, remember)
    case ActivateTotp(u, valid, backup) => AfterActivateTotp(s, u, valid, backup)
    case ForgetDevices(devices) => s.(devices := s.devices - devices)
    case Administer(u, active, mandate) =>
      if u in s.users then s.(users := s.users[u := s.users[u].(active := active, mandate := mandate)]) else s
  }

  function Run(s: World, steps: seq<Step>): World
    decreases |steps|
  {
    if steps == [] then s else Run(Apply(s, steps[0]), steps[1..])
  }

  /** Any users, enrolled or not, before anybody has signed in. */
  ghost predicate Initial(s: World) {
    s.devices == {} && s.pending == {} && s.log == []
  }

  // ---------------------------------------------------------------------------
  // Provenance
  // ---------------------------------------------------------------------------

  /** A first factor passed by u before index i, less than 300 seconds before t. */
  ghost predicate RecentFirstFactor(log: seq<Event>, i: nat, u: string, t: Time)
    requires i <= |log|
  {
    exists k :: 0 <= k < i && log[k].FirstFactorPassed? && log[k].user == u && 0 <= t - log[k].at < PENDING_TTL
  }

  /** A device that u marked as trusted before index i, less than thirty days before t, known by this cookie. */
  ghost predicate RecentlyTrusted(log: seq<Event>, i: nat, u: string, t: Time, cookie: Option<string>)
    requires i <= |log|
  {
    exists k :: 0 <= k < i && log[k].DeviceTrusted? && log[k].user == u && Some(log[k].secret) == cookie &&
        0 <= t - log[k].at < DEVICE_TTL
  }

  /**
   A complete token for an enrolled user comes straight after that user passed TOTP or backup verification, on
   top of a first factor of theirs under 300 seconds old, or straight after a first factor whose request carried
   the cookie of a device the user trusted less than thirty days ago; and a device becomes trusted only in a request
   in which its user passed the second factor.
   */
  ghost predicate Justified(log: seq<Event>, i: nat)
    requires i < |log|
  {
    match log[i]
    case TokenIssued(u, t, enrolled) =>
      enrolled ==>
        && i > 0
        && ((log[i - 1] == SecondFactorPassed(u, t) && RecentFirstFactor(log, i - 1, u, t))
            || (log[i - 1].FirstFactorPassed? && log[i - 1].user == u && log[i - 1].at == t
                && RecentlyTrusted(log, i - 1, u, t, log[i - 1].cookie)))
    case DeviceTrusted(u, t, _) => i > 1 && log[i - 2] == SecondFactorPassed(u, t)
    case _ => true
  }

  predicate IsFirstFactor(e: Event, u: string, t: Time) {
    e.FirstFactorPassed? && e.user == u && e.at == t
  }

  ghost predicate PendingOk(s: World, p: Pending) {
    p.issuedAt <= s.now && p.exp <= p.issuedAt + PENDING_TTL
    && exists k :: 0 <= k < |s.log| && IsFirstFactor(s.log[k], p.user, p.issuedAt)
  }

  ghost predicate DeviceOk(s: World, d: Device) {
    d.createdAt <= s.now && d.expiresAt == d.createdAt + DEVICE_TTL &&
        DeviceTrusted(d.user, d.createdAt, d.cookie) in s.log
  }

  ghost predicate Inv(s: World) {
    && (forall p :: p in s.pending ==> PendingOk(s, p))
    && (forall d :: d in s.devices ==> DeviceOk(s, d))
    && (forall i :: 0 <= i < |s.log| ==> Justified(s.log, i))
  }

  /** What is justified by a prefix of the log stays justified. */
  lemma JustifiedLonger(log: seq<Event>, more: seq<Event>, i: nat)
    requires i < |log| && Justified(log, i)
    ensures Justified(log + more, i)
  {
    var longer := log + more;
    assert forall k :: 0 <= k <= i ==> longer[k] == log[k];
    match log[i]
    case TokenIssued(u, t, enrolled) =>
      if enrolled && log[i - 1] == SecondFactorPassed(u, t) && RecentFirstFactor(log, i - 1, u, t) {
        var k :| 0 <= k < i - 1 && log[k].FirstFactorPassed? && log[k].user == u && 0 <= t - log[k].at < PENDING_TTL;
        assert longer[k].FirstFactorPassed?;
      } else if enrolled {
        var cookie := log[i - 1].cookie;
        var k :| 0 <= k < i - 1 && log[k].DeviceTrusted? && log[k].user == u && Some(log[k].secret) == cookie &&
            0 <= t - log[k].at < DEVICE_TTL;
        assert longer[k].DeviceTrusted?;
      }
    case _ =>
  }

  /** Extending the log by justified events, with justified new tokens and devices, keeps the invariant. */
  lemma InvExtend(s: World, s': World, more: seq<Event>)
    requires Inv(s) && s'.log == s.log + more && s.now <= s'.now
    requires forall p :: p in s'.pending ==> p in s.pending || PendingOk(s', p)
    requires forall d :: d in s'.devices ==> d in s.devices || DeviceOk(s', d)
    requires forall i :: |s.log| <= i < |s'.log| ==> Justified(s'.log, i)
    ensures Inv(s')
  {
    forall i | 0 <= i < |s.log| ensures Justified(s'.log, i) {
      JustifiedLonger(s.log, more, i);
    }
    assert forall e :: e in s.log ==> e in s'.log;
    forall p | p in s.pending ensures PendingOk(s', p) {
      var k :| 0 <= k < |s.log| && IsFirstFactor(s.log[k], p.user, p.issuedAt);
      assert s'.log[k] == s.log[k];
    }
  }

  lemma InvIssuePending(s: World, s0: World, u: string, cookie: Option<string>)
    requires Inv(s) && s0.log == s.log && s0.pending == s.pending && s0.devices == s.devices && s0.now == s.now
    ensures Inv(IssuePending(s0, u, cookie))
  {
    var s' := IssuePending(s0, u, cookie);
    assert IsFirstFactor(s'.log[|s.log|], u, s.now);
    InvExtend(s, s', [FirstFactorPassed(u, s.now, cookie)]);
  }

  /** Outside the second-factor handlers, a complete token for an enrolled user needs the trusted device. */
  lemma InvIssueToken(s: World, s0: World, u: string, cookie: Option<string>)
    requires Inv(s) && s0.log == s.log && s0.pending == s.pending && s0.devices == s.devices && s0.now == s.now
    requires u in s0.users && (s0.users[u].enrolled ==> Trusts(s.devices, u, cookie, s.now))
    ensures Inv(IssueToken(s0, u, cookie))
  {
    var s', n := IssueToken(s0, u, cookie), |s.log|;
    assert s'.log[n] == FirstFactorPassed(u, s.now, cookie) &&
        s'.log[n + 1] == TokenIssued(u, s.now, s0.users[u].enrolled);
    if s0.users[u].enrolled {
      var d :| d in s.devices && d.user == u && d.cookie == cookie.value && s.now < d.expiresAt;
      assert DeviceOk(s, d);
      var k :| 0 <= k < n && s.log[k] == DeviceTrusted(d.user, d.createdAt, d.cookie);
      assert s'.log[k] == s.log[k];
      assert RecentlyTrusted(s'.log, n, u, s.now, cookie);
    }
    InvExtend(s, s', [FirstFactorPassed(u, s.now, cookie), TokenIssued(u, s.now, s0.users[u].enrolled)]);
  }

  lemma InvSecondFactor(s: World, s0: World, token: Pending, remember: Option<string>)
    requires Inv(s) && s0.log == s.log && s0.pending == s.pending && s0.devices == s.devices && s0.now == s.now
    requires Redeemable(s, token) && token.user in s0.users
    ensures Inv(IssueAfterSecondFactor(s0, token.user, remember))
  {
    var u, n := token.user, |s.log|;
    var s' := IssueAfterSecondFactor(s0, u, remember);
    var issued := [SecondFactorPassed(u, s.now), TokenIssued(u, s.now, s0.users[u].enrolled)];
    var more := if remember.Some? then issued + [DeviceTrusted(u, s.now, remember.value)] else issued;
    assert s'.log == s.log + more;
    assert PendingOk(s, token);
    var k :| 0 <= k < n && IsFirstFactor(s.log[k], u, token.issuedAt);
    assert s'.log[k] == s.log[k];
    assert RecentFirstFactor(s'.log, n, u, s.now);
    assert s'.log[n] == more[0] && s'.log[n + 1] == more[1];
    assert Justified(s'.log, n + 1);
    if remember.Some? {
      assert s'.log[n + 2] == more[2] && Justified(s'.log, n + 2);
    }
    InvExtend(s, s', more);
  }

  lemma InvUnlogged(s: World, s': World)
    requires Inv(s) && s'.log == s.log && s'.pending <= s.pending && s'.devices <= s.devices && s.now <= s'.now
    ensures Inv(s')
  {
  }

  lemma InvFirstFactor(s: World, step: Step)
    requires Inv(s) && (step.PasswordLogin? || step.GoogleCallback? || step.MailedLogin?)
    ensures Inv(Apply(s, step))
  {
    var s', u := Apply(s, step), step.user;
    var s0, cookie := s.(users := s'.users), if step.MailedLogin? then None else step.cookie;
    if s'.log == s.log {
      InvUnlogged(s, s');
    } else if s' == IssuePending(s0, u, cookie) {
      InvIssuePending(s, s0, u, cookie);
    } else {
      InvIssueToken(s, s0, u, cookie);
    }
  }

  lemma InvStep(s: World, step: Step)
    requires Inv(s)
    ensures Inv(Apply(s, step))
  {
    var s' := Apply(s, step);
    if step.PasswordLogin? || step.GoogleCallback? || step.MailedLogin? {
      InvFirstFactor(s, step);
    } else if s'.log == s.log {
      InvUnlogged(s, s');
    } else {
      InvSecondFactor(s, s.(users := s'.users), step.token, step.remember);
    }
  }

  lemma {:induction false} InvRun(s: World, steps: seq<Step>)
    requires Inv(s)
    ensures Inv(Run(s, steps))
    decreases |steps|
  {
    if steps == [] {
    } else {
      InvStep(s, steps[0]);
      InvRun(Apply(s, steps[0]), steps[1..]);
    }
  }

  /**
   In any run, whoever presents whatever, the log shows for every complete token issued to an enrolled user a second
   factor passed by that user: in the same request, on top of a first factor under 300 seconds old, or less than
   thirty days ago in a request that trusted the device whose cookie was presented.
   */
  lemma TokensShowInLog(s: World, steps: seq<Step>, i: nat, u: string, t: Time)
    requires Initial(s) && i < |Run(s, steps).log| && Run(s, steps).log[i] == TokenIssued(u, t, true)
    ensures var log := Run(s, steps).log;
            i > 0
            && if log[i - 1] == SecondFactorPassed(u, t) then RecentFirstFactor(log, i - 1, u, t)
               else IsFirstFactor(log[i - 1], u, t) && RecentlyTrusted(log, i - 1, u, t, log[i - 1].cookie)
    ensures var log := Run(s, steps).log;
            exists k :: 0 <= k < i && log[k].SecondFactorPassed? && log[k].user == u && 0 <= t - log[k].at < DEVICE_TTL
  {
    InvRun(s, steps);
    var log := Run(s, steps).log;
    assert Justified(log, i);
    if log[i - 1] != SecondFactorPassed(u, t) {
      var cookie := log[i - 1].cookie;
      var k :| 0 <= k < i - 1 && log[k].DeviceTrusted? && log[k].user == u && Some(log[k].secret) == cookie &&
          0 <= t - log[k].at < DEVICE_TTL;
      assert Justified(log, k);
      assert log[k - 2].SecondFactorPassed?;
    }
  }

  lemma FirstFactorHonoursMandate(s: World, step: Step, u: string)
    requires u in s.users && s.users[u].mandate && !s.users[u].enrolled && (step.PasswordLogin? || step.MailedLogin?)
    ensures forall t, e :: TokenIssued(u, t, e) !in Apply(s, step).log[|s.log|..]
  {
  }

  lemma SecondFactorNeedsEnrolment(s: World, step: Step, u: string)
    requires u in s.users && !s.users[u].enrolled && (step.VerifyTotp? || step.VerifyBackup?)
    ensures forall t, e :: TokenIssued(u, t, e) !in Apply(s, step).log[|s.log|..]
  {
  }

  lemma GoogleIgnoresMandate(s: World, user: string, cookie: Option<string>, u: string)
    requires u in s.users && !s.users[u].enrolled
    ensures var events := Apply(s, GoogleCallback(user, cookie)).log[|s.log|..];
            forall t, e :: TokenIssued(u, t, e) in events <==> user == u && t == s.now && !e
  {
    var s' := Apply(s, GoogleCallback(user, cookie));
    var passed, issued := FirstFactorPassed(user, s.now, cookie), TokenIssued(user, s.now, s'.users[user].enrolled);
    assert s'.log[|s.log|..] == [passed] || s'.log[|s.log|..] == [passed, issued];
    if user == u {
      assert s'.log[|s.log|..][1] == issued;
    }
  }

  /**
   The tenant model promises that a mandating tenant's users get no full token before enrolling. Every path keeps
   that promise except the Google callback, which does not look at the mandate.
   */
  lemma MandateGate(s: World, step: Step, u: string)
    requires u in s.users && s.users[u].mandate && !s.users[u].enrolled
    ensures TokenIssued(u, s.now, false) in Apply(s, step).log[|s.log|..] <==> step.GoogleCallback? && step.user == u
    ensures forall t, e :: TokenIssued(u, t, e) in Apply(s, step).log[|s.log|..] ==> e == false && t == s.now
  {
    if {
      case step.GoogleCallback? => GoogleIgnoresMandate(s, step.user, step.cookie, u);
      case step.PasswordLogin? || step.MailedLogin? => FirstFactorHonoursMandate(s, step, u);
      case step.VerifyTotp? || step.VerifyBackup? => SecondFactorNeedsEnrolment(s, step, u);
      case step.Tick? || step.ActivateTotp? || step.ForgetDevices? || step.Administer? =>
        assert Apply(s, step).log[|s.log|..] == [];
    }
  }
}
