/** The sign-in handlers as they run: user rows, device rows and pending tokens updated step by step. */
module SignIn {
  import opened Common
  import opened Lockout
  import opened SecondFactor
  import OneTimeCodes
  import TrustedDevices
  import opened SignInSteps

  datatype Reply = Refused | MfaPending | Complete

  /** How a request is answered by what the user passed in it. */
  ghost predicate Answers(s: World, step: Step, user: string, reply: Reply) {
    && (reply == Complete <==> GetsToken(s, step, user))
    && (reply == MfaPending <==> PassesFirst(s, step, user) && !GetsToken(s, step, user))
  }

  /** Each step keeps the invariant, and its log entries show what the user passed. */
  lemma StepJustified(s: World, step: Step, user: string)
    requires Subject(step) == Some(user)
    ensures Inv(s) ==> Inv(Apply(s, step))
    ensures var issued := |Apply(s, step).log| - |s.log|;
            Answers(s, step, user, if issued == 0 then Refused else if issued == 1 then MfaPending else Complete)
  {
    if Inv(s) {
      InvStep(s, step);
    }
    StepExactly(s, step);
  }

  class AuthServer {
    var users: map<string, User>
    var devices: set<Device>
    var pending: set<Pending>
    ghost var log: seq<Event>

    ghost function State(now: Time): World
      reads this
    {
      World(now, users, devices, pending, log)
    }

    constructor (users: map<string, User>)
      ensures this.users == users && forall now :: Initial(State(now))
    {
      this.users := users;
      devices, pending, log := {}, {}, [];
    }

    method AddPending(user: string, cookie: Option<string>, now: Time)
      modifies this`pending, this`log
      ensures State(now) == IssuePending(old(State(now)), user, cookie)
    {
      pending := pending + {Pending(user, now, WholeSeconds(now + PENDING_TTL))};
      log := log + [FirstFactorPassed(user, now, cookie)];
    }

    /** Lockout check, password check and counter updates of a known, active user. */
    method CheckPassword(user: string, correct: bool, now: Time) returns (granted: bool)
      requires user in users
      modifies this`users
      ensures var (lock, verdict) := TryPassword(old(users)[user].password, now, correct);
              users == old(users)[user := old(users)[user].(password := lock)] && (granted <==> verdict == Granted)
      ensures var lockedUntil := old(users)[user].password.lockedUntil;
              granted <==> correct && (lockedUntil.Some? ==> lockedUntil.value <= now)
    {
      var row := users[user];
      if row.password.lockedUntil.Some? {
        if now < row.password.lockedUntil.value {
          assert users == users[user := row];
          return false;
        }
        row := row.(password := NO_FAILURES);
        users := users[user := row];
      }
      if !correct {
        var newCount := row.password.failures + 1;
        var lockedUntil := if newCount >= MAX_FAILURES then Some(now + PASSWORD_LOCKOUT) else None;
        users := users[user := row.(password := PasswordLock(newCount, lockedUntil))];
        return false;
      }
      users := users[user := row.(password := NO_FAILURES)];
      granted := true;
    }

    method Login(user: string, refused: bool, correct: bool, cookie: Option<string>, now: Time) returns (reply: Reply)
      modifies this
      ensures State(now) == Apply(old(State(now)), PasswordLogin(user, refused, correct, cookie))
      ensures reply == Complete <==> |log| == |old(log)| + 2
      ensures reply == MfaPending <==> |log| == |old(log)| + 1
      ensures Answers(old(State(now)), PasswordLogin(user, refused, correct, cookie), user, reply)
      ensures Inv(old(State(now))) ==> Inv(State(now))
      ensures reply == Complete && user in users && users[user].enrolled ==> Trusts(devices, user, cookie, now)
    {
      StepJustified(State(now), PasswordLogin(user, refused, correct, cookie), user);
      if user !in users || refused || !users[user].active {
        return Refused;
      }
      var granted := CheckPassword(user, correct, now);
      if !granted {
        return Refused;
      }
      if users[user].mandate && !users[user].enrolled {
        return Refused;
      }
      if users[user].enrolled && !Trusts(devices, user, cookie, now) {
        AddPending(user, cookie, now);
        return MfaPending;
      }
      log := log + [FirstFactorPassed(user, now, cookie), TokenIssued(user, now, users[user].enrolled)];
      reply := Complete;
    }

    method GoogleCallback(user: string, cookie: Option<string>, now: Time) returns (reply: Reply)
      modifies this
      ensures State(now) == Apply(old(State(now)), SecondFactor.GoogleCallback(user, cookie))
      ensures reply == Complete <==> |log| == |old(log)| + 2
      ensures reply == MfaPending <==> |log| == |old(log)| + 1
      ensures Answers(old(State(now)), SecondFactor.GoogleCallback(user, cookie), user, reply)
      ensures Inv(old(State(now))) ==> Inv(State(now))
      ensures user in users && (reply == Complete && users[user].enrolled ==> Trusts(devices, user, cookie, now))
    {
      StepJustified(State(now), SecondFactor.GoogleCallback(user, cookie), user);
      if user in users {
        users := users[user := users[user].(active := true)];
      } else {
        users := users[user := User(true, false, false, NO_FAILURES, TotpLock(0, None, None), None)];
      }
      if users[user].enrolled && !Trusts(devices, user, cookie, now) {
        AddPending(user, cookie, now);
        return MfaPending;
      }
      log := log + [FirstFactorPassed(user, now, cookie), TokenIssued(user, now, users[user].enrolled)];
      reply := Complete;
    }

    /**
     Afterwards exactly one cookie more bypasses the second factor, for this user and thirty days, if one was asked
     for.
     */
    method RememberDevice(user: string, remember: Option<string>, now: Time)
      modifies this`devices, this`log
      ensures remember.None? ==> devices == old(devices) && log == old(log)
      ensures remember.Some? ==>
                && devices == old(devices) + {Device(user, remember.value, now, now + DEVICE_TTL)}
                && log == old(log) + [DeviceTrusted(user, now, remember.value)]
      ensures forall who, cookie, at ::
                Trusts(devices, who, cookie, at) <==>
                  Trusts(old(devices), who, cookie, at)
                  || (remember.Some? && who == user && cookie == remember && remember.value != "" &&
                      at < now + 30 * DAY)
    {
      if remember.Some? {
        var device := Device(user, remember.value, now, now + DEVICE_TTL);
        forall who, cookie, at
          ensures Trusts(devices + {device}, who, cookie, at) <==>
                    Trusts(devices, who, cookie, at)
                    || (who == user && cookie == remember && remember.value != "" && at < now + 30 * DAY)
        {
          TrustedDevices.NewDeviceBypasses(devices, user, remember.value, now, who, cookie, at);
        }
        devices := devices + {device};
        log := log + [DeviceTrusted(user, now, remember.value)];
      }
    }

    method TotpVerify(token: Pending, code: string, valid: bool, max: nat, remember: Option<string>, now: Time)
      returns (reply: Reply)
      modifies this
      ensures State(now) == Apply(old(State(now)), VerifyTotp(token, code, valid, max, remember))
      ensures reply == Complete <==> log != old(log)
      ensures Answers(old(State(now)), VerifyTotp(token, code, valid, max, remember), token.user, reply)
      ensures Inv(old(State(now))) ==> Inv(State(now))
    {
      StepJustified(State(now), VerifyTotp(token, code, valid, max, remember), token.user);
      if token !in pending || now >= token.exp {
        return Refused;
      }
      var user := token.user;
      if user !in users || !users[user].active || !users[user].enrolled {
        return Refused;
      }
      var (lock, verdict) := TryTotp(users[user].totp, now, code, valid, max);
      users := users[user := users[user].(totp := lock)];
      if verdict != Granted {
        return Refused;
      }
      log := log + [SecondFactorPassed(user, now), TokenIssued(user, now, users[user].enrolled)];
      RememberDevice(user, remember, now);
      reply := Complete;
    }

    method MfaBackupVerify(token: Pending, hash: string, remember: Option<string>, now: Time) returns (reply: Reply)
      modifies this
      ensures State(now) == Apply(old(State(now)), VerifyBackup(token, hash, remember))
      ensures reply == Complete <==> log != old(log)
      ensures Answers(old(State(now)), VerifyBackup(token, hash, remember), token.user, reply)
      ensures Inv(old(State(now))) ==> Inv(State(now))
    {
      StepJustified(State(now), VerifyBackup(token, hash, remember), token.user);
      if token !in pending || now >= token.exp {
        return Refused;
      }
      var user := token.user;
      if user !in users || !users[user].active || !users[user].enrolled {
        return Refused;
      }
      var (codes, redemption) := OneTimeCodes.Redeem(users[user].backup, hash);
      users := users[user := users[user].(backup := codes)];
      if redemption != OneTimeCodes.Redeemed {
        return Refused;
      }
      log := log + [SecondFactorPassed(user, now), TokenIssued(user, now, users[user].enrolled)];
      RememberDevice(user, remember, now);
      reply := Complete;
    }
  }
}
