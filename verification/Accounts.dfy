/** The columns of a user row that the sign-in handlers update one statement at a time. */
module Accounts {
  import opened Common
  import opened Lockout
  import opened OneTimeCodes

  class Account {
    var failedLoginCount: nat
    var lockedUntil: Option<Time>
    var totpFailureCount: nat
    var totpLastFailureAt: Option<Time>
    var totpLastUsedCode: Option<string>
    var totpBackupCodes: Option<seq<string>>

    function Password(): PasswordLock
      reads this
    {
      PasswordLock(failedLoginCount, lockedUntil)
    }

    function Totp(): TotpLock
      reads this
    {
      TotpLock(totpFailureCount, totpLastFailureAt, totpLastUsedCode)
    }

    constructor ()
      ensures Password() == NO_FAILURES && Totp() == TotpLock(0, None, None) && totpBackupCodes == None
    {
      failedLoginCount, lockedUntil := 0, None;
      totpFailureCount, totpLastFailureAt, totpLastUsedCode := 0, None, None;
      totpBackupCodes := None;
    }

    /** The lockout part of `login`. Each block of updates is committed where the program commits it. */
    method AttemptPassword(now: Time, correct: bool) returns (verdict: Verdict)
      modifies this`failedLoginCount, this`lockedUntil
      ensures (Password(), verdict) == TryPassword(old(Password()), now, correct)
      ensures var locked := old(lockedUntil).Some? && now < old(lockedUntil).value;
              && (verdict == Granted <==> correct && !locked)
              && (verdict == Failed <==> !correct && !locked)
              && (locked ==> failedLoginCount == old(failedLoginCount) && lockedUntil == old(lockedUntil))
              && (verdict == Granted ==> failedLoginCount == 0 && lockedUntil == None)
              && (verdict == Failed ==>
                    && failedLoginCount == (if old(lockedUntil).Some? then 1 else old(failedLoginCount) + 1)
                    && lockedUntil == if failedLoginCount < 5 then None else Some(now + 900 * SECOND))
    {
      if lockedUntil.Some? {
        if now < lockedUntil.value {
          return Locked((lockedUntil.value - now) / SECOND);
        }
        failedLoginCount, lockedUntil := 0, None;
      }
      if !correct {
        failedLoginCount := failedLoginCount + 1;
        if failedLoginCount >= MAX_FAILURES {
          lockedUntil := Some(now + PASSWORD_LOCKOUT);
        }
        return Failed;
      }
      failedLoginCount, lockedUntil := 0, None;
      verdict := Granted;
    }

    method VerifyTotp(now: Time, code: string, valid: bool, max: nat) returns (verdict: Verdict)
      modifies this`totpFailureCount, this`totpLastFailureAt, this`totpLastUsedCode
      ensures (Totp(), verdict) == TryTotp(old(Totp()), now, code, valid, max)
      ensures var open := old(totpFailureCount) < max
                          || (old(totpLastFailureAt).Some? && now - old(totpLastFailureAt).value >= 60 * SECOND);
              && (verdict == Granted <==> open && valid && old(totpLastUsedCode) != Some(code))
              && (verdict == Failed <==> open && !valid)
    {
      if totpFailureCount >= max {
        if totpLastFailureAt.None? {
          return LockedForGood;
        }
        var age := now - totpLastFailureAt.value;
        if age < TOTP_LOCKOUT {
          return Locked((TOTP_LOCKOUT - age) / SECOND);
        }
        totpFailureCount, totpLastFailureAt := 0, None;
      }
      if !valid {
        totpFailureCount, totpLastFailureAt := totpFailureCount + 1, Some(now);
        return Failed;
      }
      if totpLastUsedCode == Some(code) {
        return Replayed;
      }
      totpFailureCount, totpLastFailureAt, totpLastUsedCode := 0, None, Some(code);
      verdict := Granted;
    }

    method VerifyBackupCode(h: string) returns (redemption: Redemption)
      modifies this`totpBackupCodes
      ensures (totpBackupCodes, redemption) == Redeem(old(totpBackupCodes), h)
      ensures redemption == Redeemed <==> old(totpBackupCodes).Some? && h in old(totpBackupCodes).value
    {
      if totpBackupCodes.None? || totpBackupCodes.value == [] {
        return NoCodes;
      }
      var codes := totpBackupCodes.value;
      if h !in codes {
        return InvalidCode;
      }
      codes := RemoveFirst(codes, h);
      totpBackupCodes := if codes != [] then Some(codes) else None;
      redemption := Redeemed;
    }
  }
}
