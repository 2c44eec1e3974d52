/** One-time use over runs: accepted TOTP codes and redeemed backup codes. */
module OneTimeCodes {
  import opened Common
  import opened Lockout

  // ---------------------------------------------------------------------------
  // TOTP codes
  // ---------------------------------------------------------------------------

  /** The codes accepted over a run, in order. */
  function Accepted(start: TotpLock, attempts: seq<TotpAttempt>, max: nat): seq<string> {
    if attempts == [] then []
    else Accepted(start, attempts[..|attempts| - 1], max)
         + (if TotpVerdict(start, attempts, max) == Granted then [attempts[|attempts| - 1].code] else [])
  }

  lemma {:induction false} LastUsedIsLastAccepted(start: TotpLock, attempts: seq<TotpAttempt>, max: nat)
    ensures var codes := Accepted(start, attempts, max);
            TotpRun(start, attempts, max).lastUsed == if codes == [] then start.lastUsed else Some(codes[|codes| - 1])
  {
    if attempts == [] {
    } else {
      LastUsedIsLastAccepted(start, attempts[..|attempts| - 1], max);
    }
  }

  /**
   In every serialised run, two successive accepted codes of a user differ, wrong codes and lockouts between or not.
   */
  lemma {:induction false} SuccessiveCodesDiffer(start: TotpLock, attempts: seq<TotpAttempt>, max: nat)
    ensures var codes := Accepted(start, attempts, max);
            && (forall i :: 0 < i < |codes| ==> codes[i - 1] != codes[i])
            && (codes != [] ==> Some(codes[0]) != start.lastUsed)
  {
    if attempts == [] {
    } else {
      var init := attempts[..|attempts| - 1];
      SuccessiveCodesDiffer(start, init, max);
      LastUsedIsLastAccepted(start, init, max);
    }
  }

  /**
   `generate` maps a time step to its code, and steps[i] is the step the i-th accepted code belonged to. If these
   never go backwards they strictly increase, so no time step is accepted twice.
   */
  lemma NoStepTwice(start: TotpLock, attempts: seq<TotpAttempt>, max: nat, generate: int -> string, steps: seq<int>)
    requires |steps| == |Accepted(start, attempts, max)|
    requires forall i :: 0 <= i < |steps| ==> generate(steps[i]) == Accepted(start, attempts, max)[i]
    requires forall i :: 0 < i < |steps| ==> steps[i - 1] <= steps[i]
    ensures forall i, j :: 0 <= i < j < |steps| ==> steps[i] < steps[j]
  {
    SuccessiveCodesDiffer(start, attempts, max);
    StrictlyIncreasing(steps);
  }

  lemma {:induction false} StrictlyIncreasing(steps: seq<int>)
    requires forall i :: 0 < i < |steps| ==> steps[i - 1] < steps[i]
    ensures forall i, j :: 0 <= i < j < |steps| ==> steps[i] < steps[j]
  {
    if |steps| > 1 {
      var n := |steps| - 1;
      StrictlyIncreasing(steps[..n]);
      assert forall i :: 0 <= i < n ==> steps[..n][i] == steps[i];
      assert steps[n - 1] < steps[n];
      forall i | 0 <= i < n - 1 ensures steps[i] < steps[n] {
        assert steps[..n][i] < steps[..n][n - 1];
      }
    }
  }

  predicate Open(l: TotpLock, now: Time, max: nat) {
    l.failures < max || (l.lastFailure.Some? && now - l.lastFailure.value >= TOTP_LOCKOUT)
  }

  /**
   The comment in `verify_totp` promises to reject any code already accepted in its window. What is rejected is
   exactly the code accepted last: an earlier one is accepted again once another code came between.
   */
  lemma ReplayRejectedIffLast(start: TotpLock, attempts: seq<TotpAttempt>, max: nat, now: Time, code: string)
    requires code in Accepted(start, attempts, max) && Open(TotpRun(start, attempts, max), now, max)
    ensures var codes := Accepted(start, attempts, max);
            var verdict := TryTotp(TotpRun(start, attempts, max), now, code, true, max).1;
            (verdict == Replayed <==> codes[|codes| - 1] == code) &&
                (verdict == Granted <==> codes[|codes| - 1] != code)
  {
    LastUsedIsLastAccepted(start, attempts, max);
  }

  /** The order a, b, a, for any two codes valid at one moment. */
  lemma AlternatingCodesAllAccepted(start: TotpLock, now: Time, a: string, b: string, max: nat)
    requires max > 0 && start.failures == 0 && a != b && start.lastUsed != Some(a)
    ensures Accepted(start, [TotpAttempt(now, a, true), TotpAttempt(now, b, true), TotpAttempt(now, a, true)], max) ==
             [a, b, a]
  {
    var x, y := TotpAttempt(now, a, true), TotpAttempt(now, b, true);
    assert [x, y, x][..2] == [x, y] && [x, y][..1] == [x] && [x][..0] == [];
    assert Accepted(start, [x], max) == [a];
    assert Accepted(start, [x, y], max) == [a, b];
  }

  // ---------------------------------------------------------------------------
  // Backup codes
  // ---------------------------------------------------------------------------

  /** `list.remove` */
  function RemoveFirst(codes: seq<string>, h: string): (rest: seq<string>)
    requires h in codes
    ensures multiset(rest) + multiset{h} == multiset(codes)
  {
    if codes[0] == h then
      assert codes == [h] + codes[1..];
      codes[1..]
    else
      assert codes == [codes[0]] + codes[1..];
      [codes[0]] + RemoveFirst(codes[1..], h)
  }

  /** `rest` is `codes` without the first copy of h, in the same order. */
  ghost predicate TakesOut(codes: seq<string>, h: string, rest: seq<string>) {
    exists i: nat :: i < |codes| && codes[i] == h && h !in codes[..i] && rest == codes[..i] + codes[i + 1..]
  }

  lemma ConsSplit(first: string, later: seq<string>, k: nat)
    requires k < |later|
    ensures [first] + (later[..k] + later[k + 1..]) == ([first] + later)[..k + 1] + ([first] + later)[k + 2..]
  {
    assert ([first] + later)[..k + 1] == [first] + later[..k];
    assert ([first] + later)[k + 2..] == later[k + 1..];
  }

  lemma {:induction false} FirstTakenOut(codes: seq<string>, h: string) returns (i: nat)
    requires h in codes
    ensures i < |codes| && codes[i] == h && (forall j :: 0 <= j < i ==> codes[j] != h)
    ensures RemoveFirst(codes, h) == codes[..i] + codes[i + 1..]
  {
    if codes[0] == h {
      i := 0;
    } else {
      var first, later := codes[0], codes[1..];
      var k := FirstTakenOut(later, h);
      assert codes == [first] + later;
      ConsSplit(first, later, k);
      i := k + 1;
    }
  }

  datatype Redemption = Redeemed | NoCodes | InvalidCode

  /** `verify_backup_code` on the stored hashes; an empty list is stored as null. */
  function Redeem(stored: Option<seq<string>>, h: string): (Option<seq<string>>, Redemption) {
    if stored.None? || stored.value == [] then (stored, NoCodes)
    else if h !in stored.value then (stored, InvalidCode)
    else
      var rest := RemoveFirst(stored.value, h);
      (if rest == [] then None else Some(rest), Redeemed)
  }

  function Remaining(issued: seq<string>, tries: seq<string>): Option<seq<string>> {
    if tries == [] then Some(issued)
    else Redeem(Remaining(issued, tries[..|tries| - 1]), tries[|tries| - 1]).0
  }

  function Redemptions(issued: seq<string>, tries: seq<string>): seq<string> {
    if tries == [] then []
    else
      var init, h := tries[..|tries| - 1], tries[|tries| - 1];
      Redemptions(issued, init) + (if Redeem(Remaining(issued, init), h).1 == Redeemed then [h] else [])
  }

  function Hashes(stored: Option<seq<string>>): seq<string> {
    if stored.None? then [] else stored.value
  }

  /** A hash is redeemed exactly when it is stored; then its first copy is gone, and otherwise nothing is. */
  lemma RedeemExactly(stored: Option<seq<string>>, h: string)
    ensures var (left, redemption) := Redeem(stored, h);
            && (redemption == Redeemed <==> h in Hashes(stored))
            && (redemption == NoCodes <==> Hashes(stored) == [])
            && (redemption != Redeemed ==> left == stored)
            && (redemption == Redeemed ==> TakesOut(Hashes(stored), h, Hashes(left)) && left != Some([]))
  {
    if h in Hashes(stored) {
      var i := FirstTakenOut(stored.value, h);
    }
  }

  lemma RedeemConserves(stored: Option<seq<string>>, h: string)
    ensures var (left, redemption) := Redeem(stored, h);
            multiset(Hashes(left)) + (if redemption == Redeemed then multiset{h} else multiset{}) ==
                multiset(Hashes(stored))
  {
  }

  lemma {:induction false} HashesConserved(issued: seq<string>, tries: seq<string>)
    ensures multiset(Hashes(Remaining(issued, tries))) + multiset(Redemptions(issued, tries)) == multiset(issued)
  {
    if tries == [] {
    } else {
      var init, h := tries[..|tries| - 1], tries[|tries| - 1];
      HashesConserved(issued, init);
      RedeemConserves(Remaining(issued, init), h);
    }
  }

  /**
   Over any run of redemptions from the issued list, the remaining hashes and the redeemed ones are together
   exactly the issued ones, with multiplicity: their number is conserved and none is redeemed more often
   than it was issued.
   */
  lemma BackupCodesConserved(issued: seq<string>, tries: seq<string>)
    ensures multiset(Hashes(Remaining(issued, tries))) + multiset(Redemptions(issued, tries)) == multiset(issued)
    ensures |Hashes(Remaining(issued, tries))| + |Redemptions(issued, tries)| == |issued|
    ensures forall h :: multiset(Redemptions(issued, tries))[h] <= multiset(issued)[h]
  {
    HashesConserved(issued, tries);
    assert |multiset(Hashes(Remaining(issued, tries))) + multiset(Redemptions(issued, tries))| == |multiset(issued)|;
  }

  /** And a hash is refused exactly when every issued copy of it has been redeemed. */
  lemma RedeemableIffLeft(issued: seq<string>, tries: seq<string>, h: string)
    ensures Redeem(Remaining(issued, tries), h).1 == Redeemed
       <==> multiset(Redemptions(issued, tries))[h] < multiset(issued)[h]
  {
    BackupCodesConserved(issued, tries);
    var left := Hashes(Remaining(issued, tries));
    assert h in left <==> multiset(left)[h] > 0;
  }
}
