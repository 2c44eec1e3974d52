/** What each step of an e-mail code request does, and the run of steps behind every issued token. */
module OtpTraces {
  import opened Common
  import opened EmailOtp

  // ---------------------------------------------------------------------------
  // One step
  // ---------------------------------------------------------------------------

  /** Request r gets to p in this step. */
  ghost predicate Reaches(s: World, step: Step, r: nat, p: Progress)
    requires Enabled(s, step)
  {
    !At(s, r, p) && At(Apply(s, step), r, p)
  }

  /** The select decides what becomes of the row: burnt after five counted attempts, else counted or claimed. */
  lemma SelectDecides(s: World, r: nat, found: Option<nat>)
    requires Enabled(s, Select(r, found))
    ensures var s' := Apply(s, Select(r, found));
            && s'.rows == s.rows && s'.drafts == s.drafts && s'.users == s.users
            && (found.None? <==> At(s', r, Refused))
            && forall id :: found == Some(id) ==>
                 && (At(s', r, Burn(id)) <==> s.rows[id].attempts >= 5)
                 && (At(s', r, Count(id, s.rows[id].attempts + 1)) <==>
                       s.rows[id].attempts < 5 && s.requests[r].code != s.rows[id].code)
                 && (At(s', r, Claim(id)) <==> s.rows[id].attempts < 5 && s.requests[r].code == s.rows[id].code)
  {
  }

  /** The select returns the row sent last among the address's unused, unexpired ones. */
  lemma SelectsLatest(s: World, r: nat, found: Option<nat>)
    requires Enabled(s, Select(r, found))
    ensures var live := set id | id in s.rows && s.rows[id].email == s.requests[r].email && s.rows[id].usedAt == None
                                 && s.requests[r].now < s.rows[id].expiresAt;
            if found.None? then live == {}
            else found.value in live && forall id :: id in live ==>
                s.rows[id].createdAt <= s.rows[found.value].createdAt
  {
  }

  /** What an update writes, and that it is what a commit then stores. */
  lemma UpdateThenCommit(s: World, r: nat, id: nat)
    requires Enabled(s, Update(r)) && Target(s.requests[r].at) == Some(id) && !s.requests[r].at.Claim?
    ensures var s' := Apply(s, Update(r));
            && Enabled(s', CommitUpdate(r))
            && var committed := Apply(s', CommitUpdate(r));
               && At(committed, r, Refused)
               && committed.drafts == s.drafts
               && committed.rows == s.rows[id :=
                    match s.requests[r].at
                    case Burn(_) => s.rows[id].(usedAt := Some(s.requests[r].now))
                    case Count(_, n) => s.rows[id].(attempts := n)
                    case _ => s.rows[id]]
  {
  }

  lemma ClaimedIff(s: World, step: Step, r: nat, id: nat)
    requires Inv(s) && Enabled(s, step)
    ensures Reaches(s, step, r, Claimed(id)) <==>
              step == Update(r) && At(s, r, Claim(id)) && s.rows[id].usedAt == None
  {
  }

  /** The claim takes hold of the row exactly if a select found it with the right code and attempts left. */
  lemma ClaimIff(s: World, step: Step, r: nat, id: nat)
    requires Enabled(s, step)
    ensures Reaches(s, step, r, Claim(id)) <==>
              && step == Select(r, Some(id)) && s.rows[id].attempts < 5 && s.requests[r].code == s.rows[id].code
  {
  }

  lemma UserFoundIff(s: World, step: Step, r: nat, id: nat, enrolled: bool)
    requires Enabled(s, step)
    ensures Reaches(s, step, r, UserFound(id, enrolled)) <==>
              && step == FindUser(r) && At(s, r, Claimed(id)) && s.requests[r].email in s.users
              && s.users[s.requests[r].email].active && s.users[s.requests[r].email].enrolled == enrolled
  {
  }

  /** The tenant's mandate, if the user is still there to have one. */
  ghost predicate Mandated(s: World, r: nat)
    requires r in s.requests
  {
    s.requests[r].email in s.users && s.users[s.requests[r].email].mandate
  }

  /**
   A token is issued exactly when the tenant is looked up for a user found before, and does not mandate MFA unless
   the user was found enrolled; it is complete exactly for a user found not enrolled.
   */
  lemma IssuedIff(s: World, step: Step, r: nat, id: nat, complete: bool)
    requires Inv(s) && Enabled(s, step)
    ensures Reaches(s, step, r, Issued(id, complete)) <==>
              && step == CheckTenant(r) && At(s, r, UserFound(id, !complete)) && (Mandated(s, r) ==> !complete)
  {
  }

  /** Then its row is used, from the moment the request arrived. */
  lemma IssueUsesRow(s: World, step: Step, r: nat, id: nat, complete: bool)
    requires Inv(s) && Enabled(s, step) && Reaches(s, step, r, Issued(id, complete))
    ensures var s' := Apply(s, step); id in s'.rows && s'.rows[id].usedAt.Some? && id !in s'.drafts
  {
    assert RequestOk(s, r);
  }

  // ---------------------------------------------------------------------------
  // Runs
  // ---------------------------------------------------------------------------

  /** The world before the k-th step. */
  ghost function Before(s: World, steps: seq<Step>, k: nat): World
    requires Legal(s, steps) && k <= |steps|
    decreases k
  {
    if k == 0 then s else Before(Apply(s, steps[0]), steps[1..], k - 1)
  }

  lemma {:induction false} BeforeNext(s: World, steps: seq<Step>, k: nat)
    requires Legal(s, steps) && k < |steps|
    ensures Enabled(Before(s, steps, k), steps[k])
    ensures Before(s, steps, k + 1) == Apply(Before(s, steps, k), steps[k])
    decreases k
  {
    if k > 0 {
      BeforeNext(Apply(s, steps[0]), steps[1..], k - 1);
    }
  }

  lemma {:induction false} BeforeEnd(s: World, steps: seq<Step>)
    requires Legal(s, steps)
    ensures Before(s, steps, |steps|) == Run(s, steps)
    decreases |steps|
  {
    if steps == [] {
    } else {
      BeforeEnd(Apply(s, steps[0]), steps[1..]);
    }
  }

  lemma {:induction false} BeforeInv(s: World, steps: seq<Step>, k: nat)
    requires Inv(s) && Legal(s, steps) && k <= |steps|
    ensures Inv(Before(s, steps, k))
    decreases k
  {
    if k > 0 {
      BeforeNext(s, steps, k - 1);
      BeforeInv(s, steps, k - 1);
      InvStep(Before(s, steps, k - 1), steps[k - 1]);
    }
  }

  /** Where a request got to where it is. */
  lemma {:induction false} ReachedAt(s: World, steps: seq<Step>, n: nat, r: nat, p: Progress) returns (k: nat)
    requires Legal(s, steps) && n <= |steps| && !At(s, r, p) && At(Before(s, steps, n), r, p)
    ensures k < n && Enabled(Before(s, steps, k), steps[k]) && Reaches(Before(s, steps, k), steps[k], r, p)
    decreases n
  {
    BeforeNext(s, steps, n - 1);
    if At(Before(s, steps, n - 1), r, p) {
      k := ReachedAt(s, steps, n - 1, r, p);
    } else {
      k := n - 1;
    }
  }

  ghost predicate SameRequest(s: World, s': World, r: nat) {
    && r in s.requests && r in s'.requests
    && s'.requests[r].email == s.requests[r].email && s'.requests[r].code == s.requests[r].code
    && s'.requests[r].now == s.requests[r].now
  }

  lemma RequestStep(s: World, step: Step, r: nat)
    requires Enabled(s, step) && r in s.requests
    ensures SameRequest(s, Apply(s, step), r)
  {
  }

  lemma {:induction false} RequestKept(s: World, steps: seq<Step>, j: nat, n: nat, r: nat)
    requires Legal(s, steps) && j <= n <= |steps| && r in Before(s, steps, j).requests
    ensures SameRequest(Before(s, steps, j), Before(s, steps, n), r)
    decreases n
  {
    if j < n {
      RequestKept(s, steps, j, n - 1, r);
      BeforeNext(s, steps, n - 1);
      RequestStep(Before(s, steps, n - 1), steps[n - 1], r);
    }
  }

  /** Request r arrived in step k with the address and code it still has. */
  lemma {:induction false} ArrivedAt(s: World, steps: seq<Step>, n: nat, r: nat) returns (k: nat)
    requires Legal(s, steps) && n <= |steps| && s.requests == map[] && r in Before(s, steps, n).requests
    ensures k < n && var q := Before(s, steps, n).requests[r];
                     steps[k] == Arrive(r, q.email, q.code) && Before(s, steps, k).now == q.now
    decreases n
  {
    BeforeNext(s, steps, n - 1);
    var before := Before(s, steps, n - 1);
    if r in before.requests {
      k := ArrivedAt(s, steps, n - 1, r);
      RequestStep(before, steps[n - 1], r);
    } else {
      k := n - 1;
      assert steps[k].Arrive? && steps[k].r == r;
    }
  }

  /** Row id was sent in step k, 600 seconds before it expires. */
  lemma {:induction false} SentAt(s: World, steps: seq<Step>, n: nat, id: nat) returns (k: nat)
    requires Inv(s) && Legal(s, steps) && n <= |steps| && s.rows == map[] && id in Before(s, steps, n).rows
    ensures k < n && var row := Before(s, steps, n).rows[id];
                     steps[k] == Send(id, row.email, row.code) &&
                         row.expiresAt == Before(s, steps, k).now + 600 * SECOND
    decreases n
  {
    BeforeNext(s, steps, n - 1);
    BeforeInv(s, steps, n - 1);
    var before := Before(s, steps, n - 1);
    StepKeepsRows(before, steps[n - 1]);
    if id in before.rows {
      k := SentAt(s, steps, n - 1, id);
    } else {
      k := n - 1;
      NewRowWasSent(before, steps[k], id);
    }
  }

  lemma NewRowWasSent(s: World, step: Step, id: nat)
    requires Inv(s) && Enabled(s, step) && id !in s.rows && id in Apply(s, step).rows
    ensures step.Send? && step.row == id
    ensures Apply(s, step).rows[id] == Row(step.email, step.code, 0, None, s.now + 600 * SECOND, s.now)
  {
  }

  /**
   Behind every token issued for an e-mail code, however requests interleave: the code was sent to the address less
   than 600 seconds before the request with that address and code arrived; the request selected the row with attempts
   left, claimed it while it was unused, found its user active, and found the mandate met by what it knew of the user's
   enrolment - which also decides whether the token is complete or an mfa_pending one.
   */
  lemma IssueTraced(s: World, steps: seq<Step>, r: nat, id: nat, complete: bool)
    returns (sent: nat, arrived: nat, selected: nat, claimed: nat, found: nat, issued: nat)
    requires Initial(s) && Legal(s, steps) && At(Run(s, steps), r, Issued(id, complete))
    ensures sent < selected && arrived < selected < claimed < found < issued < |steps|
    ensures var q := Run(s, steps).requests[r];
            && steps[sent] == Send(id, q.email, q.code) && steps[arrived] == Arrive(r, q.email, q.code)
            && Before(s, steps, arrived).now < Before(s, steps, sent).now + 600 * SECOND
    ensures var t := Before(s, steps, selected);
            steps[selected] == Select(r, Some(id)) && id in t.rows && t.rows[id].attempts < 5
    ensures var t := Before(s, steps, claimed);
            steps[claimed] == Update(r) && id in t.rows && t.rows[id].usedAt == None
    ensures var t, email := Before(s, steps, found), Run(s, steps).requests[r].email;
            steps[found] == FindUser(r) && email in t.users && t.users[email].active
            && t.users[email].enrolled == !complete
    ensures var t := Before(s, steps, issued);
            steps[issued] == CheckTenant(r) && r in t.requests && (Mandated(t, r) ==> !complete)
  {
    var n := |steps|;
    BeforeEnd(s, steps);
    issued := ReachedAt(s, steps, n, r, Issued(id, complete));
    BeforeInv(s, steps, issued);
    IssuedIff(Before(s, steps, issued), steps[issued], r, id, complete);
    found, claimed, selected := PathToUser(s, steps, issued, r, id, !complete);
    arrived := ArrivedAt(s, steps, selected, r);
    sent := SentAt(s, steps, selected, id);
    RequestKept(s, steps, selected, n, r);
    RequestKept(s, steps, found, n, r);
  }

  lemma PathToUser(s: World, steps: seq<Step>, n: nat, r: nat, id: nat, enrolled: bool)
    returns (found: nat, claimed: nat, selected: nat)
    requires Initial(s) && Legal(s, steps) && n <= |steps| && At(Before(s, steps, n), r, UserFound(id, enrolled))
    ensures selected < claimed < found < n
    ensures var t := Before(s, steps, selected);
            && steps[selected] == Select(r, Some(id)) && r in t.requests && Selectable(t, t.requests[r], id)
            && t.rows[id].attempts < 5 && t.requests[r].code == t.rows[id].code
    ensures var t := Before(s, steps, claimed);
            steps[claimed] == Update(r) && id in t.rows && t.rows[id].usedAt == None
    ensures var t := Before(s, steps, found);
            && steps[found] == FindUser(r) && r in t.requests && t.requests[r].email in t.users
            && t.users[t.requests[r].email].active && t.users[t.requests[r].email].enrolled == enrolled
  {
    found := ReachedAt(s, steps, n, r, UserFound(id, enrolled));
    UserFoundIff(Before(s, steps, found), steps[found], r, id, enrolled);
    claimed := ReachedAt(s, steps, found, r, Claimed(id));
    BeforeInv(s, steps, claimed);
    ClaimedIff(Before(s, steps, claimed), steps[claimed], r, id);
    assert RequestOk(Before(s, steps, claimed), r);
    selected := ReachedAt(s, steps, claimed, r, Claim(id));
    ClaimIff(Before(s, steps, selected), steps[selected], r, id);
  }
}
