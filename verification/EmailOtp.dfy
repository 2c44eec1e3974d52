/**
 E-mail sign-in codes under full interleaving: every await of `verify_email_otp_endpoint` is a step. An UPDATE
 waits while another transaction holds the row and then sees the committed version (READ COMMITTED).
 The select and the claim mean `used_at IS NULL`, as the comment at the claim says.
 */
module EmailOtp {
  import opened Common

  /** `code` stands for the hash of e-mail and code, taken to be injective. */
  datatype Row = Row(
    email: string, code: string, attempts: nat, usedAt: Option<Time>, expiresAt: Time, createdAt: Time)

  /** `mandate` is the require_mfa setting of the user's tenant. */
  datatype User = User(active: bool, enrolled: bool, mandate: bool)

  /**
   Where a request is: before its select, about to execute its one UPDATE, holding the row with an
   uncommitted new version (`guess` when that counts a wrong code), past the user lookup (with the user's TOTP flag
   as read then) while holding it, or answered; `Issued` says whether with a complete token or an mfa_pending one.
   */
  datatype Progress =
    | Arrived
    | Burn(row: nat)
    | Count(row: nat, attempts: nat)
    | Claim(row: nat)
    | Updated(row: nat, guess: bool)
    | Claimed(row: nat)
    | UserFound(row: nat, enrolled: bool)
    | Refused
    | Issued(row: nat, complete: bool)

  /** `now` is read once, when the request arrives. */
  datatype Request = Request(email: string, code: string, now: Time, at: Progress)

  /** An uncommitted version of a row and the request whose transaction holds it. */
  datatype Draft = Draft(holder: nat, row: Row)

  datatype World = World(
    now: Time, rows: map<nat, Row>, drafts: map<nat, Draft>, users: map<string, User>, requests: map<nat, Request>)

  const TTL := 600 * SECOND
  const MAX_ATTEMPTS := 5

  datatype Step =
    | Tick(elapsed: nat)
    | SetUser(email: string, user: User)
    | Send(row: nat, email: string, code: string)
    | Arrive(r: nat, email: string, code: string)
    | Select(r: nat, found: Option<nat>)
    | Update(r: nat)
    | CommitUpdate(r: nat)
    | FindUser(r: nat)
    | CheckTenant(r: nat)
    | Abort(r: nat)

  // ---------------------------------------------------------------------------
  // Steps
  // ---------------------------------------------------------------------------

  predicate Selectable(s: World, q: Request, id: nat) {
    id in s.rows && s.rows[id].email == q.email && s.rows[id].usedAt.None? && q.now < s.rows[id].expiresAt
  }

  /** What the select may return: a most recent row, or nothing if there is none. */
  predicate Selects(s: World, q: Request, found: Option<nat>) {
    match found
    case None => forall id :: id in s.rows ==> !Selectable(s, q, id)
    case Some(id) =>
      Selectable(s, q, id)
      && forall other :: other in s.rows && Selectable(s, q, other) ==> s.rows[other].createdAt <= s.rows[id].createdAt
  }

  predicate At(s: World, r: nat, p: Progress) {
    r in s.requests && s.requests[r].at == p
  }

  function Target(p: Progress): Option<nat> {
    match p
    case Burn(id) => Some(id)
    case Count(id, _) => Some(id)
    case Claim(id) => Some(id)
    case _ => None
  }

  predicate Holding(p: Progress, id: nat) {
    (p.Updated? && p.row == id) || p == Claimed(id) || (p.UserFound? && p.row == id)
  }

  predicate Enabled(s: World, step: Step) {
    match step
    case Tick(_) => true
    case SetUser(_, _) => true
    case Send(id, _, _) => id !in s.rows
    case Arrive(r, _, _) => r !in s.requests
    case Select(r, found) => At(s, r, Arrived) && Selects(s, s.requests[r], found)
    case Update(r) =>
      r in s.requests && Target(s.requests[r].at).Some? && Target(s.requests[r].at).value !in s.drafts
      && Target(s.requests[r].at).value in s.rows
    case CommitUpdate(r) => r in s.requests && s.requests[r].at.Updated? && s.requests[r].at.row in s.drafts
    case FindUser(r) => r in s.requests && s.requests[r].at.Claimed?
    case CheckTenant(r) => r in s.requests && s.requests[r].at.UserFound? && s.requests[r].at.row in s.drafts
    case Abort(r) => r in s.requests && !s.requests[r].at.Issued? && !s.requests[r].at.Refused?
  }

  function Move(s: World, r: nat, p: Progress): World
    requires r in s.requests
  {
    s.(requests := s.requests[r := s.requests[r].(at := p)])
  }

  /** Which UPDATE the selected row calls for. */
  function Decide(row: Row, id: nat, code: string): Progress {
    if row.attempts >= MAX_ATTEMPTS then Burn(id)
    else if row.code != code then Count(id, row.attempts + 1)
    else Claim(id)
  }

  function AfterUpdate(s: World, r: nat): World
    requires Enabled(s, Update(r))
  {
    var q := s.requests[r];
    var id := Target(q.at).value;
    var row := s.rows[id];
    match q.at
    case Burn(_) => Move(s, r, Updated(id, false)).(drafts := s.drafts[id := Draft(r, row.(usedAt := Some(q.now)))])
    case Count(_, n) => Move(s, r, Updated(id, true)).(drafts := s.drafts[id := Draft(r, row.(attempts := n))])
    case Claim(_) =>
      if row.usedAt.Some? then Move(s, r, Refused)
      else Move(s, r, Claimed(id)).(drafts := s.drafts[id := Draft(r, row.(usedAt := Some(q.now)))])
  }

  /** The transaction of request r is rolled back: its draft is gone, the committed row untouched. */
  function RollBack(s: World, r: nat): World
    requires r in s.requests
  {
    Move(s, r, Refused).(drafts := map id | id in s.drafts && s.drafts[id].holder != r :: s.drafts[id])
  }

  function CommitDraft(s: World, r: nat, id: nat, p: Progress): World
    requires r in s.requests && id in s.drafts
  {
    Move(s, r, p).(rows := s.rows[id := s.drafts[id].row], drafts := s.drafts - {id})
  }

  /** Looks up an active user by the request's e-mail address. */
  predicate UserKnown(s: World, r: nat)
    requires r in s.requests
  {
    s.requests[r].email in s.users && s.users[s.requests[r].email].active
  }

  /** The tenant is looked up after the user. */
  predicate MandateUnmet(s: World, r: nat)
    requires r in s.requests && s.requests[r].at.UserFound?
  {
    s.requests[r].email in s.users && s.users[s.requests[r].email].mandate && !s.requests[r].at.enrolled
  }

  function Apply(s: World, step: Step): World
    requires Enabled(s, step)
  {
    match step
    case Tick(d) => s.(now := s.now + d)
    case SetUser(email, user) => s.(users := s.users[email := user])
    case Send(id, email, code) => s.(rows := s.rows[id := Row(email, code, 0, None, s.now + TTL, s.now)])
    case Arrive(r, email, code) => s.(requests := s.requests[r := Request(email, code, s.now, Arrived)])
    case Select(r, found) =>
      Move(s, r, if found.None? then Refused else Decide(s.rows[found.value], found.value, s.requests[r].code))
    case Update(r) => AfterUpdate(s, r)
    case CommitUpdate(r) => CommitDraft(s, r, s.requests[r].at.row, Refused)
    case FindUser(r) =>
      if UserKnown(s, r) then Move(s, r, UserFound(s.requests[r].at.row, s.users[s.requests[r].email].enrolled)) else
          RollBack(s, r)
    case CheckTenant(r) =>
      var p := s.requests[r].at;
      if MandateUnmet(s, r) then RollBack(s, r) else CommitDraft(s, r, p.row, Issued(p.row, !p.enrolled))
    case Abort(r) => RollBack(s, r)
  }

  ghost predicate Legal(s: World, steps: seq<Step>)
    decreases |steps|
  {
    steps == [] || (Enabled(s, steps[0]) && Legal(Apply(s, steps[0]), steps[1..]))
  }

  ghost function Run(s: World, steps: seq<Step>): World
    requires Legal(s, steps)
    decreases |steps|
  {
    if steps == [] then s else Run(Apply(s, steps[0]), steps[1..])
  }

  ghost predicate Initial(s: World) {
    s.rows == map[] && s.drafts == map[] && s.requests == map[]
  }

  // ---------------------------------------------------------------------------
  // Invariant
  // ---------------------------------------------------------------------------

  /** The request's e-mail address and code are those of the row, which had not expired when the request arrived. */
  ghost predicate Matches(s: World, q: Request, id: nat) {
    id in s.rows && s.rows[id].email == q.email && s.rows[id].code == q.code && q.now < s.rows[id].expiresAt
  }

  /** The row for which request r has reached token issuance. */
  function IssuedOn(s: World, r: nat): Option<nat> {
    if r in s.requests && s.requests[r].at.Issued? then Some(s.requests[r].at.row) else None
  }

  ghost predicate RequestOk(s: World, r: nat)
    requires r in s.requests
  {
    var q := s.requests[r];
    match q.at
    case Burn(id) => id in s.rows
    case Count(id, _) => id in s.rows
    case Claim(id) => Matches(s, q, id)
    case Updated(id, _) => id in s.drafts && s.drafts[id].holder == r
    case Claimed(id) => Matches(s, q, id) && id in s.drafts && s.drafts[id].holder == r && s.rows[id].usedAt.None? &&
        s.drafts[id].row.usedAt.Some?
    case UserFound(id, _) => Matches(s, q, id) && id in s.drafts && s.drafts[id].holder == r &&
        s.rows[id].usedAt.None? && s.drafts[id].row.usedAt.Some?
    case Issued(id, _) => Matches(s, q, id) && s.rows[id].usedAt.Some?
    case _ => true
  }

  /** A draft is of an existing row, differs from it only in the counter and in being used, and has one holder. */
  ghost predicate DraftOk(s: World, id: nat)
    requires id in s.drafts
  {
    var d := s.drafts[id];
    && id in s.rows
    && d.row == s.rows[id].(attempts := d.row.attempts, usedAt := d.row.usedAt)
    && (s.rows[id].usedAt.Some? ==> d.row.usedAt.Some?)
    && d.holder in s.requests && Holding(s.requests[d.holder].at, id)
  }

  ghost predicate IssuesUnique(s: World) {
    forall r, q :: IssuedOn(s, r).Some? && IssuedOn(s, r) == IssuedOn(s, q) ==> r == q
  }

  ghost predicate Inv(s: World) {
    && (forall r :: r in s.requests ==> RequestOk(s, r))
    && (forall id :: id in s.drafts ==> DraftOk(s, id))
    && IssuesUnique(s)
  }

  /** From s to s', committed rows are kept, used ones stay used, and only the counter may change otherwise. */
  ghost predicate RowsKept(s: World, s': World) {
    forall id :: id in s.rows ==>
      && id in s'.rows
      && s'.rows[id] == s.rows[id].(attempts := s'.rows[id].attempts, usedAt := s'.rows[id].usedAt)
      && (s.rows[id].usedAt.Some? ==> s'.rows[id].usedAt.Some?)
  }

  lemma StepKeepsRows(s: World, step: Step)
    requires Inv(s) && Enabled(s, step)
    ensures RowsKept(s, Apply(s, step))
  {
    if step.CommitUpdate? || step.CheckTenant? {
      assert DraftOk(s, s.requests[step.r].at.row);
    }
  }

  lemma NoNewIssue(s: World, s': World)
    requires IssuesUnique(s) && forall r :: IssuedOn(s', r).Some? ==> IssuedOn(s', r) == IssuedOn(s, r)
    ensures IssuesUnique(s')
  {
  }

  /**
   A request other than the one stepping is unaffected as long as its row's committed version or its draft is not
   touched.
   */
  lemma RollBackKeepsInv(s: World, r: nat)
    requires Inv(s) && r in s.requests && !s.requests[r].at.Issued?
    ensures Inv(RollBack(s, r))
  {
    var s' := RollBack(s, r);
    forall q | q in s'.requests ensures RequestOk(s', q) {
      assert RequestOk(s, q);
    }
    forall id | id in s'.drafts ensures DraftOk(s', id) {
      assert DraftOk(s, id);
    }
    NoNewIssue(s, s');
  }

  lemma UpdateKeepsRequest(s: World, r: nat, q: nat)
    requires Inv(s) && Enabled(s, Update(r)) && q in s.requests
    ensures RequestOk(AfterUpdate(s, r), q)
  {
    assert RequestOk(s, r) && RequestOk(s, q);
  }

  lemma UpdateKeepsDraft(s: World, r: nat, id: nat)
    requires Inv(s) && Enabled(s, Update(r)) && id in AfterUpdate(s, r).drafts
    ensures DraftOk(AfterUpdate(s, r), id)
  {
    assert RequestOk(s, r) && (id in s.drafts ==> DraftOk(s, id));
  }

  lemma UpdateIssuesNothing(s: World, r: nat)
    requires Inv(s) && Enabled(s, Update(r))
    ensures IssuesUnique(AfterUpdate(s, r))
  {
    NoNewIssue(s, AfterUpdate(s, r));
  }

  lemma UpdateKeepsInv(s: World, r: nat)
    requires Inv(s) && Enabled(s, Update(r))
    ensures Inv(AfterUpdate(s, r))
  {
    var s' := AfterUpdate(s, r);
    assert s'.requests.Keys == s.requests.Keys;
    forall q | q in s'.requests ensures RequestOk(s', q) {
      UpdateKeepsRequest(s, r, q);
    }
    forall id | id in s'.drafts ensures DraftOk(s', id) {
      UpdateKeepsDraft(s, r, id);
    }
    UpdateIssuesNothing(s, r);
  }

  lemma CommitKeepsIssuesUnique(s: World, step: Step)
    requires Inv(s) && Enabled(s, step)
    requires step.CommitUpdate? || (step.CheckTenant? && !MandateUnmet(s, step.r))
    ensures IssuesUnique(Apply(s, step))
  {
    var s', r := Apply(s, step), step.r;
    assert RequestOk(s, r);
    forall a, b | IssuedOn(s', a).Some? && IssuedOn(s', a) == IssuedOn(s', b) ensures a == b {
      assert a != r ==> IssuedOn(s, a) == IssuedOn(s', a) && RequestOk(s, a);
      assert b != r ==> IssuedOn(s, b) == IssuedOn(s', b) && RequestOk(s, b);
    }
  }

  lemma CommitKeepsRequest(s: World, step: Step, q: nat)
    requires Inv(s) && Enabled(s, step) && q in s.requests
    requires step.CommitUpdate? || (step.CheckTenant? && !MandateUnmet(s, step.r))
    ensures RequestOk(Apply(s, step), q)
  {
    assert RequestOk(s, q) && RequestOk(s, step.r) && DraftOk(s, s.requests[step.r].at.row);
  }

  lemma CommitKeepsDraft(s: World, step: Step, id: nat)
    requires Inv(s) && Enabled(s, step) && id in Apply(s, step).drafts
    requires step.CommitUpdate? || (step.CheckTenant? && !MandateUnmet(s, step.r))
    ensures DraftOk(Apply(s, step), id)
  {
  }

  lemma CommitKeepsInv(s: World, step: Step)
    requires Inv(s) && Enabled(s, step)
    requires step.CommitUpdate? || (step.CheckTenant? && !MandateUnmet(s, step.r))
    ensures Inv(Apply(s, step))
  {
    var s' := Apply(s, step);
    assert s'.requests.Keys == s.requests.Keys;
    forall q | q in s'.requests ensures RequestOk(s', q) {
      CommitKeepsRequest(s, step, q);
    }
    forall id | id in s'.drafts ensures DraftOk(s', id) {
      CommitKeepsDraft(s, step, id);
    }
    CommitKeepsIssuesUnique(s, step);
  }

  /** A step that neither updates, commits nor rolls back a row. */
  ghost predicate LeavesRowsAndDrafts(s: World, step: Step)
    requires Enabled(s, step)
  {
    step.Tick? || step.SetUser? || step.Send? || step.Arrive? || step.Select? ||
        (step.FindUser? && UserKnown(s, step.r))
  }

  lemma OtherStepKeepsRequest(s: World, step: Step, q: nat)
    requires Inv(s) && Enabled(s, step) && LeavesRowsAndDrafts(s, step) && q in Apply(s, step).requests
    ensures RequestOk(Apply(s, step), q)
  {
    assert q in s.requests ==> RequestOk(s, q);
  }

  lemma OtherStepKeepsDraft(s: World, step: Step, id: nat)
    requires Inv(s) && Enabled(s, step) && LeavesRowsAndDrafts(s, step) && id in s.drafts
    ensures DraftOk(Apply(s, step), id)
  {
    assert DraftOk(s, id);
  }

  lemma OtherStepKeepsInv(s: World, step: Step)
    requires Inv(s) && Enabled(s, step) && LeavesRowsAndDrafts(s, step)
    ensures Inv(Apply(s, step))
  {
    var s' := Apply(s, step);
    forall q | q in s'.requests ensures RequestOk(s', q) {
      OtherStepKeepsRequest(s, step, q);
    }
    forall id | id in s'.drafts ensures DraftOk(s', id) {
      OtherStepKeepsDraft(s, step, id);
    }
    NoNewIssue(s, s');
  }

  lemma InvStep(s: World, step: Step)
    requires Inv(s) && Enabled(s, step)
    ensures Inv(Apply(s, step))
  {
    if {
      case step.Update? => UpdateKeepsInv(s, step.r);
      case step.CommitUpdate? => CommitKeepsInv(s, step);
      case step.CheckTenant? =>
        if MandateUnmet(s, step.r) {
          RollBackKeepsInv(s, step.r);
        } else {
          CommitKeepsInv(s, step);
        }
      case step.FindUser? =>
        if UserKnown(s, step.r) {
          OtherStepKeepsInv(s, step);
        } else {
          RollBackKeepsInv(s, step.r);
        }
      case step.Abort? => RollBackKeepsInv(s, step.r);
      case step.Tick? || step.SetUser? || step.Send? || step.Arrive? || step.Select? => OtherStepKeepsInv(s, step);
    }
  }

  lemma {:induction false} RunKeeps(s: World, steps: seq<Step>)
    requires Inv(s) && Legal(s, steps)
    ensures Inv(Run(s, steps)) && RowsKept(s, Run(s, steps))
    decreases |steps|
  {
    if steps == [] {
    } else {
      var s' := Apply(s, steps[0]);
      InvStep(s, steps[0]);
      StepKeepsRows(s, steps[0]);
      RunKeeps(s', steps[1..]);
      assert forall id :: id in s.rows ==> id in s'.rows;
    }
  }

  // ---------------------------------------------------------------------------
  // Theorems
  // ---------------------------------------------------------------------------

  /**
   However the requests interleave, at most one ever reaches token issuance for a given code row, and it
   presented that row's e-mail address and code before the row expired.
   */
  lemma AtMostOneIssue(s: World, steps: seq<Step>, r: nat, q: nat)
    requires Initial(s) && Legal(s, steps)
    requires IssuedOn(Run(s, steps), r).Some? && IssuedOn(Run(s, steps), r) == IssuedOn(Run(s, steps), q)
    ensures r == q
    ensures var t := Run(s, steps); Matches(t, t.requests[r], t.requests[r].at.row)
  {
    RunKeeps(s, steps);
    assert RequestOk(Run(s, steps), r);
  }

  /** Once committed, `used_at` is never cleared, and from then on no further request is issued a token for the row. */
  lemma UsedStaysUsed(s: World, before: seq<Step>, after: seq<Step>, id: nat)
    requires Initial(s) && Legal(s, before) && Legal(Run(s, before), after)
    requires id in Run(s, before).rows && Run(s, before).rows[id].usedAt.Some?
    ensures var t := Run(Run(s, before), after); id in t.rows && t.rows[id].usedAt.Some?
    ensures forall r :: IssuedOn(Run(Run(s, before), after), r) == Some(id) ==> IssuedOn(Run(s, before), r) == Some(id)
  {
    RunKeeps(s, before);
    RunKeeps(Run(s, before), after);
    NoLateIssue(Run(s, before), after, id);
  }

  lemma NoIssueOnUsedRow(s: World, step: Step, id: nat, r: nat)
    requires Inv(s) && Enabled(s, step) && id in s.rows && s.rows[id].usedAt.Some?
    requires IssuedOn(Apply(s, step), r) == Some(id)
    ensures IssuedOn(s, r) == Some(id)
  {
    assert r in s.requests ==> RequestOk(s, r);
  }

  lemma {:induction false} NoLateIssue(s: World, steps: seq<Step>, id: nat)
    requires Inv(s) && Legal(s, steps) && id in s.rows && s.rows[id].usedAt.Some?
    ensures forall r :: IssuedOn(Run(s, steps), r) == Some(id) ==> IssuedOn(s, r) == Some(id)
    decreases |steps|
  {
    if steps == [] {
    } else {
      var s' := Apply(s, steps[0]);
      InvStep(s, steps[0]);
      StepKeepsRows(s, steps[0]);
      NoLateIssue(s', steps[1..], id);
      forall r | IssuedOn(s', r) == Some(id) ensures IssuedOn(s, r) == Some(id) {
        NoIssueOnUsedRow(s, steps[0], id, r);
      }
    }
  }

  /** A request that holds a claim on row id gives it up: its user is missing, the mandate is unmet, or it dies. */
  predicate GivesUp(s: World, step: Step, r: nat, id: nat) {
    && r in s.requests && Enabled(s, step)
    && ((step == FindUser(r) && s.requests[r].at == Claimed(id) && !UserKnown(s, r))
        || (step == CheckTenant(r) && s.requests[r].at.UserFound? && s.requests[r].at.row == id && MandateUnmet(s, r))
        || (step == Abort(r) && (s.requests[r].at == Claimed(id) ||
            (s.requests[r].at.UserFound? && s.requests[r].at.row == id))))
  }

  /** A claim that is rolled back changes no row, and leaves its own unused and unheld. */
  lemma RolledBackClaimIsUndone(s: World, steps: seq<Step>, step: Step, r: nat, id: nat)
    requires Initial(s) && Legal(s, steps) && GivesUp(Run(s, steps), step, r, id)
    ensures var t := Apply(Run(s, steps), step);
            t.rows == Run(s, steps).rows && id in t.rows && t.rows[id].usedAt.None? && id !in t.drafts
  {
    RunKeeps(s, steps);
    assert RequestOk(Run(s, steps), r);
  }

  /** A request already waiting to claim the row then succeeds with its next step. */
  lemma RolledBackClaimFreesWaiter(s: World, steps: seq<Step>, step: Step, r: nat, id: nat, other: nat)
    requires Initial(s) && Legal(s, steps) && GivesUp(Run(s, steps), step, r, id)
    requires other != r && At(Run(s, steps), other, Claim(id))
    ensures var t := Apply(Run(s, steps), step);
            Enabled(t, Update(other)) && At(Apply(t, Update(other)), other, Claimed(id))
  {
    RolledBackClaimIsUndone(s, steps, step, r, id);
  }

  /**
   Wherever a row is unheld: a request whose select returns it goes on to claim it exactly for the right code and
   attempts left.
   */
  lemma SelectedRowIsClaimed(s: World, q: nat, id: nat)
    requires At(s, q, Arrived) && Selects(s, s.requests[q], Some(id)) && id !in s.drafts
    ensures var t := Apply(s, Select(q, Some(id)));
            Enabled(t, Update(q))
            && (At(Apply(t, Update(q)), q, Claimed(id)) <==>
                  s.requests[q].code == s.rows[id].code && s.rows[id].attempts < MAX_ATTEMPTS)
  {
  }

  /**
   So a claim that is rolled back leaves the code claimable. After any time and any change to the user - enrolling,
   say - a request that arrives before the code expires, and for which no later code has been sent, claims the
   row if and only if it brings the row's code and attempts are left.
   */
  lemma RolledBackClaimIsClaimable(
    s: World, steps: seq<Step>, step: Step, r: nat, id: nat, elapsed: nat, user: User, q: nat, code: string)
    requires Initial(s) && Legal(s, steps) && GivesUp(Run(s, steps), step, r, id)
    requires var t := Run(s, steps);
             && id in t.rows && q !in t.requests && t.now + elapsed < t.rows[id].expiresAt
             && forall x :: x in t.rows && t.rows[x].email == t.rows[id].email ==>
                 t.rows[x].createdAt <= t.rows[id].createdAt
    ensures var t := Run(s, steps);
            var later := Apply(Apply(Apply(t, step), SetUser(t.rows[id].email, user)), Tick(elapsed));
            var arrived := Apply(later, Arrive(q, t.rows[id].email, code));
            Enabled(arrived, Select(q, Some(id)))
            && var selected := Apply(arrived, Select(q, Some(id)));
               Enabled(selected, Update(q))
               && (At(Apply(selected, Update(q)), q, Claimed(id)) <==>
                     code == t.rows[id].code && t.rows[id].attempts < MAX_ATTEMPTS)
  {
    var t := Run(s, steps);
    RolledBackClaimIsUndone(s, steps, step, r, id);
    var undone := Apply(t, step);
    assert undone.now == t.now && undone.requests.Keys == t.requests.Keys;
    var later := Apply(Apply(undone, SetUser(t.rows[id].email, user)), Tick(elapsed));
    var arrived := Apply(later, Arrive(q, t.rows[id].email, code));
    SelectedRowIsClaimed(arrived, q, id);
  }
}
