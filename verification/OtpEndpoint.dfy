/** `verify_email_otp_endpoint` run by itself, statement by statement, and its place among the interleaved runs. */
module OtpEndpoint {
  import opened Common
  import opened EmailOtp

  datatype Reply = Rejected | MfaRequired | Pending | Complete

  /** The committed rows and the reply of a request that meets no other; `found` is what its select returns. */
  function Serve(rows: map<nat, Row>, users: map<string, User>, email: string, code: string, now: Time,
      found: Option<nat>)
    : (map<nat, Row>, Reply)
    requires found.Some? ==> found.value in rows
  {
    if found.None? then (rows, Rejected) else
    var id, row := found.value, rows[found.value];
    if row.attempts >= MAX_ATTEMPTS then (rows[id := row.(usedAt := Some(now))], Rejected)
    else if row.code != code then (rows[id := row.(attempts := row.attempts + 1)], Rejected)
    else if row.usedAt.Some? || email !in users || !users[email].active then (rows, Rejected)
    else if users[email].mandate && !users[email].enrolled then (rows, MfaRequired)
    else (rows[id := row.(usedAt := Some(now))], if users[email].enrolled then Pending else Complete)
  }

  class OtpTable {
    var rows: map<nat, Row>

    constructor ()
      ensures rows == map[]
    {
      rows := map[];
    }

    /** The session's pending row becomes the committed one only at a commit; rollback drops it. */
    method Verify(users: map<string, User>, email: string, code: string, now: Time,
        found: Option<nat>) returns (reply: Reply)
      requires found.Some? ==> found.value in rows
      modifies this
      ensures (rows, reply) == Serve(old(rows), users, email, code, now, found)
    {
      if found.None? {
        return Rejected;
      }
      var id, row := found.value, rows[found.value];
      var pending := row;
      if row.attempts >= MAX_ATTEMPTS {
        pending := pending.(usedAt := Some(now));
        rows := rows[id := pending];
        return Rejected;
      }
      if row.code != code {
        pending := pending.(attempts := row.attempts + 1);
        rows := rows[id := pending];
        return Rejected;
      }
      var rowCount := 0;
      if pending.usedAt.None? {
        pending, rowCount := pending.(usedAt := Some(now)), 1;
      }
      if rowCount != 1 {
        return Rejected;
      }
      if email !in users || !users[email].active {
        return Rejected;
      }
      if users[email].mandate && !users[email].enrolled {
        return MfaRequired;
      }
      rows := rows[id := pending];
      reply := if users[email].enrolled then Pending else Complete;
    }
  }

  /** The progress value with which the interleaved model records a reply. */
  predicate Answers(p: Progress, reply: Reply) {
    match reply
    case Complete => p.Issued? && p.complete
    case Pending => p.Issued? && !p.complete
    case _ => p == Refused
  }

  /** The steps of a request that nothing interrupts, after its select. */
  function AloneSteps(s: World, r: nat): seq<Step>
    requires r in s.requests
  {
    match s.requests[r].at
    case Burn(_) => [Update(r), CommitUpdate(r)]
    case Count(_, _) => [Update(r), CommitUpdate(r)]
    case Claim(_) =>
      if !UserKnown(s, r) then [Update(r), FindUser(r)] else [Update(r), FindUser(r), CheckTenant(r)]
    case _ => []
  }

  lemma RunTwo(s: World, a: Step, b: Step)
    requires Enabled(s, a) && Enabled(Apply(s, a), b)
    ensures Legal(s, [a, b]) && Run(s, [a, b]) == Apply(Apply(s, a), b)
  {
    assert [a, b][1..] == [b] && [b][1..] == [];
    assert Legal(Apply(Apply(s, a), b), []);
    assert Legal(Apply(s, a), [b]);
    assert Run(Apply(s, a), [b]) == Apply(Apply(s, a), b);
  }

  lemma RunThree(s: World, a: Step, b: Step, c: Step)
    requires Enabled(s, a) && Enabled(Apply(s, a), b) && Enabled(Apply(Apply(s, a), b), c)
    ensures Legal(s, [a, b, c]) && Run(s, [a, b, c]) == Apply(Apply(Apply(s, a), b), c)
  {
    assert [a, b, c][1..] == [b, c];
    RunTwo(Apply(s, a), b, c);
  }

  /** Running `steps` leaves the committed rows and the answer that `outcome` gives. */
  ghost predicate Serves(s: World, r: nat, steps: seq<Step>, outcome: (map<nat, Row>, Reply)) {
    && Legal(s, steps) && r in Run(s, steps).requests
    && Run(s, steps).rows == outcome.0 && Answers(Run(s, steps).requests[r].at, outcome.1)
  }

  lemma UpdateAlone(s: World, r: nat, id: nat)
    requires r in s.requests && s.drafts == map[] && id in s.rows
    requires s.requests[r].at == Burn(id) || s.requests[r].at == Count(id, s.rows[id].attempts + 1)
    requires s.requests[r].at == Decide(s.rows[id], id, s.requests[r].code)
    ensures var q := s.requests[r];
            Serves(s, r, [Update(r), CommitUpdate(r)], Serve(s.rows, s.users, q.email, q.code, q.now, Some(id)))
  {
    RunTwo(s, Update(r), CommitUpdate(r));
  }

  lemma ClaimAlone(s: World, r: nat, id: nat)
    requires r in s.requests && s.drafts == map[] && id in s.rows
    requires s.requests[r].at == Claim(id) == Decide(s.rows[id], id, s.requests[r].code) && s.rows[id].usedAt.None?
    ensures var q := s.requests[r];
            Serves(s, r, AloneSteps(s, r), Serve(s.rows, s.users, q.email, q.code, q.now, Some(id)))
  {
    if UserKnown(s, r) {
      RunThree(s, Update(r), FindUser(r), CheckTenant(r));
    } else {
      RunTwo(s, Update(r), FindUser(r));
    }
  }

  /** The handler by itself is one of the interleaved runs: same rows, same reply. */
  lemma AloneIsARun(s: World, r: nat, found: Option<nat>)
    requires s.drafts == map[] && At(s, r, Arrived) && Selects(s, s.requests[r], found)
    ensures found.Some? ==> found.value in s.rows
    ensures var q, selected := s.requests[r], Apply(s, Select(r, found));
            Serves(selected, r, AloneSteps(selected, r), Serve(s.rows, s.users, q.email, q.code, q.now, found))
  {
    var selected := Apply(s, Select(r, found));
    match selected.requests[r].at
    case Burn(id) => UpdateAlone(selected, r, id);
    case Count(id, _) => UpdateAlone(selected, r, id);
    case Claim(id) => ClaimAlone(selected, r, id);
    case Refused =>
  }

  // ---------------------------------------------------------------------------
  // The attempts counter
  // ---------------------------------------------------------------------------

  /** A request for the row's e-mail address, for which no later code has been sent. */
  datatype Try = Try(code: string, now: Time, users: map<string, User>)

  function Found(row: Row, id: nat, now: Time): Option<nat> {
    if row.usedAt.None? && now < row.expiresAt then Some(id) else None
  }

  /** The row after requests served one at a time. */
  function AfterTries(row: Row, id: nat, tries: seq<Try>): (after: Row)
    ensures after.code == row.code && after.email == row.email && after.expiresAt == row.expiresAt
  {
    if tries == [] then row
    else
      var before, t := AfterTries(row, id, tries[..|tries| - 1]), tries[|tries| - 1];
      Serve(map[id := before], t.users, row.email, t.code, t.now, Found(before, id, t.now)).0[id]
  }

  function ReplyTo(row: Row, id: nat, tries: seq<Try>, t: Try): Reply {
    var before := AfterTries(row, id, tries);
    Serve(map[id := before], t.users, row.email, t.code, t.now, Found(before, id, t.now)).1
  }

  /** Whether the code of t was compared with the row's and found wrong. */
  predicate WrongGuess(row: Row, id: nat, tries: seq<Try>, t: Try) {
    var before := AfterTries(row, id, tries);
    Found(before, id, t.now).Some? && before.attempts < MAX_ATTEMPTS && t.code != row.code
  }

  function WrongGuesses(row: Row, id: nat, tries: seq<Try>): nat {
    if tries == [] then 0
    else
      var init, t := tries[..|tries| - 1], tries[|tries| - 1];
      WrongGuesses(row, id, init) + if WrongGuess(row, id, init, t) then 1 else 0
  }

  lemma {:induction false} CounterCountsGuesses(row: Row, id: nat, tries: seq<Try>)
    requires row.attempts == 0
    ensures AfterTries(row, id, tries).attempts == WrongGuesses(row, id, tries) <= MAX_ATTEMPTS
  {
    if tries == [] {
    } else {
      CounterCountsGuesses(row, id, tries[..|tries| - 1]);
    }
  }

  /**
   Served one at a time, at most five wrong codes are ever compared with a code row; once five have been, not
   even the right code is accepted.
   */
  lemma FiveGuesses(row: Row, id: nat, tries: seq<Try>, t: Try)
    requires row.attempts == 0
    ensures WrongGuesses(row, id, tries) <= MAX_ATTEMPTS
    ensures WrongGuesses(row, id, tries) == MAX_ATTEMPTS ==> ReplyTo(row, id, tries, t) == Rejected
    ensures ReplyTo(row, id, tries, t) in {Pending, Complete} ==> t.code == row.code && t.now < row.expiresAt
  {
    CounterCountsGuesses(row, id, tries);
  }
}
