/** The wrong-code counter of an e-mail code over interleaved runs. */
module OtpGuesses {
  import opened Common
  import opened EmailOtp

  // ---------------------------------------------------------------------------
  // One counter write
  // ---------------------------------------------------------------------------

  /** The request whose step this is. */
  function Actor(step: Step): Option<nat> {
    match step
    case Tick(_) => None
    case SetUser(_, _) => None
    case Send(_, _, _) => None
    case Arrive(r, _, _) => Some(r)
    case Select(r, _) => Some(r)
    case Update(r) => Some(r)
    case CommitUpdate(r) => Some(r)
    case FindUser(r) => Some(r)
    case CheckTenant(r) => Some(r)
    case Abort(r) => Some(r)
  }

  ghost predicate NoneBy(steps: seq<Step>, r: nat) {
    forall i :: 0 <= i < |steps| ==> Actor(steps[i]) != Some(r)
  }

  /** Request r holds row id with a pending count of n. */
  ghost predicate HoldsCount(s: World, r: nat, id: nat, committed: Row, n: nat) {
    && At(s, r, Updated(id, true))
    && id in s.rows && s.rows[id] == committed
    && id in s.drafts && s.drafts[id] == Draft(r, committed.(attempts := n))
  }

  /** A request that commits or rolls back touches only the row it holds. */
  lemma CommitsOwnRow(s: World, step: Step, r: nat, id: nat)
    requires Inv(s) && id in s.drafts && s.drafts[id].holder == r && Enabled(s, step) && Actor(step) != Some(r)
    requires step.CommitUpdate? || step.CheckTenant?
    ensures s.requests[step.r].at.row != id
  {
    assert RequestOk(s, step.r);
  }

  /** No other request's step touches a row that r holds, its draft, or r itself. */
  lemma HeldRowKept(s: World, step: Step, r: nat, id: nat)
    requires Inv(s) && id in s.drafts && s.drafts[id].holder == r && r in s.requests && id in s.rows
    requires Enabled(s, step) && Actor(step) != Some(r)
    ensures var t := Apply(s, step);
            && id in t.rows && t.rows[id] == s.rows[id] && id in t.drafts && t.drafts[id] == s.drafts[id]
            && r in t.requests && t.requests[r] == s.requests[r]
  {
    if step.CommitUpdate? || step.CheckTenant? {
      CommitsOwnRow(s, step, r, id);
    }
  }

  lemma HoldsCountStep(s: World, step: Step, r: nat, id: nat, committed: Row, n: nat)
    requires HoldsCount(s, r, id, committed, n) && Inv(s) && Enabled(s, step) && Actor(step) != Some(r)
    ensures HoldsCount(Apply(s, step), r, id, committed, n)
  {
    HeldRowKept(s, step, r, id);
  }

  lemma {:induction false} HoldsCountRun(s: World, steps: seq<Step>, r: nat, id: nat, committed: Row, n: nat)
    requires HoldsCount(s, r, id, committed, n) && Inv(s) && Legal(s, steps) && NoneBy(steps, r)
    ensures HoldsCount(Run(s, steps), r, id, committed, n)
    decreases |steps|
  {
    if steps == [] {
    } else {
      assert Actor(steps[0]) != Some(r);
      HoldsCountStep(s, steps[0], r, id, committed, n);
      InvStep(s, steps[0]);
      HoldsCountRun(Apply(s, steps[0]), steps[1..], r, id, committed, n);
    }
  }

  /**
   The counter is written as the value the request read plus one. Whatever other requests do between the UPDATE and
   the commit, the commit adds one to the counter if and only if the value read is still the row's, and lowers the
   counter if and only if the row had moved on by two or more.
   */
  lemma CounterWrite(s: World, before: seq<Step>, between: seq<Step>, r: nat, id: nat, n: nat)
    requires Initial(s) && Legal(s, before)
    requires At(Run(s, before), r, Count(id, n)) && Enabled(Run(s, before), Update(r))
    requires Legal(Apply(Run(s, before), Update(r)), between) && NoneBy(between, r)
    ensures var t, u := Run(s, before), Run(Apply(Run(s, before), Update(r)), between);
            && id in t.rows && Enabled(u, CommitUpdate(r)) && id in Apply(u, CommitUpdate(r)).rows
            && var read, was, now := n - 1, t.rows[id].attempts, Apply(u, CommitUpdate(r)).rows[id].attempts;
               (now == was + 1 <==> read == was) && (now < was <==> read + 2 <= was)
  {
    RunKeeps(s, before);
    var t := Run(s, before);
    InvStep(t, Update(r));
    HoldsCountRun(Apply(t, Update(r)), between, r, id, t.rows[id], n);
  }

  // ---------------------------------------------------------------------------
  // Guesses that do not overlap
  // ---------------------------------------------------------------------------

  /** In this step a request compares its code with row id's and finds it wrong. */
  ghost predicate Guess(s: World, step: Step, id: nat)
    requires Enabled(s, step)
  {
    step.Select? && step.found == Some(id) && Decide(s.rows[id], id, s.requests[step.r].code).Count?
  }

  function One(b: bool): nat {
    if b then 1 else 0
  }

  /** How many wrong codes are compared with row id. */
  ghost function Guesses(s: World, steps: seq<Step>, id: nat): nat
    requires Legal(s, steps)
    decreases |steps|
  {
    if steps == [] then 0 else One(Guess(s, steps[0], id)) + Guesses(Apply(s, steps[0]), steps[1..], id)
  }

  /** Request r has compared a wrong code and not yet committed its count. */
  predicate UnderWay(s: World, r: nat, id: nat) {
    && r in s.requests
    && match s.requests[r].at
       case Count(row, _) => row == id
       case Updated(row, guess) => guess && row == id
       case _ => false
  }

  /** A wrong code is compared only when the counts of earlier ones are committed, and no count is lost to a failure. */
  ghost predicate OneAtATime(s: World, step: Step, id: nat)
    requires Enabled(s, step)
  {
    && (Guess(s, step, id) ==> forall r :: !UnderWay(s, r, id))
    && (step.Abort? ==> !UnderWay(s, step.r, id))
  }

  ghost predicate NoOverlap(s: World, steps: seq<Step>, id: nat)
    requires Legal(s, steps)
    decreases |steps|
  {
    steps == [] || (OneAtATime(s, steps[0], id) && NoOverlap(Apply(s, steps[0]), steps[1..], id))
  }

  /** After g guesses, of which the one by `who`, if any, is under way. */
  ghost predicate Tally(s: World, id: nat, g: nat, who: Option<nat>) {
    && (forall r: nat :: UnderWay(s, r, id) <==> who == Some(r))
    && if id !in s.rows then g == 0
       else
         && s.rows[id].attempts + One(who.Some?) == g <= MAX_ATTEMPTS
         && (who.Some? && s.requests[who.value].at.Count? ==>
             s.requests[who.value].at.attempts == s.rows[id].attempts + 1)
         && (id in s.drafts ==>
             s.drafts[id].row.attempts == s.rows[id].attempts + One(who == Some(s.drafts[id].holder)))
  }

  lemma TallyGuess(s: World, step: Step, id: nat, g: nat)
    requires Inv(s) && Enabled(s, step) && Guess(s, step, id) && Tally(s, id, g, None)
    ensures Tally(Apply(s, step), id, g + 1, Some(step.r))
  {
    assert id in s.drafts ==> DraftOk(s, id);
  }

  /** The same requests are under way after r has moved on without starting or finishing a guess at row id. */
  lemma UnderWayKept(s: World, s': World, r: nat, id: nat)
    requires r in s.requests && s'.requests.Keys == s.requests.Keys
    requires forall q :: q in s.requests && q != r ==> s'.requests[q] == s.requests[q]
    requires UnderWay(s', r, id) <==> UnderWay(s, r, id)
    ensures forall q: nat :: UnderWay(s', q, id) <==> UnderWay(s, q, id)
  {
  }

  /** What an UPDATE by r of the row it targets leaves: no committed row changes, and only that row's draft. */
  lemma UpdateDrafts(s: World, r: nat, id: nat)
    requires Enabled(s, Update(r)) && id in s.rows
    ensures var t, p := AfterUpdate(s, r), s.requests[r].at;
            && t.rows == s.rows
            && (Target(p) != Some(id) ==>
                  (id in t.drafts <==> id in s.drafts) && (id in t.drafts ==> t.drafts[id] == s.drafts[id]))
            && (Target(p) == Some(id) && id in t.drafts ==>
                  && t.drafts[id].holder == r
                  && t.drafts[id].row.attempts == if p.Count? then p.attempts else s.rows[id].attempts)
  {
  }

  lemma TallyUpdate(s: World, r: nat, id: nat, g: nat, who: Option<nat>)
    requires Inv(s) && Enabled(s, Update(r)) && Tally(s, id, g, who)
    ensures Tally(AfterUpdate(s, r), id, g, who)
  {
    assert RequestOk(s, r);
    assert UnderWay(s, r, id) <==> who == Some(r);
    UnderWayKept(s, AfterUpdate(s, r), r, id);
    if id in s.rows {
      UpdateDrafts(s, r, id);
    }
  }

  /** Once r has committed or answered, it is no longer under way. */
  lemma UnderWayDone(s: World, s': World, r: nat, id: nat, who: Option<nat>)
    requires r in s.requests && s'.requests.Keys == s.requests.Keys
    requires forall q :: q in s.requests && q != r ==> s'.requests[q] == s.requests[q]
    requires !UnderWay(s', r, id) && forall q: nat :: UnderWay(s, q, id) <==> who == Some(q)
    ensures var who' := if who == Some(r) then None else who;
            forall q: nat :: UnderWay(s', q, id) <==> who' == Some(q)
  {
  }

  /**
   A commit of another row leaves this one's counter and draft; a commit of this row brings the counter up to the
   draft's.
   */
  lemma CounterCommitted(s: World, r: nat, row: nat, p: Progress, id: nat)
    requires r in s.requests && row in s.drafts && id in s.rows
    ensures var t := CommitDraft(s, r, row, p);
            && id in t.rows
            && (row == id ==> t.rows[id].attempts == s.drafts[id].row.attempts && id !in t.drafts)
            && (row != id ==> t.rows[id] == s.rows[id] && (id in t.drafts <==> id in s.drafts)
                              && (id in t.drafts ==> t.drafts[id] == s.drafts[id]))
  {
  }

  lemma TallyCommitDraft(s: World, r: nat, row: nat, p: Progress, id: nat, g: nat, who: Option<nat>)
    requires r in s.requests && row in s.drafts && s.drafts[row].holder == r && row in s.rows && Tally(s, id, g, who)
    requires p.Refused? || p.Issued?
    requires UnderWay(s, r, id) ==> row == id && !s.requests[r].at.Count?
    ensures Tally(CommitDraft(s, r, row, p), id, g, if who == Some(r) then None else who)
  {
    assert UnderWay(s, r, id) <==> who == Some(r);
    UnderWayDone(s, CommitDraft(s, r, row, p), r, id, who);
    if id in s.rows {
      CounterCommitted(s, r, row, p, id);
    }
  }

  lemma TallyCommit(s: World, step: Step, id: nat, g: nat, who: Option<nat>)
    requires Inv(s) && Enabled(s, step) && Tally(s, id, g, who)
    requires step.CommitUpdate? || (step.CheckTenant? && !MandateUnmet(s, step.r))
    ensures Tally(Apply(s, step), id, g, if who == Some(step.r) then None else who)
  {
    var r := step.r;
    var row := s.requests[r].at.row;
    var p := if step.CommitUpdate? then Refused else Issued(row, !s.requests[r].at.enrolled);
    assert RequestOk(s, r) && DraftOk(s, row);
    TallyCommitDraft(s, r, row, p, id, g, who);
  }

  lemma TallyRollBack(s: World, r: nat, id: nat, g: nat, who: Option<nat>)
    requires Inv(s) && r in s.requests && !UnderWay(s, r, id) && Tally(s, id, g, who)
    ensures Tally(RollBack(s, r), id, g, who)
  {
    assert who != Some(r);
  }

  lemma TallyOther(s: World, step: Step, id: nat, g: nat, who: Option<nat>)
    requires Inv(s) && Enabled(s, step) && Tally(s, id, g, who) && !Guess(s, step, id)
    requires step.Tick? || step.SetUser? || step.Send? || step.Arrive? || step.Select? ||
             (step.FindUser? && UserKnown(s, step.r))
    ensures Tally(Apply(s, step), id, g, who)
  {
    if step.Send? && step.row == id {
      NoneUnderWayOnNoRow(s, id, who);
    }
  }

  lemma WhoIsUnderWay(s: World, id: nat, who: Option<nat>)
    requires forall r: nat :: UnderWay(s, r, id) <==> who == Some(r)
    ensures who.Some? ==> UnderWay(s, who.value, id)
  {
  }

  lemma NoneUnderWayOnNoRow(s: World, id: nat, who: Option<nat>)
    requires Inv(s) && id !in s.rows && forall r: nat :: UnderWay(s, r, id) <==> who == Some(r)
    ensures who == None && id !in s.drafts
  {
    WhoIsUnderWay(s, id, who);
    assert forall r :: UnderWay(s, r, id) ==> RequestOk(s, r);
    assert id in s.drafts ==> DraftOk(s, id);
  }

  lemma TallyStep(s: World, step: Step, id: nat, g: nat, who: Option<nat>) returns (who': Option<nat>)
    requires Inv(s) && Enabled(s, step) && Tally(s, id, g, who) && OneAtATime(s, step, id)
    ensures Tally(Apply(s, step), id, g + One(Guess(s, step, id)), who')
  {
    who' := who;
    if Guess(s, step, id) {
      WhoIsUnderWay(s, id, who);
      TallyGuess(s, step, id, g);
      who' := Some(step.r);
    } else if step.Update? {
      TallyUpdate(s, step.r, id, g, who);
    } else if step.CommitUpdate? || (step.CheckTenant? && !MandateUnmet(s, step.r)) {
      TallyCommit(s, step, id, g, who);
      who' := if who == Some(step.r) then None else who;
    } else if step.CheckTenant? || (step.FindUser? && !UserKnown(s, step.r)) || step.Abort? {
      TallyRollBack(s, step.r, id, g, who);
    } else {
      TallyOther(s, step, id, g, who);
    }
  }

  lemma {:induction false} TallyRun(s: World, steps: seq<Step>, id: nat, g: nat,
      who: Option<nat>) returns (who': Option<nat>)
    requires Inv(s) && Legal(s, steps) && Tally(s, id, g, who) && NoOverlap(s, steps, id)
    ensures Tally(Run(s, steps), id, g + Guesses(s, steps, id), who')
    decreases |steps|
  {
    if steps == [] {
      who' := who;
    } else {
      var next := TallyStep(s, steps[0], id, g, who);
      InvStep(s, steps[0]);
      who' := TallyRun(Apply(s, steps[0]), steps[1..], id, g + One(Guess(s, steps[0], id)), next);
    }
  }

  /**
   In every interleaved run in which no two wrong guesses at a row overlap and no count is lost to a failure, at
   most five wrong codes are compared with it. After five, once the last is counted, no code is accepted any more.
   */
  lemma FiveGuessesWithoutOverlap(s: World, steps: seq<Step>, id: nat)
    requires Initial(s) && Legal(s, steps) && NoOverlap(s, steps, id)
    ensures Guesses(s, steps, id) <= MAX_ATTEMPTS
    ensures var t := Run(s, steps);
            Guesses(s, steps, id) == MAX_ATTEMPTS && (forall r :: !UnderWay(t, r, id)) ==>
              id in t.rows && forall code :: Decide(t.rows[id], id, code) == Burn(id)
  {
    var who := TallyRun(s, steps, id, 0, None);
    WhoIsUnderWay(Run(s, steps), id, who);
  }

  // ---------------------------------------------------------------------------
  // Guesses that overlap
  // ---------------------------------------------------------------------------

  /** One unused code, for a row that nobody holds, sent at time 0. */
  function Sent(email: string, code: string): World {
    World(0, map[0 := Row(email, code, 0, None, TTL, 0)], map[], map[], map[])
  }

  /** Requests first .. first + n arrive and compare, none of them writing its count yet. */
  function ArriveAndCompare(email: string, wrong: string, first: nat, n: nat): seq<Step>
    decreases n
  {
    if n == 0 then []
    else [Arrive(first, email, wrong)] + ([Select(first, Some(0))] + ArriveAndCompare(email, wrong, first + 1, n - 1))
  }

  /** The one row is unused, unheld and has attempts left, and no request numbered `first` or higher has arrived. */
  ghost predicate OpenToGuesses(s: World, email: string, code: string, first: nat) {
    && s.rows.Keys == {0} && s.drafts == map[] && s.now < s.rows[0].expiresAt
    && s.rows[0].email == email && s.rows[0].code == code && s.rows[0].usedAt.None? && s.rows[0].attempts < MAX_ATTEMPTS
    && forall r :: r in s.requests ==> r < first
  }

  lemma CompareOne(s: World, email: string, code: string, wrong: string, first: nat)
    requires wrong != code && OpenToGuesses(s, email, code, first)
    ensures Enabled(s, Arrive(first, email, wrong))
    ensures var arrived := Apply(s, Arrive(first, email, wrong));
            && Enabled(arrived, Select(first, Some(0))) && Guess(arrived, Select(first, Some(0)), 0)
            && Apply(arrived, Select(first, Some(0)))
               == s.(requests := s.requests[first := Request(email, wrong, s.now, Count(0, s.rows[0].attempts + 1))])
  {
    var arrived := Apply(s, Arrive(first, email, wrong));
    assert arrived.requests[first] == Request(email, wrong, s.now, Arrived);
  }

  lemma GuessesCons(s: World, step: Step, rest: seq<Step>, id: nat)
    requires Enabled(s, step) && Legal(Apply(s, step), rest)
    ensures Legal(s, [step] + rest) && Run(s, [step] + rest) == Run(Apply(s, step), rest)
    ensures Guesses(s, [step] + rest, id) == One(Guess(s, step, id)) + Guesses(Apply(s, step), rest, id)
  {
    assert ([step] + rest)[1..] == rest;
  }

  lemma {:induction false} CompareMany(s: World, email: string, code: string, wrong: string, first: nat, n: nat)
    requires wrong != code && OpenToGuesses(s, email, code, first)
    ensures Legal(s, ArriveAndCompare(email, wrong, first, n))
    ensures Guesses(s, ArriveAndCompare(email, wrong, first, n), 0) == n
    decreases n
  {
    if n == 0 {
    } else {
      var arrive, select := Arrive(first, email, wrong), Select(first, Some(0));
      var rest := ArriveAndCompare(email, wrong, first + 1, n - 1);
      CompareOne(s, email, code, wrong, first);
      var s1 := Apply(s, arrive);
      var s2 := Apply(s1, select);
      CompareMany(s2, email, code, wrong, first + 1, n - 1);
      GuessesCons(s1, select, rest, 0);
      GuessesCons(s, arrive, [select] + rest, 0);
    }
  }

  /**
   Overlapping requests escape the limit altogether: for every n there is a run that compares n wrong codes with one
   row.
   */
  lemma AnyNumberOfGuesses(email: string, code: string, wrong: string, n: nat)
    requires wrong != code
    ensures exists s, steps :: Initial(s) && Legal(s, steps) && Guesses(s, steps, 0) == n
  {
    var s := World(0, map[], map[], map[], map[]);
    assert Apply(s, Send(0, email, code)) == Sent(email, code);
    CompareMany(Sent(email, code), email, code, wrong, 0, n);
    GuessesCons(s, Send(0, email, code), ArriveAndCompare(email, wrong, 0, n), 0);
  }

  // ---------------------------------------------------------------------------
  // A stale count
  // ---------------------------------------------------------------------------

  /** Requests first .. first + n guess wrong one after the other. */
  function GuessInTurn(email: string, wrong: string, first: nat, n: nat): seq<Step>
    decreases n
  {
    if n == 0 then [] else GuessThen(email, wrong, first, GuessInTurn(email, wrong, first + 1, n - 1))
  }

  /** One whole wrong guess by request r, and then `rest`. */
  function GuessThen(email: string, wrong: string, r: nat, rest: seq<Step>): seq<Step> {
    [Arrive(r, email, wrong)] + ([Select(r, Some(0))] + ([Update(r)] + ([CommitUpdate(r)] + rest)))
  }

  /** The world after it. */
  function Counted(s: World, email: string, wrong: string, r: nat): World
    requires 0 in s.rows
  {
    s.(rows := s.rows[0 := s.rows[0].(attempts := s.rows[0].attempts + 1)],
       requests := s.requests[r := Request(email, wrong, s.now, Refused)])
  }

  /** The world once request r has compared. */
  function Compared(s: World, email: string, wrong: string, r: nat): World
    requires 0 in s.rows
  {
    s.(requests := s.requests[r := Request(email, wrong, s.now, Count(0, s.rows[0].attempts + 1))])
  }

  lemma CountOne(s: World, email: string, code: string, wrong: string, r: nat)
    requires wrong != code && OpenToGuesses(s, email, code, r)
    ensures var compared := Compared(s, email, wrong, r);
            && Enabled(compared, Update(r)) && Enabled(Apply(compared, Update(r)), CommitUpdate(r))
            && Apply(Apply(compared, Update(r)), CommitUpdate(r)) == Counted(s, email, wrong, r)
  {
    var compared := Compared(s, email, wrong, r);
    var updated := Apply(compared, Update(r));
    var t := Apply(updated, CommitUpdate(r));
    assert t.drafts == map[];
    assert t.rows == Counted(s, email, wrong, r).rows;
    assert t.requests == Counted(s, email, wrong, r).requests;
  }

  lemma CountThenRun(s: World, email: string, code: string, wrong: string, r: nat, rest: seq<Step>)
    requires wrong != code && OpenToGuesses(s, email, code, r) && Legal(Counted(s, email, wrong, r), rest)
    ensures var steps := [Update(r)] + ([CommitUpdate(r)] + rest);
            && Legal(Compared(s, email, wrong, r), steps)
            && Run(Compared(s, email, wrong, r), steps) == Run(Counted(s, email, wrong, r), rest)
  {
    CountOne(s, email, code, wrong, r);
    var compared := Compared(s, email, wrong, r);
    GuessesCons(Apply(compared, Update(r)), CommitUpdate(r), rest, 0);
    GuessesCons(compared, Update(r), [CommitUpdate(r)] + rest, 0);
  }

  lemma CompareThenRun(s: World, email: string, code: string, wrong: string, r: nat, rest: seq<Step>)
    requires wrong != code && OpenToGuesses(s, email, code, r) && Legal(Compared(s, email, wrong, r), rest)
    ensures var steps := [Arrive(r, email, wrong)] + ([Select(r, Some(0))] + rest);
            Legal(s, steps) && Run(s, steps) == Run(Compared(s, email, wrong, r), rest)
  {
    CompareOne(s, email, code, wrong, r);
    GuessesCons(Apply(s, Arrive(r, email, wrong)), Select(r, Some(0)), rest, 0);
    GuessesCons(s, Arrive(r, email, wrong), [Select(r, Some(0))] + rest, 0);
  }

  lemma GuessThenRun(s: World, email: string, code: string, wrong: string, r: nat, rest: seq<Step>)
    requires wrong != code && OpenToGuesses(s, email, code, r) && Legal(Counted(s, email, wrong, r), rest)
    ensures Legal(s, GuessThen(email, wrong, r, rest))
    ensures Run(s, GuessThen(email, wrong, r, rest)) == Run(Counted(s, email, wrong, r), rest)
  {
    CountThenRun(s, email, code, wrong, r, rest);
    CompareThenRun(s, email, code, wrong, r, [Update(r)] + ([CommitUpdate(r)] + rest));
  }

  lemma CountedStillOpen(s: World, email: string, code: string, wrong: string, r: nat)
    requires OpenToGuesses(s, email, code, r) && s.rows[0].attempts + 1 < MAX_ATTEMPTS
    ensures OpenToGuesses(Counted(s, email, wrong, r), email, code, r + 1)
  {
  }

  /** Counting n wrong codes one after the other adds n to the counter and leaves request `other` where it was. */
  lemma {:induction false} CountMany(s: World, email: string, code: string, wrong: string, first: nat, n: nat,
      other: nat)
    requires wrong != code && OpenToGuesses(s, email, code, first) && s.rows[0].attempts + n <= MAX_ATTEMPTS
    requires other in s.requests
    ensures Legal(s, GuessInTurn(email, wrong, first, n))
    ensures var t := Run(s, GuessInTurn(email, wrong, first, n));
            && 0 in t.rows && t.rows[0].attempts == s.rows[0].attempts + n && t.drafts == map[]
            && other in t.requests && t.requests[other] == s.requests[other]
    decreases n
  {
    if n == 0 {
    } else {
      var t, rest := Counted(s, email, wrong, first), GuessInTurn(email, wrong, first + 1, n - 1);
      if n > 1 {
        CountedStillOpen(s, email, code, wrong, first);
        CountMany(t, email, code, wrong, first + 1, n - 1, other);
      }
      GuessThenRun(s, email, code, wrong, first, rest);
    }
  }

  lemma SentReachable(email: string, code: string, rest: seq<Step>)
    requires Legal(Sent(email, code), rest)
    ensures exists s, steps :: Initial(s) && Legal(s, steps) && Run(s, steps) == Run(Sent(email, code), rest)
  {
    var s0 := World(0, map[], map[], map[], map[]);
    assert Apply(s0, Send(0, email, code)) == Sent(email, code);
    GuessesCons(s0, Send(0, email, code), rest, 0);
  }

  lemma WaitingCount(email: string, code: string, wrong: string, n: nat) returns (steps: seq<Step>)
    requires wrong != code && n < MAX_ATTEMPTS
    ensures Legal(Sent(email, code), steps)
    ensures var t := Run(Sent(email, code), steps);
            0 in t.rows && t.rows[0].attempts == n && t.drafts == map[] && At(t, 0, Count(0, 1))
  {
    var s, rest := Sent(email, code), GuessInTurn(email, wrong, 1, n);
    var compared := Compared(s, email, wrong, 0);
    CountMany(compared, email, code, wrong, 1, n, 0);
    assert At(compared, 0, Count(0, 1));
    CompareThenRun(s, email, code, wrong, 0, rest);
    steps := [Arrive(0, email, wrong)] + ([Select(0, Some(0))] + rest);
  }

  /**
   From an empty table: a request compares and waits, up to four more wrong codes are counted, and the late write
   puts the counter back to one.
   */
  lemma StaleCountLowers(email: string, code: string, wrong: string, n: nat)
    requires wrong != code && n < MAX_ATTEMPTS
    ensures exists s, steps ::
              && Initial(s) && Legal(s, steps)
              && var t := Run(s, steps);
                 && 0 in t.rows && t.rows[0].attempts == n
                 && Enabled(t, Update(0)) && Enabled(Apply(t, Update(0)), CommitUpdate(0))
                 && 0 in Apply(Apply(t, Update(0)), CommitUpdate(0)).rows
                 && Apply(Apply(t, Update(0)), CommitUpdate(0)).rows[0].attempts == 1
  {
    var steps := WaitingCount(email, code, wrong, n);
    SentReachable(email, code, steps);
  }

  // ---------------------------------------------------------------------------
  // When the limit is reached for good
  // ---------------------------------------------------------------------------

  /** The row is unused, unexpired and unheld, and no later code has been sent to its address. */
  ghost predicate Live(s: World, id: nat) {
    && id in s.rows && s.rows[id].usedAt.None? && s.now < s.rows[id].expiresAt && id !in s.drafts
    && forall x :: x in s.rows && s.rows[x].email == s.rows[id].email ==> s.rows[x].createdAt <= s.rows[id].createdAt
  }

  /** The counter has reached the limit, and so has every count on its way. */
  ghost predicate Exhausted(s: World, id: nat) {
    && id in s.rows && s.rows[id].attempts >= MAX_ATTEMPTS
    && (id in s.drafts ==> s.drafts[id].row.attempts >= MAX_ATTEMPTS)
    && forall r :: r in s.requests && s.requests[r].at.Count? && s.requests[r].at.row == id ==>
         s.requests[r].at.attempts >= MAX_ATTEMPTS
  }

  lemma ExhaustedStep(s: World, step: Step, id: nat)
    requires Exhausted(s, id) && Enabled(s, step)
    ensures Exhausted(Apply(s, step), id) && !Guess(s, step, id)
  {
  }

  lemma {:induction false} ExhaustedRun(s: World, steps: seq<Step>, id: nat)
    requires Exhausted(s, id) && Legal(s, steps)
    ensures Guesses(s, steps, id) == 0
    decreases |steps|
  {
    if steps == [] {
    } else {
      ExhaustedStep(s, steps[0], id);
      ExhaustedRun(Apply(s, steps[0]), steps[1..], id);
    }
  }

  lemma {:induction false} AboveAll(numbers: set<nat>) returns (n: nat)
    ensures forall x :: x in numbers ==> x < n
    decreases |numbers|
  {
    n := 0;
    if numbers == {} {
    } else {
      var some: nat :| some in numbers;
      n := AboveAll(numbers - {some});
      n := Max(n, some + 1);
      assert forall x :: x in numbers ==> x == some || x in numbers - {some};
    }
  }

  lemma GuessNow(s: World, id: nat) returns (steps: seq<Step>)
    requires Live(s, id) && s.rows[id].attempts < MAX_ATTEMPTS
    ensures Legal(s, steps) && Guesses(s, steps, id) > 0
  {
    var r := AboveAll(s.requests.Keys);
    var row := s.rows[id];
    var arrive, select := Arrive(r, row.email, row.code + "0"), Select(r, Some(id));
    var arrived := Apply(s, arrive);
    assert row.code != row.code + "0";
    assert Enabled(arrived, select) && Guess(arrived, select, id);
    GuessesCons(arrived, select, [], id);
    steps := [select] + [];
    GuessesCons(s, arrive, steps, id);
    steps := [arrive] + steps;
  }

  /** A late count below the limit reopens the row. */
  lemma GuessAfterLateCount(s: World, id: nat, r: nat) returns (steps: seq<Step>)
    requires Live(s, id) && r in s.requests && s.requests[r].at.Count? && s.requests[r].at.row == id
    requires s.requests[r].at.attempts < MAX_ATTEMPTS
    ensures Legal(s, steps) && Guesses(s, steps, id) > 0
  {
    var s1 := Apply(s, Update(r));
    var s2 := Apply(s1, CommitUpdate(r));
    assert s2.rows[id] == s.rows[id].(attempts := s.requests[r].at.attempts);
    steps := GuessNow(s2, id);
    GuessesCons(s1, CommitUpdate(r), steps, id);
    steps := [CommitUpdate(r)] + steps;
    GuessesCons(s, Update(r), steps, id);
    steps := [Update(r)] + steps;
  }

  /**
   Exactly: no further wrong code can be compared with a live row, whatever happens, if and only if its counter
   has reached five and no count below five is still on its way.
   */
  lemma LimitHoldsIff(s: World, id: nat)
    requires Live(s, id)
    ensures (forall steps :: Legal(s, steps) ==> Guesses(s, steps, id) == 0) <==> Exhausted(s, id)
  {
    if Exhausted(s, id) {
      forall steps | Legal(s, steps) ensures Guesses(s, steps, id) == 0 {
        ExhaustedRun(s, steps, id);
      }
    } else if s.rows[id].attempts < MAX_ATTEMPTS {
      var steps := GuessNow(s, id);
    } else {
      var r :| r in s.requests && s.requests[r].at.Count? && s.requests[r].at.row == id
               && s.requests[r].at.attempts < MAX_ATTEMPTS;
      var steps := GuessAfterLateCount(s, id, r);
    }
  }
}
