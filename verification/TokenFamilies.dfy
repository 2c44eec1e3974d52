/** Serialised runs of the OAuth server: rotation chains, replay detection and single use. */
module TokenFamilies {
  import opened Common
  import opened OAuthStore

  /** One request, or one change made elsewhere in the program to the tables it reads. */
  datatype Step =
    | Authorize(req: AuthRequest, code: string)
    | Consent(req: AuthRequest, code: string)
    | RedeemCode(codeReq: CodeRequest, draw: Draw)
    | Refresh(refreshReq: RefreshRequest, draw: Draw)
    | RevokeToken(token: string, jti: Option<string>)
    | EndSession(id: nat, userId: string, jti: Option<string>)
    | EndAllSessions(userId: string, jtis: set<string>)
    | SetClient(clientId: string, client: Client)
    | SetUser(userId: string, active: bool)
    | PruneBlacklist(expired: set<string>)

  datatype Timed = Timed(now: Time, step: Step)

  function Serve(s: Store, t: Timed): (Store, Outcome) {
    match t.step
    case Authorize(req, code) => IssueCode(s, AuthorizeRefusal(s, req), req, code, t.now)
    case Consent(req, code) => IssueCode(s, ConsentRefusal(s, req), req, code, t.now)
    case RedeemCode(req, draw) => CodeGrant(s, req, draw, t.now)
    case Refresh(req, draw) => RefreshGrant(s, req, draw, t.now)
    case RevokeToken(token, jti) => Revoke(s, token, jti)
    case EndSession(id, userId, jti) => RevokeSession(s, id, userId, jti)
    case EndAllSessions(userId, jtis) => RevokeAllSessions(s, userId, jtis)
    case SetClient(id, client) => (s.(clients := s.clients[id := client]), Ok(Done))
    case SetUser(id, active) => (s.(users := s.users[id := active]), Ok(Done))
    case PruneBlacklist(expired) => (s.(blacklist := s.blacklist - expired), Ok(Done))
  }

  function After(s: Store, t: Timed): Store {
    Serve(s, t).0
  }

  /** Random values do not repeat. */
  ghost predicate NewDraw(s: Store, d: Draw) {
    && d.access != d.refresh
    && forall i :: 0 <= i < |s.rows| ==>
         && s.rows[i].access != d.access && s.rows[i].access != d.refresh
         && s.rows[i].refresh != Some(d.access) && s.rows[i].refresh != Some(d.refresh)
         && s.rows[i].family != Some(d.family)
  }

  ghost predicate Possible(s: Store, t: Timed) {
    match t.step
    case Authorize(_, code) => code !in s.codes
    case Consent(_, code) => code !in s.codes
    case RedeemCode(_, draw) => NewDraw(s, draw)
    case Refresh(_, draw) => NewDraw(s, draw)
    case _ => true
  }

  ghost predicate Legal(s: Store, run: seq<Timed>)
    decreases |run|
  {
    run == [] || (Possible(s, run[0]) && Legal(After(s, run[0]), run[1..]))
  }

  function Run(s: Store, run: seq<Timed>): Store
    decreases |run|
  {
    if run == [] then s else Run(After(s, run[0]), run[1..])
  }

  ghost predicate Initial(s: Store) {
    s.codes == map[] && s.rows == []
  }

  // ---------------------------------------------------------------------------
  // The chain invariant
  // ---------------------------------------------------------------------------

  ghost predicate Distinct(rows: seq<Row>) {
    forall i, j :: 0 <= i < j < |rows| ==>
      && rows[i].access != rows[j].access
      && (rows[i].refresh.Some? ==> rows[i].refresh != rows[j].refresh)
      && rows[i].refresh != Some(rows[j].access) && rows[j].refresh != Some(rows[i].access)
  }

  ghost predicate SameGrant(r: Row, clientId: string, userId: string, scope: string) {
    r.clientId == clientId && r.userId == userId && r.scope == scope
  }

  /** Row k's parent is the row of its family just before it, is revoked, and has the same client, user and scope. */
  ghost predicate LinkedToParent(rows: seq<Row>, k: nat, p: nat)
    requires k < |rows|
  {
    && p < k && rows[p].revoked
    && rows[k].family.Some? && rows[p].family == rows[k].family
    && SameGrant(rows[k], rows[p].clientId, rows[p].userId, rows[p].scope)
    && forall q :: p < q < k ==> rows[q].family != rows[k].family
  }

  /** Row k opens its family, and comes from a used code with its client, user and scope that gave no other row. */
  ghost predicate LinkedToCode(s: Store, k: nat, code: string)
    requires k < |s.rows|
  {
    && code in s.codes && s.codes[code].used
    && SameGrant(s.rows[k], s.codes[code].clientId, s.codes[code].userId, s.codes[code].scope)
    && (forall q :: 0 <= q < k ==> s.rows[q].origin != FromCode(code))
    && (s.rows[k].family.Some? ==> forall q :: 0 <= q < k ==> s.rows[q].family != s.rows[k].family)
  }

  ghost predicate Linked(s: Store, k: nat)
    requires k < |s.rows|
  {
    match s.rows[k].origin
    case FromCode(code) => LinkedToCode(s, k, code)
    case FromRow(p) => LinkedToParent(s.rows, k, p)
  }

  /** Only the newest row of a family can be unrevoked. */
  ghost predicate OnlyNewestLive(rows: seq<Row>) {
    forall i, j :: 0 <= i < j < |rows| && rows[i].family.Some? && rows[i].family == rows[j].family ==> rows[i].revoked
  }

  ghost predicate Inv(s: Store) {
    && Distinct(s.rows)
    && (forall k :: 0 <= k < |s.rows| ==> s.rows[k].refresh.Some? == s.rows[k].family.Some?)
    && (forall k :: 0 <= k < |s.rows| ==> Linked(s, k))
    && OnlyNewestLive(s.rows)
  }

  ghost predicate RowsGrow(rows: seq<Row>, rows': seq<Row>) {
    && |rows| <= |rows'|
    && forall i :: 0 <= i < |rows| ==> rows'[i] == rows[i].(revoked := rows'[i].revoked)
                                        && (rows[i].revoked ==> rows'[i].revoked)
  }

  ghost predicate CodesGrow(codes: map<string, Code>, codes': map<string, Code>) {
    forall c :: c in codes ==> c in codes' && codes'[c] == codes[c].(used := codes'[c].used)
                                && (codes[c].used ==> codes'[c].used)
  }

  /** Nothing is ever un-revoked, un-used, altered or removed. */
  ghost predicate Grows(s: Store, s': Store) {
    RowsGrow(s.rows, s'.rows) && CodesGrow(s.codes, s'.codes)
  }

  lemma GrowsTransitive(a: Store, b: Store, c: Store)
    requires Grows(a, b) && Grows(b, c)
    ensures Grows(a, c)
  {
  }

  lemma CodeGrantGrows(s: Store, req: CodeRequest, draw: Draw, now: Time)
    ensures Grows(s, CodeGrant(s, req, draw, now).0)
  {
  }

  lemma KillFamilyGrows(s: Store, i: nat)
    requires i < |s.rows|
    ensures Grows(s, KillFamily(s, i))
  {
  }

  lemma RotationGrows(s: Store, i: nat, row: Row)
    requires i < |s.rows|
    ensures Grows(s, s.(rows := RevokeAt(s.rows, i) + [row]))
  {
  }

  lemma RefreshGrantGrows(s: Store, req: RefreshRequest, draw: Draw, now: Time)
    ensures Grows(s, RefreshGrant(s, req, draw, now).0)
  {
    if RefreshGrant(s, req, draw, now).0 != s {
      var i := Presented(s, req).value;
      KillFamilyGrows(s, i);
      RotationGrows(s, i, Rotated(s, i, draw, now));
    }
  }

  lemma RevokeTokenGrows(s: Store, token: string, jti: Option<string>)
    ensures Grows(s, Revoke(s, token, jti).0)
  {
  }

  lemma RevokeSessionGrows(s: Store, id: nat, userId: string, jti: Option<string>)
    ensures Grows(s, RevokeSession(s, id, userId, jti).0)
  {
  }

  lemma RevokeAllSessionsGrows(s: Store, userId: string, jtis: set<string>)
    ensures Grows(s, RevokeAllSessions(s, userId, jtis).0)
  {
  }

  lemma StepGrows(s: Store, t: Timed)
    requires Possible(s, t)
    ensures Grows(s, After(s, t))
  {
    if {
      case t.step.RedeemCode? => CodeGrantGrows(s, t.step.codeReq, t.step.draw, t.now);
      case t.step.Refresh? => RefreshGrantGrows(s, t.step.refreshReq, t.step.draw, t.now);
      case t.step.RevokeToken? => RevokeTokenGrows(s, t.step.token, t.step.jti);
      case t.step.EndSession? => RevokeSessionGrows(s, t.step.id, t.step.userId, t.step.jti);
      case t.step.EndAllSessions? => RevokeAllSessionsGrows(s, t.step.userId, t.step.jtis);
      case t.step.Authorize? || t.step.Consent? => assert After(s, t).rows == s.rows;
      case t.step.SetClient? || t.step.SetUser? || t.step.PruneBlacklist? =>
    }
  }

  /** Revoking rows, using codes and adding codes keep the invariant. */
  lemma InvUnderRevocation(s: Store, s': Store)
    requires Inv(s) && Grows(s, s') && |s'.rows| == |s.rows|
    ensures Inv(s')
  {
    forall k | 0 <= k < |s'.rows| ensures Linked(s', k) {
      assert Linked(s, k);
    }
  }

  /** Appending one correctly linked row with new tokens keeps the invariant. */
  lemma InvUnderAppend(s: Store, row: Row)
    requires Inv(s)
    requires row.refresh.Some? == row.family.Some? && !row.revoked
    requires forall i :: 0 <= i < |s.rows| ==>
               && s.rows[i].access != row.access && s.rows[i].refresh != Some(row.access)
               && (row.refresh.Some? ==> s.rows[i].refresh != row.refresh && Some(s.rows[i].access) != row.refresh)
    requires row.family.Some? ==> forall i :: 0 <= i < |s.rows| && s.rows[i].family == row.family ==> s.rows[i].revoked
    requires Linked(s.(rows := s.rows + [row]), |s.rows|)
    ensures Inv(s.(rows := s.rows + [row]))
  {
    var s' := s.(rows := s.rows + [row]);
    forall k | 0 <= k < |s'.rows| ensures Linked(s', k) {
      assert k < |s.rows| ==> Linked(s, k);
    }
  }

  lemma InvCodeGrant(s: Store, req: CodeRequest, draw: Draw, now: Time)
    requires Inv(s) && NewDraw(s, draw)
    ensures Inv(CodeGrant(s, req, draw, now).0)
  {
    var s' := CodeGrant(s, req, draw, now).0;
    if s' != s {
      var c := s.codes[req.code];
      var marked := s.(codes := s.codes[req.code := c.(used := true)]);
      InvUnderRevocation(s, marked);
      var row := CodeRow(c, req.code, draw, now);
      forall q | 0 <= q < |s.rows| ensures s.rows[q].origin != FromCode(req.code) {
        assert Linked(s, q);
      }
      assert Linked(marked.(rows := marked.rows + [row]), |s.rows|);
      InvUnderAppend(marked, row);
    }
  }

  lemma InvRefreshGrant(s: Store, req: RefreshRequest, draw: Draw, now: Time)
    requires Inv(s) && NewDraw(s, draw)
    ensures Inv(RefreshGrant(s, req, draw, now).0)
  {
    var s' := RefreshGrant(s, req, draw, now).0;
    if s' != s {
      var i := Presented(s, req).value;
      if s.rows[i].revoked {
        InvUnderRevocation(s, s');
      } else {
        var spent := s.(rows := RevokeAt(s.rows, i));
        InvUnderRevocation(s, spent);
        var row := Rotated(s, i, draw, now);
        assert LinkedToParent(spent.rows + [row], |s.rows|, i);
        InvUnderAppend(spent, row);
      }
    }
  }

  lemma InvStep(s: Store, t: Timed)
    requires Inv(s) && Possible(s, t)
    ensures Inv(After(s, t))
  {
    match t.step
    case RedeemCode(req, draw) => InvCodeGrant(s, req, draw, t.now);
    case Refresh(req, draw) => InvRefreshGrant(s, req, draw, t.now);
    case _ =>
      StepGrows(s, t);
      InvUnderRevocation(s, After(s, t));
  }

  lemma {:induction false} RunKeeps(s: Store, run: seq<Timed>)
    requires Inv(s) && Legal(s, run)
    ensures Inv(Run(s, run)) && Grows(s, Run(s, run))
    decreases |run|
  {
    if run == [] {
    } else {
      InvStep(s, run[0]);
      StepGrows(s, run[0]);
      RunKeeps(After(s, run[0]), run[1..]);
      GrowsTransitive(s, After(s, run[0]), Run(s, run));
    }
  }

  // ---------------------------------------------------------------------------
  // Linear chains rooted in one authorization code
  // ---------------------------------------------------------------------------

  /** The authorization code at the root of row k's chain. */
  ghost function RootCode(s: Store, k: nat): (code: string)
    requires Inv(s) && k < |s.rows|
    ensures code in s.codes && s.codes[code].used
    ensures SameGrant(s.rows[k], s.codes[code].clientId, s.codes[code].userId, s.codes[code].scope)
  {
    assert Linked(s, k);
    match s.rows[k].origin
    case FromCode(code) => code
    case FromRow(p) => RootCode(s, p)
  }

  /** Two rows have the same root code exactly when they are one row or belong to one family. */
  lemma {:induction false} FamilyIsCode(s: Store, i: nat, j: nat)
    requires Inv(s) && i < j < |s.rows|
    ensures RootCode(s, i) == RootCode(s, j) <==> s.rows[i].family.Some? && s.rows[i].family == s.rows[j].family
    decreases j, i
  {
    assert Linked(s, j) && Linked(s, i);
    match s.rows[j].origin
    case FromRow(p) =>
      if p < i {
        assert s.rows[i].family != s.rows[j].family;
        FamilyIsCode(s, p, i);
      } else if p > i {
        FamilyIsCode(s, i, p);
      }
    case FromCode(code) =>
      match s.rows[i].origin
      case FromCode(_) =>
      case FromRow(q) => FamilyIsCode(s, q, j);
  }

  /**
   In every serialised run the rows of a family form one linear chain. Between two neighbours of a family the
   later was made by exchanging the earlier, which is revoked; the first came from a code. All of them carry
   the client, user and scope of that one code, and any row but the newest is revoked.
   */
  lemma FamiliesAreChains(s: Store, run: seq<Timed>, i: nat, j: nat)
    requires Initial(s) && Legal(s, run)
    requires i < j < |Run(s, run).rows|
    requires Run(s, run).rows[i].family.Some? && Run(s, run).rows[i].family == Run(s, run).rows[j].family
    ensures var rows := Run(s, run).rows;
            && rows[i].revoked
            && SameGrant(rows[j], rows[i].clientId, rows[i].userId, rows[i].scope)
            && rows[j].origin.FromRow?
            && ((forall q :: i < q < j ==> rows[q].family != rows[i].family) ==> rows[j].origin == FromRow(i))
    ensures Inv(Run(s, run)) && RootCode(Run(s, run), i) == RootCode(Run(s, run), j)
  {
    RunKeeps(s, run);
    var t := Run(s, run);
    assert Linked(t, j);
    FamilyIsCode(t, i, j);
  }

  /** Each code yields at most one row, and each row is exchanged for at most one other. */
  lemma OriginsAreUnique(s: Store, run: seq<Timed>, i: nat, j: nat)
    requires Initial(s) && Legal(s, run)
    requires i < j < |Run(s, run).rows|
    ensures Run(s, run).rows[i].origin != Run(s, run).rows[j].origin
  {
    RunKeeps(s, run);
    assert Linked(Run(s, run), i) && Linked(Run(s, run), j);
  }

  // ---------------------------------------------------------------------------
  // Replay
  // ---------------------------------------------------------------------------

  ghost predicate Exchanges(s: Store, t: Timed, token: string) {
    t.step.Refresh? && t.step.refreshReq.token == token && Serve(s, t).1.Ok?
  }

  /** A refresh token is exchanged successfully at most once, whoever presents it later and whatever happens between. */
  lemma ExchangedOnce(s: Store, first: Timed, between: seq<Timed>, second: Timed, token: string)
    requires Inv(s) && Possible(s, first) && Exchanges(s, first, token)
    requires Legal(After(s, first), between)
    ensures !Exchanges(Run(After(s, first), between), second, token)
  {
    var s1 := After(s, first);
    var i := Presented(s, first.step.refreshReq).value;
    assert s1.rows[i].revoked && s1.rows[i].refresh == Some(token);
    InvStep(s, first);
    RunKeeps(s1, between);
    var t := Run(s1, between);
    if second.step.Refresh? && second.step.refreshReq.token == token {
      var found := Presented(t, second.step.refreshReq);
      if found.Some? {
        assert found.value == i;
      }
    }
  }

  /** All rows of family f are revoked. */
  ghost predicate Dead(s: Store, f: nat) {
    forall i :: 0 <= i < |s.rows| && s.rows[i].family == Some(f) ==> s.rows[i].revoked
  }

  ghost predicate Used(s: Store, f: nat) {
    exists i :: 0 <= i < |s.rows| && s.rows[i].family == Some(f)
  }

  /** A grant for a dead family finds only revoked rows, and a new family takes a new id. */
  lemma NoRowJoinsDeadFamily(s: Store, t: Timed, f: nat)
    requires Possible(s, t) && Used(s, f) && Dead(s, f)
    ensures forall i :: |s.rows| <= i < |After(s, t).rows| ==> After(s, t).rows[i].family != Some(f)
  {
  }

  lemma DeadStep(s: Store, t: Timed, f: nat)
    requires Possible(s, t) && Used(s, f) && Dead(s, f)
    ensures Used(After(s, t), f) && Dead(After(s, t), f)
    ensures forall i :: |s.rows| <= i < |After(s, t).rows| ==> After(s, t).rows[i].family != Some(f)
  {
    var s' := After(s, t);
    StepGrows(s, t);
    NoRowJoinsDeadFamily(s, t, f);
    UsedAndDeadLater(s, s', f);
  }

  lemma UsedAndDeadLater(s: Store, s': Store, f: nat)
    requires Grows(s, s') && Used(s, f) && Dead(s, f)
    requires forall i :: |s.rows| <= i < |s'.rows| ==> s'.rows[i].family != Some(f)
    ensures Used(s', f) && Dead(s', f)
  {
  }

  lemma {:induction false} DeadForGood(s: Store, run: seq<Timed>, f: nat)
    requires Inv(s) && Legal(s, run) && Used(s, f) && Dead(s, f)
    ensures Dead(Run(s, run), f)
    ensures forall i :: |s.rows| <= i < |Run(s, run).rows| ==> Run(s, run).rows[i].family != Some(f)
    decreases |run|
  {
    if run == [] {
    } else {
      var s' := After(s, run[0]);
      InvStep(s, run[0]);
      StepGrows(s, run[0]);
      DeadStep(s, run[0], f);
      DeadForGood(s', run[1..], f);
      RunKeeps(s', run[1..]);
      forall i | |s.rows| <= i < |Run(s, run).rows| ensures Run(s, run).rows[i].family != Some(f) {
        assert i < |s'.rows| ==> Run(s, run).rows[i].family == s'.rows[i].family;
      }
    }
  }

  /**
   When the client a refresh token belongs to presents it after it was revoked - by rotation, by `revoke` or by
   ending the session - the request fails, every row of the family is revoked, and no later request ever adds
   a row to that family.
   */
  lemma ReplayKillsFamilyForGood(s: Store, t: Timed, i: nat, rest: seq<Timed>)
    requires Inv(s) && Possible(s, t) && Legal(After(s, t), rest)
    requires i < |s.rows| && s.rows[i].revoked && s.rows[i].refresh.Some? && s.rows[i].refresh.value != ""
    requires t.step.Refresh? && t.step.refreshReq.token == s.rows[i].refresh.value
    requires t.step.refreshReq.clientId == s.rows[i].clientId
    requires ClientRefusal(s, t.step.refreshReq.clientId, t.step.refreshReq.secret).None?
    ensures s.rows[i].family.Some?
    ensures Serve(s, t).1 == Err(ReuseDetected)
    ensures var f, final := s.rows[i].family.value, Run(After(s, t), rest);
            Dead(final, f) && forall k :: 0 <= k < |final.rows| && final.rows[k].family == Some(f) ==> k < |s.rows|
  {
    var f := s.rows[i].family.value;
    assert Presented(s, t.step.refreshReq) == Some(i);
    var s' := After(s, t);
    assert s'.rows[i].family == Some(f);
    forall k | 0 <= k < |s'.rows| && s'.rows[k].family == Some(f) ensures s'.rows[k].revoked {
      SameClientInFamily(s, i, k);
    }
    InvStep(s, t);
    DeadForGood(s', rest, f);
  }

  lemma SameClientInFamily(s: Store, i: nat, k: nat)
    requires Inv(s) && i < |s.rows| && k < |s.rows|
    requires s.rows[i].family.Some? && s.rows[i].family == s.rows[k].family
    ensures s.rows[i].clientId == s.rows[k].clientId
  {
    if i < k {
      FamilyIsCode(s, i, k);
    } else if k < i {
      FamilyIsCode(s, k, i);
    }
  }

  // ---------------------------------------------------------------------------
  // Rollback
  // ---------------------------------------------------------------------------

  /**
   A failing request leaves the tables as they were - a code whose user turns out inactive stays redeemable -
   except that replay detection, which commits before it raises, keeps its revocations.
   */
  lemma OnlyReplayDetectionSurvivesAnError(s: Store, t: Timed)
    requires Serve(s, t).1.Err? && Serve(s, t).1.error != ReuseDetected
    ensures After(s, t) == s
  {
  }

  /**
   `revoke` promises success even for unknown tokens. It succeeds exactly when the token does not decode to a listed
   jti.
   */
  lemma RevokeSucceedsIff(s: Store, token: string, jti: Option<string>)
    ensures Revoke(s, token, jti).1 == Ok(Done) <==> jti.None? || jti.value !in s.blacklist
    ensures Revoke(s, token, jti).1 != Ok(Done) ==> Revoke(s, token, jti) == (s, Err(ServerError))
  {
    assert jti.None? ==> Revoke(s, token, jti).1 == Ok(Done);
  }

  /** The request puts the jti on the blacklist. */
  ghost predicate Lists(s: Store, t: Timed, jti: string) {
    jti !in s.blacklist && jti in After(s, t).blacklist
  }

  /** Over the run the jti is pruned, and not listed again after the last time. */
  ghost predicate PrunedForGood(s: Store, run: seq<Timed>, jti: string)
    decreases |run|
  {
    run != []
    && ((run[0].step.PruneBlacklist? && jti in run[0].step.expired && StaysOff(After(s, run[0]), run[1..], jti))
        || PrunedForGood(After(s, run[0]), run[1..], jti))
  }

  ghost predicate StaysOff(s: Store, run: seq<Timed>, jti: string)
    decreases |run|
  {
    run == [] || (!Lists(s, run[0], jti) && StaysOff(After(s, run[0]), run[1..], jti))
  }

  lemma {:induction false} StaysOffIff(s: Store, run: seq<Timed>, jti: string)
    requires jti !in s.blacklist
    ensures jti !in Run(s, run).blacklist <==> StaysOff(s, run, jti) || PrunedForGood(s, run, jti)
    decreases |run|
  {
    if run == [] {
    } else if jti in After(s, run[0]).blacklist {
      PrunedIff(After(s, run[0]), run[1..], jti);
    } else {
      StaysOffIff(After(s, run[0]), run[1..], jti);
    }
  }

  lemma {:induction false} PrunedIff(s: Store, run: seq<Timed>, jti: string)
    requires jti in s.blacklist
    ensures jti !in Run(s, run).blacklist <==> PrunedForGood(s, run, jti)
    decreases |run|
  {
    if run == [] {
    } else if jti in After(s, run[0]).blacklist {
      assert !(run[0].step.PruneBlacklist? && jti in run[0].step.expired);
      PrunedIff(After(s, run[0]), run[1..], jti);
    } else {
      assert run[0].step.PruneBlacklist? && jti in run[0].step.expired;
      StaysOffIff(After(s, run[0]), run[1..], jti);
    }
  }

  /**
   Revoking the same access token twice: the first time succeeds, and the second does if and only if the entry has
   been pruned in between and not listed again. Otherwise it ends in a server error.
   */
  lemma RevokeTwice(s: Store, token: string, jti: string, between: seq<Timed>)
    requires jti !in s.blacklist && Legal(Revoke(s, token, Some(jti)).0, between)
    ensures Revoke(s, token, Some(jti)).1 == Ok(Done)
    ensures var s1 := Revoke(s, token, Some(jti)).0;
            var again := Revoke(Run(s1, between), token, Some(jti)).1;
            (again == Ok(Done) <==> PrunedForGood(s1, between, jti)) &&
                (again != Ok(Done) ==> again == Err(ServerError))
  {
    var s1 := Revoke(s, token, Some(jti)).0;
    PrunedIff(s1, between, jti);
    RevokeSucceedsIff(s, token, Some(jti));
    RevokeSucceedsIff(Run(s1, between), token, Some(jti));
  }
}
