/** Successful grants over whole runs of the OAuth server: what they trace back to and what they hand out. */
module Grants {
  import opened Common
  import opened OAuthStore
  import opened Scopes
  import opened TokenFamilies

  // ---------------------------------------------------------------------------
  // Provenance
  // ---------------------------------------------------------------------------

  /** In state s, request t was answered with this code, which recorded c. */
  ghost predicate Requested(s: Store, t: Timed, code: string, c: Code) {
    && (t.step.Authorize? || t.step.Consent?) && t.step.code == code
    && (if t.step.Authorize? then AuthorizeRefusal(s, t.step.req) else ConsentRefusal(s, t.step.req)).None?
    && c == NewCode(t.step.req, t.now).(used := c.used)
  }

  /** The first k + 1 requests of a run: its first, and then the first k of the rest. */
  lemma PrefixRun(s: Store, run: seq<Timed>, k: nat)
    requires k < |run|
    ensures Run(s, run[..k + 1]) == Run(After(s, run[0]), run[1..][..k])
  {
    assert run[..k + 1][1..] == run[1..][..k] && run[..k + 1][0] == run[0];
  }

  lemma NewCodeWasRequested(s: Store, t: Timed, code: string, used: bool)
    requires code !in s.codes && code in After(s, t).codes
    ensures Requested(s, t, code, After(s, t).codes[code].(used := used))
  {
  }

  lemma {:induction false} CodesWereRequested(s: Store, run: seq<Timed>, code: string)
    requires Inv(s) && Legal(s, run) && code !in s.codes && code in Run(s, run).codes
    ensures exists k :: 0 <= k < |run| && Requested(Run(s, run[..k]), run[k], code, Run(s, run).codes[code])
    decreases |run|
  {
    if run == [] {
      assert false;
    } else {
      var s', c := After(s, run[0]), Run(s, run).codes[code];
      InvStep(s, run[0]);
      if code in s'.codes {
        RunKeeps(s', run[1..]);
        NewCodeWasRequested(s, run[0], code, c.used);
        assert Requested(Run(s, run[..0]), run[0], code, c);
      } else {
        CodesWereRequested(s', run[1..], code);
        var k :| 0 <= k < |run| - 1 && Requested(Run(s', run[1..][..k]), run[1..][k], code, c);
        PrefixRun(s, run, k);
        assert Requested(Run(s, run[..k + 1]), run[k + 1], code, c);
      }
    }
  }

  /** What the k-th request of the run and the client's registration at that time must be for the grant to be due. */
  ghost predicate Due(s: Store, run: seq<Timed>, k: nat, req: CodeRequest, row: Row, now: Time)
    requires k < |run| && (run[k].step.Authorize? || run[k].step.Consent?)
  {
    var asked := run[k].step.req;
    var registered, current := Run(s, run[..k]).clients, Run(s, run).clients;
    && run[k].step.code == req.code && asked.clientId == req.clientId && req.redirectUri == Some(asked.redirectUri)
    && now <= run[k].now + 60 * SECOND
    && asked.clientId in registered && asked.redirectUri in registered[asked.clientId].redirectUris
    && CheckScope(asked.scope, registered[asked.clientId].allowedScopes)
    && (registered[asked.clientId].autoApprove || run[k].step.Consent?)
    && req.clientId in current && Authenticated(current[req.clientId], req.secret)
    && (current[req.clientId].requirePkce ==> req.verifier.Some? && asked.challenge == Some(S256(req.verifier.value)))
    && SameGrant(row, asked.clientId, asked.userId, asked.scope)
  }

  lemma DueFromRequest(s: Store, run: seq<Timed>, k: nat, req: CodeRequest, draw: Draw, now: Time)
    requires CodeGrant(Run(s, run), req, draw, now).1.Ok? && req.code in Run(s, run).codes && k < |run|
    requires Requested(Run(s, run[..k]), run[k], req.code, Run(s, run).codes[req.code])
    ensures |CodeGrant(Run(s, run), req, draw, now).0.rows| == |Run(s, run).rows| + 1
    ensures Due(s, run, k, req, CodeGrant(Run(s, run), req, draw, now).0.rows[|Run(s, run).rows|], now)
  {
  }

  /**
   In every run a successful code grant traces back to an authorization or consent request, made at most sixty
   seconds earlier for the same client and redirect URI, with registered values, with consent unless the client
   is auto-approved, and with the challenge of the verifier now presented if the client requires one. The token
   row carries that request's user and scope, and the code had not been redeemed before.
   */
  lemma GrantTracesToRequest(s: Store, run: seq<Timed>, req: CodeRequest, draw: Draw, now: Time)
    requires Initial(s) && Legal(s, run) && CodeGrant(Run(s, run), req, draw, now).1.Ok?
    ensures var before, after := Run(s, run), CodeGrant(Run(s, run), req, draw, now).0;
            && |after.rows| == |before.rows| + 1
            && req.code in before.codes && !before.codes[req.code].used && after.codes[req.code].used
            && exists k :: 0 <= k < |run| && (run[k].step.Authorize? || run[k].step.Consent?)
                           && Due(s, run, k, req, after.rows[|before.rows|], now)
  {
    var before := Run(s, run);
    CodesWereRequested(s, run, req.code);
    var k :| 0 <= k < |run| && Requested(Run(s, run[..k]), run[k], req.code, before.codes[req.code]);
    DueFromRequest(s, run, k, req, draw, now);
  }

  /** In state s, request t added row i, which is now `row`. */
  ghost predicate Issued(s: Store, t: Timed, i: nat, row: Row) {
    |s.rows| == i && |After(s, t).rows| == i + 1 && row == After(s, t).rows[i].(revoked := row.revoked)
  }

  lemma NoRowAdded(s: Store, t: Timed)
    requires !t.step.RedeemCode? && !t.step.Refresh?
    ensures |After(s, t).rows| == |s.rows|
  {
  }

  lemma AtMostOneRow(s: Store, t: Timed)
    ensures |s.rows| <= |After(s, t).rows| <= |s.rows| + 1
  {
    if {
      case t.step.RedeemCode? => assert After(s, t) == CodeGrant(s, t.step.codeReq, t.step.draw, t.now).0;
      case t.step.Refresh? => assert After(s, t) == RefreshGrant(s, t.step.refreshReq, t.step.draw, t.now).0;
      case !t.step.RedeemCode? && !t.step.Refresh? => NoRowAdded(s, t);
    }
  }

  lemma {:induction false} RowsWereIssued(s: Store, run: seq<Timed>, i: nat)
    requires Inv(s) && Legal(s, run) && |s.rows| <= i < |Run(s, run).rows|
    ensures exists k :: 0 <= k < |run| && Issued(Run(s, run[..k]), run[k], i, Run(s, run).rows[i])
    decreases |run|
  {
    if run == [] {
      assert false;
    } else {
      var s' := After(s, run[0]);
      InvStep(s, run[0]);
      AtMostOneRow(s, run[0]);
      if i < |s'.rows| {
        RunKeeps(s', run[1..]);
        assert run[..0] == [];
        assert Issued(Run(s, run[..0]), run[0], i, Run(s, run).rows[i]);
      } else {
        RowsWereIssued(s', run[1..], i);
        var k :| 0 <= k < |run| - 1 && Issued(Run(s', run[1..][..k]), run[1..][k], i, Run(s, run).rows[i]);
        PrefixRun(s, run, k);
        assert Issued(Run(s, run[..k + 1]), run[k + 1], i, Run(s, run).rows[i]);
      }
    }
  }

  /** A new row's refresh token expires thirty days after the request that made the row. */
  lemma NewRowExpiry(s: Store, t: Timed)
    requires |After(s, t).rows| == |s.rows| + 1
    ensures t.step.RedeemCode? || t.step.Refresh?
    ensures var row := After(s, t).rows[|s.rows|];
            row.refreshExpiresAt == if row.refresh.Some? then Some(t.now + 30 * DAY) else None
  {
    if t.step.RedeemCode? {
      assert CodeGrant(s, t.step.codeReq, t.step.draw, t.now).0 == After(s, t);
    } else if t.step.Refresh? {
      assert RefreshGrant(s, t.step.refreshReq, t.step.draw, t.now).0 == After(s, t);
    } else {
      NoRowAdded(s, t);
      assert false;
    }
  }

  /** Row i carries the presented refresh token and was issued by the k-th request of the run. */
  ghost predicate Exchangeable(s: Store, run: seq<Timed>, k: nat, i: nat, req: RefreshRequest, now: Time)
    requires k < |run| && i < |Run(s, run).rows|
  {
    var row, current := Run(s, run).rows[i], Run(s, run).clients;
    && Issued(Run(s, run[..k]), run[k], i, row) && (run[k].step.RedeemCode? || run[k].step.Refresh?)
    && now <= run[k].now + 30 * DAY
    && row.refresh == Some(req.token) && row.clientId == req.clientId && !row.revoked
    && req.clientId in current && Authenticated(current[req.clientId], req.secret)
    && ActiveUser(Run(s, run), row.userId)
  }

  /** Row i has been revoked and a live successor of its family appended; nothing else has changed. */
  ghost predicate Exchanged(rows: seq<Row>, rows': seq<Row>, i: nat)
    requires i < |rows|
  {
    && |rows'| == |rows| + 1
    && rows'[..|rows|] == rows[i := rows[i].(revoked := true)]
    && var row := rows'[|rows|];
       !row.revoked && row.origin == FromRow(i) && row.family == rows[i].family
       && SameGrant(row, rows[i].clientId, rows[i].userId, rows[i].scope)
  }

  /**
   In every run a successful refresh exchanges the unrevoked row, issued to that client at most thirty days
   earlier, that carries the presented token, while its user is active; that row ends up revoked and the new
   row is its successor in the family.
   */
  lemma RefreshTracesToIssue(s: Store, run: seq<Timed>, req: RefreshRequest, draw: Draw, now: Time)
    requires Initial(s) && Legal(s, run) && RefreshGrant(Run(s, run), req, draw, now).1.Ok?
    ensures exists k, i ::
              && 0 <= k < |run| && 0 <= i < |Run(s, run).rows| && Exchangeable(s, run, k, i, req, now)
              && Exchanged(Run(s, run).rows, RefreshGrant(Run(s, run), req, draw, now).0.rows, i)
  {
    RunKeeps(s, run);
    var t := Run(s, run);
    var i := Presented(t, req).value;
    RowsWereIssued(s, run, i);
    var k :| 0 <= k < |run| && Issued(Run(s, run[..k]), run[k], i, t.rows[i]);
    NewRowExpiry(Run(s, run[..k]), run[k]);
    assert Exchangeable(s, run, k, i, req, now);
    assert Exchanged(t.rows, RefreshGrant(t, req, draw, now).0.rows, i);
  }

  // ---------------------------------------------------------------------------
  // Scopes
  // ---------------------------------------------------------------------------

  /** No client has a registered scope that strictly contains w. */
  ghost predicate CleanClients(s: Store, w: string) {
    forall id :: id in s.clients ==> NoStrictSuperword(s.clients[id].allowedScopes, w)
  }

  /** And the run registers none. */
  ghost predicate CleanRun(run: seq<Timed>, w: string) {
    forall i :: 0 <= i < |run| && run[i].step.SetClient? ==> NoStrictSuperword(run[i].step.client.allowedScopes, w)
  }

  /** For every issued code the substring test is scope membership. */
  ghost predicate CodesExact(s: Store, w: string) {
    forall code :: code in s.codes ==> (Contains(s.codes[code].scope, w) <==> w in Split(s.codes[code].scope))
  }

  lemma NewCodeExact(s: Store, req: AuthRequest, w: string)
    requires IsWord(w) && CleanClients(s, w)
    requires AuthorizeRefusal(s, req).None? || ConsentRefusal(s, req).None?
    ensures Contains(req.scope, w) <==> w in Split(req.scope)
  {
    SubstringTestIsMembership(s.clients[req.clientId].allowedScopes, w);
  }

  lemma ExactNewCode(s: Store, t: Timed, w: string)
    requires IsWord(w) && CleanClients(s, w) && CodesExact(s, w) && (t.step.Authorize? || t.step.Consent?)
    ensures CleanClients(After(s, t), w) && CodesExact(After(s, t), w)
  {
    var refusal := if t.step.Authorize? then AuthorizeRefusal(s, t.step.req) else ConsentRefusal(s, t.step.req);
    if refusal.None? {
      NewCodeExact(s, t.step.req, w);
    }
  }

  /** The other requests change no code's scope, and at most one client. */
  ghost predicate SameScopes(s: Store, s': Store) {
    forall code :: code in s'.codes ==> code in s.codes && s'.codes[code].scope == s.codes[code].scope
  }

  lemma GrantKeepsScopes(s: Store, t: Timed)
    requires t.step.RedeemCode? || t.step.Refresh?
    ensures SameScopes(s, After(s, t)) && After(s, t).clients == s.clients
  {
  }

  lemma RevocationKeepsScopes(s: Store, t: Timed)
    requires t.step.RevokeToken? || t.step.EndSession? || t.step.EndAllSessions?
    ensures SameScopes(s, After(s, t)) && After(s, t).clients == s.clients
  {
  }

  lemma ExactStep(s: Store, t: Timed, w: string)
    requires IsWord(w) && CleanClients(s, w) && CodesExact(s, w)
    requires t.step.SetClient? ==> NoStrictSuperword(t.step.client.allowedScopes, w)
    ensures CleanClients(After(s, t), w) && CodesExact(After(s, t), w)
  {
    if t.step.Authorize? || t.step.Consent? {
      ExactNewCode(s, t, w);
    } else if t.step.RedeemCode? || t.step.Refresh? {
      GrantKeepsScopes(s, t);
    } else if t.step.RevokeToken? || t.step.EndSession? || t.step.EndAllSessions? {
      RevocationKeepsScopes(s, t);
    } else {
      assert After(s, t).codes == s.codes;
    }
  }

  lemma {:induction false} ExactRun(s: Store, run: seq<Timed>, w: string)
    requires IsWord(w) && CleanClients(s, w) && CodesExact(s, w) && CleanRun(run, w)
    ensures CodesExact(Run(s, run), w)
    decreases |run|
  {
    if run == [] {
    } else {
      ExactStep(s, run[0], w);
      ExactRun(After(s, run[0]), run[1..], w);
    }
  }

  /**
   In every run on clients none of whose scopes strictly contains the word, a successful code grant issues a
   refresh token exactly when "offline_access" is one of the whitespace-separated scopes of the code, and an
   id_token exactly when "openid" is.
   */
  lemma GrantFollowsScopes(s: Store, run: seq<Timed>, req: CodeRequest, draw: Draw, now: Time)
    requires Initial(s)
    requires CleanClients(s, "offline_access") && CleanRun(run, "offline_access")
    requires CleanClients(s, "openid") && CleanRun(run, "openid")
    requires CodeGrant(Run(s, run), req, draw, now).1.Ok?
    ensures req.code in Run(s, run).codes && CodeGrant(Run(s, run), req, draw, now).1.value.Tokens?
    ensures var scopes := Split(Run(s, run).codes[req.code].scope);
            var reply := CodeGrant(Run(s, run), req, draw, now).1.value;
            && (reply.refresh.Some? <==> "offline_access" in scopes)
            && (reply.idToken <==> "openid" in scopes)
  {
    ExactRun(s, run, "offline_access");
    ExactRun(s, run, "openid");
  }
}
