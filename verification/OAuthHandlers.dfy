/**
 The request handlers as the program runs them: each works on a session's pending copy of the tables, and
 only a commit makes the copy the committed state. Raising without a commit rolls the session back.
 */
module OAuthHandlers {
  import opened Common
  import opened OAuthStore
  import Scopes
  import T = TokenFamilies
  import TokenRevocation
  import GrantDecisions

  /** Every request keeps the families linear chains. */
  lemma KeepsFamilies(s: Store, t: T.Timed)
    ensures T.Inv(s) && T.Possible(s, t) ==> T.Inv(T.After(s, t))
  {
    if T.Inv(s) && T.Possible(s, t) {
      T.InvStep(s, t);
    }
  }

  class TokenServer {
    var clients: map<string, Client>
    var users: map<string, bool>
    var codes: map<string, Code>
    var rows: seq<Row>
    var blacklist: set<string>

    function State(): Store
      reads this
    {
      Store(clients, users, codes, rows, blacklist)
    }

    constructor (clients: map<string, Client>, users: map<string, bool>)
      ensures State() == Store(clients, users, map[], [], {})
    {
      this.clients, this.users := clients, users;
      codes, rows, blacklist := map[], [], {};
    }

    /**
     A code comes back exactly for a registered, permitted request of an auto-approved client; else nothing is
     stored.
     */
    method Authorize(req: AuthRequest, code: string, now: Time) returns (outcome: Outcome)
      modifies this
      ensures (State(), outcome) == IssueCode(old(State()), AuthorizeRefusal(old(State()), req), req, code, now)
      ensures outcome == Ok(CodeIssued(code)) <==>
                && req.clientId in old(clients) && old(clients)[req.clientId].active
                && var client := old(clients)[req.clientId];
                   && req.redirectUri in client.redirectUris && req.responseType == "code"
                   && "authorization_code" in client.grantTypes
                   && (forall scope :: scope in Scopes.Split(req.scope) ==> scope in client.allowedScopes)
                   && (client.requirePkce ==> req.challenge != None && req.challenge != Some(Unmatched("")))
                   && client.autoApprove
      ensures outcome == Ok(CodeIssued(code)) ==>
                && rows == old(rows) && clients == old(clients) && users == old(users) && blacklist == old(blacklist)
                && codes == old(codes)[code := Code(
                     req.clientId, req.userId, req.redirectUri, req.scope, req.challenge, req.challengeMethod,
                     now + 60 * SECOND, false)]
      ensures outcome == Ok(CodeIssued(code)) || State() == old(State())
      ensures T.Inv(old(State())) && code !in old(codes) ==> T.Inv(State())
    {
      ghost var before := State();
      KeepsFamilies(before, T.Timed(now, T.Authorize(req, code)));
      if req.clientId !in clients || !clients[req.clientId].active {
        return Err(UnknownClient);
      }
      var client := clients[req.clientId];
      if req.redirectUri !in client.redirectUris {
        return Err(BadRedirect);
      }
      if req.responseType != "code" {
        return Err(BadResponseType);
      }
      if "authorization_code" !in client.grantTypes {
        return Err(GrantNotAllowed);
      }
      if !Scopes.CheckScope(req.scope, client.allowedScopes) {
        return Err(ScopeNotAllowed);
      }
      if client.requirePkce && !Given(req.challenge) {
        return Err(PkceRequired);
      }
      if !client.autoApprove {
        return Ok(ConsentNeeded);
      }
      codes := codes[code := Code(
        req.clientId, req.userId, req.redirectUri, req.scope, req.challenge, req.challengeMethod, now + CODE_TTL,
            false)];
      outcome := Ok(CodeIssued(code));
    }

    /** Consent given: the response type, the grant type and the client's approval setting no longer matter. */
    method Consent(req: AuthRequest, code: string, now: Time) returns (outcome: Outcome)
      modifies this
      ensures (State(), outcome) == IssueCode(old(State()), ConsentRefusal(old(State()), req), req, code, now)
      ensures outcome == Ok(CodeIssued(code)) <==>
                && req.clientId in old(clients) && old(clients)[req.clientId].active
                && var client := old(clients)[req.clientId];
                   && req.redirectUri in client.redirectUris
                   && (forall scope :: scope in Scopes.Split(req.scope) ==> scope in client.allowedScopes)
                   && (client.requirePkce ==> req.challenge != None && req.challenge != Some(Unmatched("")))
      ensures outcome == Ok(CodeIssued(code)) ==>
                && rows == old(rows) && clients == old(clients) && users == old(users) && blacklist == old(blacklist)
                && codes == old(codes)[code := Code(
                     req.clientId, req.userId, req.redirectUri, req.scope, req.challenge, req.challengeMethod,
                     now + 60 * SECOND, false)]
      ensures outcome == Ok(CodeIssued(code)) || State() == old(State())
      ensures T.Inv(old(State())) && code !in old(codes) ==> T.Inv(State())
    {
      ghost var before := State();
      KeepsFamilies(before, T.Timed(now, T.Consent(req, code)));
      if req.clientId !in clients || !clients[req.clientId].active {
        return Err(UnknownClient);
      }
      var client := clients[req.clientId];
      if req.redirectUri !in client.redirectUris {
        return Err(BadRedirect);
      }
      if !Scopes.CheckScope(req.scope, client.allowedScopes) {
        return Err(ScopeNotAllowed);
      }
      if client.requirePkce && !Given(req.challenge) {
        return Err(PkceRequired);
      }
      codes := codes[code := Code(
        req.clientId, req.userId, req.redirectUri, req.scope, req.challenge, req.challengeMethod, now + CODE_TTL,
            false)];
      outcome := Ok(CodeIssued(code));
    }

    method HandleCodeGrant(req: CodeRequest, draw: Draw, now: Time) returns (outcome: Outcome)
      modifies this
      ensures (State(), outcome) == CodeGrant(old(State()), req, draw, now)
      ensures outcome.Ok? <==>
                && GrantDecisions.ClientOk(old(State()), req.clientId, req.secret)
                && GrantDecisions.CodeOk(old(State()), req, now)
      ensures T.Inv(old(State())) && T.NewDraw(old(State()), draw) ==> T.Inv(State())
    {
      KeepsFamilies(State(), T.Timed(now, T.RedeemCode(req, draw)));
      GrantDecisions.CodeGrantIff(State(), req, draw, now);
      var refusal := CodeRefusal(State(), req, now);
      if refusal.Some? {
        return Err(refusal.value);
      }
      var authCode := codes[req.code];
      var pendingCodes := codes[req.code := authCode.(used := true)];
      if !ActiveUser(State(), authCode.userId) {
        return Err(UserInactive);
      }
      var offline := Scopes.Contains(authCode.scope, "offline_access");
      var refresh := if offline then Some(draw.refresh) else None;
      var row := Row(draw.access, refresh, authCode.clientId, authCode.userId, authCode.scope,
                     if offline then Some(now + REFRESH_TTL) else None,
                     if offline then Some(draw.family) else None, false, FromCode(req.code));
      codes, rows := pendingCodes, rows + [row];
      outcome := Ok(Tokens(draw.access, refresh, Scopes.Contains(authCode.scope, "openid")));
    }

    method HandleRefreshGrant(req: RefreshRequest, draw: Draw, now: Time) returns (outcome: Outcome)
      modifies this
      ensures (State(), outcome) == RefreshGrant(old(State()), req, draw, now)
      ensures T.Inv(old(State())) ==>
                (outcome.Ok? <==>
                   && GrantDecisions.ClientOk(old(State()), req.clientId, req.secret) && req.token != ""
                   && exists i :: GrantDecisions.RowOk(old(State()), req, i, now))
      ensures T.Inv(old(State())) && T.NewDraw(old(State()), draw) ==> T.Inv(State())
    {
      KeepsFamilies(State(), T.Timed(now, T.Refresh(req, draw)));
      if T.Inv(State()) {
        GrantDecisions.RefreshGrantIff(State(), req, draw, now);
      }
      var refusal := ClientRefusal(State(), req.clientId, req.secret);
      if refusal.Some? {
        return Err(refusal.value);
      }
      if req.token == "" {
        return Err(MissingParameter);
      }
      var found := Presented(State(), req);
      if found.None? {
        return Err(InvalidRefresh);
      }
      var tokenRow := rows[found.value];
      if tokenRow.revoked {
        if tokenRow.family.Some? {
          rows := RevokeWhere(rows, (r: Row) => r.family == tokenRow.family && r.clientId == tokenRow.clientId);
        }
        return Err(ReuseDetected);
      }
      if tokenRow.refreshExpiresAt.Some? && now > tokenRow.refreshExpiresAt.value {
        return Err(RefreshExpired);
      }
      if !ActiveUser(State(), tokenRow.userId) {
        return Err(UserInactive);
      }
      var pending := rows[found.value := tokenRow.(revoked := true)];
      pending := pending + [Row(draw.access, Some(draw.refresh), tokenRow.clientId, tokenRow.userId, tokenRow.scope,
                                Some(now + REFRESH_TTL), tokenRow.family, false, FromRow(found.value))];
      rows := pending;
      outcome := Ok(Tokens(draw.access, Some(draw.refresh), false));
    }

    method RevokeToken(token: string, jti: Option<string>) returns (outcome: Outcome)
      modifies this
      ensures (State(), outcome) == Revoke(old(State()), token, jti)
      ensures outcome == (if jti.Some? && jti.value in old(blacklist) then Err(ServerError) else Ok(Done))
      ensures outcome.Err? ==> State() == old(State())
      ensures outcome == Ok(Done) ==>
                && blacklist == old(blacklist) + TokenRevocation.Listed(jti)
                && codes == old(codes) && clients == old(clients) && users == old(users) && |rows| == |old(rows)|
                && forall i :: 0 <= i < |rows| ==>
                     rows[i] == old(rows)[i].(
                       revoked := old(rows)[i].revoked || TokenRevocation.FirstBearer(old(rows), token, i))
      ensures T.Inv(old(State())) ==> T.Inv(State())
    {
      KeepsFamilies(State(), T.Timed(0, T.RevokeToken(token, jti)));
      TokenRevocation.RevokeEffect(State(), token, jti);
      var pendingBlacklist := blacklist;
      if jti.Some? {
        if jti.value in blacklist {
          return Err(ServerError);
        }
        pendingBlacklist := pendingBlacklist + {jti.value};
      }
      var found := Find(rows, Carrying(token));
      if found.Some? && !rows[found.value].revoked {
        rows := RevokeAt(rows, found.value);
      }
      assert found.Some? ==> rows == RevokeAt(old(rows), found.value);
      blacklist := pendingBlacklist;
      outcome := Ok(Done);
    }

    method EndSession(id: nat, userId: string, jti: Option<string>) returns (outcome: Outcome)
      modifies this
      ensures (State(), outcome) == RevokeSession(old(State()), id, userId, jti)
      ensures outcome == Err(NotFound) <==> id >= |old(rows)| || old(rows)[id].userId != userId
      ensures outcome == Ok(Done) && !old(rows)[id].revoked ==>
                && rows == old(rows)[id := old(rows)[id].(revoked := true)]
                && blacklist == old(blacklist) + TokenRevocation.Listed(jti)
      ensures T.Inv(old(State())) ==> T.Inv(State())
    {
      KeepsFamilies(State(), T.Timed(0, T.EndSession(id, userId, jti)));
      if id >= |rows| || rows[id].userId != userId {
        return Err(NotFound);
      }
      if rows[id].revoked {
        return Ok(Done);
      }
      var pending := RevokeAt(rows, id);
      if jti.Some? {
        if jti.value in blacklist {
          return Err(ServerError);
        }
        blacklist := blacklist + {jti.value};
      }
      rows := pending;
      outcome := Ok(Done);
    }

    /** The jtis are added one by one to the session's pending blacklist; a clash spoils the session. */
    method ListAll(jtis: seq<string>) returns (pending: set<string>, spoiled: bool)
      requires forall i, j :: 0 <= i < j < |jtis| ==> jtis[i] != jtis[j]
      ensures spoiled <==> (set j | j in jtis) * blacklist != {}
      ensures !spoiled ==> pending == blacklist + (set j | j in jtis)
    {
      pending, spoiled := blacklist, false;
      for i := 0 to |jtis|
        invariant !spoiled ==> pending == blacklist + (set j | j in jtis[..i])
        invariant spoiled <==> exists k :: 0 <= k < i && jtis[k] in blacklist
      {
        if spoiled || jtis[i] in pending {
          spoiled := true;
        } else {
          pending := pending + {jtis[i]};
        }
      }
      assert jtis[..|jtis|] == jtis;
      assert spoiled ==> exists k :: 0 <= k < |jtis| && jtis[k] in (set j | j in jtis) * blacklist;
    }

    /** A spoiled session makes the commit at the end raise. */
    method EndAllSessions(userId: string, jtis: seq<string>) returns (outcome: Outcome)
      requires forall i, j :: 0 <= i < j < |jtis| ==> jtis[i] != jtis[j]
      modifies this
      ensures (State(), outcome) == RevokeAllSessions(old(State()), userId, set j | j in jtis)
      ensures T.Inv(old(State())) ==> T.Inv(State())
    {
      KeepsFamilies(State(), T.Timed(0, T.EndAllSessions(userId, set j | j in jtis)));
      if Find(rows, LiveRowOf(userId)).None? {
        return Ok(Done);
      }
      var pending := RevokeWhere(rows, LiveRowOf(userId));
      var pendingBlacklist, spoiled := ListAll(jtis);
      if spoiled {
        return Err(ServerError);
      }
      rows, blacklist := pending, pendingBlacklist;
      outcome := Ok(Done);
    }
  }
}
