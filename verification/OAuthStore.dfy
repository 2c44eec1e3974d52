/**
 The tables behind the OAuth server and, as functions on them, what each request does. Handlers run one at
 a time: the grants read a row and later update it without a guard.
 */
module OAuthStore {
  import opened Common
  import Scopes

  /** A PKCE challenge. SHA-256 is taken to be injective, so a computed digest is represented by its preimage. */
  datatype Challenge = S256(verifier: string) | Unmatched(text: string)

  /** `secret` is None for a public client. */
  datatype Client = Client(
    active: bool, secret: Option<string>, redirectUris: seq<string>, allowedScopes: seq<string>,
    grantTypes: seq<string>, requirePkce: bool, autoApprove: bool)

  datatype Code = Code(
    clientId: string, userId: string, redirectUri: string, scope: string,
    challenge: Option<Challenge>, challengeMethod: Option<string>, expiresAt: Time, used: bool)

  /** History: how a token row came about. */
  datatype Origin = FromCode(code: string) | FromRow(parent: nat)

  datatype Row = Row(
    access: string, refresh: Option<string>, clientId: string, userId: string, scope: string,
    refreshExpiresAt: Option<Time>, family: Option<nat>, revoked: bool, origin: Origin)

  /** `users` maps a user to `is_active`; `blacklist` holds the jtis in `revoked_tokens`. */
  datatype Store = Store(
    clients: map<string, Client>, users: map<string, bool>, codes: map<string, Code>,
    rows: seq<Row>, blacklist: set<string>)

  datatype Error =
    | UnknownClient | ClientAuthFailed | BadRedirect | BadResponseType | GrantNotAllowed | ScopeNotAllowed
    | PkceRequired | PkceMethod | PkceMismatch | MissingParameter | InvalidCode | CodeExpired
    | InvalidRefresh | ReuseDetected | RefreshExpired | UserInactive | NotFound | ServerError

  datatype Reply =
    | ConsentNeeded
    | CodeIssued(code: string)
    | Tokens(access: string, refresh: Option<string>, idToken: bool)
    | Done

  type Outcome = Result<Reply, Error>

  /** The random values a grant would draw. */
  datatype Draw = Draw(access: string, refresh: string, family: nat)

  const CODE_TTL := 60 * SECOND
  const REFRESH_TTL := 30 * DAY

  // ---------------------------------------------------------------------------
  // Queries and updates
  // ---------------------------------------------------------------------------

  /** The row condition of `revoke`. */
  function Carrying(token: string): Row -> bool {
    (r: Row) => r.refresh == Some(token) || r.access == token
  }

  /** The row condition of `revoke_all_sessions`. */
  function LiveRowOf(userId: string): Row -> bool {
    (r: Row) => r.userId == userId && !r.revoked
  }

  /** The first row satisfying p, as `db.scalar(select(...))` gives it. */
  function Find(rows: seq<Row>, p: Row -> bool): (found: Option<nat>)
    ensures found.Some? ==> found.value < |rows| && p(rows[found.value])
    ensures found.Some? ==> forall i :: 0 <= i < found.value ==> !p(rows[i])
    ensures found.None? ==> forall i :: 0 <= i < |rows| ==> !p(rows[i])
  {
    if rows == [] then None
    else if p(rows[0]) then Some(0)
    else match Find(rows[1..], p)
         case None => None
         case Some(i) => assert rows[1..][i] == rows[i + 1]; Some(i + 1)
  }

  /** `update(OAuthToken).where(p).values(revoked=True)` */
  function RevokeWhere(rows: seq<Row>, p: Row -> bool): (r: seq<Row>)
    ensures |r| == |rows|
    ensures forall i :: 0 <= i < |rows| ==> r[i] == rows[i].(revoked := rows[i].revoked || p(rows[i]))
  {
    seq(|rows|, i requires 0 <= i < |rows| => rows[i].(revoked := rows[i].revoked || p(rows[i])))
  }

  function RevokeAt(rows: seq<Row>, i: nat): (r: seq<Row>)
    requires i < |rows|
  {
    rows[i := rows[i].(revoked := true)]
  }

  predicate ActiveClient(s: Store, clientId: string) {
    clientId in s.clients && s.clients[clientId].active
  }

  predicate ActiveUser(s: Store, userId: string) {
    userId in s.users && s.users[userId]
  }

  /** Python truthiness of an optional challenge. */
  predicate Given(c: Option<Challenge>) {
    c.Some? && c.value != Unmatched("")
  }

  /** Public clients need no secret; a confidential one must present a nonempty matching secret. */
  predicate Authenticated(client: Client, secret: Option<string>) {
    client.secret.None? || (secret.Some? && secret.value != "" && secret == client.secret)
  }

  // ---------------------------------------------------------------------------
  // Authorization endpoint and consent
  // ---------------------------------------------------------------------------

  datatype AuthRequest = AuthRequest(
    clientId: string, redirectUri: string, responseType: string, scope: string,
    challenge: Option<Challenge>, challengeMethod: Option<string>, userId: string)

  function NewCode(req: AuthRequest, now: Time): Code {
    Code(req.clientId, req.userId, req.redirectUri, req.scope, req.challenge, req.challengeMethod, now + CODE_TTL,
        false)
  }

  /** `authorize`: None when a code is to be issued. */
  function AuthorizeRefusal(s: Store, req: AuthRequest): Option<Outcome> {
    if !ActiveClient(s, req.clientId) then Some(Err(UnknownClient)) else
    var client := s.clients[req.clientId];
    if req.redirectUri !in client.redirectUris then Some(Err(BadRedirect))
    else if req.responseType != "code" then Some(Err(BadResponseType))
    else if "authorization_code" !in client.grantTypes then Some(Err(GrantNotAllowed))
    else if !Scopes.CheckScope(req.scope, client.allowedScopes) then Some(Err(ScopeNotAllowed))
    else if client.requirePkce && !Given(req.challenge) then Some(Err(PkceRequired))
    else if !client.autoApprove then Some(Ok(ConsentNeeded))
    else None
  }

  /** `consent`: the same checks without response type, grant type and the consent screen itself. */
  function ConsentRefusal(s: Store, req: AuthRequest): Option<Outcome> {
    if !ActiveClient(s, req.clientId) then Some(Err(UnknownClient)) else
    var client := s.clients[req.clientId];
    if req.redirectUri !in client.redirectUris then Some(Err(BadRedirect))
    else if !Scopes.CheckScope(req.scope, client.allowedScopes) then Some(Err(ScopeNotAllowed))
    else if client.requirePkce && !Given(req.challenge) then Some(Err(PkceRequired))
    else None
  }

  function IssueCode(s: Store, refusal: Option<Outcome>, req: AuthRequest, code: string, now: Time): (Store, Outcome) {
    match refusal
    case Some(outcome) => (s, outcome)
    case None => (s.(codes := s.codes[code := NewCode(req, now)]), Ok(CodeIssued(code)))
  }

  // ---------------------------------------------------------------------------
  // Token endpoint
  // ---------------------------------------------------------------------------

  function ClientRefusal(s: Store, clientId: string, secret: Option<string>): Option<Error> {
    if !ActiveClient(s, clientId) then Some(UnknownClient)
    else if !Authenticated(s.clients[clientId], secret) then Some(ClientAuthFailed)
    else None
  }

  /** `_pkce_verify` and the tests around it. */
  function PkceRefusal(client: Client, c: Code, verifier: Option<string>): Option<Error> {
    if !client.requirePkce then None
    else if verifier.None? || verifier.value == "" || !Given(c.challenge) then Some(PkceRequired)
    else if c.challengeMethod.Some? && c.challengeMethod.value != "" &&
        c.challengeMethod.value != "S256" then Some(PkceMethod)
    else if c.challenge.value != S256(verifier.value) then Some(PkceMismatch)
    else None
  }

  datatype CodeRequest = CodeRequest(
    clientId: string, secret: Option<string>, code: string, redirectUri: Option<string>, verifier: Option<string>)

  /** Why a code grant is refused before anything is written. The code must be unused, as the query means to say. */
  function CodeRefusal(s: Store, req: CodeRequest, now: Time): Option<Error> {
    var refusal := ClientRefusal(s, req.clientId, req.secret);
    if refusal.Some? then refusal
    else if req.code == "" then Some(MissingParameter)
    else if req.code !in s.codes || s.codes[req.code].clientId != req.clientId ||
        s.codes[req.code].used then Some(InvalidCode)
    else
      var c := s.codes[req.code];
      if now > c.expiresAt then Some(CodeExpired)
      else if req.redirectUri != Some(c.redirectUri) then Some(BadRedirect)
      else PkceRefusal(s.clients[req.clientId], c, req.verifier)
  }

  function CodeRow(c: Code, code: string, draw: Draw, now: Time): Row {
    var offline := Scopes.Contains(c.scope, "offline_access");
    Row(draw.access, if offline then Some(draw.refresh) else None, c.clientId, c.userId, c.scope,
        if offline then Some(now + REFRESH_TTL) else None, if offline then Some(draw.family) else None,
        false, FromCode(code))
  }

  function CodeGrant(s: Store, req: CodeRequest, draw: Draw, now: Time): (Store, Outcome) {
    var refusal := CodeRefusal(s, req, now);
    if refusal.Some? then (s, Err(refusal.value)) else
    var c := s.codes[req.code];
    if !ActiveUser(s, c.userId) then (s, Err(UserInactive)) else
    var row := CodeRow(c, req.code, draw, now);
    (s.(codes := s.codes[req.code := c.(used := true)], rows := s.rows + [row]),
     Ok(Tokens(row.access, row.refresh, Scopes.Contains(c.scope, "openid"))))
  }

  datatype RefreshRequest = RefreshRequest(clientId: string, secret: Option<string>, token: string)

  /** The row whose refresh token the client presents, revoked or not. */
  function Presented(s: Store, req: RefreshRequest): Option<nat> {
    Find(s.rows, (r: Row) => r.refresh == Some(req.token) && r.clientId == req.clientId)
  }

  /** The theft signal revokes the presented row's family among the client's rows. */
  function KillFamily(s: Store, i: nat): Store
    requires i < |s.rows|
  {
    var f, c := s.rows[i].family, s.rows[i].clientId;
    if f.None? then s
    else s.(rows := RevokeWhere(s.rows, (r: Row) => r.family == f && r.clientId == c))
  }

  function Rotated(s: Store, i: nat, draw: Draw, now: Time): Row
    requires i < |s.rows|
  {
    var prior := s.rows[i];
    Row(draw.access, Some(draw.refresh), prior.clientId, prior.userId, prior.scope,
        Some(now + REFRESH_TTL), prior.family, false, FromRow(i))
  }

  function RefreshGrant(s: Store, req: RefreshRequest, draw: Draw, now: Time): (Store, Outcome) {
    var refusal := ClientRefusal(s, req.clientId, req.secret);
    if refusal.Some? then (s, Err(refusal.value))
    else if req.token == "" then (s, Err(MissingParameter)) else
    var found := Presented(s, req);
    if found.None? then (s, Err(InvalidRefresh)) else
    var i := found.value;
    var row := s.rows[i];
    if row.revoked then (KillFamily(s, i), Err(ReuseDetected))
    else if row.refreshExpiresAt.Some? && now > row.refreshExpiresAt.value then (s, Err(RefreshExpired))
    else if !ActiveUser(s, row.userId) then (s, Err(UserInactive))
    else (s.(rows := RevokeAt(s.rows, i) + [Rotated(s, i, draw, now)]),
        Ok(Tokens(draw.access, Some(draw.refresh), false)))
  }

  // ---------------------------------------------------------------------------
  // Revocation
  // ---------------------------------------------------------------------------

  /**
   `revoke`: `jti` is what the token decodes to on this worker, if it decodes. A jti that is already
   blacklisted makes the insert fail and the request end in a server error with everything rolled back.
   */
  function Revoke(s: Store, token: string, jti: Option<string>): (Store, Outcome) {
    if jti.Some? && jti.value in s.blacklist then (s, Err(ServerError)) else
    var blacklist := if jti.Some? then s.blacklist + {jti.value} else s.blacklist;
    var found := Find(s.rows, Carrying(token));
    var rows := if found.Some? then RevokeAt(s.rows, found.value) else s.rows;
    (s.(blacklist := blacklist, rows := rows), Ok(Done))
  }

  /** `revoke_session` for the row with this id. */
  function RevokeSession(s: Store, id: nat, userId: string, jti: Option<string>): (Store, Outcome) {
    if id >= |s.rows| || s.rows[id].userId != userId then (s, Err(NotFound))
    else if s.rows[id].revoked then (s, Ok(Done))
    else if jti.Some? && jti.value in s.blacklist then (s, Err(ServerError))
    else (s.(rows := RevokeAt(s.rows, id),
             blacklist := if jti.Some? then s.blacklist + {jti.value} else s.blacklist), Ok(Done))
  }

  /** `revoke_all_sessions`: `jtis` are those of the user's unrevoked rows. The query means `revoked = false`. */
  function RevokeAllSessions(s: Store, userId: string, jtis: set<string>): (Store, Outcome) {
    if Find(s.rows, LiveRowOf(userId)).None? then (s, Ok(Done))
    else if jtis * s.blacklist != {} then (s, Err(ServerError))
    else (s.(rows := RevokeWhere(s.rows, LiveRowOf(userId)), blacklist := s.blacklist + jtis), Ok(Done))
  }
}
