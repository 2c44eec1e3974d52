/** Exactly which token requests succeed, what they answer, and what they store. */
module GrantDecisions {
  import opened Common
  import opened OAuthStore
  import opened TokenFamilies
  import Grants
  import Scopes

  /**
   An active client, and for a confidential one its secret. No secret is kept for a public client, and
   an empty secret never authenticates.
   */
  ghost predicate ClientOk(s: Store, clientId: string, secret: Option<string>) {
    && clientId in s.clients && s.clients[clientId].active
    && (s.clients[clientId].secret == None || (secret == s.clients[clientId].secret && secret != Some("")))
  }

  lemma ClientRefusalIff(s: Store, clientId: string, secret: Option<string>)
    ensures ClientRefusal(s, clientId, secret) == None <==> ClientOk(s, clientId, secret)
    ensures ClientRefusal(s, clientId, secret) == Some(UnknownClient) <==>
              clientId !in s.clients || !s.clients[clientId].active
  {
  }

  /** The verifier is the preimage of the stored challenge, under the one method allowed. */
  ghost predicate ProofOk(c: Code, verifier: Option<string>) {
    && verifier.Some? && verifier.value != "" && c.challenge == Some(S256(verifier.value))
    && c.challengeMethod in {None, Some(""), Some("S256")}
  }

  lemma PkceRefusalIff(client: Client, c: Code, verifier: Option<string>)
    ensures PkceRefusal(client, c, verifier) == None <==> !client.requirePkce || ProofOk(c, verifier)
  {
  }

  /**
   The code is one of this client's, unused and unexpired, for this redirect URI and proof key, and its user is
   active.
   */
  ghost predicate CodeOk(s: Store, req: CodeRequest, now: Time)
    requires req.clientId in s.clients
  {
    && req.code != "" && req.code in s.codes
    && var c := s.codes[req.code];
       && c.clientId == req.clientId && !c.used && now <= c.expiresAt && req.redirectUri == Some(c.redirectUri)
       && (s.clients[req.clientId].requirePkce ==> ProofOk(c, req.verifier))
       && c.userId in s.users && s.users[c.userId]
  }

  /**
   A code grant succeeds if and only if the client and the code are in order. Then the code is used, one row with
   the code's client, user and scope is added, and the answer carries exactly that row's tokens; otherwise nothing
   is stored.
   */
  lemma CodeGrantIff(s: Store, req: CodeRequest, draw: Draw, now: Time)
    ensures var (s', outcome) := CodeGrant(s, req, draw, now);
            && (outcome.Ok? <==> ClientOk(s, req.clientId, req.secret) && CodeOk(s, req, now))
            && (outcome.Err? ==> s' == s)
            && (outcome.Ok? ==>
                  && req.code in s.codes
                  && var c, n := s.codes[req.code], |s.rows|;
                     && |s'.rows| == n + 1 && s'.rows[..n] == s.rows
                     && s'.codes == s.codes[req.code := c.(used := true)]
                     && s'.clients == s.clients && s'.users == s.users && s'.blacklist == s.blacklist
                     && outcome.value.Tokens?
                     && outcome.value.access == s'.rows[n].access && outcome.value.refresh == s'.rows[n].refresh
                     && s'.rows[n].access == draw.access && s'.rows[n].refresh in {None, Some(draw.refresh)}
                     && SameGrant(s'.rows[n], c.clientId, c.userId, c.scope) && !s'.rows[n].revoked
                     && (s'.rows[n].refresh.Some? <==> Scopes.Contains(c.scope, "offline_access"))
                     && s'.rows[n].family == (if s'.rows[n].refresh.Some? then Some(draw.family) else None)
                     && s'.rows[n].refreshExpiresAt ==
                          if s'.rows[n].refresh.Some? then Some(now + 30 * DAY) else None)
  {
    ClientRefusalIff(s, req.clientId, req.secret);
    if req.clientId in s.clients && req.code in s.codes {
      PkceRefusalIff(s.clients[req.clientId], s.codes[req.code], req.verifier);
    }
  }

  /** Row i is the client's, bears the token, is unrevoked and unexpired, and its user is active. */
  ghost predicate RowOk(s: Store, req: RefreshRequest, i: nat, now: Time) {
    && i < |s.rows| && s.rows[i].refresh == Some(req.token) && s.rows[i].clientId == req.clientId
    && !s.rows[i].revoked && (s.rows[i].refreshExpiresAt.Some? ==> now <= s.rows[i].refreshExpiresAt.value)
    && s.rows[i].userId in s.users && s.users[s.rows[i].userId]
  }

  /** A revoked row of this client bears the token. */
  ghost predicate RowReused(s: Store, req: RefreshRequest, i: nat) {
    i < |s.rows| && s.rows[i].refresh == Some(req.token) && s.rows[i].clientId == req.clientId && s.rows[i].revoked
  }

  lemma PresentedIs(s: Store, req: RefreshRequest, i: nat)
    requires Inv(s) && i < |s.rows| && s.rows[i].refresh == Some(req.token) && s.rows[i].clientId == req.clientId
    ensures Presented(s, req) == Some(i)
  {
    var found := Presented(s, req);
    assert found.Some?;
    assert s.rows[found.value].refresh == s.rows[i].refresh;
  }

  lemma PresentedOnly(s: Store, req: RefreshRequest)
    requires Presented(s, req).Some?
    ensures var i := Presented(s, req).value;
            i < |s.rows| && s.rows[i].refresh == Some(req.token) && s.rows[i].clientId == req.clientId
  {
  }

  /**
   In a store reached by any run, a refresh succeeds if and only if the client is in order and a row as described
   bears the token; it is answered as reuse if and only if a revoked row of the client bears it; and only then
   anything is stored besides a success.
   */
  lemma RefreshGrantIff(s: Store, req: RefreshRequest, draw: Draw, now: Time)
    requires Inv(s)
    ensures var (s', outcome) := RefreshGrant(s, req, draw, now);
            var known := ClientOk(s, req.clientId, req.secret) && req.token != "";
            && (outcome.Ok? <==> known && exists i :: RowOk(s, req, i, now))
            && (outcome == Err(ReuseDetected) <==> known && exists i :: RowReused(s, req, i))
            && (outcome.Err? && outcome.error != ReuseDetected ==> s' == s)
  {
    ClientRefusalIff(s, req.clientId, req.secret);
    if i :| RowOk(s, req, i, now) {
      PresentedIs(s, req, i);
    }
    if i :| RowReused(s, req, i) {
      PresentedIs(s, req, i);
    }
    if Presented(s, req).Some? {
      var i := Presented(s, req).value;
      PresentedOnly(s, req);
      assert RefreshGrant(s, req, draw, now).1.Ok? ==> RowOk(s, req, i, now);
      assert RefreshGrant(s, req, draw, now).1 == Err(ReuseDetected) ==> RowReused(s, req, i);
    }
  }

  /** The answer of a successful refresh carries the tokens of the row it adds, which replaces the presented one. */
  lemma RefreshAnswer(s: Store, req: RefreshRequest, draw: Draw, now: Time, i: nat)
    requires Inv(s) && RefreshGrant(s, req, draw, now).1.Ok? && RowOk(s, req, i, now)
    ensures var (s', outcome) := RefreshGrant(s, req, draw, now);
            var n := |s.rows|;
            && outcome.value.Tokens? && Grants.Exchanged(s.rows, s'.rows, i)
            && outcome.value.access == s'.rows[n].access == draw.access
            && outcome.value.refresh == s'.rows[n].refresh == Some(draw.refresh)
            && s'.rows[n].refreshExpiresAt == Some(now + 30 * DAY)
            && s'.codes == s.codes && s'.clients == s.clients && s'.users == s.users && s'.blacklist == s.blacklist
  {
    PresentedIs(s, req, i);
  }

  /**
   Detected reuse revokes the rows of the presented row's family that belong to its client, and changes nothing
   else.
   */
  lemma ReuseEffect(s: Store, req: RefreshRequest, draw: Draw, now: Time, i: nat)
    requires Inv(s) && RowReused(s, req, i) && RefreshGrant(s, req, draw, now).1 == Err(ReuseDetected)
    ensures var s', killed := RefreshGrant(s, req, draw, now).0, s.rows[i].family;
            && s'.codes == s.codes && s'.clients == s.clients && s'.users == s.users && s'.blacklist == s.blacklist
            && |s'.rows| == |s.rows|
            && forall j :: 0 <= j < |s.rows| ==>
                 s'.rows[j] == s.rows[j].(revoked := s.rows[j].revoked
                   || (killed.Some? && s.rows[j].family == killed && s.rows[j].clientId == req.clientId))
  {
    PresentedIs(s, req, i);
  }

  // ---------------------------------------------------------------------------
  // Over runs
  // ---------------------------------------------------------------------------

  lemma {:induction false} RunSplit(s: Store, run: seq<Timed>, k: nat)
    requires Legal(s, run) && k <= |run|
    ensures Legal(s, run[..k]) && Legal(Run(s, run[..k]), run[k..])
    ensures Run(s, run) == Run(Run(s, run[..k]), run[k..])
    decreases k
  {
    if k == 0 {
      assert run[..0] == [] && run[0..] == run;
    } else {
      RunSplit(After(s, run[0]), run[1..], k - 1);
      assert run[..k][1..] == run[1..][..k - 1] && run[..k][0] == run[0];
      assert run[1..][k - 1..] == run[k..];
    }
  }

  /** The k-th request of the run was answered with this code. */
  ghost predicate Answered(s: Store, run: seq<Timed>, k: nat, code: string) {
    && k < |run| && (run[k].step.Authorize? || run[k].step.Consent?) && run[k].step.code == code
    && Serve(Run(s, run[..k]), run[k]).1 == Ok(CodeIssued(code))
  }

  /** What is then on record for it, whatever happened since. */
  lemma AnsweredCodeOnRecord(s: Store, run: seq<Timed>, k: nat, code: string)
    requires Initial(s) && Legal(s, run) && Answered(s, run, k, code)
    ensures code in Run(s, run).codes
    ensures var c, asked := Run(s, run).codes[code], run[k].step.req;
            && c.clientId == asked.clientId && c.userId == asked.userId && c.redirectUri == asked.redirectUri
            && c.scope == asked.scope && c.challenge == asked.challenge && c.challengeMethod == asked.challengeMethod
            && c.expiresAt == run[k].now + 60 * SECOND
  {
    RunSplit(s, run, k);
    RunKeeps(s, run[..k]);
    var u := Run(s, run[..k]);
    var v := After(u, run[k]);
    assert run[k..][0] == run[k] && run[k..][1..] == run[k + 1..];
    InvStep(u, run[k]);
    RunKeeps(v, run[k + 1..]);
    assert v.codes[code] == NewCode(run[k].step.req, run[k].now);
  }

  lemma RequestedWasAnswered(s: Store, run: seq<Timed>, k: nat, code: string, c: Code)
    requires k < |run| && Grants.Requested(Run(s, run[..k]), run[k], code, c)
    ensures Answered(s, run, k, code)
  {
  }

  /** Everything a code grant needs, in terms of the request that was answered with the code. */
  ghost predicate DueFor(s: Store, run: seq<Timed>, k: nat, req: CodeRequest, now: Time)
    requires k < |run| && (run[k].step.Authorize? || run[k].step.Consent?)
  {
    var t, asked := Run(s, run), run[k].step.req;
    && asked.clientId == req.clientId && req.redirectUri == Some(asked.redirectUri) && now <= run[k].now + 60 * SECOND
    && req.code in t.codes && !t.codes[req.code].used
    && ClientOk(t, req.clientId, req.secret)
    && (t.clients[req.clientId].requirePkce ==>
          && req.verifier.Some? && req.verifier.value != "" && asked.challenge == Some(S256(req.verifier.value))
          && asked.challengeMethod in {None, Some(""), Some("S256")})
    && asked.userId in t.users && t.users[asked.userId]
  }

  /**
   In every run a code grant succeeds if and only if it is due: the code was given in answer to an authorization or
   consent request of the run, made at most sixty seconds earlier by this client for this redirect URI; it is
   unused; the
   client authenticates and proves its key; and the user who asked is active.
   */
  lemma GrantSucceedsIffDue(s: Store, run: seq<Timed>, req: CodeRequest, draw: Draw, now: Time)
    requires Initial(s) && Legal(s, run) && req.code != ""
    ensures CodeGrant(Run(s, run), req, draw, now).1.Ok? <==>
              exists k :: 0 <= k < |run| && Answered(s, run, k, req.code) && DueFor(s, run, k, req, now)
  {
    var t := Run(s, run);
    CodeGrantIff(t, req, draw, now);
    if CodeGrant(t, req, draw, now).1.Ok? {
      Grants.CodesWereRequested(s, run, req.code);
      var k :| 0 <= k < |run| && Grants.Requested(Run(s, run[..k]), run[k], req.code, t.codes[req.code]);
      RequestedWasAnswered(s, run, k, req.code, t.codes[req.code]);
      AnsweredCodeOnRecord(s, run, k, req.code);
      assert DueFor(s, run, k, req, now);
    }
    if k :| 0 <= k < |run| && Answered(s, run, k, req.code) && DueFor(s, run, k, req, now) {
      AnsweredCodeOnRecord(s, run, k, req.code);
    }
  }
}
