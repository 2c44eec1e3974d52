/** What the three ways of revoking a grant do to the tables, and that what they revoke stays unusable. */
module TokenRevocation {
  import opened Common
  import opened OAuthStore
  import opened TokenFamilies

  /** The two token columns of a row. */
  predicate Bears(r: Row, token: string) {
    r.access == token || r.refresh == Some(token)
  }

  ghost predicate FirstBearer(rows: seq<Row>, token: string, i: nat) {
    i < |rows| && Bears(rows[i], token) && forall j :: 0 <= j < i ==> !Bears(rows[j], token)
  }

  function Listed(jti: Option<string>): set<string> {
    if jti.Some? then {jti.value} else {}
  }

  // ---------------------------------------------------------------------------
  // One request
  // ---------------------------------------------------------------------------

  /**
   A successful revocation lists exactly the token's jti, revokes the first row that bears the token, and changes
   nothing else.
   */
  lemma RevokeEffect(s: Store, token: string, jti: Option<string>)
    ensures var (s', outcome) := Revoke(s, token, jti);
            && outcome == (if jti.Some? && jti.value in s.blacklist then Err(ServerError) else Ok(Done))
            && (outcome.Err? ==> s' == s)
    ensures Revoke(s, token, jti).1 == Ok(Done) ==>
            var s' := Revoke(s, token, jti).0;
            && s'.blacklist == s.blacklist + Listed(jti)
            && s'.codes == s.codes && s'.clients == s.clients && s'.users == s.users
            && |s'.rows| == |s.rows|
            && forall i :: 0 <= i < |s.rows| ==>
                 s'.rows[i] == s.rows[i].(revoked := s.rows[i].revoked || FirstBearer(s.rows, token, i))
  {
    var found := Find(s.rows, Carrying(token));
    if found.Some? {
      assert Carrying(token)(s.rows[found.value]);
      assert forall j :: 0 <= j < found.value ==> !Carrying(token)(s.rows[j]);
    } else {
      assert forall j :: 0 <= j < |s.rows| ==> !Carrying(token)(s.rows[j]);
    }
  }

  /** Ending a session is the owner's alone; it revokes that one live row and lists its jti. */
  lemma EndSessionEffect(s: Store, id: nat, userId: string, jti: Option<string>)
    ensures var (s', outcome) := RevokeSession(s, id, userId, jti);
            var owned := id < |s.rows| && s.rows[id].userId == userId;
            && (outcome == Err(NotFound) <==> !owned)
            && (outcome == Ok(Done) <==> owned && (s.rows[id].revoked || Listed(jti) * s.blacklist == {}))
            && (outcome == Ok(Done) && !s.rows[id].revoked ==>
                  s' == s.(rows := s.rows[id := s.rows[id].(revoked := true)], blacklist := s.blacklist + Listed(jti)))
            && (!(outcome == Ok(Done) && !s.rows[id].revoked) ==> s' == s)
  {
    assert jti.Some? ==> (jti.value in s.blacklist <==> Listed(jti) * s.blacklist != {}) by {
      if jti.Some? && jti.value in s.blacklist {
        assert jti.value in Listed(jti) * s.blacklist;
      }
    }
  }

  /** Ending all sessions revokes exactly the user's live rows and lists their jtis, or fails and changes nothing. */
  lemma EndAllSessionsEffect(s: Store, userId: string, jtis: set<string>)
    ensures var (s', outcome) := RevokeAllSessions(s, userId, jtis);
            var some := exists i :: 0 <= i < |s.rows| && s.rows[i].userId == userId && !s.rows[i].revoked;
            && (outcome == Ok(Done) <==> !some || jtis * s.blacklist == {})
            && (outcome != Ok(Done) || !some ==> s' == s)
            && (outcome == Ok(Done) && some ==>
                  && s'.blacklist == s.blacklist + jtis
                  && s'.codes == s.codes && s'.clients == s.clients && s'.users == s.users
                  && |s'.rows| == |s.rows|
                  && forall i :: 0 <= i < |s.rows| ==>
                       s'.rows[i] == s.rows[i].(revoked := s.rows[i].revoked || s.rows[i].userId == userId))
  {
    var found := Find(s.rows, LiveRowOf(userId));
    if found.Some? {
      assert LiveRowOf(userId)(s.rows[found.value]);
    } else {
      assert forall j :: 0 <= j < |s.rows| ==> !LiveRowOf(userId)(s.rows[j]);
    }
  }

  // ---------------------------------------------------------------------------
  // Over runs
  // ---------------------------------------------------------------------------

  /** The request is a refresh with this token. */
  predicate RefreshesWith(t: Timed, token: string) {
    t.step.Refresh? && t.step.refreshReq.token == token
  }

  /** Once a row is revoked, no run ever leads to a refresh with its token that succeeds. */
  lemma RevokedNeverRefreshes(s: Store, i: nat, rest: seq<Timed>, t: Timed)
    requires Inv(s) && Legal(s, rest) && i < |s.rows| && s.rows[i].revoked && s.rows[i].refresh.Some?
    requires RefreshesWith(t, s.rows[i].refresh.value)
    ensures Serve(Run(s, rest), t).1.Err?
  {
    RunKeeps(s, rest);
    var u := Run(s, rest);
    assert u.rows[i].revoked && u.rows[i].refresh == s.rows[i].refresh;
    var found := Presented(u, t.step.refreshReq);
    if found.Some? {
      assert u.rows[found.value].refresh == u.rows[i].refresh;
      assert found.value == i;
    }
  }

  /** No two rows bear the same token. */
  lemma OneBearer(s: Store, i: nat, token: string)
    requires Inv(s) && i < |s.rows| && Bears(s.rows[i], token)
    ensures FirstBearer(s.rows, token, i)
  {
  }

  /** The revocations a row's owner, or whoever holds one of its tokens, can ask for. */
  ghost predicate RevokesRow(s: Store, t: Timed, i: nat)
    requires i < |s.rows|
  {
    match t.step
    case RevokeToken(token, _) => Bears(s.rows[i], token)
    case EndSession(id, userId, _) => id == i && userId == s.rows[i].userId
    case EndAllSessions(userId, _) => userId == s.rows[i].userId
    case _ => false
  }

  lemma RevokingRevokes(s: Store, t: Timed, i: nat)
    requires Inv(s) && i < |s.rows| && RevokesRow(s, t, i) && Serve(s, t).1 == Ok(Done)
    ensures |After(s, t).rows| == |s.rows| && After(s, t).rows[i] == s.rows[i].(revoked := true)
  {
    match t.step
    case RevokeToken(token, jti) =>
      OneBearer(s, i, token);
      RevokeEffect(s, token, jti);
    case EndSession(id, userId, jti) => EndSessionEffect(s, id, userId, jti);
    case EndAllSessions(userId, jtis) => EndAllSessionsEffect(s, userId, jtis);
  }

  /**
   In every run: after a successful revocation of a grant - by one of its tokens, by ending its session or all
   sessions of its user - no later refresh with its refresh token succeeds.
   */
  lemma RevocationIsFinal(s: Store, before: seq<Timed>, revoke: Timed, i: nat, rest: seq<Timed>, t: Timed)
    requires Initial(s) && Legal(s, before) && i < |Run(s, before).rows| && Run(s, before).rows[i].refresh.Some?
    requires Possible(Run(s, before), revoke) && RevokesRow(Run(s, before), revoke, i)
    requires Serve(Run(s, before), revoke).1 == Ok(Done) && Legal(After(Run(s, before), revoke), rest)
    requires RefreshesWith(t, Run(s, before).rows[i].refresh.value)
    ensures Serve(Run(After(Run(s, before), revoke), rest), t).1.Err?
  {
    RunKeeps(s, before);
    RevokingRevokes(Run(s, before), revoke, i);
    InvStep(Run(s, before), revoke);
    RevokedNeverRefreshes(After(Run(s, before), revoke), i, rest, t);
  }

  /** And if its client presents the revoked token again, the whole family dies for good. */
  lemma RevokedThenPresented(
    s: Store, before: seq<Timed>, revoke: Timed, i: nat, rest: seq<Timed>, t: Timed, last: seq<Timed>)
    requires Initial(s) && Legal(s, before) && i < |Run(s, before).rows|
    requires Run(s, before).rows[i].refresh.Some? && Run(s, before).rows[i].refresh.value != ""
    requires Possible(Run(s, before), revoke) && RevokesRow(Run(s, before), revoke, i)
    requires Serve(Run(s, before), revoke).1 == Ok(Done) && Legal(After(Run(s, before), revoke), rest)
    requires var row, u := Run(s, before).rows[i], Run(After(Run(s, before), revoke), rest);
             && RefreshesWith(t, row.refresh.value) && t.step.refreshReq.clientId == row.clientId && Possible(u, t)
             && ActiveClient(u, row.clientId) && Authenticated(u.clients[row.clientId], t.step.refreshReq.secret)
             && Legal(After(u, t), last)
    ensures var u := Run(After(Run(s, before), revoke), rest);
            && Serve(u, t).1 == Err(ReuseDetected)
            && Run(s, before).rows[i].family.Some? && Dead(Run(After(u, t), last), Run(s, before).rows[i].family.value)
  {
    RunKeeps(s, before);
    var v := Run(s, before);
    RevokingRevokes(v, revoke, i);
    InvStep(v, revoke);
    RunKeeps(After(v, revoke), rest);
    var u := Run(After(v, revoke), rest);
    assert u.rows[i].revoked && u.rows[i] == v.rows[i].(revoked := true);
    ReplayKillsFamilyForGood(u, t, i, last);
  }
}
