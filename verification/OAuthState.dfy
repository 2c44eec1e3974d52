/**
 The signed `state` parameter of the Google and enterprise sign-in flows: printer, parser, freshness and replay
 check. The base64 and UTF-8 layer around the printed string is not part of this model.
 */
module OAuthState {
  import opened Common
  import opened Revocation

  datatype Fields = Fields(tenant: string, nonce: string, ts: string, sig: string)

  /** ServerError: an exception the handler does not turn into a 400. */
  datatype StateError = Malformed | BadSignature | Expired | AlreadyUsed | ServerError

  const MAX_AGE_SECONDS := 300

  // ---------------------------------------------------------------------------
  // Printing and parsing
  // ---------------------------------------------------------------------------

  predicate ColonFree(s: string) {
    ':' !in s
  }

  function Payload(tenant: string, nonce: string, ts: string): string {
    tenant + ":" + nonce + ":" + ts
  }

  function Print(f: Fields): string {
    Payload(f.tenant, f.nonce, f.ts) + ":" + f.sig
  }

  /** Where the last colon is, |s| if there is none. */
  function LastColon(s: string): (i: nat)
    ensures i <= |s|
    ensures i < |s| ==> s[i] == ':' && forall k :: i < k < |s| ==> s[k] != ':'
    ensures i == |s| ==> ColonFree(s)
  {
    if s == [] then 0
    else if s[|s| - 1] == ':' then |s| - 1
    else
      var i := LastColon(s[..|s| - 1]);
      if i == |s| - 1 then |s| else i
  }

  /** Split at the last `n` colons, or at all of them if there are fewer. */
  function RSplit(s: string, n: nat): (parts: seq<string>)
    ensures 1 <= |parts| <= n + 1
  {
    var i := LastColon(s);
    if n == 0 || i == |s| then [s] else RSplit(s[..i], n - 1) + [s[i + 1..]]
  }

  function Parse(raw: string): Option<Fields> {
    var parts := RSplit(raw, 3);
    if |parts| == 4 then Some(Fields(parts[0], parts[1], parts[2], parts[3])) else None
  }

  lemma {:induction false} LastColonOf(front: string, back: string)
    requires ColonFree(back)
    ensures LastColon(front + ":" + back) == |front|
    decreases |back|
  {
    var s := front + ":" + back;
    if back == "" {
      assert s[|s| - 1] == ':';
    } else {
      var init := back[..|back| - 1];
      LastColonOf(front, init);
      assert s[..|s| - 1] == front + ":" + init;
      assert s[|s| - 1] == back[|back| - 1];
    }
  }

  /** Splitting off the last piece. */
  lemma RSplitOnce(front: string, back: string, n: nat)
    requires ColonFree(back)
    ensures RSplit(front + ":" + back, n + 1) == RSplit(front, n) + [back]
  {
    LastColonOf(front, back);
    var s := front + ":" + back;
    assert s[..|front|] == front && s[|front| + 1..] == back;
  }

  ghost predicate Parsable(f: Fields) {
    ColonFree(f.nonce) && ColonFree(f.ts) && ColonFree(f.sig)
  }

  /** Whatever the tenant string holds, colons included, the printed state parses back to its fields. */
  lemma ParsePrint(f: Fields)
    requires Parsable(f)
    ensures Parse(Print(f)) == Some(f)
  {
    RSplitOnce(Payload(f.tenant, f.nonce, f.ts), f.sig, 2);
    RSplitOnce(f.tenant + ":" + f.nonce, f.ts, 1);
    RSplitOnce(f.tenant, f.nonce, 0);
  }

  lemma CutAtColon(s: string, i: nat)
    requires i < |s| && s[i] == ':'
    ensures s == s[..i] + ":" + s[i + 1..]
  {
  }

  lemma TwoParts(s: string)
    ensures |RSplit(s, 1)| == 2 ==> RSplit(s, 1)[0] + ":" + RSplit(s, 1)[1] == s && ColonFree(RSplit(s, 1)[1])
  {
  }

  lemma ThreeParts(s: string)
    ensures var p := RSplit(s, 2);
            |p| == 3 ==> Payload(p[0], p[1], p[2]) == s && ColonFree(p[1]) && ColonFree(p[2])
  {
    if LastColon(s) < |s| {
      CutAtColon(s, LastColon(s));
      TwoParts(s[..LastColon(s)]);
    }
  }

  /** Parsing inverts printing exactly: a payload parses to f if and only if it is f printed. */
  lemma ParseIffPrinted(raw: string, f: Fields)
    ensures Parse(raw) == Some(f) <==> raw == Print(f) && Parsable(f)
  {
    if Parse(raw) == Some(f) {
      CutAtColon(raw, LastColon(raw));
      ThreeParts(raw[..LastColon(raw)]);
    }
    if raw == Print(f) && Parsable(f) {
      ParsePrint(f);
    }
  }

  function Colons(s: string): nat {
    if s == [] then 0 else Colons(s[..|s| - 1]) + if s[|s| - 1] == ':' then 1 else 0
  }

  lemma {:induction false} ColonsBefore(s: string)
    ensures LastColon(s) == |s| ==> Colons(s) == 0
    ensures LastColon(s) < |s| ==> Colons(s) == Colons(s[..LastColon(s)]) + 1
  {
    if s != [] && s[|s| - 1] != ':' {
      var init := s[..|s| - 1];
      ColonsBefore(init);
      if LastColon(init) < |init| {
        assert init[..LastColon(init)] == s[..LastColon(init)];
      }
    }
  }

  lemma {:induction false} PartsCountColons(s: string, n: nat)
    ensures |RSplit(s, n)| == Min(Colons(s), n) + 1
    decreases n
  {
    ColonsBefore(s);
    if n > 0 && LastColon(s) < |s| {
      PartsCountColons(s[..LastColon(s)], n - 1);
    }
  }

  /** Exactly the strings with fewer than three colons are malformed. */
  lemma MalformedIff(raw: string)
    ensures Parse(raw) == None <==> Colons(raw) < 3
  {
    PartsCountColons(raw, 3);
  }

  /** A signed payload names one tenant and one nonce. */
  lemma PayloadInjective(f: Fields, g: Fields)
    requires Parsable(f) && Parsable(g)
    requires Payload(f.tenant, f.nonce, f.ts) == Payload(g.tenant, g.nonce, g.ts)
    ensures f == g.(sig := f.sig)
  {
    ParsePrint(f);
    ParsePrint(g.(sig := f.sig));
  }

  // ---------------------------------------------------------------------------
  // The timestamp
  // ---------------------------------------------------------------------------

  predicate IsDigit(c: char) {
    '0' <= c <= '9'
  }

  function Digits(n: nat): (s: string)
    ensures s != [] && forall c :: c in s ==> IsDigit(c)
  {
    var last := [('0' as int + n % 10) as char];
    if n < 10 then last else Digits(n / 10) + last
  }

  /** The number a non-empty string of digits denotes. */
  function Number(s: string): Option<nat> {
    if s == [] || !IsDigit(s[|s| - 1]) then None
    else
      var digit := s[|s| - 1] as int - '0' as int;
      if |s| == 1 then Some(digit)
      else match Number(s[..|s| - 1])
           case Some(n) => Some(10 * n + digit)
           case None => None
  }

  lemma {:induction false} NumberDigits(n: nat)
    ensures Number(Digits(n)) == Some(n)
  {
    if n >= 10 {
      NumberDigits(n / 10);
      assert Digits(n)[..|Digits(n)| - 1] == Digits(n / 10);
    }
  }

  // ---------------------------------------------------------------------------
  // Generating and verifying; `mac` is the keyed hash in hexadecimal
  // ---------------------------------------------------------------------------

  function Generate(tenant: string, nonce: string, now: Time, mac: string -> string): string
    requires 0 <= now
  {
    var ts := Digits(now / SECOND);
    Print(Fields(tenant, nonce, ts, mac(Payload(tenant, nonce, ts))))
  }

  predicate Ascii(s: string) {
    forall c :: c in s ==> c as int < 128
  }

  /**
   `verify_oauth_state` on a worker holding `revoked`: the tenant and the nonce. Comparing a signature that is not
   ASCII raises, and so does reading a timestamp that is no number.
   */
  function Verify(raw: string, now: Time, mac: string -> string, revoked: set<Entry>)
    : Result<(string, string), StateError>
  {
    match Parse(raw)
    case None => Err(Malformed)
    case Some(f) =>
      if !Ascii(f.sig) then Err(ServerError)
      else if f.sig != mac(Payload(f.tenant, f.nonce, f.ts)) then Err(BadSignature)
      else match Number(f.ts)
           case None => Err(ServerError)
           case Some(ts) =>
             if now / SECOND - ts > MAX_AGE_SECONDS then Err(Expired)
             else if OAuthNonce(f.nonce) in revoked then Err(AlreadyUsed)
             else Ok((f.tenant, f.nonce))
  }

  /** `_verify_enterprise_state`, the second copy: only the tenant, and no replay check. */
  function VerifyEnterprise(raw: string, now: Time, mac: string -> string): Result<string, StateError> {
    var parts := RSplit(raw, 3);
    if |parts| < 4 then Err(Malformed) else
    var tenant, nonce, ts, sig := parts[0], parts[1], parts[2], parts[3];
    var expected := mac(tenant + ":" + nonce + ":" + ts);
    if exists c :: c in sig && c as int >= 128 then Err(ServerError)
    else if sig != expected then Err(BadSignature)
    else if Number(ts).None? then Err(ServerError)
    else if now / SECOND > Number(ts).value + 300 then Err(Expired)
    else Ok(tenant)
  }

  ghost predicate HexMac(mac: string -> string) {
    forall p :: ColonFree(mac(p)) && Ascii(mac(p))
  }

  /** A generated state comes back with its tenant and nonce, for 300 whole seconds and until the nonce is used. */
  lemma VerifyGenerated(tenant: string, nonce: string, made: Time, now: Time, mac: string -> string,
      revoked: set<Entry>)
    requires ColonFree(nonce) && HexMac(mac) && 0 <= made
    ensures Verify(Generate(tenant, nonce, made, mac), now, mac, revoked)
         == if now / SECOND > made / SECOND + MAX_AGE_SECONDS then Err(Expired)
            else if OAuthNonce(nonce) in revoked then Err(AlreadyUsed)
            else Ok((tenant, nonce))
  {
    var ts := Digits(made / SECOND);
    ParsePrint(Fields(tenant, nonce, ts, mac(Payload(tenant, nonce, ts))));
    NumberDigits(made / SECOND);
  }

  /** A state that was made by Generate. */
  datatype Issued = Issued(tenant: string, nonce: string, made: nat)

  function SignedPayload(i: Issued): string {
    Payload(i.tenant, i.nonce, Digits(i.made / SECOND))
  }

  /**
   With signatures that only Generate can make, an accepted state is, character for character, one that was
   generated, and it yields the tenant and nonce it was generated for.
   */
  lemma AcceptedWasGenerated(
    raw: string, now: Time, mac: string -> string, revoked: set<Entry>, tenant: string, nonce: string,
        issued: set<Issued>)
    requires forall i :: i in issued ==> ColonFree(i.nonce)
    requires Parse(raw).Some? ==>
               var f := Parse(raw).value;
               f.sig == mac(Payload(f.tenant, f.nonce, f.ts)) ==>
                 exists i :: i in issued && SignedPayload(i) == Payload(f.tenant, f.nonce, f.ts)
    requires Verify(raw, now, mac, revoked) == Ok((tenant, nonce))
    ensures exists i :: i in issued && i.tenant == tenant && i.nonce == nonce
                        && raw == Generate(tenant, nonce, i.made, mac)
                        && now / SECOND <= i.made / SECOND + MAX_AGE_SECONDS
  {
    var f := Parse(raw).value;
    ParseIffPrinted(raw, f);
    var i :| i in issued && SignedPayload(i) == Payload(f.tenant, f.nonce, f.ts);
    var g := Fields(i.tenant, i.nonce, Digits(i.made / SECOND), f.sig);
    PayloadInjective(f, g);
    NumberDigits(i.made / SECOND);
  }

  /**
   The two copies of the codec agree on every string: the enterprise copy accepts for a tenant exactly what the
   Google copy accepts for it, or would have if the nonce were unused, and otherwise they give the same error.
   */
  lemma CodecsAgree(raw: string, now: Time, mac: string -> string, revoked: set<Entry>, tenant: string)
    ensures VerifyEnterprise(raw, now, mac) == Ok(tenant) <==>
              (exists nonce :: Verify(raw, now, mac, revoked) == Ok((tenant, nonce)))
              || (Verify(raw, now, mac, revoked) == Err(AlreadyUsed) && Parse(raw).Some? &&
                  Parse(raw).value.tenant == tenant)
    ensures VerifyEnterprise(raw, now, mac).Err? ==>
              Verify(raw, now, mac, revoked) == Err(VerifyEnterprise(raw, now, mac).error)
  {
    if |RSplit(raw, 3)| == 4 {
      var f := Parse(raw).value;
      assert Ascii(f.sig) <==> !exists c :: c in f.sig && c as int >= 128;
      if VerifyEnterprise(raw, now, mac) == Ok(tenant) && OAuthNonce(f.nonce) !in revoked {
        assert Verify(raw, now, mac, revoked) == Ok((tenant, f.nonce));
      }
    }
  }

  // ---------------------------------------------------------------------------
  // Replay
  // ---------------------------------------------------------------------------

  /**
   In every run of the revocation protocol: once a worker has put a nonce in its set, a state with that nonce
   and timestamp `ts` is accepted there only from 300 seconds after the nonce was first consumed, anywhere, and
   only before second `ts` + 301. When it was consumed a second or more after `ts` that is never.
   */
  lemma ConsumedNonceRejected(
    s: World, steps: seq<Step>, w: nat, raw: string, mac: string -> string, tenant: string, nonce: string)
    requires Initial(s) && Legal(s, steps)
    requires w in Run(s, steps).workers && OAuthNonce(nonce) in Run(s, steps).workers[w].seen
    requires Verify(raw, Run(s, steps).now, mac, Run(s, steps).workers[w].revoked) == Ok((tenant, nonce))
    ensures var t := Run(s, steps);
            && Parse(raw).Some? && Number(Parse(raw).value.ts).Some? && OAuthNonce(nonce) in t.floor
            && var ts, consumed := Number(Parse(raw).value.ts).value, t.floor[OAuthNonce(nonce)] - NONCE_TTL;
               && consumed + 300 * SECOND <= t.now < (ts + 301) * SECOND
               && consumed < (ts + 1) * SECOND
  {
    InvReachable(s, steps);
    var t := Run(s, steps);
    assert WorkerOk(t.now, t.floor, t.log, t.workers[w]);
    BeforeSecond(t.now, Number(Parse(raw).value.ts).value);
  }

  lemma BeforeSecond(now: Time, ts: nat)
    requires now / SECOND - ts <= MAX_AGE_SECONDS
    ensures now < (ts + 301) * SECOND
  {
  }

  /** Worker 0, listening, has consumed e in transaction 0 at time `at`. */
  function JustConsumed(e: Entry, at: Time): World {
    World(at, map[], map[], map[0 := Txn(0, map[e := at + NONCE_TTL])],
          map[0 := Worker(Listening, {e}, {}, Idle, {e}, {e}, {})], map[], map[e := at + NONCE_TTL])
  }

  /** Worker 0 listens and holds nothing. */
  function Quiet(at: Time): World {
    World(at, map[], map[], map[], map[0 := Worker(Listening, {}, {}, Idle, {}, {}, {})], map[], map[])
  }

  lemma ListeningReachable(at: Time, rest: seq<Step>)
    requires Legal(Quiet(at), rest)
    ensures exists s: World, steps: seq<Step> :: Initial(s) && Legal(s, steps) && Run(s, steps) == Run(Quiet(at), rest)
  {
    var s0 := World(at, map[], map[], map[], map[0 := STOPPED], map[], map[]);
    var s1 := Apply(s0, Start(0, true));
    var s2 := Apply(s1, Listen(0));
    assert s2.workers[0] == Quiet(at).workers[0] && s2.workers == Quiet(at).workers;
    assert s2 == Quiet(at);
    RunCons(s1, Listen(0), rest);
    RunCons(s0, Start(0, true), [Listen(0)] + rest);
    assert Legal(s0, [Start(0, true)] + ([Listen(0)] + rest));
  }

  lemma Consume(e: Entry, at: Time, rest: seq<Step>)
    requires e.OAuthNonce? && Legal(JustConsumed(e, at), rest)
    ensures exists s: World, steps: seq<Step> ::
              Initial(s) && Legal(s, steps) && Run(s, steps) == Run(JustConsumed(e, at), rest)
  {
    var revoke := Revoke(0, 0, e, at + NONCE_TTL);
    var t := Apply(Quiet(at), revoke);
    assert t.workers[0] == JustConsumed(e, at).workers[0] && t.workers == JustConsumed(e, at).workers;
    assert t.open == JustConsumed(e, at).open;
    assert t == JustConsumed(e, at);
    RunCons(Quiet(at), revoke, rest);
    ListeningReachable(at, [revoke] + rest);
  }

  /** The row is committed and expired, and pruned from the set at time `later`. */
  function Pruned(e: Entry, at: Time, later: Time): World {
    World(later, map[], map[e := at + NONCE_TTL], map[],
          map[0 := Worker(Listening, {}, {e}, Deleting, {e}, {e}, {})], map[e := at + NONCE_TTL],
              map[e := at + NONCE_TTL])
  }

  lemma CommitAndPrune(e: Entry, at: Time, later: Time) returns (steps: seq<Step>)
    requires at + NONCE_TTL <= later
    ensures Legal(JustConsumed(e, at), steps) && Run(JustConsumed(e, at), steps) == Pruned(e, at, later)
  {
    var s1 := Apply(JustConsumed(e, at), Commit(0));
    assert s1.workers[0] == Worker(Listening, {e}, {e}, Idle, {e}, {e}, {});
    var s2 := Apply(s1, Tick(later - at));
    var s3 := Apply(s2, PruneFetch(0));
    assert s3.workers[0].pruning == Fetched({e});
    var s4 := Apply(s3, PruneApply(0));
    assert s4.workers[0] == Pruned(e, at, later).workers[0] && s4.workers == Pruned(e, at, later).workers;
    assert s4.rows == Pruned(e, at, later).rows && s4.log == Pruned(e, at, later).log && s4.open == map[];
    assert s4 == Pruned(e, at, later);
    RunCons(s3, PruneApply(0), []);
    var r3 := [PruneApply(0)] + [];
    RunCons(s2, PruneFetch(0), r3);
    var r2 := [PruneFetch(0)] + r3;
    RunCons(s1, Tick(later - at), r2);
    var r1 := [Tick(later - at)] + r2;
    RunCons(JustConsumed(e, at), Commit(0), r1);
    steps := [Commit(0)] + r1;
  }

  /** The consumed state is accepted again, at `later`, on the worker that consumed it at `consumed`. */
  ghost predicate AcceptedAgain(t: World, raw: string, mac: string -> string, tenant: string, nonce: string,
      consumed: Time, later: Time) {
    && 0 in t.workers && t.now == later && OAuthNonce(nonce) in t.workers[0].seen
    && OAuthNonce(nonce) in t.floor && t.floor[OAuthNonce(nonce)] - NONCE_TTL == consumed
    && Verify(raw, t.now, mac, t.workers[0].revoked) == Ok((tenant, nonce))
  }

  /**
   The window is real, all of it: a state made in second `ts`, whenever it was consumed, is accepted again by some
   run at every moment from 300 seconds after its consumption to the end of second `ts` + 300.
   */
  lemma WindowReached(tenant: string, nonce: string, mac: string -> string, made: Time, consumed: Time, later: Time)
    requires ColonFree(nonce) && HexMac(mac) && 0 <= made <= consumed
    requires consumed + 300 * SECOND <= later < (made / SECOND + 301) * SECOND
    ensures exists s: World, steps: seq<Step> ::
              && Initial(s) && Legal(s, steps)
              && AcceptedAgain(Run(s, steps), Generate(tenant, nonce, made, mac), mac, tenant, nonce, consumed, later)
  {
    var e, raw := OAuthNonce(nonce), Generate(tenant, nonce, made, mac);
    VerifyGenerated(tenant, nonce, made, later, mac, {});
    assert AcceptedAgain(Pruned(e, consumed, later), raw, mac, tenant, nonce, consumed, later);
    var rest := CommitAndPrune(e, consumed, later);
    Consume(e, consumed, rest);
  }
}
