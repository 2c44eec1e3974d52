/**
 One worker's cache of tenant records, the endpoints that change a tenant's custom claims, and the payload of an
 access token. A load awaits the database, so other requests run between its query and its store.
 */
module ClaimsCache {
  import opened Common

  /** A path or cache key that parses to the UUID `id`; spelling 0 is the canonical text, used by every load. */
  datatype TenantText = TenantText(id: nat, spelling: nat)

  datatype ClaimValue = Text(text: string) | Number(number: int) | Flag(flag: bool)

  type Claims = map<string, ClaimValue>

  datatype TenantRow = TenantRow(claims: Claims, name: string, slug: string)

  datatype Record = Record(custom: Claims, name: string, slug: string)

  const EMPTY := Record(map[], "", "")

  const TTL := 60.0

  const RESERVED := {
    "iss", "sub", "aud", "exp", "iat", "nbf", "jti", "email", "tenant_id", "tenant_name", "tenant_slug", "auth_stage"}

  function Stripped(row: TenantRow): Record {
    Record(map k | k in row.claims && k !in RESERVED :: row.claims[k], row.name, row.slug)
  }

  /** What a query that succeeds yields. */
  function Described(tenants: map<nat, TenantRow>, id: nat): Record {
    if id in tenants then Stripped(tenants[id]) else EMPTY
  }

  // ---------------------------------------------------------------------------
  // Interleaved loads, changes and invalidations
  // ---------------------------------------------------------------------------

  /** What a load got, all of it history but `record`: whether the query succeeded, and which version it saw when. */
  datatype Read = Read(record: Record, ok: bool, version: nat, begun: real, at: real)

  datatype Load = Load(key: TenantText, begun: real, read: Option<Read>)

  datatype Entry = Entry(read: Read, stored: real) {
    function Expires(): real {
      stored + TTL
    }
  }

  /** A committed state of the tenant table and when it became current. */
  datatype Version = Version(tenants: map<nat, TenantRow>, since: real)

  /** `now` is the monotonic clock in seconds. The table is the last version; the earlier ones are history. */
  datatype World = World(now: real, versions: seq<Version>, loads: map<nat, Load>, cache: map<TenantText, Entry>)

  datatype Step =
    | Wait(elapsed: real)
    | Change(tenants: map<nat, TenantRow>)
    | Hit(key: TenantText)
    | Begin(load: nat, key: TenantText)
    | Query(load: nat)
    | QueryFails(load: nat)
    | Store(load: nat)
    | Abandon(load: nat)
    | Invalidate(key: TenantText)

  predicate Cached(s: World, key: TenantText) {
    key in s.cache && s.now < s.cache[key].Expires()
  }

  predicate Enabled(s: World, step: Step) {
    match step
    case Wait(d) => d >= 0.0
    case Change(_) => true
    case Hit(key) => Cached(s, key)
    case Begin(l, key) => l !in s.loads && !Cached(s, key)
    case Query(l) => l in s.loads && s.loads[l].read.None? && s.versions != []
    case QueryFails(l) => l in s.loads && s.loads[l].read.None?
    case Store(l) => l in s.loads && s.loads[l].read.Some?
    case Abandon(l) => l in s.loads
    case Invalidate(_) => true
  }

  function Apply(s: World, step: Step): World
    requires Enabled(s, step)
  {
    match step
    case Wait(d) => s.(now := s.now + d)
    case Change(tenants) => s.(versions := s.versions + [Version(tenants, s.now)])
    case Hit(_) => s
    case Begin(l, key) => s.(loads := s.loads[l := Load(key, s.now, None)])
    case Query(l) =>
      var v := |s.versions| - 1;
      var record := Described(s.versions[v].tenants, s.loads[l].key.id);
      s.(loads := s.loads[l := s.loads[l].(read := Some(Read(record, true, v, s.loads[l].begun, s.now)))])
    case QueryFails(l) =>
      s.(loads := s.loads[l := s.loads[l].(read := Some(Read(EMPTY, false, 0, s.loads[l].begun, s.now)))])
    case Store(l) =>
      s.(cache := s.cache[s.loads[l].key := Entry(s.loads[l].read.value, s.now)], loads := s.loads - {l})
    case Abandon(l) => s.(loads := s.loads - {l})
    case Invalidate(key) => s.(cache := s.cache - {key})
  }

  ghost predicate Legal(s: World, steps: seq<Step>)
    decreases |steps|
  {
    steps == [] || (Enabled(s, steps[0]) && Legal(Apply(s, steps[0]), steps[1..]))
  }

  ghost function Run(s: World, steps: seq<Step>): World
    requires Legal(s, steps)
    decreases |steps|
  {
    if steps == [] then s else Run(Apply(s, steps[0]), steps[1..])
  }

  ghost predicate Initial(s: World) {
    |s.versions| == 1 && s.versions[0].since <= s.now && s.loads == map[] && s.cache == map[]
  }

  /** The entry a call of `_get_tenant_record` answers with: the cached one, or the one it is about to store. */
  function Answer(s: World, step: Step): Entry
    requires (step.Hit? || step.Store?) && Enabled(s, step)
  {
    if step.Hit? then s.cache[step.key] else Entry(s.loads[step.load].read.value, s.now)
  }

  function AnsweredKey(s: World, step: Step): TenantText
    requires (step.Hit? || step.Store?) && Enabled(s, step)
  {
    if step.Hit? then step.key else s.loads[step.load].key
  }

  // ---------------------------------------------------------------------------
  // Invariant
  // ---------------------------------------------------------------------------

  /** Version v was the current one at time x. */
  ghost predicate CurrentAt(versions: seq<Version>, v: nat, x: real) {
    && v < |versions| && versions[v].since <= x
    && (v + 1 < |versions| ==> x <= versions[v + 1].since)
  }

  ghost predicate ReadOk(versions: seq<Version>, key: TenantText, r: Read, until: real) {
    && r.begun <= r.at <= until
    && if r.ok then CurrentAt(versions, r.version, r.at) && r.record == Described(versions[r.version].tenants, key.id)
       else r.record == EMPTY
  }

  ghost predicate Inv(s: World) {
    && s.versions != [] && s.versions[|s.versions| - 1].since <= s.now
    && (forall l :: l in s.loads ==>
          && s.loads[l].begun <= s.now
          && (s.loads[l].read.Some? ==> ReadOk(s.versions, s.loads[l].key, s.loads[l].read.value, s.now)))
    && (forall key :: key in s.cache ==>
          s.cache[key].stored <= s.now && ReadOk(s.versions, key, s.cache[key].read, s.cache[key].stored))
  }

  lemma InvStep(s: World, step: Step)
    requires Inv(s) && Enabled(s, step)
    ensures Inv(Apply(s, step))
  {
  }

  lemma {:induction false} InvRun(s: World, steps: seq<Step>)
    requires Inv(s) && Legal(s, steps)
    ensures Inv(Run(s, steps))
    decreases |steps|
  {
    if steps == [] {
    } else {
      InvStep(s, steps[0]);
      InvRun(Apply(s, steps[0]), steps[1..]);
    }
  }

  // ---------------------------------------------------------------------------
  // How stale an answer can be
  // ---------------------------------------------------------------------------

  /**
   In every run, a call whose record came from a query that succeeded answers with the reserved-stripped row of
   that tenant as it was in the database at a moment less than 60 seconds before the call plus the time from that
   moment to the end of the load. A record from a failed query is the empty one.
   */
  lemma AnswerStaleness(s: World, steps: seq<Step>, step: Step)
    requires Initial(s) && Legal(s, steps)
    requires (step.Hit? || step.Store?) && Enabled(Run(s, steps), step)
    ensures var t, entry := Run(s, steps), Answer(Run(s, steps), step);
            var read := entry.read;
            && read.begun <= read.at <= entry.stored <= t.now < entry.stored + TTL
            && (!read.ok ==> read.record == EMPTY)
            && (read.ok ==>
                  && CurrentAt(t.versions, read.version, read.at)
                  && read.record == Described(t.versions[read.version].tenants, AnsweredKey(t, step).id))
  {
    InvRun(s, steps);
  }

  /** Steps that neither drop nor replace the record of `key`. */
  ghost predicate Leaves(s: World, steps: seq<Step>, key: TenantText)
    requires Legal(s, steps)
    decreases |steps|
  {
    steps == [] ||
    (&& steps[0] != Invalidate(key)
     && (steps[0].Store? ==> s.loads[steps[0].load].key != key)
     && Leaves(Apply(s, steps[0]), steps[1..], key))
  }

  lemma {:induction false} EntryKept(s: World, steps: seq<Step>, key: TenantText)
    requires Legal(s, steps) && Leaves(s, steps, key) && key in s.cache
    ensures key in Run(s, steps).cache && Run(s, steps).cache[key] == s.cache[key]
    decreases |steps|
  {
    if steps == [] {
    } else {
      EntryKept(Apply(s, steps[0]), steps[1..], key);
    }
  }

  /**
   Conversely a stored record is the answer for sixty seconds, whatever else happens: until it is invalidated or
   another load of its key ends, a call is answered from it exactly while it is that young, and loads exactly when not.
   */
  lemma ServedForSixtySeconds(s: World, l: nat, steps: seq<Step>, other: nat)
    requires Enabled(s, Store(l)) && Legal(Apply(s, Store(l)), steps)
    requires Leaves(Apply(s, Store(l)), steps, s.loads[l].key) && other !in Run(Apply(s, Store(l)), steps).loads
    ensures var key, t := s.loads[l].key, Run(Apply(s, Store(l)), steps);
            && (Enabled(t, Hit(key)) <==> t.now < s.now + 60.0)
            && (Enabled(t, Begin(other, key)) <==> t.now >= s.now + 60.0)
            && (Enabled(t, Hit(key)) ==> Answer(t, Hit(key)).read == s.loads[l].read.value)
  {
    EntryKept(Apply(s, Store(l)), steps, s.loads[l].key);
  }

  // ---------------------------------------------------------------------------
  // Invalidation
  // ---------------------------------------------------------------------------

  /** The read is of version v or a later one, or failed. */
  predicate NotOlder(r: Read, v: nat) {
    r.ok ==> r.version >= v
  }

  ghost predicate ServesFrom(s: World, key: TenantText, v: nat) {
    key in s.cache ==> NotOlder(s.cache[key].read, v)
  }

  /** From s on, no cached record of `key` is from before version v. */
  ghost predicate AlwaysServesFrom(s: World, key: TenantText, v: nat) {
    forall steps :: Legal(s, steps) ==> ServesFrom(Run(s, steps), key, v)
  }

  ghost predicate LoadsFrom(s: World, key: TenantText, v: nat) {
    forall l :: l in s.loads && s.loads[l].key == key && s.loads[l].read.Some? ==> NotOlder(s.loads[l].read.value, v)
  }

  lemma ServesStep(s: World, step: Step, key: TenantText, v: nat)
    requires v < |s.versions| && ServesFrom(s, key, v) && LoadsFrom(s, key, v) && Enabled(s, step)
    ensures var s' := Apply(s, step);
            v < |s'.versions| && ServesFrom(s', key, v) && LoadsFrom(s', key, v)
  {
  }

  lemma {:induction false} ServesRun(s: World, steps: seq<Step>, key: TenantText, v: nat)
    requires v < |s.versions| && ServesFrom(s, key, v) && LoadsFrom(s, key, v) && Legal(s, steps)
    ensures ServesFrom(Run(s, steps), key, v)
    decreases |steps|
  {
    if steps == [] {
    } else {
      ServesStep(s, steps[0], key, v);
      ServesRun(Apply(s, steps[0]), steps[1..], key, v);
    }
  }

  /**
   The endpoints promise that the next token issued after a change picks up the new claims. Exactly: once `key`
   is dropped from the cache, everything served for it is of version v or later if and only if no load of `key`
   still under way has read an older version.
   */
  lemma FreshAfterInvalidation(s: World, key: TenantText, v: nat)
    requires v < |s.versions| && key !in s.cache
    ensures AlwaysServesFrom(s, key, v) <==> LoadsFrom(s, key, v)
  {
    if LoadsFrom(s, key, v) {
      forall steps | Legal(s, steps) ensures ServesFrom(Run(s, steps), key, v) {
        ServesRun(s, steps, key, v);
      }
    } else {
      var l :| l in s.loads && s.loads[l].key == key && s.loads[l].read.Some? && !NotOlder(s.loads[l].read.value, v);
      var s' := Apply(s, Store(l));
      assert [Store(l)][1..] == [];
      assert Legal(s', []);
      assert Legal(s, [Store(l)]) && Run(s, [Store(l)]) == Run(s', []);
      assert !ServesFrom(s', key, v);
    }
  }

  /** A change made through another spelling of the tenant's UUID leaves the cached record in service. */
  lemma OtherSpellingKeepsServing(s: World, key: TenantText, other: TenantText, tenants: map<nat, TenantRow>)
    requires Cached(s, key) && other.id == key.id
    ensures var s' := Apply(Apply(s, Change(tenants)), Invalidate(other));
            Enabled(s', Hit(key)) && Answer(s', Hit(key)) == Answer(s, Hit(key)) <==> other != key
  {
  }

  // ---------------------------------------------------------------------------
  // The token payload
  // ---------------------------------------------------------------------------

  predicate Valid(claims: Claims) {
    && |claims| <= 20
    && forall k :: k in claims ==> k !in RESERVED && 1 <= |k| <= 64
  }

  /** `standard` gives the claims the program sets itself. */
  function Payload(record: Record, extra: Claims, standard: Claims): Claims {
    record.custom + extra + standard
  }

  /**
   From the tenant row to the signed payload: no custom or extra claim shadows a reserved one, and every other
   custom claim arrives unchanged unless an extra claim has its name. Name and slug are the row's.
   */
  lemma PayloadClaims(row: TenantRow, extra: Claims, standard: Claims, k: string)
    requires standard.Keys == RESERVED
    ensures Stripped(row).name == row.name && Stripped(row).slug == row.slug
    ensures var payload := Payload(Stripped(row), extra, standard);
            && (k in payload <==> k in row.claims || k in extra || k in RESERVED)
            && (k in payload ==>
                  payload[k] == if k in RESERVED then standard[k] else if k in extra then extra[k] else row.claims[k])
  {
  }

  /** What the endpoint accepts is what the token carries: stripping removes nothing from valid claims. */
  lemma ValidClaimsSurvive(row: TenantRow)
    requires Valid(row.claims)
    ensures Stripped(row).custom == row.claims
  {
    assert Stripped(row).custom.Keys == row.claims.Keys;
  }

  // ---------------------------------------------------------------------------
  // The dictionary and the endpoints, for calls that do not overlap
  // ---------------------------------------------------------------------------

  datatype Outcome = Done | Forbidden | InvalidId | NotFound | Unprocessable

  class Worker {
    var tenants: map<nat, TenantRow>
    var cache: map<TenantText, (Record, real)>

    constructor (tenants: map<nat, TenantRow>)
      ensures this.tenants == tenants && cache == map[]
    {
      this.tenants := tenants;
      cache := map[];
    }

    /** `now` is when the call starts, `after` when the query has returned or failed. */
    method GetTenantRecord(key: TenantText, now: real, queryFails: bool, after: real) returns (record: Record)
      modifies this`cache
      ensures key in old(cache) && now < old(cache)[key].1 ==> record == old(cache)[key].0 && cache == old(cache)
      ensures !(key in old(cache) && now < old(cache)[key].1) ==>
                && record == (if queryFails then EMPTY else Described(tenants, key.id))
                && cache == old(cache)[key := (record, after + TTL)]
    {
      if key in cache && now < cache[key].1 {
        return cache[key].0;
      }
      record := EMPTY;
      if !queryFails && key.id in tenants {
        record := Stripped(tenants[key.id]);
      }
      cache := cache[key := (record, after + TTL)];
    }

    /** `text` is None when the path is not a UUID. */
    method SetJwtClaims(text: Option<TenantText>, claims: Claims, superuser: bool) returns (outcome: Outcome)
      modifies this
      ensures outcome == Done <==> Valid(claims) && superuser && text.Some? && text.value.id in old(tenants)
      ensures outcome != Done ==> tenants == old(tenants) && cache == old(cache)
      ensures outcome == Done ==>
                && tenants == old(tenants)[text.value.id := old(tenants)[text.value.id].(claims := claims)]
                && cache == old(cache) - {text.value}
                && Described(tenants, text.value.id).custom == claims
    {
      if !Valid(claims) {
        return Unprocessable;
      }
      if !superuser {
        return Forbidden;
      }
      if text.None? {
        return InvalidId;
      }
      var id := text.value.id;
      if id !in tenants {
        return NotFound;
      }
      tenants := tenants[id := tenants[id].(claims := claims)];
      cache := cache - {text.value};
      ValidClaimsSurvive(tenants[id]);
      outcome := Done;
    }

    method ClearJwtClaims(text: Option<TenantText>, superuser: bool) returns (outcome: Outcome)
      modifies this
      ensures outcome == Done <==> superuser && text.Some? && text.value.id in old(tenants)
      ensures outcome != Done ==> tenants == old(tenants) && cache == old(cache)
      ensures outcome == Done ==>
                && tenants == old(tenants)[text.value.id := old(tenants)[text.value.id].(claims := map[])]
                && cache == old(cache) - {text.value}
                && Described(tenants, text.value.id).custom == map[]
    {
      if !superuser {
        return Forbidden;
      }
      if text.None? {
        return InvalidId;
      }
      var id := text.value.id;
      if id !in tenants {
        return NotFound;
      }
      tenants := tenants[id := tenants[id].(claims := map[])];
      cache := cache - {text.value};
      ValidClaimsSurvive(tenants[id]);
      outcome := Done;
    }
  }
}
