/** The signing-key lifecycle as one worker sees it: start-up, the daily rotation check, signing and verifying. */
module SigningKeys {
  import opened Common
  import Base64Url

  datatype PublicKey = PublicKey(n: nat, e: nat)

  datatype Jwk = Jwk(kid: string, n: string, e: string)

  /** `_pem_to_jwk` */
  function ToJwk(kid: string, key: PublicKey): Jwk {
    Jwk(kid, Base64Url.EncodeUInt(key.n), Base64Url.EncodeUInt(key.e))
  }

  /** A row of `signing_keys`. */
  datatype KeyRow = KeyRow(key: PublicKey, isCurrent: bool, expiresAt: Time)

  type Table = map<string, KeyRow>

  /** The in-memory state of `KeyManager`: `_current`, `_valid_jwks` and `_public_pems`. */
  datatype Manager = Manager(current: Option<string>, jwks: seq<Jwk>, pems: map<string, PublicKey>)

  const EMPTY := Manager(None, [], map[])

  const THRESHOLD_DAYS := 7

  /** The SIGNING_KEY_ROTATION_DAYS setting, 90 by default, is a parameter `life` of every run, in microseconds. */
  const DEFAULT_LIFE := 90 * DAY

  // ---------------------------------------------------------------------------
  // KeyManager and the rotation check as functions
  // ---------------------------------------------------------------------------

  function Unexpired(rows: Table, now: Time): set<string> {
    set kid | kid in rows && now < rows[kid].expiresAt
  }

  function Jwks(rows: Table, listed: seq<string>): (jwks: seq<Jwk>)
    requires forall kid :: kid in listed ==> kid in rows
    ensures |jwks| == |listed|
    ensures forall i :: 0 <= i < |listed| ==> jwks[i] == ToJwk(listed[i], rows[listed[i]].key)
  {
    seq(|listed|, i requires 0 <= i < |listed| => ToJwk(listed[i], rows[listed[i]].key))
  }

  /** `listed` gives the unexpired rows, each once, in the order the database returns them. */
  ghost predicate Lists(rows: Table, now: Time, listed: seq<string>) {
    && (forall kid :: kid in listed <==> kid in Unexpired(rows, now))
    && forall i, j :: 0 <= i < j < |listed| ==> listed[i] != listed[j]
  }

  /** `initialize` once a current row has been selected or created. Its expiry is not looked at. */
  function Initialized(rows: Table, selected: string, listed: seq<string>): Manager
    requires forall kid :: kid in listed ==> kid in rows
  {
    Manager(Some(selected), Jwks(rows, listed), map kid | kid in listed :: rows[kid].key)
  }

  /**
   What `rotate` leaves in the table. The new row is committed by a session of its own; clearing the other
   rows' `is_current` takes effect only if the caller commits.
   */
  function RotatedTable(rows: Table, kid: string, key: PublicKey, expiresAt: Time, callerCommits: bool): Table {
    (map k | k in rows :: rows[k].(isCurrent := rows[k].isCurrent &&
        !callerCommits))[kid := KeyRow(key, true, expiresAt)]
  }

  function RotatedManager(m: Manager, kid: string, key: PublicKey): Manager {
    Manager(Some(kid), m.jwks + [ToJwk(kid, key)], m.pems[kid := key])
  }

  /** `timedelta.days` floors, as Dafny's division by a positive number does. */
  predicate NeedsRotation(row: KeyRow, now: Time) {
    (row.expiresAt - now) / DAY <= THRESHOLD_DAYS
  }

  lemma RotationRule(row: KeyRow, now: Time)
    ensures NeedsRotation(row, now) <==> row.expiresAt - now < 8 * DAY
  {
  }

  // ---------------------------------------------------------------------------
  // Runs of one worker
  // ---------------------------------------------------------------------------

  /** The worker signs with `m.current`. `lastCheck`, None since the start, is history. */
  datatype World = World(now: Time, rows: Table, m: Manager, lastCheck: Option<Time>)

  datatype Step =
    | Tick(elapsed: nat)
    | Start(selected: string, created: PublicKey, listed: seq<string>)
    | Check(selected: string, kid: string, key: PublicKey, callerCommits: bool)
    | OtherWorkerRotates(kid: string, key: PublicKey, callerCommits: bool)

  predicate Selectable(rows: Table, kid: string) {
    kid in rows && rows[kid].isCurrent
  }

  predicate NoCurrentRow(rows: Table) {
    forall kid :: kid in rows ==> !rows[kid].isCurrent
  }

  /** The table when start-up reads it: a key was created first if no row was current. */
  function StartTable(rows: Table, now: Time, selected: string, created: PublicKey, life: Time): Table {
    if NoCurrentRow(rows) then rows[selected := KeyRow(created, true, now + life)] else rows
  }

  ghost predicate Enabled(s: World, step: Step, life: Time) {
    match step
    case Tick(_) => true
    case Start(selected, created, listed) =>
      && (if NoCurrentRow(s.rows) then selected !in s.rows else Selectable(s.rows, selected))
      && Lists(StartTable(s.rows, s.now, selected, created, life), s.now, listed)
    case Check(selected, kid, _, _) => s.m.current.Some? && Selectable(s.rows, selected) && kid !in s.rows
    case OtherWorkerRotates(kid, _, _) => kid !in s.rows
  }

  function Rotate(s: World, kid: string, key: PublicKey, callerCommits: bool, life: Time): World {
    s.(rows := RotatedTable(s.rows, kid, key, s.now + life, callerCommits), m := RotatedManager(s.m, kid, key))
  }

  ghost function Apply(s: World, step: Step, life: Time): World
    requires Enabled(s, step, life)
  {
    match step
    case Tick(d) => s.(now := s.now + d)
    case Start(selected, created, listed) =>
      var rows := StartTable(s.rows, s.now, selected, created, life);
      s.(rows := rows, m := Initialized(rows, selected, listed), lastCheck := None)
    case Check(selected, kid, key, commits) =>
      (if NeedsRotation(s.rows[selected], s.now) then Rotate(s, kid, key, commits, life) else
          s).(lastCheck := Some(s.now))
    case OtherWorkerRotates(kid, key, commits) =>
      s.(rows := RotatedTable(s.rows, kid, key, s.now + life, commits))
  }

  ghost predicate Legal(s: World, steps: seq<Step>, life: Time)
    decreases |steps|
  {
    steps == [] || (Enabled(s, steps[0], life) && Legal(Apply(s, steps[0], life), steps[1..], life))
  }

  ghost function Run(s: World, steps: seq<Step>, life: Time): World
    requires Legal(s, steps, life)
    decreases |steps|
  {
    if steps == [] then s else Run(Apply(s, steps[0], life), steps[1..], life)
  }

  ghost predicate Initial(s: World) {
    s.rows == map[] && s.m == EMPTY && s.lastCheck == None
  }

  /** The step makes a row `kid`: a start that finds no current row, a check of a row due in under eight days. */
  ghost predicate Makes(s: World, step: Step, kid: string) {
    match step
    case Tick(_) => false
    case Start(selected, _, _) => selected == kid && forall k :: k in s.rows ==> !s.rows[k].isCurrent
    case Check(selected, k, _, _) => k == kid && selected in s.rows && s.rows[selected].expiresAt - s.now < 8 * DAY
    case OtherWorkerRotates(k, _, _) => k == kid
  }

  /** `row` is current, carries the key made in this step, and has its whole life before it. */
  ghost predicate MadeRow(s: World, step: Step, row: KeyRow, life: Time) {
    && row.isCurrent && row.expiresAt == s.now + life
    && match step
       case Tick(_) => false
       case Start(_, created, _) => row.key == created
       case Check(_, _, key, _) => row.key == key
       case OtherWorkerRotates(_, key, _) => row.key == key
  }

  /** The step clears `is_current` elsewhere: a rotation whose caller commits. */
  ghost predicate Supersedes(s: World, step: Step) {
    match step
    case Check(_, kid, _, commits) => commits && Makes(s, step, kid)
    case OtherWorkerRotates(_, _, commits) => commits
    case _ => false
  }

  /** A row appears exactly when it is made: with the key made, current, and for the whole lifetime. */
  lemma RowAddedIff(s: World, step: Step, life: Time, kid: string)
    requires Enabled(s, step, life)
    ensures kid in Apply(s, step, life).rows <==> kid in s.rows || Makes(s, step, kid)
    ensures Makes(s, step, kid) ==> MadeRow(s, step, Apply(s, step, life).rows[kid], life)
  {
  }

  /** No row is lost, and none changes but in `is_current`, which only a committed rotation clears. */
  lemma RowKept(s: World, step: Step, life: Time, kid: string)
    requires Enabled(s, step, life) && kid in s.rows
    ensures var row := s.rows[kid];
            && kid in Apply(s, step, life).rows
            && Apply(s, step, life).rows[kid] == row.(isCurrent := row.isCurrent && !Supersedes(s, step))
  {
  }

  /** What this worker signs and verifies with changes only at its own starts and rotations. */
  lemma KeysExactly(s: World, step: Step, life: Time)
    requires Enabled(s, step, life)
    ensures var s' := Apply(s, step, life);
            match step
            case Start(selected, _, _) =>
              && s'.m.current == Some(selected)
              && forall kid :: kid in s'.m.pems <==> kid in s'.rows && s.now < s'.rows[kid].expiresAt
            case Check(_, kid, key, _) =>
              if Makes(s, step, kid) then s'.m.current == Some(kid) && s'.m.pems == s.m.pems[kid := key]
              else s'.m == s.m
            case _ => s'.m == s.m
  {
    if step.Start? {
      var rows := StartTable(s.rows, s.now, step.selected, step.created, life);
      assert forall kid :: kid in step.listed <==> kid in Unexpired(rows, s.now);
    }
  }

  // ---------------------------------------------------------------------------
  // Invariants
  // ---------------------------------------------------------------------------

  function Kids(jwks: seq<Jwk>): set<string> {
    set jwk | jwk in jwks :: jwk.kid
  }

  lemma KidsAppend(jwks: seq<Jwk>, jwk: Jwk)
    ensures Kids(jwks + [jwk]) == Kids(jwks) + {jwk.kid}
  {
  }

  lemma {:induction false} KidsOf(jwks: seq<Jwk>)
    requires forall i, j :: 0 <= i < j < |jwks| ==> jwks[i].kid != jwks[j].kid
    ensures |Kids(jwks)| == |jwks|
  {
    if jwks == [] {
    } else {
      var n := |jwks| - 1;
      KidsOf(jwks[..n]);
      assert jwks == jwks[..n] + [jwks[n]];
      KidsAppend(jwks[..n], jwks[n]);
    }
  }

  ghost predicate Match(jwks: seq<Jwk>, pems: map<string, PublicKey>) {
    forall jwk :: jwk in jwks ==> jwk.kid in pems && jwk == ToJwk(jwk.kid, pems[jwk.kid])
  }

  /** The served key list and the verification keys are the same keys, each once. */
  ghost predicate ServedOnce(m: Manager) {
    Kids(m.jwks) == m.pems.Keys && |m.jwks| == |Kids(m.jwks)| && Match(m.jwks, m.pems)
  }

  /** And they agree with the table. */
  ghost predicate Consistent(s: World) {
    && ServedOnce(s.m)
    && (forall kid :: kid in s.m.pems ==> kid in s.rows && s.rows[kid].key == s.m.pems[kid])
    && (s.m.current.Some? ==> s.m.current.value in s.rows)
  }

  /** The signing key can be verified here while it is unexpired. */
  ghost predicate SigningKeyServed(s: World) {
    s.m.current.Some? && s.m.current.value in s.rows && s.now < s.rows[s.m.current.value].expiresAt ==>
      s.m.current.value in s.m.pems
  }

  lemma ServedOnceInitialized(rows: Table, selected: string, listed: seq<string>)
    requires forall kid :: kid in listed ==> kid in rows
    requires forall i, j :: 0 <= i < j < |listed| ==> listed[i] != listed[j]
    ensures ServedOnce(Initialized(rows, selected, listed))
  {
    var m := Initialized(rows, selected, listed);
    forall kid | kid in m.pems ensures kid in Kids(m.jwks) {
      var i :| 0 <= i < |listed| && listed[i] == kid;
      assert m.jwks[i] in m.jwks && m.jwks[i].kid == kid;
    }
    KidsOf(m.jwks);
  }

  lemma ConsistentStart(s: World, step: Step, life: Time)
    requires Consistent(s) && step.Start? && Enabled(s, step, life)
    ensures Consistent(Apply(s, step, life)) && SigningKeyServed(Apply(s, step, life))
  {
    var rows := StartTable(s.rows, s.now, step.selected, step.created, life);
    assert forall kid :: kid in step.listed ==> kid in Unexpired(rows, s.now);
    ServedOnceInitialized(rows, step.selected, step.listed);
  }

  /** Start-up signs with the selected row even if it has expired, and then nothing it signs can be verified. */
  lemma StartServesSigningKey(s: World, step: Step, life: Time)
    requires step.Start? && Enabled(s, step, life) && life > 0
    ensures var s' := Apply(s, step, life);
            step.selected in s'.m.pems <==> s'.now < s'.rows[step.selected].expiresAt
  {
    var rows := StartTable(s.rows, s.now, step.selected, step.created, life);
    assert step.selected in step.listed <==> step.selected in Unexpired(rows, s.now);
  }

  lemma KidsAppendNew(jwks: seq<Jwk>, jwk: Jwk)
    requires jwk.kid !in Kids(jwks) && |jwks| == |Kids(jwks)|
    ensures Kids(jwks + [jwk]) == Kids(jwks) + {jwk.kid} && |jwks + [jwk]| == |Kids(jwks + [jwk])|
  {
    KidsAppend(jwks, jwk);
  }

  lemma MatchAppend(jwks: seq<Jwk>, pems: map<string, PublicKey>, kid: string, key: PublicKey)
    requires Match(jwks, pems) && kid !in pems
    ensures Match(jwks + [ToJwk(kid, key)], pems[kid := key])
  {
  }

  /** Appending a new key to both the served list and the verification keys. */
  lemma ServedOnceRotate(m: Manager, kid: string, key: PublicKey)
    requires ServedOnce(m) && kid !in m.pems
    ensures ServedOnce(RotatedManager(m, kid, key))
  {
    KidsAppendNew(m.jwks, ToJwk(kid, key));
    MatchAppend(m.jwks, m.pems, kid, key);
  }

  lemma ConsistentRotate(s: World, kid: string, key: PublicKey, commits: bool, life: Time)
    requires Consistent(s) && kid !in s.rows
    ensures Consistent(Rotate(s, kid, key, commits, life)) && SigningKeyServed(Rotate(s, kid, key, commits, life))
  {
    ServedOnceRotate(s.m, kid, key);
  }

  lemma ConsistentStep(s: World, step: Step, life: Time)
    requires Consistent(s) && SigningKeyServed(s) && Enabled(s, step, life)
    ensures Consistent(Apply(s, step, life)) && SigningKeyServed(Apply(s, step, life))
  {
    match step
    case Start(_, _, _) => ConsistentStart(s, step, life);
    case Check(selected, kid, key, commits) =>
      if NeedsRotation(s.rows[selected], s.now) {
        ConsistentRotate(s, kid, key, commits, life);
      }
    case _ =>
  }

  lemma {:induction false} ConsistentRun(s: World, steps: seq<Step>, life: Time)
    requires Consistent(s) && SigningKeyServed(s) && Legal(s, steps, life)
    ensures Consistent(Run(s, steps, life)) && SigningKeyServed(Run(s, steps, life))
    decreases |steps|
  {
    if steps == [] {
    } else {
      ConsistentStep(s, steps[0], life);
      ConsistentRun(Apply(s, steps[0], life), steps[1..], life);
    }
  }

  /**
   In every run, well aimed or not: the kids in the key list served to clients are the keys of the
   verification map, each listed once with numbers that decode to the key's; and the signing kid is among
   them as long as its row is unexpired.
   */
  lemma ServedKeysAreVerificationKeys(s: World, steps: seq<Step>, life: Time)
    requires Initial(s) && Legal(s, steps, life)
    ensures var m := Run(s, steps, life).m;
            && Kids(m.jwks) == m.pems.Keys
            && |m.jwks| == |m.pems|
            && (forall j :: j in m.jwks && m.pems[j.kid].n > 0 ==> Base64Url.DecodeUInt(j.n) == Some(m.pems[j.kid].n))
    ensures SigningKeyServed(Run(s, steps, life))
  {
    ConsistentRun(s, steps, life);
    var m := Run(s, steps, life).m;
    forall j | j in m.jwks && m.pems[j.kid].n > 0
      ensures Base64Url.DecodeUInt(j.n) == Some(m.pems[j.kid].n)
    {
      Base64Url.UIntRoundTrip(m.pems[j.kid].n);
    }
  }

  /**
   A rotation leaves exactly one current row if and only if the caller commits or no other row was current.
   The scheduler does not commit, so its rotations leave every earlier current row current.
   */
  lemma OneCurrentRow(rows: Table, kid: string, key: PublicKey, expiresAt: Time, callerCommits: bool)
    requires kid !in rows
    ensures var rows' := RotatedTable(rows, kid, key, expiresAt, callerCommits);
            && Selectable(rows', kid)
            && ((forall k :: Selectable(rows', k) ==> k == kid) <==> callerCommits || NoCurrentRow(rows))
  {
    var rows' := RotatedTable(rows, kid, key, expiresAt, callerCommits);
    if !callerCommits && !NoCurrentRow(rows) {
      var k :| k in rows && rows[k].isCurrent;
      assert Selectable(rows', k) && k != kid;
    }
  }

  lemma RunCons(s: World, step: Step, rest: seq<Step>, life: Time)
    requires Enabled(s, step, life) && Legal(Apply(s, step, life), rest, life)
    ensures Legal(s, [step] + rest, life) && Run(s, [step] + rest, life) == Run(Apply(s, step, life), rest, life)
  {
  }

  lemma {:induction false} RunAppend(s: World, first: seq<Step>, second: seq<Step>, life: Time)
    requires Legal(s, first, life) && Legal(Run(s, first, life), second, life)
    ensures Legal(s, first + second, life) && Run(s, first + second, life) == Run(Run(s, first, life), second, life)
    decreases |first|
  {
    if first == [] {
      assert first + second == second;
    } else {
      RunAppend(Apply(s, first[0], life), first[1..], second, life);
      assert (first + second)[1..] == first[1..] + second;
    }
  }
}
