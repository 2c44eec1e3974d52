/**
 How long what a worker signs can be verified there: the exact condition, what the rotation check contributes
 to it, and a worker that meets its schedule and still loses tokens.
 */
module KeyLifetimes {
  import opened Common
  import opened SigningKeys

  // ---------------------------------------------------------------------------
  // Exactly which tokens verify until they expire
  // ---------------------------------------------------------------------------

  /** Whatever happens from s on, this worker can verify a token signed with `kid` as long as it is unexpired. */
  ghost predicate VerifiesUntil(s: World, kid: string, exp: Time, life: Time) {
    forall steps :: Legal(s, steps, life) && Run(s, steps, life).now < exp ==> kid in Run(s, steps, life).m.pems
  }

  ghost predicate Outlives(s: World, kid: string, exp: Time) {
    kid in s.rows && exp <= s.rows[kid].expiresAt && (s.now < exp ==> kid in s.m.pems)
  }

  lemma OutlivesStep(s: World, step: Step, kid: string, exp: Time, life: Time)
    requires Enabled(s, step, life) && Outlives(s, kid, exp)
    ensures Outlives(Apply(s, step, life), kid, exp)
  {
    if step.Start? {
      var rows := StartTable(s.rows, s.now, step.selected, step.created, life);
      assert s.now < exp ==> kid in Unexpired(rows, s.now);
    }
  }

  lemma {:induction false} OutlivesRun(s: World, steps: seq<Step>, kid: string, exp: Time, life: Time)
    requires Legal(s, steps, life) && Outlives(s, kid, exp)
    ensures Outlives(Run(s, steps, life), kid, exp)
    decreases |steps|
  {
    if steps == [] {
    } else {
      OutlivesStep(s, steps[0], kid, exp, life);
      OutlivesRun(Apply(s, steps[0], life), steps[1..], kid, exp, life);
    }
  }

  lemma {:induction false} Longest(names: set<string>) returns (n: nat)
    ensures forall name :: name in names ==> |name| < n
    decreases |names|
  {
    n := 0;
    if names == {} {
    } else {
      var name :| name in names;
      n := Longest(names - {name});
      n := Max(n, |name| + 1);
      assert forall x :: x in names ==> x == name || x in names - {name};
    }
  }

  lemma FreshKid(rows: Table) returns (kid: string)
    ensures kid !in rows
  {
    var n := Longest(rows.Keys);
    kid := seq(n, i => 'k');
  }

  lemma {:induction false} ListAll(kids: set<string>) returns (listed: seq<string>)
    ensures forall kid :: kid in listed <==> kid in kids
    ensures forall i, j :: 0 <= i < j < |listed| ==> listed[i] != listed[j]
    decreases |kids|
  {
    listed := [];
    if kids == {} {
    } else {
      var kid :| kid in kids;
      var rest := ListAll(kids - {kid});
      listed := rest + [kid];
      assert forall x :: x in listed <==> x in rest || x == kid;
    }
  }

  /** A restart is always possible, and drops an expired key. */
  lemma RestartDropsExpired(s: World, kid: string, key: PublicKey, life: Time) returns (start: Step)
    requires kid in s.rows && s.rows[kid].expiresAt <= s.now
    ensures Enabled(s, start, life) && start.Start? && kid !in Apply(s, start, life).m.pems
    ensures Apply(s, start, life).now == s.now
  {
    var selected := FreshKid(s.rows);
    if !NoCurrentRow(s.rows) {
      selected :| selected in s.rows && s.rows[selected].isCurrent;
    }
    var rows := StartTable(s.rows, s.now, selected, key, life);
    var listed := ListAll(Unexpired(rows, s.now));
    start := Start(selected, key, listed);
  }

  /**
   A key this worker holds verifies a token until the token expires, whatever rotations, restarts and checks
   follow, if and only if the token does not outlive the key's row.
   */
  lemma {:induction false} VerifiesUntilIff(s: World, kid: string, exp: Time, life: Time)
    requires kid in s.rows && kid in s.m.pems && s.now < exp
    ensures VerifiesUntil(s, kid, exp, life) <==> exp <= s.rows[kid].expiresAt
  {
    if exp <= s.rows[kid].expiresAt {
      forall steps | Legal(s, steps, life) && Run(s, steps, life).now < exp
        ensures kid in Run(s, steps, life).m.pems
      {
        OutlivesRun(s, steps, kid, exp, life);
      }
    } else {
      var wait := Tick(Max(0, s.rows[kid].expiresAt - s.now));
      var s1 := Apply(s, wait, life);
      var start := RestartDropsExpired(s1, kid, s.rows[kid].key, life);
      RunCons(s1, start, [], life);
      RunCons(s, wait, [start] + [], life);
      assert !VerifiesUntil(s, kid, exp, life);
    }
  }

  /** A token of this lifetime signed now verifies here until it expires. */
  ghost predicate SignsSafely(t: World, lifetime: nat, life: Time) {
    t.m.current.Some? && VerifiesUntil(t, t.m.current.value, t.now + lifetime, life)
  }

  /** The row of the signing key lasts as long as a token of this lifetime. */
  predicate RowOutlasts(t: World, lifetime: nat) {
    && t.m.current.Some? && t.m.current.value in t.rows
    && t.now + lifetime <= t.rows[t.m.current.value].expiresAt
  }

  lemma SignedNowIff(t: World, lifetime: nat, life: Time)
    requires Consistent(t) && SigningKeyServed(t) && t.m.current.Some? && lifetime > 0
    ensures SignsSafely(t, lifetime, life) <==> RowOutlasts(t, lifetime)
  {
    var kid := t.m.current.value;
    if kid in t.m.pems {
      VerifiesUntilIff(t, kid, t.now + lifetime, life);
    } else {
      assert Legal(t, [], life) && Run(t, [], life) == t;
    }
  }

  /**
   The same at signing, where the caller can check it: in every run, a token signed now verifies on this worker
   until it expires if and only if it does not outlive the row of the current signing key.
   */
  lemma {:induction false} SignedTokenIff(s: World, before: seq<Step>, lifetime: nat, life: Time)
    requires Initial(s) && Legal(s, before, life) && Run(s, before, life).m.current.Some? && lifetime > 0
    ensures SignsSafely(Run(s, before, life), lifetime, life) <==> RowOutlasts(Run(s, before, life), lifetime)
  {
    ConsistentRun(s, before, life);
    SignedNowIff(Run(s, before, life), lifetime, life);
  }

  // ---------------------------------------------------------------------------
  // What a rotation check guarantees
  // ---------------------------------------------------------------------------

  /** Eight days, or all of it for keys that live less. */
  function Guaranteed(life: Time): Time {
    Min(8 * DAY, life)
  }

  /** A check is effective when it rotates, or need not because the signing key itself has the guaranteed life left. */
  ghost predicate Effective(s: World, step: Step, life: Time) {
    step.Check? ==>
      && step.selected in s.rows && s.m.current.Some? && s.m.current.value in s.rows
      && (NeedsRotation(s.rows[step.selected], s.now) ||
          s.now + Guaranteed(life) <= s.rows[s.m.current.value].expiresAt)
  }

  /** The signing key's row has at least the guaranteed life left at time `since`. */
  ghost predicate LeadFrom(s: World, since: Time, life: Time) {
    s.m.current.Some? && s.m.current.value in s.rows && since + Guaranteed(life) <= s.rows[s.m.current.value].expiresAt
  }

  /** Neither a check nor a restart. */
  ghost predicate Undisturbed(steps: seq<Step>) {
    forall i :: 0 <= i < |steps| ==> !steps[i].Check? && !steps[i].Start?
  }

  lemma {:induction false} LeadUndisturbed(s: World, steps: seq<Step>, since: Time, life: Time)
    requires Legal(s, steps, life) && Undisturbed(steps)
    requires s.m.current.Some? && s.m.current.value in s.rows
    ensures LeadFrom(Run(s, steps, life), since, life) <==> LeadFrom(s, since, life)
    decreases |steps|
  {
    if steps == [] {
    } else {
      LeadUndisturbed(Apply(s, steps[0], life), steps[1..], since, life);
    }
  }

  /**
   In every run, with no other check and no restart since: a check leaves the signing key the guaranteed eight
   days, counted from the check, if and only if it was effective.
   */
  lemma {:induction false} RotationLead(s: World, before: seq<Step>, check: Step, after: seq<Step>, life: Time)
    requires Initial(s) && Legal(s, before, life) && check.Check? && Enabled(Run(s, before, life), check, life)
    requires Legal(Apply(Run(s, before, life), check, life), after, life) && Undisturbed(after)
    ensures var t := Run(s, before, life);
            LeadFrom(Run(Apply(t, check, life), after, life), t.now, life) <==> Effective(t, check, life)
  {
    ConsistentRun(s, before, life);
    var t := Run(s, before, life);
    RotationRule(t.rows[check.selected], t.now);
    LeadUndisturbed(Apply(t, check, life), after, t.now, life);
  }

  /**
   Zero downtime: what a worker signs a time g after an effective check verifies there until it expires, in every
   continuation, if g plus the lifetime is within the guaranteed eight days. One-hour tokens thus survive six
   daily checks failing in a row.
   */
  lemma {:induction false} ZeroDowntime(
    s: World, before: seq<Step>, check: Step, after: seq<Step>, lifetime: nat, life: Time)
    requires Initial(s) && Legal(s, before, life) && check.Check? && Enabled(Run(s, before, life), check, life)
    requires Effective(Run(s, before, life), check, life)
    requires Legal(Apply(Run(s, before, life), check, life), after, life) && Undisturbed(after)
    requires var t := Run(s, before, life);
             Run(Apply(t, check, life), after, life).now - t.now + lifetime <= Guaranteed(life)
    ensures var u := Run(Apply(Run(s, before, life), check, life), after, life);
            u.m.current.Some? && (lifetime > 0 ==> SignsSafely(u, lifetime, life))
  {
    var t := Run(s, before, life);
    RotationLead(s, before, check, after, life);
    RunCons(t, check, after, life);
    RunAppend(s, before, [check] + after, life);
    if lifetime > 0 {
      SignedTokenIff(s, before + ([check] + after), lifetime, life);
    }
  }

  // ---------------------------------------------------------------------------
  // When are checks effective?
  // ---------------------------------------------------------------------------

  /** A check is well aimed when the row it looks at expires no later than the key this worker signs with. */
  ghost predicate WellAimed(s: World, step: Step) {
    step.Check? ==>
      && step.selected in s.rows && s.m.current.Some? && s.m.current.value in s.rows
      && s.rows[step.selected].expiresAt <= s.rows[s.m.current.value].expiresAt
  }

  lemma WellAimedIsEffective(s: World, step: Step, life: Time)
    requires WellAimed(s, step)
    ensures Effective(s, step, life)
  {
    if step.Check? {
      RotationRule(s.rows[step.selected], s.now);
    }
  }

  /** The signing key outlives every other row, and no row was made to outlive one made now. */
  ghost predicate SignsWithLatest(s: World, life: Time) {
    && (forall kid :: kid in s.rows ==> s.rows[kid].expiresAt <= s.now + life)
    && (s.m.current.Some? ==>
          s.m.current.value in s.rows
          && forall kid :: kid in s.rows ==> s.rows[kid].expiresAt <= s.rows[s.m.current.value].expiresAt)
  }

  /** A lone worker, whose restarts pick the latest-expiring current row. */
  ghost predicate LoneWorkerStep(s: World, step: Step) {
    && !step.OtherWorkerRotates?
    && (step.Start? && step.selected in s.rows ==>
          forall kid :: kid in s.rows ==> s.rows[kid].expiresAt <= s.rows[step.selected].expiresAt)
  }

  ghost predicate LoneWorker(s: World, steps: seq<Step>, life: Time)
    requires Legal(s, steps, life)
    decreases |steps|
  {
    steps == [] || (LoneWorkerStep(s, steps[0]) && LoneWorker(Apply(s, steps[0], life), steps[1..], life))
  }

  lemma LoneWorkerSignsWithLatest(s: World, step: Step, life: Time)
    requires SignsWithLatest(s, life) && Enabled(s, step, life) && LoneWorkerStep(s, step)
    ensures SignsWithLatest(Apply(s, step, life), life)
  {
  }

  /** On a lone worker every check is well aimed, and so effective. */
  lemma {:induction false} LoneWorkerChecksAreEffective(s: World, steps: seq<Step>, check: Step, life: Time)
    requires SignsWithLatest(s, life) && Legal(s, steps, life) && LoneWorker(s, steps, life)
    requires check.Check? && Enabled(Run(s, steps, life), check, life)
    ensures WellAimed(Run(s, steps, life), check) && Effective(Run(s, steps, life), check, life)
    decreases |steps|
  {
    if steps == [] {
      WellAimedIsEffective(s, check, life);
    } else {
      LoneWorkerSignsWithLatest(s, steps[0], life);
      LoneWorkerChecksAreEffective(Apply(s, steps[0], life), steps[1..], check, life);
    }
  }

  // ---------------------------------------------------------------------------
  // A worker that checks daily and still loses a token
  // ---------------------------------------------------------------------------

  /** n days, each ending in a check of the row `selected`. */
  function DailyChecks(n: nat, selected: string, kid: string, key: PublicKey): seq<Step> {
    if n == 0 then [] else [Tick(DAY)] + ([Check(selected, kid, key, false)] + DailyChecks(n - 1, selected, kid, key))
  }

  lemma IdleDay(s: World, selected: string, kid: string, key: PublicKey, life: Time)
    requires s.m.current.Some? && Selectable(s.rows, selected) && kid !in s.rows
    requires s.now + 9 * DAY <= s.rows[selected].expiresAt
    ensures var check := Check(selected, kid, key, false);
            && Enabled(Apply(s, Tick(DAY), life), check, life)
            && Apply(Apply(s, Tick(DAY), life), check, life) == s.(now := s.now + DAY, lastCheck := Some(s.now + DAY))
  {
    RotationRule(s.rows[selected], s.now + DAY);
  }

  /** As long as the row looked at has eight days left, nothing happens. */
  lemma {:induction false} IdleDays(s: World, n: nat, selected: string, kid: string, key: PublicKey, life: Time)
    requires s.m.current.Some? && Selectable(s.rows, selected) && kid !in s.rows
    requires s.now + n * DAY + 8 * DAY <= s.rows[selected].expiresAt
    ensures Legal(s, DailyChecks(n, selected, kid, key), life)
    ensures Run(s, DailyChecks(n, selected, kid, key), life)
         == if n == 0 then s else s.(now := s.now + n * DAY, lastCheck := Some(s.now + n * DAY))
    decreases n
  {
    if n == 0 {
    } else {
      var check, rest := Check(selected, kid, key, false), DailyChecks(n - 1, selected, kid, key);
      var s1, s2 := s.(now := s.now + DAY), s.(now := s.now + DAY, lastCheck := Some(s.now + DAY));
      IdleDay(s, selected, kid, key, life);
      IdleDays(s2, n - 1, selected, kid, key, life);
      RunCons(s1, check, rest, life);
      RunCons(s, Tick(DAY), [check] + rest, life);
    }
  }

  const FRESH := World(0, map[], EMPTY, None)

  /** One worker, signing with key a made at time 0; the key's numbers do not matter. */
  function OneRow(now: Time, key: PublicKey): World {
    World(now, map["a" := KeyRow(key, true, 90 * DAY)], Manager(Some("a"), [ToJwk("a", key)], map["a" := key]), None)
  }

  lemma FirstStart(key: PublicKey)
    ensures Enabled(FRESH, Start("a", key, ["a"]), DEFAULT_LIFE)
    ensures Apply(FRESH, Start("a", key, ["a"]), DEFAULT_LIFE) == OneRow(0, key)
  {
    var rows := OneRow(0, key).rows;
    assert StartTable(map[], 0, "a", key, DEFAULT_LIFE) == rows;
    assert Unexpired(rows, 0) == {"a"};
    assert Jwks(rows, ["a"]) == OneRow(0, key).m.jwks;
  }

  /** Half a day after the check of day 82 another worker, whose checks fall at noon, finds key a due and makes b. */
  function TwoRows(now: Time, lastCheck: Time, key: PublicKey): World {
    OneRow(now, key).(
      rows := map["a" := KeyRow(key, true, 90 * DAY), "b" := KeyRow(key, true, 172 * DAY + DAY / 2)],
      lastCheck := Some(lastCheck))
  }

  lemma OtherWorkerIsDue(key: PublicKey)
    ensures var s := OneRow(82 * DAY + DAY / 2, key);
            && NeedsRotation(s.rows["a"], s.now) && Enabled(s, OtherWorkerRotates("b", key, false), DEFAULT_LIFE)
            && Apply(s.(lastCheck := Some(82 * DAY)), OtherWorkerRotates("b", key, false), DEFAULT_LIFE)
               == TwoRows(82 * DAY + DAY / 2, 82 * DAY, key)
  {
    var rows := OneRow(82 * DAY + DAY / 2, key).rows;
    assert RotatedTable(rows, "b", key, 172 * DAY + DAY / 2, false) == TwoRows(0, 0, key).rows;
    RotationRule(rows["a"], 82 * DAY + DAY / 2);
  }

  /** From the end of day 83 on the worker checks b. */
  function SixDays(key: PublicKey, kid: string): seq<Step> {
    DailyChecks(6, "b", kid, key) + [Tick(DAY - 1800 * SECOND)]
  }

  lemma SixDaysRun(key: PublicKey, kid: string)
    requires kid != "a" && kid != "b"
    ensures var s := TwoRows(83 * DAY, 83 * DAY, key);
            Legal(s, SixDays(key, kid), DEFAULT_LIFE)
            && Run(s, SixDays(key, kid), DEFAULT_LIFE) == TwoRows(90 * DAY - 1800 * SECOND, 89 * DAY, key)
  {
    var life, wait := DEFAULT_LIFE, Tick(DAY - 1800 * SECOND);
    IdleDays(TwoRows(83 * DAY, 83 * DAY, key), 6, "b", kid, key, life);
    RunCons(TwoRows(89 * DAY, 89 * DAY, key), wait, [], life);
    RunAppend(TwoRows(83 * DAY, 83 * DAY, key), DailyChecks(6, "b", kid, key), [wait], life);
  }

  /** The other worker rotates between the checks of days 82 and 83. */
  function FromDay82(key: PublicKey, kid: string): seq<Step> {
    [Tick(DAY / 2)] + ([OtherWorkerRotates("b", key, false)]
    + ([Tick(DAY / 2)] + ([Check("b", kid, key, false)] + SixDays(key, kid))))
  }

  /** The check of day 83 looks at b. */
  lemma Day83Check(key: PublicKey, kid: string)
    requires kid != "a" && kid != "b"
    ensures var s, steps := TwoRows(82 * DAY + DAY / 2, 82 * DAY, key),
                            [Tick(DAY / 2)] + ([Check("b", kid, key, false)] + SixDays(key, kid));
            Legal(s, steps, DEFAULT_LIFE)
            && Run(s, steps, DEFAULT_LIFE) == TwoRows(90 * DAY - 1800 * SECOND, 89 * DAY, key)
  {
    var life, check := DEFAULT_LIFE, Check("b", kid, key, false);
    SixDaysRun(key, kid);
    IdleDay(TwoRows(82 * DAY, 82 * DAY, key), "b", kid, key, life);
    RunCons(TwoRows(83 * DAY, 82 * DAY, key), check, SixDays(key, kid), life);
    RunCons(TwoRows(82 * DAY + DAY / 2, 82 * DAY, key), Tick(DAY / 2), [check] + SixDays(key, kid), life);
  }

  lemma NoonOfDay82(key: PublicKey, kid: string)
    requires kid != "a" && kid != "b"
    ensures var s := OneRow(82 * DAY + DAY / 2, key).(lastCheck := Some(82 * DAY));
            var steps := [OtherWorkerRotates("b", key, false)]
                         + ([Tick(DAY / 2)] + ([Check("b", kid, key, false)] + SixDays(key, kid)));
            Legal(s, steps, DEFAULT_LIFE)
            && Run(s, steps, DEFAULT_LIFE) == TwoRows(90 * DAY - 1800 * SECOND, 89 * DAY, key)
  {
    Day83Check(key, kid);
    OtherWorkerIsDue(key);
    var s := OneRow(82 * DAY + DAY / 2, key).(lastCheck := Some(82 * DAY));
    var rest := [Tick(DAY / 2)] + ([Check("b", kid, key, false)] + SixDays(key, kid));
    RunCons(s, OtherWorkerRotates("b", key, false), rest, DEFAULT_LIFE);
  }

  lemma FromDay82Runs(key: PublicKey, kid: string)
    requires kid != "a" && kid != "b"
    ensures var s := OneRow(82 * DAY, key).(lastCheck := Some(82 * DAY));
            Legal(s, FromDay82(key, kid), DEFAULT_LIFE)
            && Run(s, FromDay82(key, kid), DEFAULT_LIFE) == TwoRows(90 * DAY - 1800 * SECOND, 89 * DAY, key)
  {
    NoonOfDay82(key, kid);
    var s := OneRow(82 * DAY, key).(lastCheck := Some(82 * DAY));
    assert Apply(s, Tick(DAY / 2), DEFAULT_LIFE) == OneRow(82 * DAY + DAY / 2, key).(lastCheck := Some(82 * DAY));
    var rest := [OtherWorkerRotates("b", key, false)]
                + ([Tick(DAY / 2)] + ([Check("b", kid, key, false)] + SixDays(key, kid)));
    RunCons(s, Tick(DAY / 2), rest, DEFAULT_LIFE);
  }

  /** Every check on time, from the first day to the last half hour of key a. */
  function OnSchedule(key: PublicKey, kid: string): seq<Step> {
    [Start("a", key, ["a"])] + (DailyChecks(82, "a", kid, key) + FromDay82(key, kid))
  }

  lemma OnScheduleRuns(key: PublicKey, kid: string)
    requires kid != "a" && kid != "b"
    ensures Legal(FRESH, OnSchedule(key, kid), DEFAULT_LIFE)
    ensures Run(FRESH, OnSchedule(key, kid), DEFAULT_LIFE) == TwoRows(90 * DAY - 1800 * SECOND, 89 * DAY, key)
  {
    var life, days, rest := DEFAULT_LIFE, DailyChecks(82, "a", kid, key), FromDay82(key, kid);
    FromDay82Runs(key, kid);
    IdleDays(OneRow(0, key), 82, "a", kid, key, life);
    RunAppend(OneRow(0, key), days, rest, life);
    FirstStart(key);
    RunCons(FRESH, Start("a", key, ["a"]), days + rest, life);
  }

  /**
   So a worker can complete every daily check and lose tokens. From day 83 its checks look at the other worker's
   key and rotate nothing, and on day 89 it signs a one-hour token, less than a day after its last check, that
   outlives key a: some continuation, a restart, leaves the unexpired token unverifiable.
   */
  lemma DailyChecksLoseToken(key: PublicKey, kid: string)
    requires kid != "a" && kid != "b"
    ensures Initial(FRESH) && Legal(FRESH, OnSchedule(key, kid), DEFAULT_LIFE)
    ensures var t := Run(FRESH, OnSchedule(key, kid), DEFAULT_LIFE);
            && t.m.current == Some("a") && t.lastCheck == Some(89 * DAY) && t.now < 90 * DAY
            && t.now - 89 * DAY + 3600 * SECOND <= Guaranteed(DEFAULT_LIFE)
            && !VerifiesUntil(t, "a", t.now + 3600 * SECOND, DEFAULT_LIFE)
  {
    OnScheduleRuns(key, kid);
    SignedTokenIff(FRESH, OnSchedule(key, kid), 3600 * SECOND, DEFAULT_LIFE);
  }

  // ---------------------------------------------------------------------------
  // Keys of other workers
  // ---------------------------------------------------------------------------

  /** When this worker last started, `earlier` if it did not. */
  ghost function LastStart(s: World, steps: seq<Step>, life: Time, earlier: Option<Time>): Option<Time>
    requires Legal(s, steps, life)
    decreases |steps|
  {
    if steps == [] then earlier
    else LastStart(Apply(s, steps[0], life), steps[1..], life, if steps[0].Start? then Some(s.now) else earlier)
  }

  lemma {:induction false} HeldSinceStart(s: World, steps: seq<Step>, kid: string, life: Time, earlier: Option<Time>)
    requires Legal(s, steps, life) && kid in s.rows
    requires kid in s.m.pems <==> earlier.Some? && earlier.value < s.rows[kid].expiresAt
    ensures var t, last := Run(s, steps, life), LastStart(s, steps, life, earlier);
            && kid in t.rows && t.rows[kid].expiresAt == s.rows[kid].expiresAt
            && (kid in t.m.pems <==> last.Some? && last.value < s.rows[kid].expiresAt)
    decreases |steps|
  {
    if steps == [] {
    } else {
      var step := steps[0];
      if step.Start? {
        var rows := StartTable(s.rows, s.now, step.selected, step.created, life);
        assert kid in step.listed <==> kid in Unexpired(rows, s.now);
      }
      HeldSinceStart(Apply(s, step, life), steps[1..], kid, life, if step.Start? then Some(s.now) else earlier);
    }
  }

  /**
   The scheduler's comment has all workers reload the key list within thirty seconds of a rotation. Nothing tells
   them: a key made by another worker is held here if and only if this worker has started since, and last did
   so before the key expired.
   */
  lemma OtherWorkersKeyIff(s: World, before: seq<Step>, rotate: Step, after: seq<Step>, life: Time)
    requires Initial(s) && Legal(s, before, life)
    requires rotate.OtherWorkerRotates? && Enabled(Run(s, before, life), rotate, life)
    requires Legal(Apply(Run(s, before, life), rotate, life), after, life)
    ensures var made := Apply(Run(s, before, life), rotate, life);
            var last := LastStart(made, after, life, None);
            rotate.kid in Run(made, after, life).m.pems <==> last.Some? && last.value < made.now + life
  {
    ConsistentRun(s, before, life);
    HeldSinceStart(Apply(Run(s, before, life), rotate, life), after, rotate.kid, life, None);
  }
}
