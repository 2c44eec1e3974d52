/** What the hourly prune takes out of a worker's set, and what it never reaches. */
module Orphans {
  import opened Common
  import opened Revocation

  ghost predicate Holds(s: World, w: nat, e: Entry) {
    w in s.workers && e in s.workers[w].revoked
  }

  /** Worker w is between fetching and removing, and e is among what it fetched. */
  ghost predicate AboutToDrop(v: Worker, e: Entry) {
    v.pruning.Fetched? && e in v.pruning.expired
  }

  // ---------------------------------------------------------------------------
  // One prune
  // ---------------------------------------------------------------------------

  /** A step that neither ends worker w's prune nor touches its listener. */
  predicate LetsPruneFinish(step: Step, w: nat) {
    step != Stop(w) && step != PruneApply(w) && step != PruneFails(w) && step != ListenerFails(w)
  }

  /** Worker w has fetched `expired`, and holds e or not. */
  ghost predicate Fetching(s: World, w: nat, expired: set<Entry>) {
    w in s.workers && s.workers[w].phase == Listening && s.workers[w].pruning == Fetched(expired)
  }

  lemma FetchingStep(s: World, step: Step, w: nat, expired: set<Entry>)
    requires Fetching(s, w, expired) && Enabled(s, step) && LetsPruneFinish(step, w)
    ensures Fetching(Apply(s, step), w, expired)
    ensures s.workers[w].revoked <= Apply(s, step).workers[w].revoked
  {
    if !MemoryStep(step, w) && !step.Revoke? && !step.Commit? {
      assert Apply(s, step).workers[w] == s.workers[w];
    }
  }

  lemma {:induction false} FetchingRun(s: World, steps: seq<Step>, w: nat, expired: set<Entry>)
    requires Fetching(s, w, expired) && Legal(s, steps)
    requires forall i :: 0 <= i < |steps| ==> LetsPruneFinish(steps[i], w)
    ensures Fetching(Run(s, steps), w, expired)
    ensures s.workers[w].revoked <= Run(s, steps).workers[w].revoked
    decreases |steps|
  {
    if steps == [] {
    } else {
      FetchingStep(s, steps[0], w, expired);
      FetchingRun(Apply(s, steps[0]), steps[1..], w, expired);
    }
  }

  /**
   Whatever happens between the two halves of a prune, an entry held at the fetch leaves the set if and only if
   its row was in the table and expired at the fetch.
   */
  lemma PruneRemovesIff(s: World, between: seq<Step>, w: nat, e: Entry)
    requires Enabled(s, PruneFetch(w)) && Holds(s, w, e)
    requires Legal(Apply(s, PruneFetch(w)), between)
    requires forall i :: 0 <= i < |between| ==> LetsPruneFinish(between[i], w)
    ensures var t := Run(Apply(s, PruneFetch(w)), between);
            Enabled(t, PruneApply(w)) && (!Holds(Apply(t, PruneApply(w)), w, e) <==> e in s.rows && s.rows[e] <= s.now)
  {
    FetchingRun(Apply(s, PruneFetch(w)), between, w, ExpiredEntries(s.rows, s.now));
  }

  /** Somewhere along the run, worker w fetched e's expired row. */
  ghost predicate FetchedExpired(s: World, steps: seq<Step>, w: nat, e: Entry)
    requires Legal(s, steps)
    decreases |steps|
  {
    steps != []
    && ((steps[0] == PruneFetch(w) && e in s.rows && s.rows[e] <= s.now)
        || FetchedExpired(Apply(s, steps[0]), steps[1..], w, e))
  }

  ghost predicate Kept(s: World, w: nat, e: Entry) {
    Running(s, w) && Holds(s, w, e) && !AboutToDrop(s.workers[w], e)
  }

  lemma KeptOwnStep(s: World, step: Step, w: nat, e: Entry)
    requires Kept(s, w, e) && Enabled(s, step) && (MemoryStep(step, w) || step == PruneDelete(w))
    requires !(step == PruneFetch(w) && e in s.rows && s.rows[e] <= s.now)
    ensures Kept(Apply(s, step), w, e)
  {
  }

  /** Requests, commits and other workers take nothing out of w's set. */
  lemma KeptOtherStep(s: World, step: Step, w: nat, e: Entry)
    requires Kept(s, w, e) && Enabled(s, step) && !MemoryStep(step, w) && step != PruneDelete(w) && step != Stop(w)
    ensures Kept(Apply(s, step), w, e)
  {
    if !step.Revoke? && !step.Commit? {
      assert Apply(s, step).workers[w] == s.workers[w];
    }
  }

  lemma KeptStep(s: World, step: Step, w: nat, e: Entry)
    requires Kept(s, w, e) && Enabled(s, step) && step != Stop(w)
    requires !(step == PruneFetch(w) && e in s.rows && s.rows[e] <= s.now)
    ensures Kept(Apply(s, step), w, e)
  {
    if MemoryStep(step, w) || step == PruneDelete(w) {
      KeptOwnStep(s, step, w, e);
    } else {
      KeptOtherStep(s, step, w, e);
    }
  }

  /** While the worker runs, an entry leaves its set only through a fetch made while the expired row was there. */
  lemma {:induction false} LeavesOnlyThroughFetch(s: World, steps: seq<Step>, w: nat, e: Entry)
    requires Kept(s, w, e) && Legal(s, steps)
    requires forall i :: 0 <= i < |steps| ==> steps[i] != Stop(w)
    ensures Holds(Run(s, steps), w, e) || FetchedExpired(s, steps, w, e)
    decreases |steps|
  {
    if steps == [] {
    } else if steps[0] == PruneFetch(w) && e in s.rows && s.rows[e] <= s.now {
    } else {
      KeptStep(s, steps[0], w, e);
      LeavesOnlyThroughFetch(Apply(s, steps[0]), steps[1..], w, e);
    }
  }

  // ---------------------------------------------------------------------------
  // Out of reach
  // ---------------------------------------------------------------------------

  /** No row of e, committed or pending. */
  ghost predicate NoRow(s: World, e: Entry) {
    e !in s.rows && forall t :: t in s.open ==> e !in s.open[t].inserts
  }

  /**
   Worker w holds e and no prune of w can take it out: no row leads to it, or w's listener, which prunes, has died.
   */
  ghost predicate Stuck(s: World, w: nat, e: Entry) {
    Kept(s, w, e) && (s.workers[w].phase == Deaf || NoRow(s, e))
  }

  /** Worker w is not stopped and e is not revoked again. */
  predicate LeavesAlone(step: Step, w: nat, e: Entry) {
    step != Stop(w) && !(step.Revoke? && step.entry == e)
  }

  ghost predicate AllLeaveAlone(steps: seq<Step>, w: nat, e: Entry) {
    forall i :: 0 <= i < |steps| ==> LeavesAlone(steps[i], w, e)
  }

  lemma NoRowStep(s: World, step: Step, e: Entry)
    requires NoRow(s, e) && Enabled(s, step) && !(step.Revoke? && step.entry == e)
    ensures NoRow(Apply(s, step), e)
  {
    if step.Revoke? {
      assert forall t :: t in Apply(s, step).open ==> e !in Apply(s, step).open[t].inserts;
    }
  }

  lemma DeafStep(s: World, step: Step, w: nat)
    requires w in s.workers && s.workers[w].phase == Deaf && Enabled(s, step) && step != Stop(w)
    ensures w in Apply(s, step).workers && Apply(s, step).workers[w].phase == Deaf
  {
    if !MemoryStep(step, w) && !step.Revoke? && !step.Commit? && step != PruneDelete(w) {
      assert Apply(s, step).workers[w] == s.workers[w];
    }
  }

  lemma StuckStep(s: World, step: Step, w: nat, e: Entry)
    requires Stuck(s, w, e) && Enabled(s, step) && LeavesAlone(step, w, e)
    ensures Stuck(Apply(s, step), w, e)
  {
    KeptStep(s, step, w, e);
    if s.workers[w].phase == Deaf {
      DeafStep(s, step, w);
    } else {
      NoRowStep(s, step, e);
    }
  }

  lemma {:induction false} StuckRun(s: World, steps: seq<Step>, w: nat, e: Entry)
    requires Stuck(s, w, e) && Legal(s, steps) && AllLeaveAlone(steps, w, e)
    ensures Stuck(Run(s, steps), w, e)
    decreases |steps|
  {
    if steps == [] {
    } else {
      assert LeavesAlone(steps[0], w, e);
      StuckStep(s, steps[0], w, e);
      StuckRun(Apply(s, steps[0]), steps[1..], w, e);
    }
  }

  /** These steps take e out of w's set. */
  ghost predicate TakesOut(s: World, steps: seq<Step>, w: nat, e: Entry) {
    Legal(s, steps) && AllLeaveAlone(steps, w, e) && !Holds(Run(s, steps), w, e)
  }

  lemma TakesOutCons(s: World, step: Step, rest: seq<Step>, w: nat, e: Entry)
    requires Enabled(s, step) && LeavesAlone(step, w, e) && TakesOut(Apply(s, step), rest, w, e)
    ensures TakesOut(s, [step] + rest, w, e)
  {
    RunCons(s, step, rest);
  }

  lemma OutByPrune(s: World, w: nat, e: Entry) returns (steps: seq<Step>)
    requires Holds(s, w, e) && s.workers[w].phase == Listening && s.workers[w].pruning == Idle && e in s.rows
    ensures TakesOut(s, steps, w, e)
  {
    var wait := Tick(Max(0, s.rows[e] - s.now));
    var s1 := Apply(s, wait);
    PruneRemovesIff(s1, [], w, e);
    var s2 := Apply(s1, PruneFetch(w));
    steps := [];
    assert Legal(Apply(s2, PruneApply(w)), steps);
    TakesOutCons(s2, PruneApply(w), steps, w, e);
    steps := [PruneApply(w)] + steps;
    TakesOutCons(s1, PruneFetch(w), steps, w, e);
    steps := [PruneFetch(w)] + steps;
    TakesOutCons(s, wait, steps, w, e);
    steps := [wait] + steps;
  }

  lemma OutByListening(s: World, w: nat, e: Entry) returns (steps: seq<Step>)
    requires Holds(s, w, e) && s.workers[w].phase in {Loaded, Listening} && e in s.rows
    ensures TakesOut(s, steps, w, e)
  {
    var s1 := Apply(s, PruneFails(w));
    if s.workers[w].phase == Loaded {
      var s2 := Apply(s1, Listen(w));
      steps := OutByPrune(s2, w, e);
      TakesOutCons(s1, Listen(w), steps, w, e);
      steps := [Listen(w)] + steps;
    } else {
      steps := OutByPrune(s1, w, e);
    }
    TakesOutCons(s, PruneFails(w), steps, w, e);
    steps := [PruneFails(w)] + steps;
  }

  lemma CommitKeepsSet(s: World, t: nat, w: nat)
    requires t in s.open && w in s.workers
    ensures w in AfterCommit(s, t).workers
    ensures AfterCommit(s, t).workers[w].revoked == s.workers[w].revoked
    ensures AfterCommit(s, t).workers[w].phase == s.workers[w].phase
  {
  }

  lemma OutUnlessStuck(s: World, w: nat, e: Entry) returns (steps: seq<Step>)
    requires Running(s, w) && Holds(s, w, e) && !Stuck(s, w, e)
    ensures TakesOut(s, steps, w, e)
  {
    if AboutToDrop(s.workers[w], e) {
      assert Legal(Apply(s, PruneApply(w)), []);
      TakesOutCons(s, PruneApply(w), [], w, e);
      steps := [PruneApply(w)] + [];
    } else if e in s.rows {
      steps := OutByListening(s, w, e);
    } else {
      var t :| t in s.open && e in s.open[t].inserts;
      CommitKeepsSet(s, t, w);
      steps := OutByListening(Apply(s, Commit(t)), w, e);
      TakesOutCons(s, Commit(t), steps, w, e);
      steps := [Commit(t)] + steps;
    }
  }

  /**
   The hourly prune is there to keep the sets from growing without bound. Exactly: an entry stays in a running
   worker's set for as long as that worker runs and the entry is not revoked again, whatever else happens, if and
   only if it is stuck there.
   */
  lemma StaysIffStuck(s: World, w: nat, e: Entry)
    requires Running(s, w) && Holds(s, w, e)
    ensures (forall steps :: Legal(s, steps) && AllLeaveAlone(steps, w, e) ==> Holds(Run(s, steps), w, e)) <==>
             Stuck(s, w, e)
  {
    if Stuck(s, w, e) {
      forall steps | Legal(s, steps) && AllLeaveAlone(steps, w, e) ensures Holds(Run(s, steps), w, e) {
        StuckRun(s, steps, w, e);
      }
    } else {
      var steps := OutUnlessStuck(s, w, e);
      assert TakesOut(s, steps, w, e);
    }
  }

  // ---------------------------------------------------------------------------
  // How entries get stuck
  // ---------------------------------------------------------------------------

  lemma NoRowAfterDelete(s: World, x: nat, e: Entry)
    requires TxnsOk(s) && Enabled(s, PruneDelete(x)) && e in s.rows && s.rows[e] <= s.now
    ensures NoRow(Apply(s, PruneDelete(x)), e)
  {
    forall u | u in s.open ensures e !in s.open[u].inserts {
      assert TxnOk(s, u);
    }
  }

  /** When another worker deletes the expired row, an entry this worker has not fetched is stuck. */
  lemma StuckAfterDelete(s: World, steps: seq<Step>, w: nat, x: nat, e: Entry)
    requires Initial(s) && Legal(s, steps)
    requires var t := Run(s, steps);
             Running(t, w) && Holds(t, w, e) && w != x && Enabled(t, PruneDelete(x)) && e in t.rows &&
                 t.rows[e] <= t.now
    ensures var t := Run(s, steps);
            Stuck(Apply(t, PruneDelete(x)), w, e) <==> !AboutToDrop(t.workers[w], e)
  {
    InvReachable(s, steps);
    var t := Run(s, steps);
    NoRowAfterDelete(t, x, e);
    assert Apply(t, PruneDelete(x)).workers[w] == t.workers[w];
  }

  /** When the transaction that revoked an entry is rolled back, the entry is stuck on the worker that served it. */
  lemma StuckAfterRollback(s: World, steps: seq<Step>, txn: nat, e: Entry)
    requires Initial(s) && Legal(s, steps)
    requires var t := Run(s, steps);
             txn in t.open && e in t.open[txn].inserts && Running(t, t.open[txn].worker) &&
                 Holds(t, t.open[txn].worker, e)
    ensures var t := Run(s, steps);
            Stuck(Apply(t, Rollback(txn)), t.open[txn].worker, e) <==> !AboutToDrop(t.workers[t.open[txn].worker], e)
  {
    InvReachable(s, steps);
    assert TxnOk(Run(s, steps), txn);
  }

  /** Worker 0 listens, worker 1 has loaded, and a token expiring at 10 has been issued. */
  function Ready(jti: string): World {
    World(0, map[jti := 10], map[], map[],
          map[0 := Worker(Listening, {}, {}, Idle, {}, {}, {}), 1 := Worker(Loaded, {}, {}, Idle, {}, {}, {})],
              map[], map[])
  }

  /** Worker 0 listens; worker 1 has not started. */
  function HalfReady(): World {
    World(0, map[], map[], map[], map[0 := Worker(Listening, {}, {}, Idle, {}, {}, {}), 1 := STOPPED], map[], map[])
  }

  lemma HalfReadyReachable(rest: seq<Step>)
    requires Legal(HalfReady(), rest)
    ensures exists s, steps :: Initial(s) && Legal(s, steps) && Run(s, steps) == Run(HalfReady(), rest)
  {
    var s0 := World(0, map[], map[], map[], map[0 := STOPPED, 1 := STOPPED], map[], map[]);
    var s1 := Apply(s0, Start(0, true));
    var s2 := Apply(s1, Listen(0));
    assert s2.workers[0] == HalfReady().workers[0] && s2.workers == HalfReady().workers;
    assert s2 == HalfReady();
    RunCons(s1, Listen(0), rest);
    RunCons(s0, Start(0, true), [Listen(0)] + rest);
    assert Legal(s0, [Start(0, true)] + ([Listen(0)] + rest));
  }

  lemma ReadyReachable(jti: string, rest: seq<Step>)
    requires Legal(Ready(jti), rest)
    ensures exists s, steps :: Initial(s) && Legal(s, steps) && Run(s, steps) == Run(Ready(jti), rest)
  {
    var s1 := Apply(HalfReady(), Start(1, true));
    var s2 := Apply(s1, Issue(jti, 10));
    assert s2.workers[1] == Ready(jti).workers[1] && s2.workers == Ready(jti).workers;
    assert s2 == Ready(jti);
    RunCons(s1, Issue(jti, 10), rest);
    RunCons(HalfReady(), Start(1, true), [Issue(jti, 10)] + rest);
    HalfReadyReachable([Start(1, true)] + ([Issue(jti, 10)] + rest));
  }

  /** Worker 1 has revoked the token in transaction 0. */
  function Revoking(jti: string): World {
    var e := AccessToken(jti);
    Ready(jti).(
      open := map[0 := Txn(1, map[e := 10])],
      workers := Ready(jti).workers[1 := Worker(Loaded, {e}, {}, Idle, {e}, {e}, {})],
      floor := map[e := 10])
  }

  lemma RevokingReachable(jti: string, rest: seq<Step>)
    requires Legal(Revoking(jti), rest)
    ensures exists s, steps :: Initial(s) && Legal(s, steps) && Run(s, steps) == Run(Revoking(jti), rest)
  {
    var revoke := Revoke(0, 1, AccessToken(jti), 10);
    var t := Apply(Ready(jti), revoke);
    assert t.workers[1] == Revoking(jti).workers[1] && t.workers == Revoking(jti).workers;
    assert t.open == Revoking(jti).open;
    assert t == Revoking(jti);
    RunCons(Ready(jti), revoke, rest);
    ReadyReachable(jti, [revoke] + rest);
  }

  /** The revocation is committed and expired, and worker 0 is about to prune it. */
  function Pruning(jti: string): World {
    var e := AccessToken(jti);
    World(10, map[jti := 10], map[e := 10], map[],
          map[0 := Worker(Listening, {}, {e}, Fetched({e}), {}, {}, {}),
              1 := Worker(Loaded, {e}, {}, Idle, {e}, {e}, {})],
          map[e := 10], map[e := 10])
  }

  /** The revocation is committed. */
  function RevocationCommitted(jti: string): World {
    var e := AccessToken(jti);
    Revoking(jti).(
      rows := map[e := 10], log := map[e := 10], open := map[],
      workers := Revoking(jti).workers[0 := Worker(Listening, {}, {e}, Idle, {}, {}, {})])
  }

  lemma CommitRevocation(jti: string)
    ensures Apply(Revoking(jti), Commit(0)) == RevocationCommitted(jti)
  {
    var t := Apply(Revoking(jti), Commit(0));
    assert t.workers[0] == RevocationCommitted(jti).workers[0] && t.workers[1] == RevocationCommitted(jti).workers[1];
    assert t.workers == RevocationCommitted(jti).workers;
    assert t.rows == RevocationCommitted(jti).rows && t.log == RevocationCommitted(jti).log && t.open == map[];
  }

  lemma FetchExpired(jti: string)
    ensures var s := RevocationCommitted(jti).(now := 10);
            Enabled(s, PruneFetch(0)) && Apply(s, PruneFetch(0)) == Pruning(jti)
  {
    var s := RevocationCommitted(jti).(now := 10);
    var t := Apply(s, PruneFetch(0));
    assert ExpiredEntries(s.rows, 10) == {AccessToken(jti)};
    assert t.workers[0] == Pruning(jti).workers[0] && t.workers[1] == Pruning(jti).workers[1];
    assert t.workers == Pruning(jti).workers;
  }

  lemma CommittedAndFetched(jti: string, rest: seq<Step>) returns (steps: seq<Step>)
    requires Legal(Pruning(jti), rest)
    ensures Legal(Revoking(jti), steps) && Run(Revoking(jti), steps) == Run(Pruning(jti), rest)
  {
    CommitRevocation(jti);
    FetchExpired(jti);
    RunCons(RevocationCommitted(jti).(now := 10), PruneFetch(0), rest);
    RunCons(RevocationCommitted(jti), Tick(10), [PruneFetch(0)] + rest);
    RunCons(Revoking(jti), Commit(0), [Tick(10)] + ([PruneFetch(0)] + rest));
    steps := [Commit(0)] + ([Tick(10)] + ([PruneFetch(0)] + rest));
  }

  lemma PrunedElsewhere(jti: string)
    ensures var steps := [PruneApply(0)] + ([PruneDelete(0)] + []);
            && Legal(Pruning(jti), steps)
            && AccessToken(jti) in Run(Pruning(jti), steps).log && Stuck(Run(Pruning(jti), steps), 1, AccessToken(jti))
  {
    var s1 := Apply(Pruning(jti), PruneApply(0));
    var s2 := Apply(s1, PruneDelete(0));
    assert s2.workers[1] == Pruning(jti).workers[1];
    RunCons(s1, PruneDelete(0), []);
    RunCons(Pruning(jti), PruneApply(0), [PruneDelete(0)] + []);
  }

  /** A run from an empty database in which another worker's prune leaves an entry stuck. */
  lemma StuckByPruneReachable(jti: string)
    ensures exists s, steps ::
              Initial(s) && Legal(s, steps) && AccessToken(jti) in Run(s, steps).log &&
                  Stuck(Run(s, steps), 1, AccessToken(jti))
  {
    PrunedElsewhere(jti);
    var steps := CommittedAndFetched(jti, [PruneApply(0)] + ([PruneDelete(0)] + []));
    RevokingReachable(jti, steps);
  }

  /** And one in which a rollback does. */
  lemma StuckByRollbackReachable(jti: string)
    ensures exists s, steps :: Initial(s) && Legal(s, steps) && Run(s, steps).log == map[] &&
             Stuck(Run(s, steps), 1, AccessToken(jti))
  {
    RunCons(Revoking(jti), Rollback(0), []);
    RevokingReachable(jti, [Rollback(0)] + []);
  }
}
