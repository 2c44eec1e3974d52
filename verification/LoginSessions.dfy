/** The login-session cap of `record_login`, whose calls run detached and may overlap. */
module LoginSessions {
  import opened Common

  datatype Session = Session(user: string, createdAt: Time, active: bool)

  const MAX_SESSIONS := 10

  /**
   A call between its query and its commit. The new row is not flushed before the query, so `existing`, the active
   sessions in order of creation, does not hold it. `commitsAtRead` is history.
   */
  datatype Call = Call(user: string, id: nat, createdAt: Time, existing: seq<nat>, commitsAtRead: nat)

  /** `commits` counts, per user, the committed calls: history. */
  datatype World = World(sessions: map<nat, Session>, calls: map<nat, Call>, commits: map<string, nat>)

  datatype Step =
    | Read(call: nat, user: string, id: nat, createdAt: Time, existing: seq<nat>)
    | Commit(call: nat)
    | Abandon(call: nat)
    | RevokeOne(id: nat, user: string)
    | RevokeAll(user: string)

  function ActiveOf(sessions: map<nat, Session>, user: string): set<nat> {
    set id | id in sessions && sessions[id].user == user && sessions[id].active
  }

  function ToSet(ids: seq<nat>): set<nat> {
    set id | id in ids
  }

  /** The query: the user's active sessions, each once, oldest first. */
  ghost predicate Queried(sessions: map<nat, Session>, user: string, existing: seq<nat>) {
    && ToSet(existing) == ActiveOf(sessions, user)
    && (forall i, j :: 0 <= i < j < |existing| ==> existing[i] != existing[j])
    && forall i, j :: 0 <= i < j < |existing| && existing[i] in sessions && existing[j] in sessions ==>
         sessions[existing[i]].createdAt <= sessions[existing[j]].createdAt
  }

  /** The overflow to evict: all but the newest nine. */
  function Evicted(existing: seq<nat>): (evicted: seq<nat>)
    ensures |existing| - |evicted| <= MAX_SESSIONS - 1
    ensures evicted <= existing
  {
    if |existing| > MAX_SESSIONS - 1 then existing[..|existing| - (MAX_SESSIONS - 1)] else []
  }

  function Deactivated(sessions: map<nat, Session>, ids: set<nat>): (r: map<nat, Session>)
    ensures r.Keys == sessions.Keys
    ensures forall id :: id in sessions ==> r[id] == sessions[id].(active := sessions[id].active && id !in ids)
  {
    map id | id in sessions :: sessions[id].(active := sessions[id].active && id !in ids)
  }

  function Committed(sessions: map<nat, Session>, c: Call): map<nat, Session> {
    Deactivated(sessions, ToSet(Evicted(c.existing)))[c.id := Session(c.user, c.createdAt, true)]
  }

  function CommitCount(s: World, user: string): nat {
    if user in s.commits then s.commits[user] else 0
  }

  predicate IdTaken(s: World, id: nat) {
    id in s.sessions || exists c :: c in s.calls && s.calls[c].id == id
  }

  ghost predicate Enabled(s: World, step: Step) {
    match step
    case Read(c, user, id, _, existing) => c !in s.calls && !IdTaken(s, id) && Queried(s.sessions, user, existing)
    case Commit(c) => c in s.calls
    case Abandon(c) => c in s.calls
    case RevokeOne(id, user) => id in s.sessions && s.sessions[id].user == user
    case RevokeAll(_) => true
  }

  ghost function Apply(s: World, step: Step): World
    requires Enabled(s, step)
  {
    match step
    case Read(c, user, id, createdAt, existing) =>
      s.(calls := s.calls[c := Call(user, id, createdAt, existing, CommitCount(s, user))])
    case Commit(c) =>
      var call := s.calls[c];
      World(Committed(s.sessions, call), s.calls - {c}, s.commits[call.user := CommitCount(s, call.user) + 1])
    case Abandon(c) => s.(calls := s.calls - {c})
    case RevokeOne(id, _) => s.(sessions := Deactivated(s.sessions, {id}))
    case RevokeAll(user) => s.(sessions := Deactivated(s.sessions, ActiveOf(s.sessions, user)))
  }

  ghost predicate Legal(s: World, steps: seq<Step>)
    decreases |steps|
  {
    steps == [] || (Enabled(s, steps[0]) && Legal(Apply(s, steps[0]), steps[1..]))
  }

  ghost function Run(s: World, steps: seq<Step>): World
    requires Legal(s, steps)
    decreases |steps|
  {
    if steps == [] then s else Run(Apply(s, steps[0]), steps[1..])
  }

  /** Any sessions, no call under way. */
  ghost predicate Initial(s: World) {
    s.calls == map[]
  }

  // ---------------------------------------------------------------------------
  // Invariant
  // ---------------------------------------------------------------------------

  /** The call's snapshot lists distinct sessions of its user in order of creation. */
  ghost predicate SnapshotOk(sessions: map<nat, Session>, call: Call) {
    && (forall i, j :: 0 <= i < j < |call.existing| ==> call.existing[i] != call.existing[j])
    && (forall i :: 0 <= i < |call.existing| ==>
        call.existing[i] in sessions && sessions[call.existing[i]].user == call.user)
    && (forall i, j :: 0 <= i < j < |call.existing| ==>
        sessions[call.existing[i]].createdAt <= sessions[call.existing[j]].createdAt)
  }

  /** Active sessions the call did not see. */
  function Unseen(sessions: map<nat, Session>, call: Call): set<nat> {
    ActiveOf(sessions, call.user) - ToSet(call.existing)
  }

  /** They came from calls committed since its query; `commits` is how many there are by now. */
  ghost predicate Fits(sessions: map<nat, Session>, call: Call, commits: nat) {
    call.id !in sessions && SnapshotOk(sessions, call) && call.commitsAtRead + |Unseen(sessions, call)| <= commits
  }

  ghost predicate CallOk(s: World, c: nat)
    requires c in s.calls
  {
    Fits(s.sessions, s.calls[c], CommitCount(s, s.calls[c].user))
  }

  ghost predicate IdsDistinct(calls: map<nat, Call>) {
    forall c, d :: c in calls && d in calls && calls[c].id == calls[d].id ==> c == d
  }

  ghost predicate Inv(s: World) {
    (forall c :: c in s.calls ==> CallOk(s, c)) && IdsDistinct(s.calls)
  }

  lemma SnapshotKept(sessions: map<nat, Session>, sessions': map<nat, Session>, call: Call)
    requires SnapshotOk(sessions, call)
    requires forall id :: id in sessions ==>
             id in sessions' && sessions'[id] == sessions[id].(active := sessions'[id].active)
    ensures SnapshotOk(sessions', call)
  {
  }

  /** Deactivating sessions only shrinks what a call did not see. */
  lemma CallOkDeactivated(s: World, s': World, c: nat, ids: set<nat>)
    requires c in s.calls && CallOk(s, c)
    requires s'.sessions == Deactivated(s.sessions, ids) && s'.commits == s.commits
    requires c in s'.calls && s'.calls[c] == s.calls[c]
    ensures CallOk(s', c)
  {
    SnapshotKept(s.sessions, s'.sessions, s.calls[c]);
    SubsetSize(Unseen(s'.sessions, s.calls[c]), Unseen(s.sessions, s.calls[c]));
  }

  /** Another call's commit adds at most its own new session to what a call of the same user did not see. */
  lemma UnseenAfterCommit(sessions: map<nat, Session>, call: Call, other: Call)
    ensures |Unseen(Committed(sessions, other), call)| <= |Unseen(sessions, call)| +
             (if other.user == call.user then 1 else 0)
  {
    var unseen, unseen' := Unseen(sessions, call), Unseen(Committed(sessions, other), call);
    if other.user == call.user {
      SubsetSize(unseen', unseen + {other.id});
    } else {
      SubsetSize(unseen', unseen);
    }
  }

  lemma CountAfterCommit(s: World, user: string, d: nat)
    requires d in s.calls
    ensures CommitCount(Apply(s, Commit(d)), user) == CommitCount(s, user) + (if s.calls[d].user == user then 1 else 0)
  {
  }

  lemma SnapshotAfterCommit(sessions: map<nat, Session>, call: Call, other: Call)
    requires SnapshotOk(sessions, call) && other.id !in sessions
    ensures SnapshotOk(Committed(sessions, other), call)
  {
  }

  lemma FitsOtherCommit(sessions: map<nat, Session>, call: Call, other: Call, commits: nat)
    requires Fits(sessions, call, commits) && other.id !in sessions && call.id != other.id
    ensures Fits(Committed(sessions, other), call, commits + (if other.user == call.user then 1 else 0))
  {
    SnapshotAfterCommit(sessions, call, other);
    UnseenAfterCommit(sessions, call, other);
  }

  lemma CallOkOtherCommit(s: World, c: nat, d: nat)
    requires c in s.calls && d in s.calls && c != d && CallOk(s, c)
    requires s.calls[c].id != s.calls[d].id && s.calls[d].id !in s.sessions
    ensures CallOk(Apply(s, Commit(d)), c)
  {
    FitsOtherCommit(s.sessions, s.calls[c], s.calls[d], CommitCount(s, s.calls[c].user));
    CountAfterCommit(s, s.calls[c].user, d);
  }

  lemma CallOkRead(s: World, step: Step)
    requires step.Read? && Enabled(s, step)
    ensures CallOk(Apply(s, step), step.call)
  {
    var existing := step.existing;
    assert ActiveOf(s.sessions, step.user) - ToSet(existing) == {};
    assert forall i :: 0 <= i < |existing| ==> existing[i] in ToSet(existing);
  }

  lemma CallOkStep(s: World, step: Step, c: nat)
    requires Inv(s) && Enabled(s, step) && c in Apply(s, step).calls
    ensures CallOk(Apply(s, step), c)
  {
    if c in s.calls {
      assert CallOk(s, c);
    }
    if {
      case step.Read? =>
        if c == step.call {
          CallOkRead(s, step);
        }
      case step.Commit? =>
        assert CallOk(s, step.call);
        CallOkOtherCommit(s, c, step.call);
      case step.Abandon? =>
      case step.RevokeOne? => CallOkDeactivated(s, Apply(s, step), c, {step.id});
      case step.RevokeAll? => CallOkDeactivated(s, Apply(s, step), c, ActiveOf(s.sessions, step.user));
    }
  }

  lemma IdsStayDistinct(s: World, step: Step)
    requires IdsDistinct(s.calls) && Enabled(s, step)
    ensures IdsDistinct(Apply(s, step).calls)
  {
  }

  lemma InvStep(s: World, step: Step)
    requires Inv(s) && Enabled(s, step)
    ensures Inv(Apply(s, step))
  {
    IdsStayDistinct(s, step);
    forall c | c in Apply(s, step).calls ensures CallOk(Apply(s, step), c) {
      CallOkStep(s, step, c);
    }
  }

  lemma {:induction false} InvRun(s: World, steps: seq<Step>)
    requires Inv(s) && Legal(s, steps)
    ensures Inv(Run(s, steps))
    decreases |steps|
  {
    if steps == [] {
    } else {
      InvStep(s, steps[0]);
      InvRun(Apply(s, steps[0]), steps[1..]);
    }
  }

  // ---------------------------------------------------------------------------
  // The cap
  // ---------------------------------------------------------------------------

  lemma {:induction false} DistinctSize(ids: seq<nat>)
    requires forall i, j :: 0 <= i < j < |ids| ==> ids[i] != ids[j]
    ensures |ToSet(ids)| == |ids|
  {
    if ids == [] {
    } else {
      var n := |ids| - 1;
      DistinctSize(ids[..n]);
      assert ToSet(ids) == ToSet(ids[..n]) + {ids[n]} by {
        assert ids == ids[..n] + [ids[n]];
      }
    }
  }

  lemma UnionSize(a: set<nat>, b: set<nat>)
    ensures |a + b| <= |a| + |b|
  {
  }

  lemma ActiveIsKept(sessions: map<nat, Session>, call: Call, kept: seq<nat>)
    requires kept == call.existing[|Evicted(call.existing)|..]
    ensures ActiveOf(Committed(sessions, call), call.user) <= Unseen(sessions, call) + ToSet(kept) + {call.id}
  {
  }

  /** What is active after a commit: what the call did not see, what it kept, and its own session. */
  lemma ActiveAfterCommit(sessions: map<nat, Session>, call: Call)
    requires SnapshotOk(sessions, call)
    ensures |ActiveOf(Committed(sessions, call), call.user)| <= |Unseen(sessions, call)| + MAX_SESSIONS
  {
    var kept := call.existing[|Evicted(call.existing)|..];
    var unseen, after := Unseen(sessions, call), ActiveOf(Committed(sessions, call), call.user);
    ActiveIsKept(sessions, call, kept);
    SubsetSize(after, unseen + ToSet(kept) + {call.id});
    DistinctSize(kept);
    UnionSize(unseen, ToSet(kept));
    UnionSize(unseen + ToSet(kept), {call.id});
  }

  /**
   If j other calls for the user commit between a call's query and its own commit, the user has at most 10 + j
   active sessions after it. With j = 0 this is the promised cap, however many sessions there were before.
   */
  lemma CapWithConcurrency(s: World, steps: seq<Step>, c: nat)
    requires Initial(s) && Legal(s, steps) && c in Run(s, steps).calls
    ensures var t, call := Run(s, steps), Run(s, steps).calls[c];
            && call.commitsAtRead <= CommitCount(t, call.user)
            && |ActiveOf(Apply(t, Commit(c)).sessions, call.user)| <= MAX_SESSIONS +
                (CommitCount(t, call.user) - call.commitsAtRead)
  {
    InvRun(s, steps);
    var t := Run(s, steps);
    assert CallOk(t, c);
    ActiveAfterCommit(t.sessions, t.calls[c]);
  }

  /**
   Exactly which sessions a commit touches: of those the call read the newest nine keep the state they had and the
   older ones are inactive, its own is added as active, and no other session changes.
   */
  lemma NewestNineKept(sessions: map<nat, Session>, call: Call)
    requires SnapshotOk(sessions, call) && call.id !in sessions
    ensures var after, n := Committed(sessions, call), |call.existing|;
            && after.Keys == sessions.Keys + {call.id}
            && after[call.id] == Session(call.user, call.createdAt, true)
            && (forall i :: 0 <= i < n && i < n - 9 ==>
                  after[call.existing[i]] == sessions[call.existing[i]].(active := false))
            && (forall i :: 0 <= i < n && n - 9 <= i ==> after[call.existing[i]] == sessions[call.existing[i]])
            && (forall id :: id in sessions && id !in call.existing ==> after[id] == sessions[id])
  {
    var existing, evicted := call.existing, Evicted(call.existing);
    forall i | 0 <= i < |existing| ensures existing[i] in evicted <==> i < |existing| - 9 {
      if i < |existing| - 9 {
        assert existing[i] == evicted[i];
      }
    }
  }

  /** In every run, at every commit. */
  lemma CommitKeepsNewest(s: World, steps: seq<Step>, c: nat, i: nat)
    requires Initial(s) && Legal(s, steps) && c in Run(s, steps).calls && i < |Run(s, steps).calls[c].existing|
    ensures var t, call := Run(s, steps), Run(s, steps).calls[c];
            var id, after := call.existing[i], Apply(t, Commit(c)).sessions;
            && id in t.sessions && id in after
            && after[id].active == (t.sessions[id].active && i >= |call.existing| - Min(9, |call.existing|))
  {
    InvRun(s, steps);
    var t := Run(s, steps);
    assert CallOk(t, c);
    NewestNineKept(t.sessions, t.calls[c]);
  }

  /** The sessions the call keeps that are still active. */
  function StillKept(sessions: map<nat, Session>, call: Call): set<nat> {
    ActiveOf(sessions, call.user) * (ToSet(call.existing) - ToSet(Evicted(call.existing)))
  }

  lemma ActiveExactly(sessions: map<nat, Session>, call: Call)
    requires call.id !in sessions
    ensures ActiveOf(Committed(sessions, call), call.user) ==
             Unseen(sessions, call) + StillKept(sessions, call) + {call.id}
    ensures Unseen(sessions, call) !! StillKept(sessions, call)
    ensures call.id !in Unseen(sessions, call) + StillKept(sessions, call)
  {
    assert forall id :: id in Evicted(call.existing) ==> id in call.existing;
  }

  /**
   Exactly: a commit leaves at most ten active sessions if and only if those the call did not see and those it keeps
   that are still active are at most nine.
   */
  lemma CapIff(s: World, steps: seq<Step>, c: nat)
    requires Initial(s) && Legal(s, steps) && c in Run(s, steps).calls
    ensures var t, call := Run(s, steps), Run(s, steps).calls[c];
            |ActiveOf(Apply(t, Commit(c)).sessions, call.user)| <= MAX_SESSIONS
            <==> |Unseen(t.sessions, call)| + |StillKept(t.sessions, call)| <= MAX_SESSIONS - 1
  {
    InvRun(s, steps);
    var t := Run(s, steps);
    assert CallOk(t, c);
    ActiveExactly(t.sessions, t.calls[c]);
  }

  lemma NoOverflow(sessions: map<nat, Session>, call: Call)
    requires |call.existing| <= MAX_SESSIONS - 1 && call.id !in sessions
    ensures ActiveOf(Committed(sessions, call), call.user) == ActiveOf(sessions, call.user) + {call.id}
  {
  }

  /** The overshoot happens: two calls that both saw nine sessions leave eleven. */
  lemma OverlappingCallsOvershoot(sessions: map<nat, Session>, first: Call, second: Call)
    requires first.user == second.user && first.existing == second.existing && |first.existing| == MAX_SESSIONS - 1
    requires Queried(sessions, first.user, first.existing)
    requires first.id !in sessions && second.id !in sessions && first.id != second.id
    ensures |ActiveOf(Committed(Committed(sessions, first), second), first.user)| == MAX_SESSIONS + 1
  {
    DistinctSize(first.existing);
    NoOverflow(sessions, first);
    NoOverflow(Committed(sessions, first), second);
    assert first.id !in ActiveOf(sessions, first.user);
    assert second.id !in ActiveOf(Committed(sessions, first), first.user);
  }

  lemma EvictsOldest(sessions: map<nat, Session>, call: Call, gone: nat, kept: nat)
    requires SnapshotOk(sessions, call) && call.id !in sessions
    requires gone in Evicted(call.existing) && kept in call.existing && kept !in Evicted(call.existing)
    ensures gone in sessions && kept in sessions && sessions[gone].createdAt <= sessions[kept].createdAt
    ensures var after := Committed(sessions, call);
            !after[gone].active && after[kept].active == sessions[kept].active && after[call.id].active
  {
  }

  /** Every session a call evicts is no newer than every session it saw and kept, and the new one stays active. */
  lemma OldestEvicted(s: World, steps: seq<Step>, c: nat, gone: nat, kept: nat)
    requires Initial(s) && Legal(s, steps) && c in Run(s, steps).calls
    requires var existing := Run(s, steps).calls[c].existing;
             gone in Evicted(existing) && kept in existing && kept !in Evicted(existing)
    ensures var t := Run(s, steps);
            && gone in t.sessions && kept in t.sessions && t.sessions[gone].createdAt <= t.sessions[kept].createdAt
            && !Apply(t, Commit(c)).sessions[gone].active
            && Apply(t, Commit(c)).sessions[kept].active == t.sessions[kept].active
            && Apply(t, Commit(c)).sessions[t.calls[c].id].active
  {
    InvRun(s, steps);
    var t := Run(s, steps);
    assert CallOk(t, c);
    EvictsOldest(t.sessions, t.calls[c], gone, kept);
  }

  lemma {:induction false} SliceSize(ids: seq<nat>, from: nat)
    requires from <= |ids| && forall i, j :: 0 <= i < j < |ids| ==> ids[i] != ids[j]
    ensures |ToSet(ids[from..])| == |ids| - from
  {
    DistinctSize(ids[from..]);
  }

  lemma InSlice(ids: seq<nat>, from: nat, id: nat)
    requires from <= |ids|
    ensures id in ToSet(ids[from..]) <==> exists i :: from <= i < |ids| && ids[i] == id
  {
    if i :| from <= i < |ids| && ids[i] == id {
      assert ids[from..][i - from] == id;
    }
  }

  /** The sessions active after an undisturbed call: the newest nine it read, and its own. */
  lemma ActiveUndisturbed(sessions: map<nat, Session>, call: Call, from: nat)
    requires Queried(sessions, call.user, call.existing) && call.id !in sessions
    requires from == if |call.existing| > 9 then |call.existing| - 9 else 0
    ensures ActiveOf(Committed(sessions, call), call.user) == ToSet(call.existing[from..]) + {call.id}
    ensures call.id !in ToSet(call.existing[from..])
  {
    var existing := call.existing;
    assert forall i :: 0 <= i < |existing| ==> existing[i] in ToSet(existing);
    NewestNineKept(sessions, call);
    forall id ensures id in ActiveOf(Committed(sessions, call), call.user) <==>
        id in ToSet(existing[from..]) + {call.id} {
      InSlice(existing, from, id);
      InSlice(existing, 0, id);
      assert existing[0..] == existing;
    }
  }

  /** A call with nothing between its query and its commit leaves one session more than there were, or ten. */
  lemma UndisturbedCount(sessions: map<nat, Session>, call: Call)
    requires Queried(sessions, call.user, call.existing) && call.id !in sessions
    ensures |ActiveOf(Committed(sessions, call), call.user)| == Min(10, |ActiveOf(sessions, call.user)| + 1)
  {
    var from := if |call.existing| > 9 then |call.existing| - 9 else 0;
    ActiveUndisturbed(sessions, call, from);
    DistinctSize(call.existing);
    SliceSize(call.existing, from);
  }

  /** Of the sessions such a call reads exactly the newest nine are active afterwards. */
  lemma UndisturbedKeepsNine(sessions: map<nat, Session>, call: Call, i: nat)
    requires Queried(sessions, call.user, call.existing) && call.id !in sessions && i < |call.existing|
    ensures call.existing[i] in sessions
    ensures Committed(sessions, call)[call.existing[i]].active <==> i >= |call.existing| - 9
  {
    assert forall j :: 0 <= j < |call.existing| ==> call.existing[j] in ToSet(call.existing);
    NewestNineKept(sessions, call);
  }

  /** A call with nothing between its query and its commit leaves at most ten, however many there were. */
  lemma UndisturbedCap(sessions: map<nat, Session>, call: Call)
    requires Queried(sessions, call.user, call.existing) && call.id !in sessions
    ensures |ActiveOf(Committed(sessions, call), call.user)| <= MAX_SESSIONS
  {
    var s := World(sessions, map[], map[]);
    var read := Read(0, call.user, call.id, call.createdAt, call.existing);
    assert Enabled(s, read);
    var s' := Apply(s, read);
    assert [read][1..] == [];
    assert Legal(s', []);
    assert Legal(s, [read]) && Run(s, [read]) == Run(s', []);
    CapWithConcurrency(s, [read], 0);
    assert Committed(sessions, call) == Committed(sessions, s'.calls[0]);
  }

  // ---------------------------------------------------------------------------
  // The table
  // ---------------------------------------------------------------------------

  class SessionTable {
    var sessions: map<nat, Session>

    constructor ()
      ensures sessions == map[]
    {
      sessions := map[];
    }

    method Deactivate(ids: seq<nat>)
      requires ToSet(ids) <= sessions.Keys
      modifies this
      ensures sessions == Deactivated(old(sessions), ToSet(ids))
    {
      ghost var before := sessions;
      for i := 0 to |ids|
        invariant sessions == Deactivated(before, ToSet(ids[..i]))
      {
        assert ids[..i + 1] == ids[..i] + [ids[i]];
        assert ids[i] in ToSet(ids);
        sessions := sessions[ids[i] := sessions[ids[i]].(active := false)];
      }
      assert ids[..|ids|] == ids;
    }

    /**
     A call from query to commit with nothing between: of the sessions read the newest nine stay active, and the
     user then has one session more than before, or ten.
     */
    method RecordLogin(user: string, id: nat, createdAt: Time, existing: seq<nat>)
      requires Queried(sessions, user, existing) && id !in sessions
      modifies this
      ensures sessions == Committed(old(sessions), Call(user, id, createdAt, existing, 0))
      ensures |ActiveOf(sessions, user)| == Min(10, |ActiveOf(old(sessions), user)| + 1)
      ensures forall i :: 0 <= i < |existing| ==>
                existing[i] in sessions && (sessions[existing[i]].active <==> i >= |existing| - 9)
    {
      ghost var call := Call(user, id, createdAt, existing, 0);
      UndisturbedCount(sessions, call);
      forall i | 0 <= i < |existing|
        ensures existing[i] in sessions
        ensures Committed(sessions, call)[existing[i]].active <==> i >= |existing| - 9
      {
        UndisturbedKeepsNine(sessions, call, i);
      }
      var overflow := |existing| - (MAX_SESSIONS - 1);
      if overflow > 0 {
        Deactivate(existing[..overflow]);
      }
      sessions := sessions[id := Session(user, createdAt, true)];
    }

    method RevokeLoginEvent(id: nat, user: string) returns (found: bool)
      modifies this
      ensures found <==> id in old(sessions) && old(sessions)[id].user == user
      ensures sessions == if found then Deactivated(old(sessions), {id}) else old(sessions)
    {
      if id !in sessions || sessions[id].user != user {
        return false;
      }
      ghost var before := sessions;
      sessions := sessions[id := sessions[id].(active := false)];
      assert sessions == Deactivated(before, {id});
      found := true;
    }

    method RevokeAllLoginEvents(user: string)
      modifies this
      ensures sessions == Deactivated(old(sessions), ActiveOf(old(sessions), user))
      ensures ActiveOf(sessions, user) == {}
    {
      sessions := map id | id in sessions ::
        if sessions[id].user == user && sessions[id].active then sessions[id].(active := false) else sessions[id];
    }
  }
}
