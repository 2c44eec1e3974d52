/**
 The revocation blacklist: one committed `revoked_tokens` table, one in-memory set per worker,
 PG NOTIFY between them. The protocol is a state machine over the moments at which a worker awaits
 the database, so every interleaving of requests, deliveries and prunes is a run.
 */
module Revocation {
  import opened Common

  /** What the set holds: the jti of an access token, or the nonce of a consumed OAuth state. */
  datatype Entry = AccessToken(jti: string) | OAuthNonce(nonce: string)

  datatype Pruning = Idle | Fetched(expired: set<Entry>) | Deleting

  /** Down: not started. Loaded: start-up load done, LISTEN not yet in force. Deaf: listener ended by an error. */
  datatype Phase = Down | Loaded | Listening | Deaf

  /**
   `revoked` is the set consulted by requests and `queue` the notifications not yet handled. The last three
   fields are history: everything ever added since the start, everything added by this worker's own
   requests, and everything committed while no listener was attached to hear of it.
   */
  datatype Worker = Worker(
    phase: Phase, revoked: set<Entry>, queue: set<Entry>, pruning: Pruning,
    seen: set<Entry>, attempted: set<Entry>, missed: set<Entry>)

  const STOPPED := Worker(Down, {}, {}, Idle, {}, {}, {})

  /** An open database transaction of a request served by `worker`. */
  datatype Txn = Txn(worker: nat, inserts: map<Entry, Time>)

  /**
   `issued` gives the `exp` claim of every signed access token. `log` (everything ever committed, with its
   last expiry) and `floor` (the earliest expiry ever attached to an entry) are history.
   */
  datatype World = World(
    now: Time, issued: map<string, Time>, rows: map<Entry, Time>, open: map<nat, Txn>,
    workers: map<nat, Worker>, log: map<Entry, Time>, floor: map<Entry, Time>)

  datatype Step =
    | Tick(elapsed: nat)
    | Issue(jti: string, exp: Time)
    | Revoke(txn: nat, w: nat, entry: Entry, expiresAt: Time)
    | Commit(txn: nat)
    | Rollback(txn: nat)
    | Deliver(w: nat, entry: Entry)
    | Start(w: nat, loadSucceeds: bool)
    | Listen(w: nat)
    | ListenerFails(w: nat)
    | Stop(w: nat)
    | PruneFetch(w: nat)
    | PruneApply(w: nat)
    | PruneDelete(w: nat)
    | PruneFails(w: nat)

  /** How long a consumed nonce is kept. */
  const NONCE_TTL := 300 * SECOND

  // ---------------------------------------------------------------------------
  // The set operations of a worker
  // ---------------------------------------------------------------------------

  function ActiveEntries(rows: map<Entry, Time>, now: Time): (active: set<Entry>)
    ensures forall e :: e in active <==> e in rows && now < rows[e]
  {
    set e | e in rows && now < rows[e]
  }

  function ExpiredEntries(rows: map<Entry, Time>, now: Time): (expired: set<Entry>)
    ensures forall e :: e in expired <==> e in rows && rows[e] <= now
  {
    set e | e in rows && rows[e] <= now
  }

  function Added(v: Worker, e: Entry): Worker {
    v.(revoked := v.revoked + {e}, seen := v.seen + {e})
  }

  /** What a commit of `inserts` does to a worker: a listener gets the messages, a started non-listener misses them. */
  function Notified(v: Worker, inserts: set<Entry>): Worker {
    match v.phase
    case Down => v
    case Listening => v.(queue := v.queue + inserts)
    case _ => v.(missed := v.missed + (inserts - v.seen))
  }

  // ---------------------------------------------------------------------------
  // Steps
  // ---------------------------------------------------------------------------

  predicate Running(s: World, w: nat) {
    w in s.workers && s.workers[w].phase != Down
  }

  /** The unique index on jti makes an insert wait while another open transaction holds the same entry. */
  predicate Held(s: World, txn: nat, e: Entry) {
    exists t :: t in s.open && t != txn && e in s.open[t].inserts
  }

  predicate Enabled(s: World, step: Step) {
    match step
    case Tick(_) => true
    case Issue(jti, _) => jti !in s.issued
    case Revoke(t, w, e, exp) =>
      && Running(s, w)
      && (t in s.open ==> s.open[t].worker == w)
      && !Held(s, t, e)
      && match e {
           case AccessToken(jti) => jti in s.issued && exp == s.issued[jti]
           case OAuthNonce(_) => exp == s.now + NONCE_TTL
         }
    case Commit(t) => t in s.open
    case Rollback(t) => t in s.open
    case Deliver(w, e) => w in s.workers && s.workers[w].phase == Listening && e in s.workers[w].queue
    case Start(w, _) => w in s.workers && s.workers[w].phase == Down
    case Listen(w) => w in s.workers && s.workers[w].phase == Loaded
    case ListenerFails(w) => w in s.workers && s.workers[w].phase in {Loaded, Listening}
    case Stop(w) => w in s.workers
    case PruneFetch(w) => w in s.workers && s.workers[w].phase == Listening && s.workers[w].pruning == Idle
    case PruneApply(w) => w in s.workers && s.workers[w].pruning.Fetched?
    case PruneDelete(w) => w in s.workers && s.workers[w].pruning.Deleting?
    case PruneFails(w) => w in s.workers
  }

  function SetWorker(s: World, w: nat, v: Worker): World {
    s.(workers := s.workers[w := v])
  }

  /** The inserts so far of transaction t, which the first statement opens. */
  function Inserts(s: World, t: nat): map<Entry, Time> {
    if t in s.open then s.open[t].inserts else map[]
  }

  /**
   `revoke_token`: insert, flush, NOTIFY, add to this worker's own set. A duplicate key makes the flush raise:
   the database discards the transaction and the set is not touched.
   */
  function AfterRevoke(s: World, t: nat, w: nat, e: Entry, exp: Time): World
    requires w in s.workers
  {
    if e in s.rows || e in Inserts(s, t) then
      s.(open := s.open - {t})
    else
      var v := Added(s.workers[w], e);
      SetWorker(s, w, v.(attempted := v.attempted + {e})).(
        open := s.open[t := Txn(w, Inserts(s, t)[e := exp])],
        floor := if e in s.floor then s.floor else s.floor[e := exp])
  }

  function AfterCommit(s: World, t: nat): World
    requires t in s.open
  {
    var inserts := s.open[t].inserts;
    s.(rows := s.rows + inserts, log := s.log + inserts, open := s.open - {t},
       workers := map w | w in s.workers :: Notified(s.workers[w], inserts.Keys))
  }

  function AfterStart(s: World, w: nat, loadSucceeds: bool): World
    requires w in s.workers
  {
    var active := ActiveEntries(s.rows, s.now);
    SetWorker(s, w,
              if loadSucceeds then Worker(Loaded, active, {}, Idle, active, {}, {})
              else Worker(Loaded, {}, {}, Idle, {}, {}, active))
  }

  /** The worker process ends: its memory is gone and its open transactions are rolled back. */
  function AfterStop(s: World, w: nat): World {
    SetWorker(s, w, STOPPED).(open := map t | t in s.open && s.open[t].worker != w :: s.open[t])
  }

  function Apply(s: World, step: Step): World
    requires Enabled(s, step)
  {
    match step
    case Tick(d) => s.(now := s.now + d)
    case Issue(jti, exp) => s.(issued := s.issued[jti := exp])
    case Revoke(t, w, e, exp) => AfterRevoke(s, t, w, e, exp)
    case Commit(t) => AfterCommit(s, t)
    case Rollback(t) => s.(open := s.open - {t})
    case Deliver(w, e) =>
      var v := s.workers[w];
      SetWorker(s, w, Added(v, e).(queue := v.queue - {e}))
    case Start(w, ok) => AfterStart(s, w, ok)
    case Listen(w) => SetWorker(s, w, s.workers[w].(phase := Listening))
    case ListenerFails(w) =>
      var v := s.workers[w];
      SetWorker(s, w, v.(phase := Deaf, queue := {}, missed := v.missed + (v.queue - v.seen), pruning := Idle))
    case Stop(w) => AfterStop(s, w)
    case PruneFetch(w) =>
      SetWorker(s, w, s.workers[w].(pruning := Fetched(ExpiredEntries(s.rows, s.now))))
    case PruneApply(w) =>
      var v := s.workers[w];
      var expired := v.pruning.expired;
      SetWorker(s, w, v.(revoked := v.revoked - expired, pruning := if expired == {} then Idle else Deleting))
    case PruneDelete(w) =>
      SetWorker(s, w, s.workers[w].(pruning := Idle)).(rows := s.rows - ExpiredEntries(s.rows, s.now))
    case PruneFails(w) => SetWorker(s, w, s.workers[w].(pruning := Idle))
  }

  ghost predicate Legal(s: World, steps: seq<Step>)
    decreases |steps|
  {
    steps == [] || (Enabled(s, steps[0]) && Legal(Apply(s, steps[0]), steps[1..]))
  }

  ghost function Run(s: World, steps: seq<Step>): World
    requires Legal(s, steps)
    decreases |steps|
  {
    if steps == [] then s else Run(Apply(s, steps[0]), steps[1..])
  }

  /** An empty database and any number of workers, none started. */
  ghost predicate Initial(s: World) {
    && s.rows == map[] && s.open == map[] && s.log == map[] && s.floor == map[] && s.issued == map[]
    && forall w :: w in s.workers ==> s.workers[w] == STOPPED
  }

  // ---------------------------------------------------------------------------
  // Invariant
  // ---------------------------------------------------------------------------

  ghost predicate TableOk(s: World) {
    && (forall e :: e in s.rows ==> e in s.log && s.log[e] == s.rows[e])
    && (forall e :: e in s.log ==> e in s.floor && s.floor[e] <= s.log[e] && (e in s.rows || s.log[e] <= s.now))
    && (forall e :: e in s.floor && e.AccessToken? ==> e.jti in s.issued && s.floor[e] == s.issued[e.jti])
    && (forall e :: e in s.floor && e.OAuthNonce? ==> s.floor[e] <= s.now + NONCE_TTL)
  }

  ghost predicate TxnOk(s: World, t: nat)
    requires t in s.open
  {
    forall e :: e in s.open[t].inserts ==> e in s.floor && s.floor[e] <= s.open[t].inserts[e] && e !in s.rows
  }

  ghost predicate TxnsOk(s: World) {
    && (forall t :: t in s.open ==> TxnOk(s, t))
    && (forall t, u, e :: t in s.open && u in s.open && e in s.open[t].inserts && e in s.open[u].inserts ==> t == u)
  }

  ghost predicate WorkerOk(now: Time, floor: map<Entry, Time>, log: map<Entry, Time>, v: Worker) {
    && (v.phase == Down ==> v == STOPPED)
    && v.revoked <= v.seen
    && (forall e :: e in v.seen ==> e in floor && (e in v.revoked || floor[e] <= now))
    && v.attempted <= v.seen <= v.attempted + log.Keys
    && v.queue <= log.Keys
    && (v.pruning.Fetched? ==> forall e :: e in v.pruning.expired ==> e in floor && floor[e] <= now)
    && (v.phase != Down ==> forall e :: e in log && e in floor && now < floor[e] ==> e in v.seen + v.queue + v.missed)
  }

  ghost predicate Inv(s: World) {
    && TableOk(s)
    && TxnsOk(s)
    && forall w :: w in s.workers ==> WorkerOk(s.now, s.floor, s.log, s.workers[w])
  }

  /** Nothing in a worker's part of the invariant is lost when time passes or new entries get a floor. */
  lemma WorkerOkLater(s: World, now: Time, floor: map<Entry, Time>, v: Worker)
    requires WorkerOk(s.now, s.floor, s.log, v)
    requires s.log.Keys <= s.floor.Keys
    requires s.now <= now && forall e :: e in s.floor ==> e in floor && floor[e] == s.floor[e]
    ensures WorkerOk(now, floor, s.log, v)
  {
  }

  lemma TxnsOkFewer(s: World, s': World)
    requires TxnsOk(s)
    requires forall t :: t in s'.open ==> t in s.open && s'.open[t] == s.open[t]
    requires s'.rows.Keys <= s.rows.Keys && s'.floor == s.floor
    ensures TxnsOk(s')
  {
  }

  lemma TxnsOkInsert(s: World, s': World, t: nat, w: nat, e: Entry, exp: Time)
    requires TxnsOk(s) && !Held(s, t, e)
    requires e !in s.rows && s'.rows == s.rows
    requires s'.open == s.open[t := Txn(w, Inserts(s, t)[e := exp])]
    requires forall x :: x in s.floor ==> x in s'.floor && s'.floor[x] == s.floor[x]
    requires e in s'.floor && s'.floor[e] <= exp
    ensures TxnsOk(s')
  {
  }

  lemma WorkersOkAfterRevoke(s: World, s': World, w: nat, e: Entry)
    requires Inv(s) && Running(s, w)
    requires s'.now == s.now && s'.log == s.log
    requires forall x :: x in s.floor ==> x in s'.floor && s'.floor[x] == s.floor[x]
    requires e in s'.floor
    requires s'.workers == s.workers[w := Added(s.workers[w], e).(attempted := s.workers[w].attempted + {e})]
    ensures forall x :: x in s'.workers ==> WorkerOk(s'.now, s'.floor, s'.log, s'.workers[x])
  {
  }

  lemma TableOkNewFloor(s: World, s': World, e: Entry, exp: Time)
    requires TableOk(s) && s'.rows == s.rows && s'.log == s.log && s'.now == s.now && s'.issued == s.issued
    requires s'.floor == if e in s.floor then s.floor else s.floor[e := exp]
    requires e.AccessToken? ==> e.jti in s.issued && exp == s.issued[e.jti]
    requires e.OAuthNonce? ==> exp == s.now + NONCE_TTL
    ensures TableOk(s')
    ensures s'.floor[e] <= exp
  {
  }

  lemma InvRevokeInserts(s: World, t: nat, w: nat, e: Entry, exp: Time)
    requires Inv(s) && Enabled(s, Revoke(t, w, e, exp)) && e !in s.rows && e !in Inserts(s, t)
    ensures Inv(AfterRevoke(s, t, w, e, exp))
  {
    var s' := AfterRevoke(s, t, w, e, exp);
    TableOkNewFloor(s, s', e, exp);
    TxnsOkInsert(s, s', t, w, e, exp);
    WorkersOkAfterRevoke(s, s', w, e);
  }

  lemma InvRevoke(s: World, t: nat, w: nat, e: Entry, exp: Time)
    requires Inv(s) && Enabled(s, Revoke(t, w, e, exp))
    ensures Inv(AfterRevoke(s, t, w, e, exp))
  {
    if e in s.rows || e in Inserts(s, t) {
      TxnsOkFewer(s, AfterRevoke(s, t, w, e, exp));
    } else {
      InvRevokeInserts(s, t, w, e, exp);
    }
  }

  lemma TableOkCommit(s: World, t: nat)
    requires Inv(s) && t in s.open
    ensures TableOk(AfterCommit(s, t))
  {
    assert TxnOk(s, t);
  }

  lemma TxnsOkCommit(s: World, t: nat)
    requires Inv(s) && t in s.open
    ensures TxnsOk(AfterCommit(s, t))
  {
    forall u | u in AfterCommit(s, t).open ensures TxnOk(AfterCommit(s, t), u) {
      assert TxnOk(s, u);
    }
  }

  lemma WorkerOkNotified(s: World, inserts: map<Entry, Time>, v: Worker)
    requires WorkerOk(s.now, s.floor, s.log, v) && inserts.Keys <= s.floor.Keys
    ensures WorkerOk(s.now, s.floor, s.log + inserts, Notified(v, inserts.Keys))
  {
  }

  lemma InvCommit(s: World, t: nat)
    requires Inv(s) && t in s.open
    ensures Inv(AfterCommit(s, t))
  {
    TableOkCommit(s, t);
    TxnsOkCommit(s, t);
    forall x | x in s.workers
      ensures WorkerOk(s.now, s.floor, s.log + s.open[t].inserts, Notified(s.workers[x], s.open[t].inserts.Keys))
    {
      assert TxnOk(s, t);
      WorkerOkNotified(s, s.open[t].inserts, s.workers[x]);
    }
  }

  lemma InvWorkerStep(s: World, w: nat, v: Worker)
    requires Inv(s) && w in s.workers && WorkerOk(s.now, s.floor, s.log, v)
    ensures Inv(SetWorker(s, w, v))
  {
  }

  /** Steps that touch the table, the clock or the open transactions but no worker's memory. */
  lemma InvSharedStep(s: World, step: Step)
    requires Inv(s) && Enabled(s, step)
    requires step.Tick? || step.Issue? || step.Rollback?
    ensures Inv(Apply(s, step))
  {
    var s' := Apply(s, step);
    TxnsOkFewer(s, s');
    forall x | x in s'.workers ensures WorkerOk(s'.now, s'.floor, s'.log, s'.workers[x]) {
      WorkerOkLater(s, s'.now, s.floor, s.workers[x]);
    }
  }

  lemma InvStop(s: World, w: nat)
    requires Inv(s) && w in s.workers
    ensures Inv(AfterStop(s, w))
  {
    TxnsOkFewer(s, AfterStop(s, w));
    assert WorkerOk(s.now, s.floor, s.log, STOPPED);
  }

  lemma InvPruneDelete(s: World, w: nat)
    requires Inv(s) && Enabled(s, PruneDelete(w))
    ensures Inv(Apply(s, PruneDelete(w)))
  {
    TxnsOkFewer(s, Apply(s, PruneDelete(w)));
    assert WorkerOk(s.now, s.floor, s.log, s.workers[w].(pruning := Idle));
  }

  lemma InvStep(s: World, step: Step)
    requires Inv(s) && Enabled(s, step)
    ensures Inv(Apply(s, step))
  {
    if {
      case step.Revoke? => InvRevoke(s, step.txn, step.w, step.entry, step.expiresAt);
      case step.Commit? => InvCommit(s, step.txn);
      case step.Stop? => InvStop(s, step.w);
      case step.PruneDelete? => InvPruneDelete(s, step.w);
      case step.Tick? || step.Issue? || step.Rollback? => InvSharedStep(s, step);
      case step.Deliver? || step.Start? || step.Listen? || step.ListenerFails? => InvMemoryStep(s, step, step.w);
      case step.PruneFetch? || step.PruneApply? || step.PruneFails? => InvMemoryStep(s, step, step.w);
    }
  }

  /** A step that touches nothing but worker w's memory. */
  predicate MemoryStep(step: Step, w: nat) {
    && (step.Deliver? || step.Start? || step.Listen? || step.ListenerFails? || step.PruneFetch? || step.PruneApply? ||
        step.PruneFails?)
    && w == step.w
  }

  lemma WorkerOkStart(s: World, w: nat, loadSucceeds: bool)
    requires Inv(s) && w in s.workers
    ensures WorkerOk(s.now, s.floor, s.log, AfterStart(s, w, loadSucceeds).workers[w])
  {
  }

  lemma WorkerOkListener(s: World, step: Step, w: nat)
    requires Inv(s) && Enabled(s, step) && MemoryStep(step, w)
    requires step.Deliver? || step.Listen? || step.ListenerFails?
    ensures w in Apply(s, step).workers && WorkerOk(s.now, s.floor, s.log, Apply(s, step).workers[w])
  {
    assert WorkerOk(s.now, s.floor, s.log, s.workers[w]);
  }

  lemma WorkerOkPrune(s: World, step: Step, w: nat)
    requires Inv(s) && Enabled(s, step) && MemoryStep(step, w)
    requires step.PruneFetch? || step.PruneApply? || step.PruneFails?
    ensures w in Apply(s, step).workers && WorkerOk(s.now, s.floor, s.log, Apply(s, step).workers[w])
  {
    assert WorkerOk(s.now, s.floor, s.log, s.workers[w]);
  }

  lemma WorkerOkMemoryStep(s: World, step: Step, w: nat)
    requires Inv(s) && Enabled(s, step) && MemoryStep(step, w)
    ensures w in Apply(s, step).workers && WorkerOk(s.now, s.floor, s.log, Apply(s, step).workers[w])
  {
    if step.Start? {
      WorkerOkStart(s, w, step.loadSucceeds);
    } else if step.Deliver? || step.Listen? || step.ListenerFails? {
      WorkerOkListener(s, step, w);
    } else {
      WorkerOkPrune(s, step, w);
    }
  }

  lemma InvMemoryStep(s: World, step: Step, w: nat)
    requires Inv(s) && Enabled(s, step) && MemoryStep(step, w)
    ensures Inv(Apply(s, step))
  {
    var v := Apply(s, step).workers[w];
    assert Apply(s, step) == SetWorker(s, w, v);
    WorkerOkMemoryStep(s, step, w);
    InvWorkerStep(s, w, v);
  }

  lemma {:induction false} InvRun(s: World, steps: seq<Step>)
    requires Inv(s) && Legal(s, steps)
    ensures Inv(Run(s, steps))
    decreases |steps|
  {
    if steps == [] {
    } else {
      InvStep(s, steps[0]);
      InvRun(Apply(s, steps[0]), steps[1..]);
    }
  }

  lemma InvInitial(s: World)
    requires Initial(s)
    ensures Inv(s)
  {
  }

  lemma InvReachable(s: World, steps: seq<Step>)
    requires Initial(s) && Legal(s, steps)
    ensures Inv(Run(s, steps))
  {
    InvInitial(s);
    InvRun(s, steps);
  }

  // ---------------------------------------------------------------------------
  // Reading a token
  // ---------------------------------------------------------------------------

  /** A token whose signature verifies: its jti, its expiry and whether its auth_stage is "complete". */
  datatype Token = Token(jti: string, exp: Time, complete: bool)

  /** `read_token` for a verified signature and a known user, on a worker holding `revoked`. */
  predicate Accepts(revoked: set<Entry>, now: Time, tok: Token) {
    now < tok.exp && tok.complete && AccessToken(tok.jti) !in revoked
  }

  predicate Genuine(s: World, tok: Token) {
    tok.jti in s.issued && s.issued[tok.jti] == tok.exp
  }

  // ---------------------------------------------------------------------------
  // Pruning is invisible
  // ---------------------------------------------------------------------------

  /** The same step on workers that never take anything out of their sets. */
  function ApplyKeeping(s: World, step: Step): World
    requires Enabled(s, step)
  {
    if step.PruneApply? then
      var v := s.workers[step.w];
      SetWorker(s, step.w, v.(pruning := if v.pruning.expired == {} then Idle else Deleting))
    else
      Apply(s, step)
  }

  ghost predicate LegalKeeping(s: World, steps: seq<Step>)
    decreases |steps|
  {
    steps == [] || (Enabled(s, steps[0]) && LegalKeeping(ApplyKeeping(s, steps[0]), steps[1..]))
  }

  ghost function RunKeeping(s: World, steps: seq<Step>): World
    requires LegalKeeping(s, steps)
    decreases |steps|
  {
    if steps == [] then s else RunKeeping(ApplyKeeping(s, steps[0]), steps[1..])
  }

  /** s with every worker's set replaced by everything it ever added. */
  function Unpruned(s: World): World {
    s.(workers := map w | w in s.workers :: s.workers[w].(revoked := s.workers[w].seen))
  }

  function Refilled(v: Worker): Worker {
    v.(revoked := v.seen)
  }

  lemma UnprunedSetWorker(s: World, w: nat, v: Worker)
    ensures Unpruned(SetWorker(s, w, v)) == SetWorker(Unpruned(s), w, Refilled(v))
  {
  }

  lemma KeepingEnabled(s: World, step: Step)
    requires Enabled(s, step)
    ensures Enabled(Unpruned(s), step)
  {
  }

  lemma KeepingCommit(s: World, t: nat)
    requires t in s.open
    ensures AfterCommit(Unpruned(s), t) == Unpruned(AfterCommit(s, t))
  {
    var a, b := AfterCommit(Unpruned(s), t).workers, Unpruned(AfterCommit(s, t)).workers;
    assert a.Keys == b.Keys;
    assert forall x :: x in a ==> a[x] == b[x];
    assert a == b;
  }

  lemma KeepingRevoke(s: World, t: nat, w: nat, e: Entry, exp: Time)
    requires w in s.workers
    ensures AfterRevoke(Unpruned(s), t, w, e, exp) == Unpruned(AfterRevoke(s, t, w, e, exp))
  {
    if !(e in s.rows || e in Inserts(s, t)) {
      UnprunedSetWorker(s, w, Added(s.workers[w], e).(attempted := s.workers[w].attempted + {e}));
    }
  }

  lemma KeepingMemory(s: World, step: Step, w: nat)
    requires Enabled(s, step) && w in s.workers && MemoryStep(step, w) && Enabled(Unpruned(s), step)
    ensures ApplyKeeping(Unpruned(s), step) == Unpruned(Apply(s, step))
  {
    var v := Apply(s, step).workers[w];
    assert Apply(s, step) == SetWorker(s, w, v);
    UnprunedSetWorker(s, w, v);
    assert ApplyKeeping(Unpruned(s), step) == SetWorker(Unpruned(s), w, Refilled(v));
  }

  lemma KeepingStep(s: World, step: Step)
    requires Enabled(s, step)
    ensures Enabled(Unpruned(s), step)
    ensures ApplyKeeping(Unpruned(s), step) == Unpruned(Apply(s, step))
  {
    KeepingEnabled(s, step);
    if {
      case step.Revoke? => KeepingRevoke(s, step.txn, step.w, step.entry, step.expiresAt);
      case step.Commit? => KeepingCommit(s, step.txn);
      case step.Stop? => UnprunedSetWorker(s, step.w, STOPPED);
      case step.PruneDelete? => UnprunedSetWorker(s, step.w, s.workers[step.w].(pruning := Idle));
      case step.Tick? || step.Issue? || step.Rollback? =>
      case step.Deliver? || step.Start? || step.Listen? || step.ListenerFails? => KeepingMemory(s, step, step.w);
      case step.PruneFetch? || step.PruneApply? || step.PruneFails? => KeepingMemory(s, step, step.w);
    }
  }

  lemma {:induction false} KeepingRun(s: World, steps: seq<Step>)
    requires Legal(s, steps)
    ensures LegalKeeping(Unpruned(s), steps)
    ensures RunKeeping(Unpruned(s), steps) == Unpruned(Run(s, steps))
    decreases |steps|
  {
    if steps == [] {
    } else {
      KeepingStep(s, steps[0]);
      KeepingRun(Apply(s, steps[0]), steps[1..]);
    }
  }

  /**
   Whatever the interleaving, a worker that prunes gives every genuine access token the same answer as its
   twin in the run where no set is ever pruned.
   */
  lemma PruningIsInvisible(s: World, steps: seq<Step>, w: nat, tok: Token)
    requires Initial(s) && Legal(s, steps)
    requires w in Run(s, steps).workers && Genuine(Run(s, steps), tok)
    ensures LegalKeeping(s, steps) && w in RunKeeping(s, steps).workers
    ensures var pruned, kept := Run(s, steps), RunKeeping(s, steps);
            Accepts(pruned.workers[w].revoked, pruned.now, tok) == Accepts(kept.workers[w].revoked, kept.now, tok)
  {
    InvReachable(s, steps);
    assert Unpruned(s) == s by {
      assert forall x :: x in s.workers ==> Unpruned(s).workers[x] == s.workers[x];
      assert Unpruned(s).workers == s.workers;
    }
    KeepingRun(s, steps);
    var t := Run(s, steps);
    assert WorkerOk(t.now, t.floor, t.log, t.workers[w]);
  }

  /** Deleting expired rows never changes what a (re)started worker loads: the table serves for the whole log. */
  lemma StartupLoadsTheLog(s: World, steps: seq<Step>)
    requires Initial(s) && Legal(s, steps)
    ensures ActiveEntries(Run(s, steps).rows, Run(s, steps).now) == ActiveEntries(Run(s, steps).log, Run(s, steps).now)
  {
    InvReachable(s, steps);
  }

  // ---------------------------------------------------------------------------
  // Cross-worker delivery
  // ---------------------------------------------------------------------------

  /**
   Every committed revocation of an unexpired token is, on every started worker, either in force, or waiting
   in that worker's queue, or was committed while that worker had no listener.
   */
  lemma DeliveredQueuedOrMissed(s: World, steps: seq<Step>, w: nat, tok: Token)
    requires Initial(s) && Legal(s, steps)
    requires Running(Run(s, steps), w) && Genuine(Run(s, steps), tok)
    requires AccessToken(tok.jti) in Run(s, steps).log
    ensures var t := Run(s, steps);
            Accepts(t.workers[w].revoked, t.now, tok) ==>
              AccessToken(tok.jti) in t.workers[w].queue + t.workers[w].missed
  {
    InvReachable(s, steps);
    var t := Run(s, steps);
    assert WorkerOk(t.now, t.floor, t.log, t.workers[w]);
    assert AccessToken(tok.jti) in t.floor;
  }

  /** With empty queues and nothing missed, the whole fleet rejects every revoked token. */
  lemma QuietFleetRejects(s: World, steps: seq<Step>, tok: Token)
    requires Initial(s) && Legal(s, steps) && Genuine(Run(s, steps), tok)
    requires AccessToken(tok.jti) in Run(s, steps).log
    requires forall w :: Running(Run(s, steps), w) ==>
               Run(s, steps).workers[w].queue == {} && Run(s, steps).workers[w].missed == {}
    ensures forall w :: Running(Run(s, steps), w) ==>
              !Accepts(Run(s, steps).workers[w].revoked, Run(s, steps).now, tok)
  {
    forall w | Running(Run(s, steps), w)
      ensures !Accepts(Run(s, steps).workers[w].revoked, Run(s, steps).now, tok)
    {
      DeliveredQueuedOrMissed(s, steps, w, tok);
    }
  }

  // ---------------------------------------------------------------------------
  // Rolled-back revocations
  // ---------------------------------------------------------------------------

  /**
   The comment at the head of the program's file promises that no worker acts on a revocation that was rolled
   back. Exactly: an unexpired token whose revocation never committed is blacklisted on a worker if and only
   if that worker itself served the request that tried.
   */
  lemma UncommittedIsLocal(s: World, steps: seq<Step>, w: nat, tok: Token)
    requires Initial(s) && Legal(s, steps)
    requires w in Run(s, steps).workers && Genuine(Run(s, steps), tok) && Run(s, steps).now < tok.exp
    requires AccessToken(tok.jti) !in Run(s, steps).log
    ensures var v := Run(s, steps).workers[w];
            AccessToken(tok.jti) in v.revoked <==> AccessToken(tok.jti) in v.attempted
  {
    InvReachable(s, steps);
    var t := Run(s, steps);
    assert WorkerOk(t.now, t.floor, t.log, t.workers[w]);
  }

  lemma RunCons(s: World, step: Step, rest: seq<Step>)
    requires Enabled(s, step) && Legal(Apply(s, step), rest)
    ensures Legal(s, [step] + rest) && Run(s, [step] + rest) == Run(Apply(s, step), rest)
  {
  }

  /** Worker 0 has started, and a token expiring at 3600 has been issued. */
  function Started(jti: string): World {
    World(0, map[jti := 3600], map[], map[], map[0 := Worker(Loaded, {}, {}, Idle, {}, {}, {})], map[], map[])
  }

  lemma StartedReachable(jti: string, rest: seq<Step>)
    requires Legal(Started(jti), rest)
    ensures exists s: World, steps: seq<Step> ::
              Initial(s) && Legal(s, steps) && Run(s, steps) == Run(Started(jti), rest)
  {
    var s0 := World(0, map[], map[], map[], map[0 := STOPPED], map[], map[]);
    var s1 := Apply(s0, Issue(jti, 3600));
    var s2 := Apply(s1, Start(0, true));
    assert s2.workers[0] == Started(jti).workers[0] && s2.workers == Started(jti).workers;
    assert s2 == Started(jti);
    RunCons(s1, Start(0, true), rest);
    RunCons(s0, Issue(jti, 3600), [Start(0, true)] + rest);
    assert Legal(s0, [Issue(jti, 3600)] + ([Start(0, true)] + rest));
  }

  /** So the promise fails: here worker 0 rejects a live token although its revocation was rolled back. */
  lemma RolledBackRevocationStillRejects(jti: string)
    ensures exists s: World, steps: seq<Step> ::
              && Initial(s) && Legal(s, steps)
              && var t := Run(s, steps);
                 0 in t.workers && t.log == map[] && t.open == map[]
                 && Genuine(t, Token(jti, 3600, true)) && t.now < 3600
                 && !Accepts(t.workers[0].revoked, t.now, Token(jti, 3600, true))
  {
    var revoke := Revoke(0, 0, AccessToken(jti), 3600);
    var s1 := Apply(Started(jti), revoke);
    var s2 := Apply(s1, Rollback(0));
    assert s2.workers[0].revoked == {AccessToken(jti)} && s2.open == map[];
    RunCons(s1, Rollback(0), []);
    RunCons(Started(jti), revoke, [Rollback(0)] + []);
    StartedReachable(jti, [revoke] + ([Rollback(0)] + []));
  }
}
