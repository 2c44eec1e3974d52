/**
 From a revocation request to the rejection of the token: what the steps of the revocation protocol do to the table
 and to the queues, why a worker can miss a revocation, and what every other worker does.
 */
module Delivery {
  import opened Common
  import opened Revocation

  // ---------------------------------------------------------------------------
  // A commit
  // ---------------------------------------------------------------------------

  /**
   A commit puts all of the transaction's entries into the table and into the queue of every worker that listens, and
   nothing else into a queue; no set changes.
   */
  lemma CommitReachesListeners(s: World, t: nat)
    requires Enabled(s, Commit(t))
    ensures var s', inserts := Apply(s, Commit(t)), s.open[t].inserts;
            && s'.rows == s.rows + inserts && s'.log == s.log + inserts && t !in s'.open
            && s'.workers.Keys == s.workers.Keys
            && forall w :: w in s.workers ==>
                 && s'.workers[w].revoked == s.workers[w].revoked
                 && s'.workers[w].phase == s.workers[w].phase
                 && s'.workers[w].queue ==
                    if s.workers[w].phase == Listening then s.workers[w].queue + inserts.Keys else s.workers[w].queue
  {
  }

  /** A revocation that meets no duplicate is pending in its transaction and already in force on its own worker. */
  lemma RevokeIsPending(s: World, t: nat, w: nat, e: Entry, exp: Time)
    requires Enabled(s, Revoke(t, w, e, exp)) && e !in s.rows && !(t in s.open && e in s.open[t].inserts)
    ensures var s' := Apply(s, Revoke(t, w, e, exp));
            && s'.rows == s.rows && s'.log == s.log
            && t in s'.open && s'.open[t].worker == w
            && s'.open[t].inserts == (if t in s.open then s.open[t].inserts else map[])[e := exp]
            && s'.open == s.open[t := s'.open[t]]
            && w in s'.workers && s'.workers[w].revoked == s.workers[w].revoked + {e}
            && s'.workers[w].queue == s.workers[w].queue && s'.workers == s.workers[w := s'.workers[w]]
  {
  }

  /** A duplicate ends the transaction and changes no set. */
  lemma DuplicateEndsTransaction(s: World, t: nat, w: nat, e: Entry, exp: Time)
    requires Enabled(s, Revoke(t, w, e, exp)) && (e in s.rows || (t in s.open && e in s.open[t].inserts))
    ensures var s' := Apply(s, Revoke(t, w, e, exp));
            s'.rows == s.rows && s'.log == s.log && t !in s'.open && s'.workers == s.workers
  {
  }

  predicate Duplicate(s: World, step: Step) {
    step.Revoke? && (step.entry in s.rows || (step.txn in s.open && step.entry in s.open[step.txn].inserts))
  }

  /** A transaction is open until it commits, rolls back, meets a duplicate, or its worker ends. */
  lemma OpenIff(s: World, step: Step, t: nat)
    requires Enabled(s, step)
    ensures t in Apply(s, step).open <==>
              match step
              case Revoke(x, _, _, _) => if x == t then !Duplicate(s, step) else t in s.open
              case Commit(x) => t in s.open && x != t
              case Rollback(x) => t in s.open && x != t
              case Stop(w) => t in s.open && s.open[t].worker != w
              case _ => t in s.open
    ensures t in s.open && t in Apply(s, step).open && !(step.Revoke? && step.txn == t) ==>
              Apply(s, step).open[t] == s.open[t]
  {
  }

  /** Rows come from commits and go, once expired, with a deletion. */
  lemma RowIff(s: World, step: Step, e: Entry, exp: Time)
    requires Enabled(s, step)
    ensures e in Apply(s, step).rows && Apply(s, step).rows[e] == exp <==>
              if step.Commit? && e in s.open[step.txn].inserts then s.open[step.txn].inserts[e] == exp
              else e in s.rows && s.rows[e] == exp && (step.PruneDelete? ==> s.now < exp)
  {
  }

  /** A notification waits from the commit until it is delivered or the listener is gone. */
  lemma QueuedIff(s: World, step: Step, w: nat, e: Entry)
    requires Enabled(s, step) && w in s.workers
    ensures w in Apply(s, step).workers
    ensures e in Apply(s, step).workers[w].queue <==>
              match step
              case Commit(t) =>
                e in s.workers[w].queue || (s.workers[w].phase == Listening && e in s.open[t].inserts)
              case Deliver(x, delivered) => e in s.workers[w].queue && !(x == w && delivered == e)
              case Start(x, _) => e in s.workers[w].queue && x != w
              case Stop(x) => e in s.workers[w].queue && x != w
              case ListenerFails(x) => e in s.workers[w].queue && x != w
              case _ => e in s.workers[w].queue
  {
  }

  /** After the step e is in the set of w. */
  ghost predicate InSetAfter(s: World, step: Step, w: nat, e: Entry)
    requires Enabled(s, step) && w in s.workers
  {
    match step
    case Revoke(_, x, entry, _) => e in s.workers[w].revoked || (x == w && entry == e && !Duplicate(s, step))
    case Deliver(x, delivered) => e in s.workers[w].revoked || (x == w && delivered == e)
    case Start(x, loadSucceeds) =>
      if x == w then loadSucceeds && e in s.rows && s.now < s.rows[e] else e in s.workers[w].revoked
    case Stop(x) => e in s.workers[w].revoked && x != w
    case PruneApply(x) => e in s.workers[w].revoked && !(x == w && e in s.workers[w].pruning.expired)
    case _ => e in s.workers[w].revoked
  }

  lemma RevokeInSet(s: World, step: Step, w: nat, e: Entry)
    requires Enabled(s, step) && w in s.workers && step.Revoke?
    ensures e in Apply(s, step).workers[w].revoked <==> InSetAfter(s, step, w, e)
  {
  }

  lemma OtherInSet(s: World, step: Step, w: nat, e: Entry)
    requires Enabled(s, step) && w in s.workers && !step.Revoke? && !step.Commit?
    ensures w in Apply(s, step).workers
    ensures e in Apply(s, step).workers[w].revoked <==> InSetAfter(s, step, w, e)
  {
  }

  /**
   A worker's set gains what it revokes itself, what is delivered and what is unexpired at start-up; it loses what
   a prune has fetched, and everything when the worker ends.
   */
  lemma SetIff(s: World, step: Step, w: nat, e: Entry)
    requires Enabled(s, step) && w in s.workers
    ensures w in Apply(s, step).workers && (e in Apply(s, step).workers[w].revoked <==> InSetAfter(s, step, w, e))
  {
    if step.Revoke? {
      RevokeInSet(s, step, w, e);
    } else if step.Commit? {
      CommitReachesListeners(s, step.txn);
    } else {
      OtherInSet(s, step, w, e);
    }
  }

  /** In some step of the run a transaction holding e is committed. */
  ghost predicate CommittedIn(s: World, steps: seq<Step>, e: Entry)
    requires Legal(s, steps)
    decreases |steps|
  {
    steps != []
    && ((steps[0].Commit? && e in s.open[steps[0].txn].inserts) || CommittedIn(Apply(s, steps[0]), steps[1..], e))
  }

  lemma LogStep(s: World, step: Step, e: Entry)
    requires Enabled(s, step)
    ensures e in Apply(s, step).log <==> e in s.log || (step.Commit? && e in s.open[step.txn].inserts)
  {
  }

  /** The log holds exactly what was committed. */
  lemma {:induction false} LogIsCommitted(s: World, steps: seq<Step>, e: Entry)
    requires Legal(s, steps)
    ensures e in Run(s, steps).log <==> e in s.log || CommittedIn(s, steps, e)
    decreases |steps|
  {
    if steps == [] {
    } else {
      LogStep(s, steps[0], e);
      LogIsCommitted(Apply(s, steps[0]), steps[1..], e);
    }
  }

  // ---------------------------------------------------------------------------
  // Why a worker misses a revocation
  // ---------------------------------------------------------------------------

  /**
   The ways worker w can fail to hear of e: it is committed while w's listener is not attached yet or has died, the
   start-up load fails to find it, or the listener dies with the notification still queued.
   */
  ghost predicate Gap(s: World, step: Step, w: nat, e: Entry)
    requires Enabled(s, step)
  {
    && w in s.workers
    && match step
       case Commit(t) => e in s.open[t].inserts && s.workers[w].phase in {Loaded, Deaf} && e !in s.workers[w].seen
       case Start(x, loadSucceeds) => x == w && !loadSucceeds && e in s.rows && s.now < s.rows[e]
       case ListenerFails(x) => x == w && e in s.workers[w].queue && e !in s.workers[w].seen
       case _ => false
  }

  /** Worker w neither starts nor stops. */
  ghost predicate NoRestart(steps: seq<Step>, w: nat) {
    forall i :: 0 <= i < |steps| ==> !(steps[i].Start? && steps[i].w == w) && steps[i] != Stop(w)
  }

  /** There was such a gap, and w has not been restarted since. */
  ghost predicate GapIn(s: World, steps: seq<Step>, w: nat, e: Entry)
    requires Legal(s, steps)
    decreases |steps|
  {
    steps != []
    && ((Gap(s, steps[0], w, e) && NoRestart(steps[1..], w)) || GapIn(Apply(s, steps[0]), steps[1..], w, e))
  }

  ghost predicate Missed(s: World, w: nat, e: Entry) {
    w in s.workers && e in s.workers[w].missed
  }

  lemma MissedOwnStep(s: World, step: Step, w: nat, e: Entry)
    requires Enabled(s, step) && MemoryStep(step, w)
    ensures Missed(Apply(s, step), w, e) <==> Gap(s, step, w, e) || (Missed(s, w, e) && !step.Start?)
  {
  }

  lemma MissedCommit(s: World, t: nat, w: nat, e: Entry)
    requires Enabled(s, Commit(t))
    ensures Missed(Apply(s, Commit(t)), w, e) <==> Gap(s, Commit(t), w, e) || Missed(s, w, e)
  {
  }

  /** A step of another worker. */
  predicate Elsewhere(step: Step, w: nat) {
    && !step.Tick? && !step.Issue? && !step.Commit? && !step.Rollback? && !step.Revoke?
    && step.w != w
  }

  lemma ElsewhereKeepsWorker(s: World, step: Step, w: nat)
    requires Enabled(s, step) && Elsewhere(step, w)
    ensures w in Apply(s, step).workers <==> w in s.workers
    ensures w in s.workers ==> Apply(s, step).workers[w] == s.workers[w]
  {
  }

  lemma MissedRequest(s: World, step: Step, w: nat, e: Entry)
    requires Enabled(s, step) && (step.Tick? || step.Issue? || step.Rollback? || step.Revoke? || step == PruneDelete(w))
    ensures Missed(Apply(s, step), w, e) <==> Missed(s, w, e)
  {
  }

  lemma MissedStep(s: World, step: Step, w: nat, e: Entry)
    requires Enabled(s, step)
    ensures Missed(Apply(s, step), w, e) <==>
              Gap(s, step, w, e) || (Missed(s, w, e) && !(step.Start? && step.w == w) && step != Stop(w))
  {
    if MemoryStep(step, w) {
      MissedOwnStep(s, step, w, e);
    } else if step.Commit? {
      MissedCommit(s, step.txn, w, e);
    } else if Elsewhere(step, w) {
      ElsewhereKeepsWorker(s, step, w);
    } else if step != Stop(w) {
      MissedRequest(s, step, w, e);
    }
  }

  /** What a worker has missed is exactly what fell into a gap since it last started. */
  lemma {:induction false} MissedIsGap(s: World, steps: seq<Step>, w: nat, e: Entry)
    requires Legal(s, steps)
    ensures Missed(Run(s, steps), w, e) <==> GapIn(s, steps, w, e) || (Missed(s, w, e) && NoRestart(steps, w))
    decreases |steps|
  {
    if steps == [] {
    } else {
      var step, rest := steps[0], steps[1..];
      MissedStep(s, step, w, e);
      MissedIsGap(Apply(s, step), rest, w, e);
      assert NoRestart(steps, w) <==> !(step.Start? && step.w == w) && step != Stop(w) && NoRestart(rest, w) by {
        assert steps == [step] + rest;
      }
    }
  }

  /**
   In every run: a started worker that accepts a token whose revocation has been committed has the notification in
   its queue, or the revocation fell into a gap of this worker since its last start.
   */
  lemma AcceptedOnlyThroughGap(s: World, steps: seq<Step>, w: nat, tok: Token)
    requires Initial(s) && Legal(s, steps)
    requires Running(Run(s, steps), w) && Genuine(Run(s, steps), tok) && CommittedIn(s, steps, AccessToken(tok.jti))
    requires Accepts(Run(s, steps).workers[w].revoked, Run(s, steps).now, tok)
    ensures AccessToken(tok.jti) in Run(s, steps).workers[w].queue || GapIn(s, steps, w, AccessToken(tok.jti))
  {
    var e := AccessToken(tok.jti);
    LogIsCommitted(s, steps, e);
    DeliveredQueuedOrMissed(s, steps, w, tok);
    MissedIsGap(s, steps, w, e);
  }

  /**
   In every run: when no notification is waiting and nothing fell into a gap, the whole fleet rejects a revoked
   token.
   */
  lemma QuietFleetWithoutGaps(s: World, steps: seq<Step>, tok: Token)
    requires Initial(s) && Legal(s, steps) && Genuine(Run(s, steps), tok)
    requires CommittedIn(s, steps, AccessToken(tok.jti))
    requires forall w :: Running(Run(s, steps), w) ==>
               AccessToken(tok.jti) !in Run(s, steps).workers[w].queue && !GapIn(s, steps, w, AccessToken(tok.jti))
    ensures forall w :: Running(Run(s, steps), w) ==>
              !Accepts(Run(s, steps).workers[w].revoked, Run(s, steps).now, tok)
  {
    forall w | Running(Run(s, steps), w)
      ensures !Accepts(Run(s, steps).workers[w].revoked, Run(s, steps).now, tok)
    {
      if Accepts(Run(s, steps).workers[w].revoked, Run(s, steps).now, tok) {
        AcceptedOnlyThroughGap(s, steps, w, tok);
        assert false;
      }
    }
  }

  // ---------------------------------------------------------------------------
  // A listening worker hears
  // ---------------------------------------------------------------------------

  /** Worker w listens and has e in its queue or has heard of it. */
  ghost predicate HasHeard(s: World, w: nat, e: Entry) {
    w in s.workers && s.workers[w].phase == Listening && e in s.workers[w].queue + s.workers[w].seen
  }

  /** Worker w's listener is not interrupted. */
  predicate KeepsListening(step: Step, w: nat) {
    step != Stop(w) && step != ListenerFails(w)
  }

  lemma HeardStep(s: World, step: Step, w: nat, e: Entry)
    requires HasHeard(s, w, e) && Enabled(s, step) && KeepsListening(step, w)
    ensures HasHeard(Apply(s, step), w, e)
  {
    if Elsewhere(step, w) {
      ElsewhereKeepsWorker(s, step, w);
    }
  }

  lemma {:induction false} HeardRun(s: World, steps: seq<Step>, w: nat, e: Entry)
    requires HasHeard(s, w, e) && Legal(s, steps)
    requires forall i :: 0 <= i < |steps| ==> KeepsListening(steps[i], w)
    ensures HasHeard(Run(s, steps), w, e)
    decreases |steps|
  {
    if steps == [] {
    } else {
      HeardStep(s, steps[0], w, e);
      HeardRun(Apply(s, steps[0]), steps[1..], w, e);
    }
  }

  /**
   End to end: a worker that listens when a revocation is committed, and goes on listening, rejects the token at every
   later moment at which the notification is not waiting in its queue.
   */
  lemma ListenerRejects(s: World, before: seq<Step>, txn: nat, after: seq<Step>, w: nat, tok: Token)
    requires Initial(s) && Legal(s, before) && Enabled(Run(s, before), Commit(txn))
    requires AccessToken(tok.jti) in Run(s, before).open[txn].inserts
    requires w in Run(s, before).workers && Run(s, before).workers[w].phase == Listening
    requires Legal(Apply(Run(s, before), Commit(txn)), after)
    requires forall i :: 0 <= i < |after| ==> KeepsListening(after[i], w)
    requires var t := Run(Apply(Run(s, before), Commit(txn)), after);
             Genuine(t, tok) && w in t.workers && AccessToken(tok.jti) !in t.workers[w].queue
    ensures var t := Run(Apply(Run(s, before), Commit(txn)), after);
            !Accepts(t.workers[w].revoked, t.now, tok)
  {
    var u, e := Run(s, before), AccessToken(tok.jti);
    CommitReachesListeners(u, txn);
    HeardRun(Apply(u, Commit(txn)), after, w, e);
    InvReachable(s, before);
    InvStep(u, Commit(txn));
    InvRun(Apply(u, Commit(txn)), after);
    var t := Run(Apply(u, Commit(txn)), after);
    assert WorkerOk(t.now, t.floor, t.log, t.workers[w]);
  }

  // ---------------------------------------------------------------------------
  // Tokens nobody revoked
  // ---------------------------------------------------------------------------

  ghost predicate NoTrace(s: World, e: Entry) {
    && e !in s.rows && e !in s.log
    && (forall t :: t in s.open ==> e !in s.open[t].inserts)
    && forall w :: w in s.workers ==> e !in s.workers[w].revoked && e !in s.workers[w].queue
  }

  lemma NoTraceFrame(s: World, s': World, t: nat, w: nat, e: Entry)
    requires NoTrace(s, e) && s'.rows == s.rows && s'.log == s.log
    requires t in s'.open && s'.open == s.open[t := s'.open[t]] && e !in s'.open[t].inserts
    requires w in s'.workers && s'.workers == s.workers[w := s'.workers[w]]
    requires e !in s'.workers[w].revoked && e !in s'.workers[w].queue
    ensures NoTrace(s', e)
  {
  }

  lemma NoTraceRevoke(s: World, step: Step, e: Entry)
    requires NoTrace(s, e) && step.Revoke? && Enabled(s, step) && step.entry != e
    ensures NoTrace(Apply(s, step), e)
  {
    if Duplicate(s, step) {
      DuplicateEndsTransaction(s, step.txn, step.w, step.entry, step.expiresAt);
    } else {
      RevokeIsPending(s, step.txn, step.w, step.entry, step.expiresAt);
      NoTraceFrame(s, Apply(s, step), step.txn, step.w, e);
    }
  }

  lemma NoTraceCommit(s: World, t: nat, e: Entry)
    requires NoTrace(s, e) && Enabled(s, Commit(t))
    ensures NoTrace(Apply(s, Commit(t)), e)
  {
    CommitReachesListeners(s, t);
  }

  lemma NoTraceStep(s: World, step: Step, e: Entry)
    requires NoTrace(s, e) && Enabled(s, step) && !(step.Revoke? && step.entry == e)
    ensures NoTrace(Apply(s, step), e)
  {
    if step.Revoke? {
      NoTraceRevoke(s, step, e);
    } else if step.Commit? {
      NoTraceCommit(s, step.txn, e);
    }
  }

  lemma {:induction false} NoTraceRun(s: World, steps: seq<Step>, e: Entry)
    requires NoTrace(s, e) && Legal(s, steps)
    requires forall i :: 0 <= i < |steps| ==> !(steps[i].Revoke? && steps[i].entry == e)
    ensures NoTrace(Run(s, steps), e)
    decreases |steps|
  {
    if steps == [] {
    } else {
      NoTraceStep(s, steps[0], e);
      NoTraceRun(Apply(s, steps[0]), steps[1..], e);
    }
  }

  /** In every run every worker accepts a complete, unexpired token that no request has tried to revoke. */
  lemma UnrevokedAccepted(s: World, steps: seq<Step>, w: nat, tok: Token)
    requires Initial(s) && Legal(s, steps) && w in Run(s, steps).workers
    requires forall i :: 0 <= i < |steps| ==> !(steps[i].Revoke? && steps[i].entry == AccessToken(tok.jti))
    requires tok.complete && Run(s, steps).now < tok.exp
    ensures Accepts(Run(s, steps).workers[w].revoked, Run(s, steps).now, tok)
  {
    NoTraceRun(s, steps, AccessToken(tok.jti));
  }

  /** And no worker accepts a token that is expired or not complete. */
  lemma NeverAccepted(revoked: set<Entry>, now: Time, tok: Token)
    requires tok.exp <= now || !tok.complete
    ensures !Accepts(revoked, now, tok)
  {
  }
}
