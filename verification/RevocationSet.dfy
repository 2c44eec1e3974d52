/**
 The module-level set `_revoked_jtis` of one worker and the functions that change it in place. Each of them does to
 the set what the protocol's step does to the worker it belongs to.
 */
module RevocationSet {
  import opened Common
  import opened Revocation

  class RevokedJtis {
    var entries: set<Entry>

    /** The set is that of worker w. */
    ghost predicate Represents(s: World, w: nat)
      reads this
    {
      w in s.workers && entries == s.workers[w].revoked
    }

    constructor ()
      ensures entries == {}
    {
      entries := {};
    }

    /**
     In every world that keeps the protocol's invariant the answer for an unexpired access token is that of
     the ever-growing log of what this worker has heard of, however much has been pruned.
     */
    method IsRevoked(e: Entry, ghost s: World, ghost w: nat) returns (revoked: bool)
      ensures revoked <==> e in entries
      ensures Inv(s) && Represents(s, w) && e.AccessToken? && e.jti in s.issued && s.now < s.issued[e.jti] ==>
                (revoked <==> e in s.workers[w].seen)
    {
      revoked := e in entries;
      if Inv(s) && Represents(s, w) {
        assert WorkerOk(s.now, s.floor, s.log, s.workers[w]);
      }
    }

    /**
     Insert, flush, notify, then add to the set. `rows` are the committed rows and `inserts` this
     transaction's earlier inserts; a duplicate key makes the flush raise before the set is touched.
     */
    method RevokeToken(
      e: Entry, expiresAt: Time, rows: map<Entry, Time>, inserts: map<Entry, Time>, ghost s: World, ghost txn: nat,
          ghost w: nat)
      returns (flushed: Option<map<Entry, Time>>)
      modifies this
      ensures flushed.None? <==> e in rows || e in inserts
      ensures flushed.None? ==> entries == old(entries)
      ensures flushed.Some? ==> flushed.value == inserts[e := expiresAt] && entries == old(entries) + {e}
      ensures old(Represents(s, w)) && rows == s.rows && inserts == Inserts(s, txn) &&
               Enabled(s, Revoke(txn, w, e, expiresAt)) ==>
                var t := Apply(s, Revoke(txn, w, e, expiresAt));
                Represents(t, w) && (flushed.Some? <==> txn in t.open) &&
                    (flushed.Some? ==> t.open[txn].inserts == flushed.value)
    {
      if e in rows || e in inserts {
        return None;
      }
      entries := entries + {e};
      return Some(inserts[e := expiresAt]);
    }

    /** Start-up load: every fetched row is added. */
    method LoadActive(fetched: seq<Entry>, ghost s: World, ghost w: nat)
      requires forall e :: e in fetched <==> e in ActiveEntries(s.rows, s.now)
      modifies this
      ensures entries == old(entries) + ActiveEntries(s.rows, s.now)
      ensures old(entries) == {} && Enabled(s, Start(w, true)) ==> Represents(Apply(s, Start(w, true)), w)
    {
      for i := 0 to |fetched|
        invariant entries == old(entries) + set j | 0 <= j < i :: fetched[j]
      {
        entries := entries + {fetched[i]};
      }
      assert forall e :: e in ActiveEntries(s.rows, s.now) <==> exists j :: 0 <= j < |fetched| && fetched[j] == e;
    }

    /** A notification handled. */
    method OnRevoke(payload: Entry, ghost s: World, ghost w: nat)
      modifies this
      ensures entries == old(entries) + {payload}
      ensures old(Represents(s, w)) && Enabled(s, Deliver(w, payload)) ==> Represents(Apply(s, Deliver(w, payload)), w)
    {
      entries := entries + {payload};
    }

    /** The in-memory half of a prune. The caller goes on to delete rows exactly when something was fetched. */
    method PruneExpired(fetched: seq<Entry>, ghost s: World, ghost w: nat) returns (deleteRows: bool)
      requires forall e :: e in fetched <==> e in ExpiredEntries(s.rows, s.now)
      modifies this
      ensures entries == old(entries) - ExpiredEntries(s.rows, s.now)
      ensures deleteRows <==> exists e :: e in s.rows && s.rows[e] <= s.now
      ensures old(Represents(s, w)) && Enabled(s, PruneFetch(w)) ==>
                var t := Apply(Apply(s, PruneFetch(w)), PruneApply(w));
                Represents(t, w) && (deleteRows <==> t.workers[w].pruning.Deleting?)
    {
      var expired := set e | e in fetched;
      assert expired == ExpiredEntries(s.rows, s.now);
      deleteRows := expired != {};
      if deleteRows {
        entries := entries - expired;
      }
      if deleteRows {
        assert exists e :: e in expired;
      }
    }
  }
}
