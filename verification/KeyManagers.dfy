/** `KeyManager` and the scheduler's check as they run: objects and a table updated step by step. */
module KeyManagers {
  import opened Common
  import opened SigningKeys

  class KeyManager {
    var current: Option<string>
    var validJwks: seq<Jwk>
    var publicPems: map<string, PublicKey>

    function State(): Manager
      reads this
    {
      Manager(current, validJwks, publicPems)
    }

    constructor ()
      ensures State() == EMPTY
    {
      current, validJwks, publicPems := None, [], map[];
    }

    /** `valid` are the unexpired rows in the order the query returned them. */
    method LoadKeys(rows: Table, selected: string, valid: seq<string>)
      requires forall kid :: kid in valid ==> kid in rows
      modifies this
      ensures State() == Initialized(rows, selected, valid)
    {
      current := Some(selected);
      var jwks, pems := [], map[];
      for i := 0 to |valid|
        invariant jwks == Jwks(rows, valid[..i])
        invariant pems == map kid | kid in valid[..i] :: rows[kid].key
      {
        assert valid[..i + 1] == valid[..i] + [valid[i]];
        jwks := jwks + [ToJwk(valid[i], rows[valid[i]].key)];
        pems := pems[valid[i] := rows[valid[i]].key];
      }
      assert valid[..|valid|] == valid;
      validJwks, publicPems := jwks, pems;
    }

    /** `selected` is the current row found or, if there is none, the kid the new key gets. */
    method Initialize(rows: Table, now: Time, life: Time, selected: string, created: PublicKey, valid: seq<string>)
      returns (rows': Table)
      requires if NoCurrentRow(rows) then selected !in rows else Selectable(rows, selected)
      requires Lists(StartTable(rows, now, selected, created, life), now, valid)
      modifies this
      ensures rows' == StartTable(rows, now, selected, created, life)
      ensures State() == Initialized(rows', selected, valid)
    {
      rows' := rows;
      if NoCurrentRow(rows) {
        rows' := rows[selected := KeyRow(created, true, now + life)];
      }
      assert forall kid :: kid in valid ==> kid in Unexpired(rows', now);
      LoadKeys(rows', selected, valid);
    }

    /** In a consistent world a key is found exactly for the kids served to clients, and it is that of the row. */
    function GetPublicPemByKid(kid: string, ghost s: World): (pem: Option<PublicKey>)
      reads this
      ensures Consistent(s) && s.m == State() ==>
                && (pem.Some? <==> kid in Kids(validJwks))
                && (pem.Some? ==> kid in s.rows && pem.value == s.rows[kid].key)
    {
      if kid in publicPems then Some(publicPems[kid]) else None
    }

    /** Returns the rows as committed by the new row's own session; `callerCommits` decides about the rest. */
    method Rotate(rows: Table, kid: string, key: PublicKey, expiresAt: Time, callerCommits: bool) returns (rows': Table)
      modifies this
      ensures rows' == RotatedTable(rows, kid, key, expiresAt, callerCommits)
      ensures State() == RotatedManager(old(State()), kid, key)
    {
      rows' := rows[kid := KeyRow(key, true, expiresAt)];
      current := Some(kid);
      validJwks := validJwks + [ToJwk(kid, key)];
      publicPems := publicPems[kid := key];
      if callerCommits {
        rows' := map k | k in rows' :: if k == kid then rows'[k] else rows'[k].(isCurrent := false);
      }
      assert rows' == RotatedTable(rows, kid, key, expiresAt, callerCommits);
    }

    /** `_maybe_rotate`: the session of the check is closed without a commit. */
    method MaybeRotate(rows: Table, selected: Option<string>, now: Time, life: Time, kid: string, key: PublicKey)
      returns (rows': Table)
      requires selected.Some? ==> selected.value in rows
      modifies this
      ensures if selected.Some? && NeedsRotation(rows[selected.value], now)
              then rows' == RotatedTable(rows, kid, key, now + life, false) &&
                  State() == RotatedManager(old(State()), kid, key)
              else rows' == rows && State() == old(State())
    {
      if selected.None? {
        return rows;
      }
      var daysRemaining := (rows[selected.value].expiresAt - now) / DAY;
      if daysRemaining <= THRESHOLD_DAYS {
        rows' := Rotate(rows, kid, key, now + life, false);
      } else {
        rows' := rows;
      }
    }
  }
}
