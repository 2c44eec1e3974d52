/** The trusted_devices table behind the second-factor bypass. A row's token hash is represented by the cookie. */
module TrustedDevices {
  import opened Common
  import opened SecondFactor

  class DeviceTable {
    var rows: map<nat, Device>

    ghost function Devices(): set<Device>
      reads this
    {
      set id | id in rows :: rows[id]
    }

    constructor ()
      ensures Devices() == {}
    {
      rows := map[];
    }

    method IsTrusted(user: string, cookie: string, now: Time) returns (trusted: bool)
      ensures cookie != "" ==> (trusted <==> Trusts(Devices(), user, Some(cookie), now))
    {
      trusted := exists id ::
        id in rows && rows[id].user == user && rows[id].cookie == cookie && rows[id].expiresAt > now;
      if trusted {
        ghost var id :| id in rows && rows[id].user == user && rows[id].cookie == cookie && rows[id].expiresAt > now;
        assert rows[id] in Devices();
      }
    }

    method Create(id: nat, user: string, token: string, now: Time)
      requires id !in rows
      modifies this
      ensures rows == old(rows)[id := Device(user, token, now, now + DEVICE_TTL)]
      ensures Devices() == old(Devices()) + {Device(user, token, now, now + DEVICE_TTL)}
    {
      rows := rows[id := Device(user, token, now, now + DEVICE_TTL)];
      assert rows[id] in Devices();
      assert forall x :: x in old(rows) ==> rows[x] == old(rows)[x];
    }

    /** Afterwards no cookie bypasses the second factor for `user`; other users' devices are untouched. */
    method RevokeAll(user: string) returns (deleted: nat)
      modifies this
      ensures Devices() == set d | d in old(Devices()) && d.user != user
      ensures deleted == |old(rows)| - |rows|
      ensures forall cookie, now :: !Trusts(Devices(), user, cookie, now)
    {
      var before := |rows|;
      var remaining := map id | id in rows && rows[id].user != user :: rows[id];
      SubsetSize(remaining.Keys, rows.Keys);
      rows := remaining;
      assert forall id :: id in rows ==> old(rows)[id] in old(Devices()) && rows[id] == old(rows)[id];
      assert forall id :: id in old(rows) && old(rows)[id].user != user ==> id in rows && rows[id] in Devices();
      deleted := before - |rows|;
    }

    method RevokeById(id: nat, user: string) returns (found: bool)
      modifies this
      ensures found <==> id in old(rows) && old(rows)[id].user == user
      ensures rows == if found then old(rows) - {id} else old(rows)
    {
      found := id in rows && rows[id].user == user;
      if found {
        rows := rows - {id};
      }
    }
  }

  /** A new device bypasses for exactly thirty days, and for its own user and non-empty cookie only. */
  lemma NewDeviceBypasses(
    devices: set<Device>, user: string, token: string, made: Time, who: string, cookie: Option<string>, now: Time)
    ensures Trusts(devices + {Device(user, token, made, made + DEVICE_TTL)}, who, cookie, now) <==>
              Trusts(devices, who, cookie, now)
              || (token != "" && who == user && cookie == Some(token) && now < made + 30 * DAY)
  {
    var device := Device(user, token, made, made + DEVICE_TTL);
    assert device in devices + {device};
    assert forall d :: d in devices ==> d in devices + {device};
  }
}
