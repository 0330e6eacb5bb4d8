/**
  * The hub's device registry: music-hub/src/devices.rs, with the unique index on token hashes
  * that its migration creates. Instants are whole numbers; their text form sorts the same way.
  */
module Devices {
  import opened Wrappers

  const PENDING_TTL_SECS: int := 900

  datatype Device = Device(
    user: Option<int>, name: string, token: string, staged: Option<string>,
    createdAt: int, lastSeenAt: Option<int>, pairedAt: Option<int>, expiresAt: Option<int>, revokedAt: Option<int>)

  type Registry = map<nat, Device>

  predicate IsPending(d: Device) {
    d.user.None? && d.revokedAt.None?
  }

  predicate IsLive(d: Device, now: int) {
    IsPending(d) && d.expiresAt.Some? && d.expiresAt.value > now
  }

  predicate IsExpired(d: Device, now: int) {
    IsPending(d) && d.expiresAt.Some? && d.expiresAt.value <= now
  }

  /** Bound to a user, paired, and not revoked: what the device routes let in. */
  predicate IsBound(d: Device) {
    d.user.Some? && d.pairedAt.Some? && d.revokedAt.None?
  }

  /** The unique index: some other row already holds this token hash. */
  predicate Taken(r: Registry, token: string, but: Option<nat>) {
    exists id <- r.Keys :: r[id].token == token && but != Some(id)
  }

  function Swept(r: Registry, now: int): Registry {
    map id | id in r && !IsExpired(r[id], now) :: r[id]
  }

  ghost predicate IsLiveFor(r: Registry, name: string, now: int, id: nat) {
    id in r && r[id].name == name && IsLive(r[id], now)
  }

  /** Row ids grow from the greatest in use, so an id may come back after its row was swept. */
  ghost predicate IsNextId(r: Registry, id: nat) {
    id >= 1 && (forall k :: k in r ==> k < id) && (id == 1 || id - 1 in r)
  }

  function Renewed(d: Device, pairing: string, device: string, now: int): Device {
    d.(token := pairing, staged := Some(device), createdAt := now, expiresAt := Some(now + PENDING_TTL_SECS))
  }

  function FreshDevice(name: string, pairing: string, device: string, now: int): Device {
    Device(None, name, pairing, Some(device), now, None, None, Some(now + PENDING_TTL_SECS), None)
  }

  /**
    * The statement that stores a registration: an update of the row found before, whatever that
    * row has become and if it is still there, or an insert; None when the index refuses it.
    */
  ghost predicate StoresPending(r: Registry, name: string, pairing: string, device: string, now: int,
                                found: Option<nat>, r': Registry, id: Option<nat>)
  {
    if found.Some? then
      if found.value !in r then id == found && r' == r
      else if Taken(r, pairing, found) then id == None && r' == r
      else id == found && r' == r[found.value := Renewed(r[found.value], pairing, device, now)]
    else if Taken(r, pairing, None) then id == None && r' == r
    else id.Some? && IsNextId(r, id.value) && r' == r[id.value := FreshDevice(name, pairing, device, now)]
  }

  ghost predicate Finds(r: Registry, name: string, now: int, found: Option<nat>) {
    if found.Some? then IsLiveFor(r, name, now, found.value) else forall id :: !IsLiveFor(r, name, now, id)
  }

  datatype BindAnswer = Yes | No | Refused

  predicate CanBind(r: Registry, id: nat, now: int) {
    id in r && IsLive(r[id], now) && r[id].staged.Some?
  }

  function BoundRow(d: Device, user: int, now: int): Device
    requires d.staged.Some?
  {
    d.(user := Some(user), pairedAt := Some(now), token := d.staged.value, staged := None, expiresAt := None)
  }

  function Bind(r: Registry, id: nat, user: int, now: int): (Registry, BindAnswer) {
    if !CanBind(r, id, now) then (r, No)
    else if Taken(r, r[id].staged.value, Some(id)) then (r, Refused)
    else (r[id := BoundRow(r[id], user, now)], Yes)
  }

  function Revoke(r: Registry, id: nat, user: int, now: int): (Registry, bool) {
    if id !in r || r[id].user != Some(user) then (r, false)
    else if r[id].revokedAt.Some? then (r, true)
    else (r[id := r[id].(revokedAt := Some(now))], true)
  }

  // ---------------------------------------------------------------- the registry as the program updates it

  class Store {
    var rows: Registry

    constructor ()
      ensures rows == map[]
    {
      rows := map[];
    }

    method SweepExpired(now: int) returns (removed: nat)
      modifies this
      ensures rows == Swept(old(rows), now)
      ensures removed == |old(rows)| - |rows|
    {
      ghost var before := rows;
      var kept := map id | id in rows && !IsExpired(rows[id], now) :: rows[id];
      FewerRows(rows, kept);
      removed := |rows| - |kept|;
      rows := kept;
    }

    method FindLive(name: string, now: int) returns (found: Option<nat>)
      ensures Finds(rows, name, now, found)
    {
      var left := rows.Keys;
      while left != {}
        invariant left <= rows.Keys
        invariant forall id :: id in rows && id !in left ==> !IsLiveFor(rows, name, now, id)
      {
        var id :| id in left;
        if rows[id].name == name && IsLive(rows[id], now) {
          return Some(id);
        }
        left := left - {id};
      }
      return None;
    }

    method NextId() returns (id: nat)
      ensures IsNextId(rows, id)
    {
      id := 1;
      var left := rows.Keys;
      while left != {}
        invariant left <= rows.Keys && id >= 1 && (id == 1 || id - 1 in rows)
        invariant forall k :: k in rows && k !in left ==> k < id
      {
        var k :| k in left;
        left := left - {k};
        if k >= id {
          id := k + 1;
        }
      }
    }

    /** Sweep, then renew the live pending row of that name, or else insert one. */
    method CreatePending(name: string, pairing: string, device: string, now: int)
      returns (id: Option<nat>, ghost found: Option<nat>)
      modifies this
      ensures Finds(Swept(old(rows), now), name, now, found)
      ensures StoresPending(Swept(old(rows), now), name, pairing, device, now, found, rows, id)
    {
      var _ := SweepExpired(now);
      var live := FindLive(name, now);
      found := live;
      id := StorePending(name, pairing, device, now, live);
    }

    /** The last statement of a registration, on the answer its lookup gave. */
    method StorePending(name: string, pairing: string, device: string, now: int, found: Option<nat>)
      returns (id: Option<nat>)
      modifies this
      ensures StoresPending(old(rows), name, pairing, device, now, found, rows, id)
    {
      if found.Some? {
        if found.value !in rows {
          return found;
        }
        if Taken(rows, pairing, found) {
          return None;
        }
        rows := rows[found.value := Renewed(rows[found.value], pairing, device, now)];
        return found;
      }
      if Taken(rows, pairing, None) {
        return None;
      }
      var next := NextId();
      rows := rows[next := FreshDevice(name, pairing, device, now)];
      return Some(next);
    }

    method BindDevice(id: nat, user: int, now: int) returns (answer: BindAnswer)
      modifies this
      ensures (rows, answer) == Bind(old(rows), id, user, now)
    {
      if !CanBind(rows, id, now) {
        return No;
      }
      if Taken(rows, rows[id].staged.value, Some(id)) {
        return Refused;
      }
      rows := rows[id := BoundRow(rows[id], user, now)];
      return Yes;
    }

    /** The device that a token hash lets in. */
    method FindBoundByTokenHash(token: string) returns (found: Option<nat>)
      ensures found.Some? ==> found.value in rows && rows[found.value].token == token && IsBound(rows[found.value])
      ensures found.None? ==> forall id :: id in rows && rows[id].token == token ==> !IsBound(rows[id])
    {
      var left := rows.Keys;
      while left != {}
        invariant left <= rows.Keys
        invariant forall id :: id in rows && id !in left && rows[id].token == token ==> !IsBound(rows[id])
      {
        var id :| id in left;
        if rows[id].token == token && IsBound(rows[id]) {
          return Some(id);
        }
        left := left - {id};
      }
      return None;
    }

    method RevokeDevice(id: nat, user: int, now: int) returns (known: bool)
      modifies this
      ensures (rows, known) == Revoke(old(rows), id, user, now)
    {
      if id !in rows || rows[id].user != Some(user) {
        return false;
      }
      if rows[id].revokedAt.None? {
        rows := rows[id := rows[id].(revokedAt := Some(now))];
      }
      return true;
    }
  }

  lemma {:induction false} FewerRows(r: Registry, kept: Registry)
    requires forall id :: id in kept ==> id in r
    ensures |kept| <= |r|
    decreases |kept|
  {
    if kept != map[] {
      var id :| id in kept;
      FewerRows(r - {id}, kept - {id});
    }
  }
}
