/**
  * What each statement does to a device's row, told from outside: music-hub/src/devices.rs.
  * Who binds a row, who revokes it, when it expires and when it is swept.
  */
module DeviceHistory {
  import opened Wrappers
  import opened Devices
  import opened DeviceRuns

  // ---------------------------------------------------------------- one row, one statement

  /** The registration that statement `e` stores. */
  function Storing(h: Hub, e: Event): Pairing
    requires e.StoreOf? && e.call in h.calls
  {
    h.calls[e.call]
  }

  /** The statement writes the registration into row `id`: the one it found, or a new one. */
  predicate Writes(h: Hub, e: Event, id: nat) {
    e.StoreOf? && e.call in h.calls && e.made == Some(id) && (Storing(h, e).found == Some(id) ==> id in h.rows)
  }

  /** Never bound to anybody, and its time is over. */
  predicate TimeIsUp(d: Device, now: int) {
    d.user.None? && d.revokedAt.None? && d.expiresAt.Some? && d.expiresAt.value <= now
  }

  /** The answer to a bind is yes. */
  predicate Binds(e: Event, id: nat) {
    e.BindTo? && e.id == id && e.answer == Yes
  }

  /** The call of the row's owner that revokes it. */
  predicate RevokesNow(h: Hub, e: Event, id: nat) {
    e.RevokeFor? && e.id == id && id in h.rows && h.rows[id].user == Some(e.user) && h.rows[id].revokedAt.None?
  }

  /** What a row is after a statement that does not delete it. */
  ghost predicate Becomes(h: Hub, e: Event, id: nat, d: Device, d': Device) {
    if Writes(h, e, id) then
      var c := Storing(h, e);
      d' == Device(d.user, d.name, c.token, Some(c.device), c.now, d.lastSeenAt, d.pairedAt, Some(c.now + 900), d.revokedAt)
    else if Binds(e, id) then
      d.staged.Some?
      && d' == Device(Some(e.user), d.name, d.staged.value, None, d.createdAt, d.lastSeenAt, Some(e.now), None, d.revokedAt)
    else if RevokesNow(h, e, id) then
      d' == Device(d.user, d.name, d.token, d.staged, d.createdAt, d.lastSeenAt, d.pairedAt, d.expiresAt, Some(e.now))
    else if e.Touch? && e.id == id then
      d' == Device(d.user, d.name, d.token, d.staged, d.createdAt, Some(e.now), d.pairedAt, d.expiresAt, d.revokedAt)
    else d' == d
  }

  /** Every statement's effect on every row there is. */
  lemma RowStep(h: Hub, e: Event, h': Hub, id: nat)
    requires Step(h, e, h') && id in h.rows
    ensures id !in h'.rows <==> e.Sweep? && TimeIsUp(h.rows[id], e.now)
    ensures id in h'.rows ==> Becomes(h, e, id, h.rows[id], h'.rows[id])
  {
  }

  /** And on those there are not: only a registration that found none makes one. */
  lemma NewRowStep(h: Hub, e: Event, h': Hub, id: nat)
    requires Step(h, e, h') && id !in h.rows
    ensures id in h'.rows <==> Writes(h, e, id)
    ensures id in h'.rows ==>
      var c := Storing(h, e);
      h'.rows[id] == Device(None, c.name, c.token, Some(c.device), c.now, None, None, Some(c.now + 900), None)
  {
  }

  /** A pending row with a time is swept exactly when it is not live any more. */
  lemma SweptExactlyWhenNotLive(r: Registry, id: nat, now: int)
    requires id in r && r[id].user.None? && r[id].revokedAt.None? && r[id].expiresAt.Some?
    ensures id in Swept(r, now) <==> IsLive(r[id], now)
    ensures IsLive(r[id], now) <==> now < r[id].expiresAt.value
  {
  }

  // ---------------------------------------------------------------- registering

  /** A row of that name which nobody owns or has revoked, within its time. */
  predicate IsWaiting(r: Registry, id: nat, name: string, now: int) {
    && id in r && r[id].name == name
    && r[id].user.None? && r[id].revokedAt.None?
    && r[id].expiresAt.Some? && now < r[id].expiresAt.value
  }

  /** A lookup finds such a row if there is one, and the registration remembers what it found. */
  lemma LookUpExactly(h: Hub, e: Event, h': Hub)
    requires Step(h, e, h') && e.LookUp?
    ensures e.found.Some? <==> exists id :: IsWaiting(h.rows, id, e.name, e.now)
    ensures e.found.Some? ==> IsWaiting(h.rows, e.found.value, e.name, e.now)
    ensures h'.rows == h.rows && h'.calls == h.calls[e.call := Pairing(e.name, e.token, e.device, e.now, e.found)]
  {
    forall id ensures IsWaiting(h.rows, id, e.name, e.now) <==> IsLiveFor(h.rows, e.name, e.now, id) {
    }
  }

  /** The hash stands in a row other than the one found. */
  ghost predicate HeldElsewhere(r: Registry, c: Pairing) {
    exists k :: k in r && r[k].token == c.token && c.found != Some(k)
  }

  /** A store is refused exactly if the hash stands in another row; a new row has the least number above all others. */
  lemma StoreAnswer(h: Hub, e: Event, h': Hub)
    requires Step(h, e, h') && e.StoreOf?
    ensures var c := Storing(h, e);
      && (e.made.None? <==> (c.found.None? || c.found.value in h.rows) && HeldElsewhere(h.rows, c))
      && (e.made.Some? && c.found.Some? ==> e.made == c.found)
      && (e.made.Some? && c.found.None? ==> forall k :: k in h.rows ==> k < e.made.value)
      && (e.made.Some? && c.found.None? ==> if h.rows == map[] then e.made.value == 1 else e.made.value - 1 in h.rows)
    ensures e.made.None? ==> h'.rows == h.rows
  {
    var c := Storing(h, e);
    assert Taken(h.rows, c.token, c.found) <==> HeldElsewhere(h.rows, c);
  }

  // ---------------------------------------------------------------- binding

  /** A bind succeeds exactly on a row nobody owns or has revoked, within its time, whose staged hash no other row holds. */
  lemma BindsExactly(h: Hub, e: Event, h': Hub)
    requires Step(h, e, h') && e.BindTo?
    ensures e.answer == Yes
       <==> && e.id in h.rows
            && h.rows[e.id].user.None? && h.rows[e.id].revokedAt.None?
            && h.rows[e.id].expiresAt.Some? && e.now < h.rows[e.id].expiresAt.value
            && h.rows[e.id].staged.Some?
            && forall k :: k in h.rows && k != e.id ==> h.rows[k].token != h.rows[e.id].staged.value
    ensures e.answer != Yes ==> h' == h
  {
    if e.answer == Refused {
      assert exists k :: k in h.rows && h.rows[k].token == h.rows[e.id].staged.value && k != e.id;
    }
  }

  predicate OwnedBy(r: Registry, id: nat, user: int) {
    id in r && r[id].user == Some(user)
  }

  ghost predicate BindsAt(events: seq<Event>, k: nat, id: nat, user: int)
    requires k < |events|
  {
    Binds(events[k], id) && events[k].user == user
  }

  lemma OwnerStep(h: Hub, e: Event, h': Hub, id: nat, user: int)
    requires Step(h, e, h')
    ensures OwnedBy(h'.rows, id, user) <==> OwnedBy(h.rows, id, user) || (Binds(e, id) && e.user == user)
  {
    if id in h.rows {
      RowStep(h, e, h', id);
    } else {
      NewRowStep(h, e, h', id);
    }
  }

  /** Over every run: a row has an owner exactly if that user's bind of it was answered yes. */
  lemma {:induction false} OwnedExactly(events: seq<Event>, states: seq<Hub>, m: nat, id: nat, user: int)
    requires IsRun(events, states) && m <= |events|
    ensures OwnedBy(states[m].rows, id, user) <==> exists k: nat :: k < m && BindsAt(events, k, id, user)
    decreases m
  {
    if m > 0 {
      OwnedExactly(events, states, m - 1, id, user);
      assert Step(states[m - 1], events[m - 1], states[m]);
      OwnerStep(states[m - 1], events[m - 1], states[m], id, user);
      if BindsAt(events, m - 1, id, user) {
        assert exists k: nat :: k < m && BindsAt(events, k, id, user);
      }
    }
  }

  // ---------------------------------------------------------------- revoking

  predicate IsRevoked(r: Registry, id: nat) {
    id in r && r[id].revokedAt.Some?
  }

  /** A statement revokes a row exactly if it is its owner's call, at the time of the call; it touches no other row. */
  lemma RevokeStep(h: Hub, e: Event, h': Hub, id: nat)
    requires Step(h, e, h') && !IsRevoked(h.rows, id)
    ensures IsRevoked(h'.rows, id) <==> e.RevokeFor? && e.id == id && OwnedBy(h.rows, id, e.user)
    ensures IsRevoked(h'.rows, id) ==> h'.rows[id].revokedAt == Some(e.now)
    ensures IsRevoked(h'.rows, id) ==> forall k :: k != id ==> (k in h'.rows <==> k in h.rows)
    ensures IsRevoked(h'.rows, id) ==> forall k :: k != id && k in h.rows ==> h'.rows[k] == h.rows[k]
  {
    if id in h.rows {
      RowStep(h, e, h', id);
    } else {
      NewRowStep(h, e, h', id);
    }
  }

  /** The answer to a revocation is yes exactly for the owner, whether or not it was revoked before. */
  lemma RevocationAnswer(h: Hub, e: Event, h': Hub)
    requires Step(h, e, h') && e.RevokeFor?
    ensures e.known <==> OwnedBy(h.rows, e.id, e.user)
    ensures !e.known ==> h' == h
  {
  }

  /** At position `k` the row's owner calls for its revocation. */
  ghost predicate RevokedByOwnerAt(events: seq<Event>, states: seq<Hub>, k: nat, id: nat)
    requires |states| == |events| + 1 && k < |events|
  {
    events[k].RevokeFor? && events[k].id == id && OwnedBy(states[k].rows, id, events[k].user)
  }

  lemma RevokedStays(events: seq<Event>, states: seq<Hub>, k: nat, id: nat)
    requires IsRun(events, states) && k < |events| && IsRevoked(states[k].rows, id)
    ensures IsRevoked(states[k + 1].rows, id)
    ensures states[k + 1].rows[id].revokedAt == states[k].rows[id].revokedAt
  {
    RevokedForever(events, states, k, k + 1, id);
  }

  /** Over every run: a row is revoked exactly if its owner has called for it. */
  lemma {:induction false} RevokedExactly(events: seq<Event>, states: seq<Hub>, m: nat, id: nat)
    requires IsRun(events, states) && m <= |events|
    ensures IsRevoked(states[m].rows, id) <==> exists k: nat :: k < m && RevokedByOwnerAt(events, states, k, id)
    decreases m
  {
    if m > 0 {
      var n := m - 1;
      RevokedExactly(events, states, n, id);
      NextRevoked(events, states, n, id);
      if RevokedByOwnerAt(events, states, n, id) {
        assert exists k: nat :: k < m && RevokedByOwnerAt(events, states, k, id);
      }
    }
  }

  lemma NextRevoked(events: seq<Event>, states: seq<Hub>, n: nat, id: nat)
    requires IsRun(events, states) && n < |events|
    ensures IsRevoked(states[n + 1].rows, id) <==> IsRevoked(states[n].rows, id) || RevokedByOwnerAt(events, states, n, id)
  {
    assert Step(states[n], events[n], states[n + 1]);
    if IsRevoked(states[n].rows, id) {
      RevokedStays(events, states, n, id);
    } else {
      RevokeStep(states[n], events[n], states[n + 1], id);
    }
  }

  /** The time kept is that of the owner's first call. */
  lemma {:induction false} FirstRevocationCounts(events: seq<Event>, states: seq<Hub>, k: nat, m: nat, id: nat)
    requires IsRun(events, states) && k < m <= |events| && RevokedByOwnerAt(events, states, k, id)
    requires forall j: nat :: j < k ==> !RevokedByOwnerAt(events, states, j, id)
    ensures id in states[m].rows && states[m].rows[id].revokedAt == Some(events[k].now)
    decreases m
  {
    if m == k + 1 {
      RevokedExactly(events, states, k, id);
      assert Step(states[k], events[k], states[k + 1]);
      RevokeStep(states[k], events[k], states[k + 1], id);
    } else {
      FirstRevocationCounts(events, states, k, m - 1, id);
      RevokedStays(events, states, m - 1, id);
    }
  }
}
