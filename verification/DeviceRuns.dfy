/**
  * What pairing guarantees over every run of the registry: music-hub/src/devices.rs. A
  * registration looks for a live row in one statement and stores in another; anything may
  * happen in between.
  */
module DeviceRuns {
  import opened Wrappers
  import opened Devices

  /** A registration between its lookup and its store. */
  datatype Pairing = Pairing(name: string, token: string, device: string, now: int, found: Option<nat>)

  datatype Hub = Hub(rows: Registry, calls: map<nat, Pairing>)

  datatype Event =
    | Sweep(now: int)
    | LookUp(call: nat, name: string, token: string, device: string, now: int, found: Option<nat>)
    | StoreOf(call: nat, now: int, made: Option<nat>)
    | BindTo(id: nat, user: int, now: int, answer: BindAnswer)
    | RevokeFor(id: nat, user: int, now: int, known: bool)
    | Touch(id: nat, now: int)

  ghost predicate Stores(r: Registry, c: Pairing, r': Registry, made: Option<nat>) {
    StoresPending(r, c.name, c.token, c.device, c.now, c.found, r', made)
  }

  ghost predicate Step(h: Hub, e: Event, h': Hub) {
    match e
    case Sweep(now) => h' == Hub(Swept(h.rows, now), h.calls)
    case LookUp(call, name, token, device, now, found) =>
      && call !in h.calls && Finds(h.rows, name, now, found)
      && h' == Hub(h.rows, h.calls[call := Pairing(name, token, device, now, found)])
    case StoreOf(call, _, made) =>
      && call in h.calls && Stores(h.rows, h.calls[call], h'.rows, made) && h'.calls == h.calls - {call}
    case BindTo(id, user, now, answer) => (h'.rows, answer) == Bind(h.rows, id, user, now) && h'.calls == h.calls
    case RevokeFor(id, user, now, known) => (h'.rows, known) == Revoke(h.rows, id, user, now) && h'.calls == h.calls
    case Touch(id, now) =>
      h' == Hub(if id in h.rows then h.rows[id := h.rows[id].(lastSeenAt := Some(now))] else h.rows, h.calls)
  }

  const EMPTY: Hub := Hub(map[], map[])

  /** Statements one after another from an empty registry, on a clock that never goes back. */
  ghost predicate IsRun(events: seq<Event>, states: seq<Hub>) {
    && |states| == |events| + 1
    && states[0] == EMPTY
    && (forall i :: 0 <= i < |events| ==> Step(states[i], events[i], states[i + 1]))
    && (forall i, j :: 0 <= i < j < |events| ==> events[i].now <= events[j].now)
  }

  // ---------------------------------------------------------------- what every statement keeps

  ghost predicate UniqueTokens(r: Registry) {
    forall a, b :: a in r && b in r && r[a].token == r[b].token ==> a == b
  }

  /** Only owned rows are revoked, and every owned row is paired. */
  predicate Owned(d: Device) {
    (d.revokedAt.Some? ==> d.user.Some?) && (d.user.Some? ==> d.pairedAt.Some?)
  }

  ghost predicate Base(r: Registry) {
    UniqueTokens(r) && forall id :: id in r ==> Owned(r[id])
  }

  lemma StepKeepsBase(h: Hub, e: Event, h': Hub)
    requires Base(h.rows) && Step(h, e, h')
    ensures Base(h'.rows)
  {
    if e.StoreOf? {
      StoreKeepsBase(h.rows, h.calls[e.call], h'.rows, e.made);
    } else if e.BindTo? {
      BindKeepsBase(h.rows, e.id, e.user, e.now);
    }
  }

  lemma StoreKeepsBase(r: Registry, c: Pairing, r': Registry, made: Option<nat>)
    requires Base(r) && Stores(r, c, r', made)
    ensures Base(r')
  {
  }

  lemma BindKeepsBase(r: Registry, id: nat, user: int, now: int)
    requires Base(r)
    ensures Base(Bind(r, id, user, now).0)
  {
  }

  lemma {:induction false} RunKeepsBase(events: seq<Event>, states: seq<Hub>, k: nat)
    requires IsRun(events, states) && k <= |events|
    ensures Base(states[k].rows)
    decreases k
  {
    if k > 0 {
      RunKeepsBase(events, states, k - 1);
      StepKeepsBase(states[k - 1], events[k - 1], states[k]);
    }
  }

  // ---------------------------------------------------------------- a bound row

  /** What a bound row keeps: owner, token, pairing, and its first revocation. */
  ghost predicate Continues(d: Device, d': Device) {
    && d'.user == d.user && d'.token == d.token && d'.name == d.name && d'.pairedAt == d.pairedAt
    && (d.revokedAt.Some? ==> d'.revokedAt == d.revokedAt)
  }

  /** A registration found the row before it was bound, and now writes its pairing hash over the token. */
  ghost predicate Overwrites(h: Hub, e: Event, id: nat) {
    && e.StoreOf? && e.call in h.calls && id in h.rows
    && h.calls[e.call].found == Some(id)
    && !Taken(h.rows, h.calls[e.call].token, Some(id))
    && h.calls[e.call].token != h.rows[id].token
  }

  /**
    * A bound row keeps its owner and the time of its revocation over every statement, and its
    * token exactly if no late registration overwrites it.
    */
  lemma BoundKeepsTokenExactly(h: Hub, e: Event, h': Hub, id: nat)
    requires Step(h, e, h') && id in h.rows && h.rows[id].user.Some?
    ensures id in h'.rows && h'.rows[id].user == h.rows[id].user
    ensures h.rows[id].revokedAt.Some? ==> h'.rows[id].revokedAt == h.rows[id].revokedAt
    ensures !Overwrites(h, e, id) ==> h'.rows[id].token == h.rows[id].token
    ensures Continues(h.rows[id], h'.rows[id]) <==> !Overwrites(h, e, id)
    ensures e.BindTo? && e.id == id ==> e.answer == No
  {
    if e.StoreOf? {
      StoreOnBound(h.rows, h.calls[e.call], h'.rows, e.made, id);
    }
  }

  lemma StoreOnBound(r: Registry, c: Pairing, r': Registry, made: Option<nat>, id: nat)
    requires Stores(r, c, r', made) && id in r && r[id].user.Some?
    ensures id in r' && r'[id].user == r[id].user && r'[id].revokedAt == r[id].revokedAt
    ensures Continues(r[id], r'[id]) <==> !(c.found == Some(id) && !Taken(r, c.token, Some(id)) && c.token != r[id].token)
  {
  }

  /** No statement of the run overwrites a bound row. */
  ghost predicate NothingOverwritten(events: seq<Event>, states: seq<Hub>)
    requires |states| == |events| + 1
  {
    forall k, id: nat :: 0 <= k < |events| && id in states[k].rows && states[k].rows[id].user.Some? ==>
      !Overwrites(states[k], events[k], id)
  }

  ghost predicate BoundRowsContinue(events: seq<Event>, states: seq<Hub>)
    requires |states| == |events| + 1
  {
    forall k: nat, m: nat, id: nat :: k <= m <= |events| && id in states[k].rows && states[k].rows[id].user.Some? ==>
      id in states[m].rows && Continues(states[k].rows[id], states[m].rows[id])
  }

  /** Row `id`, if bound at position `k`, continues in the next. */
  ghost predicate ContinuesNext(states: seq<Hub>, k: nat, id: nat)
    requires k + 1 < |states|
  {
    id in states[k].rows && states[k].rows[id].user.Some? ==>
      id in states[k + 1].rows && Continues(states[k].rows[id], states[k + 1].rows[id])
  }

  lemma StatementContinues(events: seq<Event>, states: seq<Hub>, k: nat, id: nat)
    requires IsRun(events, states) && NothingOverwritten(events, states) && k < |events|
    ensures ContinuesNext(states, k, id)
  {
    if id in states[k].rows && states[k].rows[id].user.Some? {
      assert Step(states[k], events[k], states[k + 1]);
      BoundKeepsTokenExactly(states[k], events[k], states[k + 1], id);
    }
  }

  lemma {:induction false} RowContinues(states: seq<Hub>, k: nat, m: nat, id: nat)
    requires k <= m < |states| && forall n: nat :: k <= n < m ==> ContinuesNext(states, n, id)
    requires id in states[k].rows && states[k].rows[id].user.Some?
    ensures id in states[m].rows && Continues(states[k].rows[id], states[m].rows[id])
    decreases m - k
  {
    if k < m {
      RowContinues(states, k, m - 1, id);
      assert ContinuesNext(states, m - 1, id);
    }
  }

  /** Over every run: bound rows keep owner and token for good exactly if no late registration overwrites one. */
  lemma BoundForeverExactly(events: seq<Event>, states: seq<Hub>)
    requires IsRun(events, states)
    ensures BoundRowsContinue(events, states) <==> NothingOverwritten(events, states)
  {
    if NothingOverwritten(events, states) {
      forall k: nat, m: nat, id: nat | k <= m <= |events| && id in states[k].rows && states[k].rows[id].user.Some?
        ensures id in states[m].rows && Continues(states[k].rows[id], states[m].rows[id])
      {
        forall n: nat | k <= n < m ensures ContinuesNext(states, n, id) {
          StatementContinues(events, states, n, id);
        }
        RowContinues(states, k, m, id);
      }
    }
    if BoundRowsContinue(events, states) {
      forall k, id: nat | 0 <= k < |events| && id in states[k].rows && states[k].rows[id].user.Some?
        ensures !Overwrites(states[k], events[k], id)
      {
        assert Step(states[k], events[k], states[k + 1]);
        BoundKeepsTokenExactly(states[k], events[k], states[k + 1], id);
      }
    }
  }

  lemma {:induction false} OwnerStays(events: seq<Event>, states: seq<Hub>, k: nat, m: nat, id: nat)
    requires IsRun(events, states) && k <= m <= |events|
    requires id in states[k].rows && states[k].rows[id].user.Some?
    ensures id in states[m].rows && states[m].rows[id].user == states[k].rows[id].user
    ensures states[k].rows[id].revokedAt.Some? ==> states[m].rows[id].revokedAt == states[k].rows[id].revokedAt
    decreases m - k
  {
    if k < m {
      OwnerStays(events, states, k, m - 1, id);
      assert Step(states[m - 1], events[m - 1], states[m]);
      BoundKeepsTokenExactly(states[m - 1], events[m - 1], states[m], id);
    }
  }

  /** Whatever overlaps, a row binds once: after the call that bound it every other attempt answers no. */
  lemma BindsOnce(events: seq<Event>, states: seq<Hub>, i: nat, j: nat)
    requires IsRun(events, states) && i < j < |events|
    requires events[i].BindTo? && events[i].answer == Yes
    requires events[j].BindTo? && events[j].id == events[i].id
    ensures events[j].answer == No
  {
    assert Step(states[i], events[i], states[i + 1]);
    OwnerStays(events, states, i + 1, j, events[i].id);
    BoundKeepsTokenExactly(states[j], events[j], states[j + 1], events[j].id);
  }

  ghost predicate LetsIn(r: Registry, token: string) {
    exists id :: id in r && r[id].token == token && IsBound(r[id])
  }

  /** Whatever overlaps: a revoked row keeps the time of its revocation, and is never let in again. */
  lemma RevokedForever(events: seq<Event>, states: seq<Hub>, k: nat, m: nat, id: nat)
    requires IsRun(events, states) && k <= m <= |events|
    requires id in states[k].rows && states[k].rows[id].revokedAt.Some?
    ensures id in states[m].rows && states[m].rows[id].revokedAt == states[k].rows[id].revokedAt
    ensures !IsBound(states[m].rows[id])
  {
    RunKeepsBase(events, states, k);
    assert Owned(states[k].rows[id]);
    OwnerStays(events, states, k, m, id);
  }

  /** Nothing overwrites row `id` between two points of the run. */
  ghost predicate NotOverwritten(events: seq<Event>, states: seq<Hub>, k: nat, m: nat, id: nat)
    requires |states| == |events| + 1 && m <= |events|
  {
    forall n :: k <= n < m && id in states[n].rows ==> !Overwrites(states[n], events[n], id)
  }

  lemma NextTokenStays(events: seq<Event>, states: seq<Hub>, n: nat, id: nat)
    requires IsRun(events, states) && n < |events| && id in states[n].rows && states[n].rows[id].user.Some?
    requires !Overwrites(states[n], events[n], id)
    ensures id in states[n + 1].rows && states[n + 1].rows[id].token == states[n].rows[id].token
  {
    BoundKeepsTokenExactly(states[n], events[n], states[n + 1], id);
  }

  lemma {:induction false} TokenStays(events: seq<Event>, states: seq<Hub>, k: nat, m: nat, id: nat)
    requires IsRun(events, states) && k <= m <= |events| && NotOverwritten(events, states, k, m, id)
    requires id in states[k].rows && states[k].rows[id].user.Some?
    ensures id in states[m].rows && states[m].rows[id].token == states[k].rows[id].token
    decreases m - k
  {
    if k < m {
      TokenStays(events, states, k, m - 1, id);
      OwnerStays(events, states, k, m - 1, id);
      NextTokenStays(events, states, m - 1, id);
    }
  }

  /** As long as no late registration overwrites that very row, its token lets nobody in either. */
  lemma RevokedTokenStaysOut(events: seq<Event>, states: seq<Hub>, k: nat, m: nat, id: nat)
    requires IsRun(events, states) && k <= m <= |events| && NotOverwritten(events, states, k, m, id)
    requires id in states[k].rows && states[k].rows[id].revokedAt.Some?
    ensures !LetsIn(states[m].rows, states[k].rows[id].token)
  {
    RevokedForever(events, states, k, m, id);
    RunKeepsBase(events, states, k);
    assert Owned(states[k].rows[id]);
    TokenStays(events, states, k, m, id);
    RunKeepsBase(events, states, m);
  }

  /** The two statements that let a token in: a bind that rotates to it, or a late store that writes it over a bound row. */
  ghost predicate Admits(h: Hub, e: Event, token: string) {
    match e
    case BindTo(id, _, now, _) =>
      CanBind(h.rows, id, now) && h.rows[id].staged == Some(token) && !Taken(h.rows, token, Some(id))
    case StoreOf(call, _, _) =>
      && call in h.calls && h.calls[call].token == token && h.calls[call].found.Some?
      && var id := h.calls[call].found.value;
         id in h.rows && IsBound(h.rows[id]) && !Taken(h.rows, token, Some(id))
    case _ => false
  }

  lemma StepAdmitsExactly(h: Hub, e: Event, h': Hub, token: string)
    requires Base(h.rows) && Step(h, e, h') && !LetsIn(h.rows, token)
    ensures LetsIn(h'.rows, token) <==> Admits(h, e, token)
  {
    if e.StoreOf? {
      StoreAdmitsExactly(h, e, h', token);
    } else if e.BindTo? {
      BindAdmitsExactly(h, e, h', token);
    } else {
      OthersBindNothing(h, e, h');
    }
  }

  lemma OthersBindNothing(h: Hub, e: Event, h': Hub)
    requires Step(h, e, h') && !e.StoreOf? && !e.BindTo?
    ensures forall id :: id in h'.rows && IsBound(h'.rows[id]) ==>
      id in h.rows && IsBound(h.rows[id]) && h'.rows[id].token == h.rows[id].token
  {
  }

  lemma StoreAdmitsExactly(h: Hub, e: Event, h': Hub, token: string)
    requires Step(h, e, h') && e.StoreOf? && !LetsIn(h.rows, token)
    ensures LetsIn(h'.rows, token) <==> Admits(h, e, token)
  {
    if Admits(h, e, token) {
      var id := h.calls[e.call].found.value;
      assert id in h'.rows && h'.rows[id].token == token && IsBound(h'.rows[id]);
    }
    if LetsIn(h'.rows, token) {
      var id :| id in h'.rows && h'.rows[id].token == token && IsBound(h'.rows[id]);
      assert !(id in h.rows && h.rows[id].token == token && IsBound(h.rows[id]));
    }
  }

  lemma BindAdmitsExactly(h: Hub, e: Event, h': Hub, token: string)
    requires Base(h.rows) && Step(h, e, h') && e.BindTo? && !LetsIn(h.rows, token)
    ensures LetsIn(h'.rows, token) <==> Admits(h, e, token)
  {
    if Admits(h, e, token) {
      assert h'.rows == h.rows[e.id := BoundRow(h.rows[e.id], e.user, e.now)];
      assert e.id in h'.rows && h'.rows[e.id].token == token && IsBound(h'.rows[e.id]);
    }
    if LetsIn(h'.rows, token) {
      var id :| id in h'.rows && h'.rows[id].token == token && IsBound(h'.rows[id]);
      assert !(id in h.rows && h.rows[id].token == token && IsBound(h.rows[id]));
    }
  }

  ghost predicate AdmittedAt(events: seq<Event>, states: seq<Hub>, k: nat, token: string)
    requires |states| == |events| + 1 && k < |events|
  {
    Admits(states[k], events[k], token)
  }

  lemma NextAdmits(events: seq<Event>, states: seq<Hub>, k: nat, token: string)
    requires IsRun(events, states) && k < |events| && !LetsIn(states[k].rows, token)
    ensures LetsIn(states[k + 1].rows, token) <==> AdmittedAt(events, states, k, token)
  {
    RunKeepsBase(events, states, k);
    StepAdmitsExactly(states[k], events[k], states[k + 1], token);
  }

  /** Over every run: a token that lets nobody in stays out exactly until it is admitted anew. */
  lemma OutUntilAdmittedExactly(events: seq<Event>, states: seq<Hub>, k: nat, m: nat, token: string)
    requires IsRun(events, states) && k <= m <= |events| && !LetsIn(states[k].rows, token)
    ensures (forall n: nat :: k <= n <= m ==> !LetsIn(states[n].rows, token))
       <==> (forall n: nat :: k <= n < m ==> !AdmittedAt(events, states, n, token))
  {
    if forall n: nat :: k <= n < m ==> !AdmittedAt(events, states, n, token) {
      forall n: nat | k <= n <= m ensures !LetsIn(states[n].rows, token) {
        StaysOut(events, states, k, n, token);
      }
    }
    if forall n: nat :: k <= n <= m ==> !LetsIn(states[n].rows, token) {
      forall n: nat | k <= n < m ensures !AdmittedAt(events, states, n, token) {
        assert !LetsIn(states[n + 1].rows, token);
        NextAdmits(events, states, n, token);
      }
    }
  }

  lemma {:induction false} StaysOut(events: seq<Event>, states: seq<Hub>, k: nat, m: nat, token: string)
    requires IsRun(events, states) && k <= m <= |events| && !LetsIn(states[k].rows, token)
    requires forall n: nat :: k <= n < m ==> !AdmittedAt(events, states, n, token)
    ensures !LetsIn(states[m].rows, token)
    decreases m - k
  {
    if k < m {
      StaysOut(events, states, k, m - 1, token);
      NextAdmits(events, states, m - 1, token);
    }
  }

  // ---------------------------------------------------------------- registrations in time

  ghost predicate Shaped(d: Device) {
    && (d.user.None? ==> d.revokedAt.None? && d.staged.Some? && d.expiresAt.Some? && d.pairedAt.None?)
    && (d.user.Some? ==> d.staged.None? && d.expiresAt.None? && d.pairedAt.Some?)
  }

  ghost predicate OneLivePerName(r: Registry, now: int) {
    forall a, b :: a in r && b in r && IsLive(r[a], now) && IsLive(r[b], now) && r[a].name == r[b].name ==> a == b
  }

  ghost predicate Inv(r: Registry, now: int) {
    Base(r) && (forall id :: id in r ==> Shaped(r[id])) && OneLivePerName(r, now)
  }

  /** When the registration stores, the answer of its lookup is still right. */
  ghost predicate InTime(h: Hub, e: Event) {
    e.StoreOf? && e.call in h.calls ==> Finds(h.rows, h.calls[e.call].name, e.now, h.calls[e.call].found)
  }

  ghost predicate Punctual(events: seq<Event>, states: seq<Hub>)
    requires |states| == |events| + 1
  {
    forall i :: 0 <= i < |events| ==> InTime(states[i], events[i])
  }

  lemma StoreKeepsInv(r: Registry, c: Pairing, now: int, r': Registry, made: Option<nat>)
    requires Inv(r, now) && Finds(r, c.name, now, c.found) && Stores(r, c, r', made)
    ensures Inv(r', now)
  {
    StoreKeepsBase(r, c, r', made);
    if made.Some? {
      forall a, b | a in r' && b in r' && IsLive(r'[a], now) && IsLive(r'[b], now) && r'[a].name == r'[b].name
        ensures a == b
      {
        assert a != made.value && c.found.None? ==> !(r'[a].name == c.name && IsLiveFor(r, c.name, now, a));
        assert b != made.value && c.found.None? ==> !(r'[b].name == c.name && IsLiveFor(r, c.name, now, b));
      }
    }
  }

  lemma BindKeepsInv(r: Registry, id: nat, user: int, now: int)
    requires Inv(r, now)
    ensures Inv(Bind(r, id, user, now).0, now)
  {
    BindKeepsBase(r, id, user, now);
  }

  lemma LaterKeepsInv(r: Registry, before: int, now: int)
    requires Inv(r, before) && before <= now
    ensures Inv(r, now) && Inv(Swept(r, now), now)
  {
  }

  lemma StepKeepsInv(h: Hub, e: Event, h': Hub, before: int)
    requires Inv(h.rows, before) && before <= e.now && Step(h, e, h') && InTime(h, e)
    ensures Inv(h'.rows, e.now)
  {
    LaterKeepsInv(h.rows, before, e.now);
    if e.StoreOf? {
      StoreKeepsInv(h.rows, h.calls[e.call], e.now, h'.rows, e.made);
    } else if e.BindTo? {
      BindKeepsInv(h.rows, e.id, e.user, e.now);
    } else {
      StepKeepsBase(h, e, h');
    }
  }

  /** The time of the last statement before position `k`. */
  function Now(events: seq<Event>, k: nat): int
    requires k <= |events|
  {
    if events == [] then 0 else if k == 0 then events[0].now else events[k - 1].now
  }

  lemma {:induction false} RunKeepsInv(events: seq<Event>, states: seq<Hub>, k: nat)
    requires IsRun(events, states) && Punctual(events, states) && k <= |events|
    ensures Inv(states[k].rows, Now(events, k))
    decreases k
  {
    if k > 0 {
      RunKeepsInv(events, states, k - 1);
      assert InTime(states[k - 1], events[k - 1]);
      TimeMovesOn(events, states, k - 1);
      StepKeepsInv(states[k - 1], events[k - 1], states[k], Now(events, k - 1));
    }
  }

  lemma TimeMovesOn(events: seq<Event>, states: seq<Hub>, k: nat)
    requires IsRun(events, states) && k < |events|
    ensures Now(events, k) <= events[k].now
  {
  }

  /** Where registrations store in time, a name never has two live pending rows, then or later. */
  lemma OneLivePendingRow(events: seq<Event>, states: seq<Hub>, k: nat, now: int)
    requires IsRun(events, states) && Punctual(events, states) && k <= |events| && now >= Now(events, k)
    ensures OneLivePerName(states[k].rows, now)
  {
    RunKeepsInv(events, states, k);
  }

  /** A registration in time overwrites no bound row. */
  lemma PunctualOverwritesNothing(events: seq<Event>, states: seq<Hub>)
    requires IsRun(events, states) && Punctual(events, states)
    ensures NothingOverwritten(events, states)
  {
    forall k, id: nat | 0 <= k < |events| && id in states[k].rows && states[k].rows[id].user.Some?
      ensures !Overwrites(states[k], events[k], id)
    {
      assert InTime(states[k], events[k]);
    }
  }

  // ---------------------------------------------------------------- which tokens let a device in

  /** The device hash of the last registration that made or renewed row `id`. */
  function LastStaged(events: seq<Event>, states: seq<Hub>, k: nat, id: nat): Option<string>
    requires |states| == |events| + 1 && k <= |events|
  {
    if k == 0 then None
    else
      var e := events[k - 1];
      if e.StoreOf? && e.made == Some(id) && e.call in states[k - 1].calls then Some(states[k - 1].calls[e.call].device)
      else LastStaged(events, states, k - 1, id)
  }

  /** The device hash a row holds: staged while pending, its token once bound. */
  function DeviceHash(d: Device): Option<string> {
    if d.user.Some? then Some(d.token) else d.staged
  }

  /** A store reaches a row that is bound by now, and writes a pairing hash that is not the device's. */
  ghost predicate LateOn(h: Hub, e: Event, id: nat) {
    && e.StoreOf? && e.call in h.calls && e.made == Some(id)
    && id in h.rows && h.rows[id].user.Some?
    && h.calls[e.call].token != h.calls[e.call].device
  }

  ghost predicate LateAt(events: seq<Event>, states: seq<Hub>, k: nat)
    requires |states| == |events| + 1 && k < |events|
  {
    exists id: nat :: LateOn(states[k], events[k], id)
  }

  ghost predicate NothingLate(events: seq<Event>, states: seq<Hub>)
    requires |states| == |events| + 1
  {
    forall k: nat :: k < |events| ==> !LateAt(events, states, k)
  }

  /** What one statement makes of the device hash of a row. */
  lemma StepStages(h: Hub, e: Event, h': Hub, id: nat)
    requires Step(h, e, h') && id in h'.rows
    ensures e.StoreOf? && e.made == Some(id) ==>
      (DeviceHash(h'.rows[id]) == Some(h.calls[e.call].device) <==> !LateOn(h, e, id))
    ensures !(e.StoreOf? && e.made == Some(id)) ==> id in h.rows && DeviceHash(h'.rows[id]) == DeviceHash(h.rows[id])
  {
  }

  /** At position `k` row `id`, if there, holds the device hash staged last for it. */
  ghost predicate HoldsLast(events: seq<Event>, states: seq<Hub>, k: nat, id: nat)
    requires |states| == |events| + 1 && k <= |events|
  {
    id in states[k].rows ==> LastStaged(events, states, k, id) == DeviceHash(states[k].rows[id])
  }

  ghost predicate HoldsLastStaged(events: seq<Event>, states: seq<Hub>, k: nat)
    requires |states| == |events| + 1 && k <= |events|
  {
    forall id: nat :: HoldsLast(events, states, k, id)
  }

  lemma NextHolds(events: seq<Event>, states: seq<Hub>, k: nat, id: nat)
    requires IsRun(events, states) && k < |events| && HoldsLast(events, states, k, id)
    ensures HoldsLast(events, states, k + 1, id) <==> !LateOn(states[k], events[k], id)
  {
    assert Step(states[k], events[k], states[k + 1]);
    if id in states[k + 1].rows {
      StepStages(states[k], events[k], states[k + 1], id);
    } else if LateOn(states[k], events[k], id) {
      BoundKeepsTokenExactly(states[k], events[k], states[k + 1], id);
    }
  }

  lemma NextHoldsLastStaged(events: seq<Event>, states: seq<Hub>, k: nat)
    requires IsRun(events, states) && k < |events| && HoldsLastStaged(events, states, k)
    ensures HoldsLastStaged(events, states, k + 1) <==> !LateAt(events, states, k)
  {
    var m := k + 1;
    forall id: nat ensures HoldsLast(events, states, m, id) <==> !LateOn(states[k], events[k], id) {
      NextHolds(events, states, k, id);
    }
    if id: nat :| LateOn(states[k], events[k], id) {
      assert !HoldsLast(events, states, m, id);
    }
  }

  lemma {:induction false} HoldsUntil(events: seq<Event>, states: seq<Hub>, k: nat)
    requires IsRun(events, states) && NothingLate(events, states) && k <= |events|
    ensures HoldsLastStaged(events, states, k)
    decreases k
  {
    if k > 0 {
      HoldsUntil(events, states, k - 1);
      NextHoldsLastStaged(events, states, k - 1);
    }
  }

  /** Over every run: each row always holds the device hash staged last for it exactly if no store reaches a bound row. */
  lemma HashIsLastStagedExactly(events: seq<Event>, states: seq<Hub>)
    requires IsRun(events, states)
    ensures (forall k: nat :: k <= |events| ==> HoldsLastStaged(events, states, k)) <==> NothingLate(events, states)
  {
    if NothingLate(events, states) {
      forall k: nat | k <= |events| ensures HoldsLastStaged(events, states, k) {
        HoldsUntil(events, states, k);
      }
    }
    if forall k: nat :: k <= |events| ==> HoldsLastStaged(events, states, k) {
      forall k: nat | k < |events| ensures !LateAt(events, states, k) {
        assert HoldsLastStaged(events, states, k) && HoldsLastStaged(events, states, k + 1);
        NextHoldsLastStaged(events, states, k);
      }
    }
  }

  /** Then a token hash lets in exactly if it is the last one staged for some bound, unrevoked row. */
  lemma LetsInExactly(events: seq<Event>, states: seq<Hub>, k: nat, token: string)
    requires IsRun(events, states) && NothingLate(events, states) && k <= |events|
    ensures LetsIn(states[k].rows, token)
       <==> exists id :: id in states[k].rows && IsBound(states[k].rows[id])
                         && LastStaged(events, states, k, id) == Some(token)
  {
    HoldsUntil(events, states, k);
    if LetsIn(states[k].rows, token) {
      var id :| id in states[k].rows && states[k].rows[id].token == token && IsBound(states[k].rows[id]);
      assert HoldsLast(events, states, k, id);
    }
    if id :| id in states[k].rows && IsBound(states[k].rows[id]) && LastStaged(events, states, k, id) == Some(token) {
      assert HoldsLast(events, states, k, id) && states[k].rows[id].token == token;
    }
  }

  /** A registration in time is never late. */
  lemma PunctualIsNeverLate(events: seq<Event>, states: seq<Hub>)
    requires IsRun(events, states) && Punctual(events, states)
    ensures NothingLate(events, states)
  {
    forall k: nat | k < |events| ensures !LateAt(events, states, k) {
      assert InTime(states[k], events[k]) && Step(states[k], events[k], states[k + 1]);
    }
  }

  // ---------------------------------------------------------------- registrations out of time

  /**
    * A registration about to store writes a live row beside another live row of that name: it
    * comes in good time itself, the index lets it through, and the row it found, if any, is
    * still pending.
    */
  ghost predicate Doubles(r: Registry, c: Pairing, now: int) {
    && now < c.now + PENDING_TTL_SECS && !Taken(r, c.token, c.found)
    && match c.found
       case Some(id) => id in r && IsPending(r[id]) && exists other :: other != id && IsLiveFor(r, r[id].name, now, other)
       case None => exists other :: IsLiveFor(r, c.name, now, other)
  }

  /** A store leaves two live rows of one name exactly then. */
  lemma StoreDoublesExactly(r: Registry, c: Pairing, now: int, r': Registry, made: Option<nat>)
    requires OneLivePerName(r, now) && Stores(r, c, r', made)
    ensures !OneLivePerName(r', now) <==> Doubles(r, c, now)
  {
    if Doubles(r, c, now) {
      DoublingStore(r, c, now, r', made);
    } else if r' != r {
      SingleStore(r, c, now, r', made);
    }
  }

  lemma DoublingStore(r: Registry, c: Pairing, now: int, r': Registry, made: Option<nat>)
    requires Doubles(r, c, now) && Stores(r, c, r', made)
    ensures !OneLivePerName(r', now)
  {
    var written := made.value;
    var name := if c.found.Some? then r[written].name else c.name;
    var other :| other != written && IsLiveFor(r, name, now, other);
    assert IsLive(r'[written], now) && r'[written].name == name && r'[other] == r[other];
  }

  lemma SingleStore(r: Registry, c: Pairing, now: int, r': Registry, made: Option<nat>)
    requires OneLivePerName(r, now) && Stores(r, c, r', made) && r' != r && !Doubles(r, c, now)
    ensures OneLivePerName(r', now)
  {
    var written := made.value;
    forall a, b | a in r' && b in r' && IsLive(r'[a], now) && IsLive(r'[b], now) && r'[a].name == r'[b].name
      ensures a == b
    {
      assert a != written ==> IsLiveFor(r, r'[a].name, now, a);
      assert b != written ==> IsLiveFor(r, r'[b].name, now, b);
    }
  }

  /** Statement `k` is such a store. */
  ghost predicate DoublesAt(events: seq<Event>, states: seq<Hub>, k: nat)
    requires |states| == |events| + 1 && k < |events|
  {
    var e := events[k];
    e.StoreOf? && e.call in states[k].calls && Doubles(states[k].rows, states[k].calls[e.call], e.now)
  }

  lemma StatementDoubles(h: Hub, e: Event, h': Hub, before: int)
    requires OneLivePerName(h.rows, before) && before <= e.now && Step(h, e, h')
    ensures !OneLivePerName(h'.rows, e.now) <==> e.StoreOf? && Doubles(h.rows, h.calls[e.call], e.now)
  {
    assert OneLivePerName(h.rows, e.now);
    if e.StoreOf? {
      StoreDoublesExactly(h.rows, h.calls[e.call], e.now, h'.rows, e.made);
    }
  }

  lemma NextDoubles(events: seq<Event>, states: seq<Hub>, k: nat)
    requires IsRun(events, states) && k < |events| && OneLivePerName(states[k].rows, Now(events, k))
    ensures !OneLivePerName(states[k + 1].rows, Now(events, k + 1)) <==> DoublesAt(events, states, k)
  {
    TimeMovesOn(events, states, k);
    assert Step(states[k], events[k], states[k + 1]);
    StatementDoubles(states[k], events[k], states[k + 1], Now(events, k));
  }

  /** Over every run: each name has at most one live row after every statement exactly if no store doubles one. */
  lemma OneLivePendingRowExactly(events: seq<Event>, states: seq<Hub>)
    requires IsRun(events, states)
    ensures (forall k: nat :: k <= |events| ==> OneLivePerName(states[k].rows, Now(events, k)))
       <==> (forall k: nat :: k < |events| ==> !DoublesAt(events, states, k))
  {
    if forall k: nat :: k < |events| ==> !DoublesAt(events, states, k) {
      forall k: nat | k <= |events| ensures OneLivePerName(states[k].rows, Now(events, k)) {
        OneLiveUntil(events, states, k);
      }
    }
    if forall k: nat :: k <= |events| ==> OneLivePerName(states[k].rows, Now(events, k)) {
      forall k: nat | k < |events| ensures !DoublesAt(events, states, k) {
        assert OneLivePerName(states[k + 1].rows, Now(events, k + 1));
        NextDoubles(events, states, k);
      }
    }
  }

  lemma {:induction false} OneLiveUntil(events: seq<Event>, states: seq<Hub>, k: nat)
    requires IsRun(events, states) && k <= |events|
    requires forall n: nat :: n < |events| ==> !DoublesAt(events, states, n)
    ensures OneLivePerName(states[k].rows, Now(events, k))
    decreases k
  {
    if k > 0 {
      OneLiveUntil(events, states, k - 1);
      NextDoubles(events, states, k - 1);
    }
  }

  lemma InsertWithoutLiveRow(r: Registry, c: Pairing, now: int, r': Registry, made: Option<nat>)
    requires OneLivePerName(r, now) && c.found.None? && Finds(r, c.name, now, None) && Stores(r, c, r', made)
    ensures OneLivePerName(r', now)
  {
    StoreDoublesExactly(r, c, now, r', made);
  }

  /** Two registrations of one name that both look before either stores make two live rows, unless the index stops one. */
  lemma OverlappingCallsMakeTwoExactly(r: Registry, now: int, c1: Pairing, c2: Pairing,
                                       r1: Registry, r2: Registry, a: Option<nat>, b: Option<nat>)
    requires c1.name == c2.name && c1.now == c2.now == now && c1.found.None? && c2.found.None?
    requires OneLivePerName(r, now) && Finds(r, c1.name, now, None)
    requires Stores(r, c1, r1, a) && Stores(r1, c2, r2, b)
    ensures !OneLivePerName(r2, now)
       <==> c1.token != c2.token && !Taken(r, c1.token, None) && !Taken(r, c2.token, None)
  {
    InsertWithoutLiveRow(r, c1, now, r1, a);
    if a.None? {
      InsertWithoutLiveRow(r, c2, now, r2, b);
    } else {
      StoreDoublesExactly(r1, c2, now, r2, b);
      SecondIsTaken(r, c1, r1, a.value, c2.token);
      assert IsLiveFor(r1, c1.name, now, a.value);
      assert b.Some? ==> b.value != a.value && r2[b.value].name == c1.name;
    }
  }

  lemma SecondIsTaken(r: Registry, c: Pairing, r1: Registry, a: nat, q: string)
    requires c.found.None? && Stores(r, c, r1, Some(a))
    ensures Taken(r1, q, None) <==> Taken(r, q, None) || c.token == q
  {
    assert r1[a].token == c.token;
    if Taken(r, q, None) {
      var id :| id in r && r[id].token == q;
      assert id in r1 && r1[id].token == q;
    }
  }

  /** Such a run from the empty registry: look, look, store, store. */
  lemma TwoLiveRowsAreReached(name: string, p: string, q: string, d: string, now: int)
      returns (events: seq<Event>, states: seq<Hub>)
    requires p != q
    ensures IsRun(events, states) && |events| == 4 && !OneLivePerName(states[4].rows, now)
  {
    var c1, c2 := Pairing(name, p, d, now, None), Pairing(name, q, d, now, None);
    var one, two := FreshDevice(name, p, d, now), FreshDevice(name, q, d, now);
    events := [LookUp(0, name, p, d, now, None), LookUp(1, name, q, d, now, None),
               StoreOf(0, now, Some(1)), StoreOf(1, now, Some(2))];
    states := [EMPTY, Hub(map[], map[0 := c1]), Hub(map[], map[0 := c1, 1 := c2]),
               Hub(map[1 := one], map[1 := c2]), Hub(map[1 := one, 2 := two], map[])];
    assert Step(states[2], events[2], states[3]);
    assert Step(states[3], events[3], states[4]);
    assert 1 in states[4].rows && 2 in states[4].rows;
  }

  /**
    * And a run in which a bound device loses its token to a pairing hash: a second registration
    * finds its row pending, the row is bound, and then the registration stores.
    */
  lemma OverwrittenTokenIsReached(name: string, p: string, d: string, p': string, d': string, user: int, now: int)
      returns (events: seq<Event>, states: seq<Hub>)
    requires p' != d
    ensures IsRun(events, states) && |events| == 5
    ensures LetsIn(states[4].rows, d) && !LetsIn(states[4].rows, p')
    ensures LetsIn(states[5].rows, p') && !LetsIn(states[5].rows, d)
  {
    var c, c' := Pairing(name, p, d, now, None), Pairing(name, p', d', now, Some(1));
    var pending := FreshDevice(name, p, d, now);
    var bound := BoundRow(pending, user, now);
    var renewed := Renewed(bound, p', d', now);
    events := [LookUp(0, name, p, d, now, None), StoreOf(0, now, Some(1)), LookUp(1, name, p', d', now, Some(1)),
               BindTo(1, user, now, Yes), StoreOf(1, now, Some(1))];
    states := [EMPTY, Hub(map[], map[0 := c]), Hub(map[1 := pending], map[]), Hub(map[1 := pending], map[1 := c']),
               Hub(map[1 := bound], map[1 := c']), Hub(map[1 := renewed], map[])];
    FirstPairing(c, pending, c', bound, user, now);
    LateStore(bound, c', renewed);
    assert IsBound(states[4].rows[1]) && IsBound(states[5].rows[1]);
  }

  lemma FirstPairing(c: Pairing, pending: Device, c': Pairing, bound: Device, user: int, now: int)
    requires c.found.None? && c.now == now && pending == FreshDevice(c.name, c.token, c.device, now)
    requires c'.name == c.name && c'.found == Some(1) && bound == BoundRow(pending, user, now)
    ensures Step(EMPTY, LookUp(0, c.name, c.token, c.device, now, None), Hub(map[], map[0 := c]))
    ensures Step(Hub(map[], map[0 := c]), StoreOf(0, now, Some(1)), Hub(map[1 := pending], map[]))
    ensures c'.now == now ==> Step(Hub(map[1 := pending], map[]), LookUp(1, c'.name, c'.token, c'.device, now, Some(1)),
                                   Hub(map[1 := pending], map[1 := c']))
    ensures Step(Hub(map[1 := pending], map[1 := c']), BindTo(1, user, now, Yes), Hub(map[1 := bound], map[1 := c']))
  {
    assert map[0 := c] - {0} == map[];
    var r := map[1 := pending];
    assert CanBind(r, 1, now) && !Taken(r, r[1].staged.value, Some(1));
    assert r[1 := bound] == map[1 := bound];
  }

  lemma LateStore(bound: Device, c: Pairing, renewed: Device)
    requires c.found == Some(1) && renewed == Renewed(bound, c.token, c.device, c.now)
    ensures Step(Hub(map[1 := bound], map[1 := c]), StoreOf(1, c.now, Some(1)), Hub(map[1 := renewed], map[]))
  {
    assert map[1 := c] - {1} == map[];
  }

  lemma ThenRun(events: seq<Event>, states: seq<Hub>, e: Event, h: Hub)
    requires IsRun(events, states) && Step(states[|events|], e, h)
    requires forall i :: 0 <= i < |events| ==> events[i].now <= e.now
    ensures IsRun(events + [e], states + [h])
  {
    var states' := states + [h];
    forall i | 0 <= i < |events| + 1 ensures Step(states'[i], (events + [e])[i], states'[i + 1]) {
      if i < |events| {
        assert Step(states[i], events[i], states[i + 1]);
      }
    }
  }

  /** A row that was bound, then revoked, while a registration that had found it is still to store. */
  lemma RevokedBeforeStore(name: string, p: string, d: string, p': string, d': string, user: int, now: int)
      returns (events: seq<Event>, states: seq<Hub>)
    ensures IsRun(events, states) && |events| == 5 && forall i :: 0 <= i < 5 ==> events[i].now == now
    ensures var revoked := BoundRow(FreshDevice(name, p, d, now), user, now).(revokedAt := Some(now));
            states[5] == Hub(map[1 := revoked], map[1 := Pairing(name, p', d', now, Some(1))])
  {
    var c, c' := Pairing(name, p, d, now, None), Pairing(name, p', d', now, Some(1));
    var pending := FreshDevice(name, p, d, now);
    var bound := BoundRow(pending, user, now);
    events := [LookUp(0, name, p, d, now, None), StoreOf(0, now, Some(1)), LookUp(1, name, p', d', now, Some(1)),
               BindTo(1, user, now, Yes)];
    states := [EMPTY, Hub(map[], map[0 := c]), Hub(map[1 := pending], map[]), Hub(map[1 := pending], map[1 := c']),
               Hub(map[1 := bound], map[1 := c'])];
    FirstPairing(c, pending, c', bound, user, now);
    var revoked := Hub(map[1 := bound.(revokedAt := Some(now))], map[1 := c']);
    var r := states[4].rows;
    assert r[1 := bound.(revokedAt := Some(now))] == revoked.rows && Revoke(r, 1, user, now) == (revoked.rows, true);
    assert Step(states[4], RevokeFor(1, user, now, true), revoked);
    ThenRun(events, states, RevokeFor(1, user, now, true), revoked);
    events, states := events + [RevokeFor(1, user, now, true)], states + [revoked];
  }

  /**
    * A run in which a revoked device's token lets in again: the late store frees it in the
    * index, and another row that staged the same hash is bound to it.
    */
  lemma RevokedTokenCanReturn(name: string, p: string, d: string, p': string, d': string, q: string, user: int, now: int)
      returns (events: seq<Event>, states: seq<Hub>, k: nat)
    requires p' != d && p' != q
    ensures IsRun(events, states) && k < |events|
    ensures 1 in states[k].rows && states[k].rows[1].revokedAt.Some? && states[k].rows[1].token == d
    ensures LetsIn(states[|events|].rows, d)
  {
    events, states := RevokedBeforeStore(name, p, d, p', d', user, now);
    k := 5;
    var revoked := states[5].rows[1];
    var renewed := Renewed(revoked, p', d', now);
    var late, freed := StoreOf(1, now, Some(1)), Hub(map[1 := renewed], map[]);
    LateStore(revoked, states[5].calls[1], renewed);
    ThenRun(events, states, late, freed);
    var more, hubs := BoundBeside(freed, renewed, name, q, d, user, now);
    events, states := ThenThree(events + [late], states + [freed], more, hubs, now);
  }

  lemma ThenThree(events: seq<Event>, states: seq<Hub>, more: seq<Event>, hubs: seq<Hub>, now: int)
      returns (events': seq<Event>, states': seq<Hub>)
    requires IsRun(events, states) && |more| == 3 && |hubs| == 3
    requires forall i :: 0 <= i < |events| ==> events[i].now == now
    requires forall i :: 0 <= i < 3 ==> more[i].now == now
    requires Step(states[|events|], more[0], hubs[0]) && Step(hubs[0], more[1], hubs[1]) && Step(hubs[1], more[2], hubs[2])
    ensures IsRun(events', states') && events <= events' && states <= states' && |events'| == |events| + 3
    ensures states'[|events'|] == hubs[2]
  {
    ThenRun(events, states, more[0], hubs[0]);
    var es, ss := events + [more[0]], states + [hubs[0]];
    ThenRun(es, ss, more[1], hubs[1]);
    events', states' := es + [more[1]], ss + [hubs[1]];
    ThenRun(events', states', more[2], hubs[2]);
    events', states' := events' + [more[2]], states' + [hubs[2]];
  }

  /** Beside a row that does not hold `d`, another is registered with `d` staged, and bound. */
  lemma BoundBeside(h: Hub, other: Device, name: string, q: string, d: string, user: int, now: int)
      returns (events: seq<Event>, hubs: seq<Hub>)
    requires h == Hub(map[1 := other], map[]) && other.user.Some? && other.token != d && other.token != q
    ensures |events| == 3 && |hubs| == 3 && forall i :: 0 <= i < 3 ==> events[i].now == now
    ensures Step(h, events[0], hubs[0]) && Step(hubs[0], events[1], hubs[1]) && Step(hubs[1], events[2], hubs[2])
    ensures LetsIn(hubs[2].rows, d)
  {
    var c := Pairing(name, q, d, now, None);
    var pending := FreshDevice(name, q, d, now);
    var bound := BoundRow(pending, user, now);
    events := [LookUp(2, name, q, d, now, None), StoreOf(2, now, Some(2)), BindTo(2, user, now, Yes)];
    hubs := [Hub(h.rows, map[2 := c]), Hub(map[1 := other, 2 := pending], map[]), Hub(map[1 := other, 2 := bound], map[])];
    assert h.calls[2 := c] == map[2 := c] && map[2 := c] - {2} == map[];
    assert IsNextId(h.rows, 2) && h.rows[2 := pending] == map[1 := other, 2 := pending];
    BindsBeside(hubs[1].rows, other, pending, user, now);
    assert 2 in hubs[2].rows && hubs[2].rows[2].token == d && IsBound(hubs[2].rows[2]);
  }

  lemma BindsBeside(r: Registry, other: Device, pending: Device, user: int, now: int)
    requires r == map[1 := other, 2 := pending] && IsLive(pending, now) && pending.staged.Some?
    requires other.token != pending.staged.value
    ensures Bind(r, 2, user, now) == (map[1 := other, 2 := BoundRow(pending, user, now)], Yes)
  {
    assert r[2 := BoundRow(pending, user, now)] == map[1 := other, 2 := BoundRow(pending, user, now)];
  }
}
