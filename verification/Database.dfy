/**
 * The shared database of music-api, statement by statement: the functions of
 * music-api/src/work.rs and music-api/src/db.rs as methods that update the tables.
 * Each is proved to have exactly the effect the ledger and queue functions describe.
 */
module Database {
  import opened Wrappers
  import opened Ledger
  import LI = LedgerInvariant
  import Queue = WorkQueue

  function Elems<T>(s: seq<T>): set<T> {
    set x | x in s
  }

  // ── What one more iteration adds ─────────────────────────────────────────

  lemma InsertOneMore(db: Db, o: OrderId, isrcs: set<Isrc>, i: Isrc, priority: int, now: int)
    ensures var before, after := InsertOrder(db, o, isrcs, priority, now), InsertOrder(db, o, isrcs + {i}, priority, now);
            && after.tracks == (if i in before.tracks then before.tracks else before.tracks[i := NewTrack(i, now)])
            && after.links == before.links + {Link(o, i)}
            && after.orders == before.orders && after.items == before.items
  {
  }

  lemma EnqueueOneMore(items: Queue.Rows, isrcs: set<Isrc>, i: Isrc, priority: int, now: int)
    ensures EnqueueDownloads(items, isrcs + {i}, priority, now)
            == Queue.Enqueue(EnqueueDownloads(items, isrcs, priority, now), DownloadKey(i), priority, now)
  {
    LI.EnqueueDownloadsAt(items, isrcs, priority, now, i);
    var before := set j | j in isrcs :: DownloadKey(j);
    var after := set j | j in isrcs + {i} :: DownloadKey(j);
    assert after == before + {DownloadKey(i)};
  }

  class Database {
    var tracks: map<Isrc, Track>
    var items: Queue.Rows
    var orders: map<OrderId, Order>
    var links: set<Link>

    ghost function Snapshot(): Db
      reads this
    {
      Db(tracks, items, orders, links)
    }

    constructor ()
      ensures Snapshot() == Db(map[], map[], map[], {})
    {
      tracks, items, orders, links := map[], map[], map[], {};
    }

    // ── work.rs ────────────────────────────────────────────────────────────

    method Enqueue(key: Queue.Key, priority: int, now: int)
      modifies this`items
      ensures items == Queue.Enqueue(old(items), key, priority, now)
    {
      if key !in items {
        items := items[key := Queue.WorkItem(priority, Queue.Queued, 0, Queue.MAX_ATTEMPTS, None, now, now)];
      } else {
        var row := items[key];
        var rearm := row.state.Done? || row.state.Failed?;
        items := items[key := row.(
          priority := Max(row.priority, priority),
          state := if rearm then Queue.Queued else row.state,
          attempts := if rearm then 0 else row.attempts,
          notBefore := if rearm then None else row.notBefore,
          updatedAt := now)];
      }
    }

    method EnqueueIfAbsent(key: Queue.Key, priority: int, now: int) returns (inserted: bool)
      modifies this`items
      ensures items == Queue.EnqueueIfAbsent(old(items), key, priority, now)
      ensures inserted == (key !in old(items))
    {
      inserted := key !in items;
      if inserted {
        items := items[key := Queue.WorkItem(priority, Queue.Queued, 0, Queue.MAX_ATTEMPTS, None, now, now)];
      }
    }

    // The highest-ranked of a non-empty set of rows.
    method Best(keys: set<Queue.Key>) returns (best: Queue.Key)
      requires keys != {} && forall k :: k in keys ==> k in items
      ensures best in keys
      ensures forall k :: k in keys ==> !Queue.Outranks(items[k], items[best])
    {
      best :| best in keys;
      var rest := keys - {best};
      while rest != {}
        invariant rest <= keys && best in keys
        invariant forall k :: k in keys - rest ==> !Queue.Outranks(items[k], items[best])
        decreases rest
      {
        var k :| k in rest;
        if Queue.Outranks(items[k], items[best]) {
          best := k;
        }
        rest := rest - {k};
      }
    }

    /** Up to `slots` due rows of one kind, highest priority first, then oldest. */
    method Next(kind: Queue.Kind, slots: int, now: int) returns (batch: seq<Queue.Key>)
      ensures Queue.IsBatch(items, kind, slots, now, batch)
    {
      batch := [];
      var rest := set k | k in items && k.kind == kind && Queue.Due(items[k], now);
      ghost var due := Queue.DueKeys(items, kind, now);
      assert rest == due;
      while |batch| < slots && rest != {}
        invariant |batch| <= Max(slots, 0)
        invariant Queue.RankedSoFar(items, due, rest, batch)
        decreases rest
      {
        var best := Best(rest);
        Queue.RankOneMore(items, due, rest, batch, best);
        batch, rest := batch + [best], rest - {best};
      }
    }

    /** Take a queued row; a second taker finds it no longer queued. */
    method Claim(key: Queue.Key, now: int) returns (claimed: bool)
      modifies this`items
      ensures items == Queue.Claim(old(items), key, now)
      ensures claimed <==> key in old(items) && old(items)[key].state.Queued?
    {
      claimed := key in items && items[key].state.Queued?;
      if claimed {
        var row := items[key];
        items := items[key := row.(state := Queue.Running, attempts := row.attempts + 1, updatedAt := now)];
      }
    }

    method Finish(key: Queue.Key, now: int)
      modifies this`items
      ensures items == Queue.Finish(old(items), key, now)
    {
      if key in items {
        items := items[key := items[key].(state := Queue.Done, notBefore := None, updatedAt := now)];
      }
    }

    method Fail(key: Queue.Key, now: int)
      modifies this`items
      ensures items == Queue.Fail(old(items), key, now)
    {
      if key in items {
        items := items[key := items[key].(state := Queue.Failed, updatedAt := now)];
      }
    }

    method RetryLater(key: Queue.Key, notBefore: int, now: int) returns (retryable: bool)
      modifies this`items
      ensures items == Queue.RetryLater(old(items), key, notBefore, now)
      ensures retryable <==> key in old(items) && old(items)[key].attempts < old(items)[key].maxAttempts
    {
      if key !in items {
        return false;
      }
      var row := items[key];
      if row.attempts >= row.maxAttempts {
        Fail(key, now);
        return false;
      }
      items := items[key := row.(state := Queue.Queued, notBefore := Some(notBefore), updatedAt := now)];
      return true;
    }

    method RetryRef(key: Queue.Key, notBefore: int, now: int)
      modifies this`items
      ensures items == Queue.RetryRef(old(items), key, notBefore, now)
    {
      if key in items {
        var retryable := RetryLater(key, notBefore, now);
      } else {
        Enqueue(key, 0, now);
      }
    }

    method EnsureRunning(key: Queue.Key, now: int)
      modifies this`items
      ensures items == Queue.EnsureRunning(old(items), key, now)
    {
      items := items[key :=
        if key in items
        then items[key].(state := Queue.Running, updatedAt := now)
        else Queue.WorkItem(0, Queue.Running, 0, Queue.MAX_ATTEMPTS, None, now, now)];
    }

    method RecoverStale(now: int, staleSecs: int) returns (recovered: nat)
      modifies this`items
      ensures items == Queue.RecoverStale(old(items), now, staleSecs)
      ensures recovered == |set k | k in old(items) && Queue.Stale(old(items)[k], now, staleSecs)|
    {
      var stale := set k | k in items && items[k].state.Running? && items[k].updatedAt <= now - staleSecs;
      recovered := |stale|;
      assert stale == set k | k in items && Queue.Stale(items[k], now, staleSecs);
      items := map k | k in items ::
        if k in stale then items[k].(state := Queue.Queued, notBefore := None, updatedAt := now) else items[k];
    }

    method FreeSlots(kind: Queue.Kind, maxInflight: int) returns (slots: int)
      ensures slots >= 0
      ensures slots > 0 ==> |Queue.RunningKeys(items, kind)| + slots == maxInflight
      ensures slots == 0 <==> |Queue.RunningKeys(items, kind)| >= maxInflight
    {
      var running := |set k | k in items && k.kind == kind && items[k].state.Running?|;
      slots := Max(maxInflight - running, 0);
    }

    // ── db.rs: order status ────────────────────────────────────────────────

    method JoinedStates(o: OrderId) returns (states: seq<TrackState>)
      ensures ListsStates(tracks, links, o, states)
    {
      states := [];
      ghost var all := Joined(tracks, links, o);
      var rest := set l | l in links && l.order == o && l.isrc in tracks :: l.isrc;
      while rest != {}
        invariant rest <= all
        invariant forall i :: i in all - rest ==> tracks[i].state in states
        invariant forall s :: s in states ==> exists i :: i in all && tracks[i].state == s
        decreases rest
      {
        var i :| i in rest;
        states, rest := states + [tracks[i].state], rest - {i};
      }
    }

    method RefreshOrder(o: OrderId)
      modifies this`orders
      ensures Snapshot() == Ledger.RefreshOrder(old(Snapshot()), o)
    {
      var states := JoinedStates(o);
      StatusOfListing(tracks, links, o, states);
      if o in orders {
        orders := orders[o := orders[o].(status := DeriveOrderStatus(states))];
      }
    }

    method RefreshOrdersForIsrc(i: Isrc)
      modifies this`orders
      ensures Snapshot() == RefreshOrdersFor(old(Snapshot()), i)
    {
      var rest := set l | l in links && l.isrc == i :: l.order;
      while rest != {}
        invariant forall o :: o in rest ==> Link(o, i) in links
        invariant orders.Keys == old(orders).Keys
        invariant forall o :: o in orders ==>
          orders[o] == (if Link(o, i) in links && o !in rest
                        then old(orders)[o].(status := StatusOf(tracks, links, o))
                        else old(orders)[o])
        decreases rest
      {
        var o :| o in rest;
        RefreshOrder(o);
        rest := rest - {o};
      }
    }

    // ── db.rs: the life of a track ─────────────────────────────────────────

    method MarkDownloading(i: Isrc, leaseUntil: int, now: int)
      modifies this`tracks, this`items, this`orders
      ensures Snapshot() == Ledger.MarkDownloading(old(Snapshot()), i, leaseUntil, now)
    {
      if i in tracks {
        tracks := tracks[i := tracks[i].(state := Downloading, leaseExpiresAt := Some(leaseUntil))];
      }
      EnsureRunning(DownloadKey(i), now);
      RefreshOrdersForIsrc(i);
    }

    method MarkReady(i: Isrc, now: int)
      modifies this`tracks, this`items, this`orders
      ensures Snapshot() == MarkSettled(old(Snapshot()), i, Ready, now)
    {
      if i in tracks {
        tracks := tracks[i := tracks[i].(state := Ready, leaseExpiresAt := None, nextAttemptAt := None)];
      }
      Finish(DownloadKey(i), now);
      RefreshOrdersForIsrc(i);
    }

    method MarkTerminal(i: Isrc, state: TrackState, now: int)
      modifies this`tracks, this`items, this`orders
      ensures Snapshot() == MarkSettled(old(Snapshot()), i, state, now)
    {
      if i in tracks {
        tracks := tracks[i := tracks[i].(state := state, leaseExpiresAt := None, nextAttemptAt := None)];
      }
      Finish(DownloadKey(i), now);
      RefreshOrdersForIsrc(i);
    }

    method IngestReadyTrack(i: Isrc, now: int)
      modifies this`tracks, this`orders
      ensures Snapshot() == Ledger.IngestReadyTrack(old(Snapshot()), i, now)
    {
      if i in tracks {
        tracks := tracks[i := tracks[i].(state := Ready, leaseExpiresAt := None, nextAttemptAt := None)];
      } else {
        tracks := tracks[i := Track("deezer", Ready, 0, None, None, now)];
      }
      RefreshOrdersForIsrc(i);
    }

    method ScheduleRetry(i: Isrc, policy: RetryPolicy, now: int) returns (retryable: bool)
      modifies this`tracks, this`items, this`orders
      ensures Snapshot() == Ledger.ScheduleRetry(old(Snapshot()), i, policy, now)
      ensures retryable == Retryable(old(Snapshot()), i, policy)
    {
      if i in tracks {
        tracks := tracks[i := tracks[i].(attempts := tracks[i].attempts + 1)];
      }
      var attempts := if i in tracks then tracks[i].attempts else 0;
      if AsU32(attempts) >= policy.maxAttempts {
        MarkTerminal(i, Failed, now);
        return false;
      }
      var next := now + BackoffDelay(AsU32(attempts), policy.baseSecs, policy.maxSecs);
      if i in tracks {
        tracks := tracks[i := tracks[i].(state := Pending, nextAttemptAt := Some(next), leaseExpiresAt := None)];
      }
      RefreshOrdersForIsrc(i);
      RetryRef(DownloadKey(i), next, now);
      return true;
    }

    method RenewLease(i: Isrc, until: int)
      modifies this`tracks
      ensures Snapshot() == Ledger.RenewLease(old(Snapshot()), i, until)
    {
      if i in tracks {
        tracks := tracks[i := tracks[i].(leaseExpiresAt := Some(until))];
      }
    }

    /** The reaper, run alone: afterwards no download's lease has lapsed. */
    method RecoverExpiredLeases(policy: RetryPolicy, now: int) returns (recovered: nat, ghost found: seq<Isrc>)
      modifies this`tracks, this`items, this`orders
      ensures Enumerates(found, LapsedTracks(old(Snapshot()), now))
      ensures Snapshot() == RetryAll(old(Snapshot()), found, policy, now)
      ensures recovered == |LapsedTracks(old(Snapshot()), now)|
      ensures LapsedTracks(Snapshot(), now) == {}
    {
      ghost var before := Snapshot();
      var rest := set i | i in tracks && tracks[i].state.Downloading? &&
        (tracks[i].leaseExpiresAt.None? || tracks[i].leaseExpiresAt.value <= now);
      assert rest == LapsedTracks(before, now);
      recovered := |rest|;
      found := [];
      while rest != {}
        invariant forall i :: i in LapsedTracks(before, now) <==> i in rest || i in found
        invariant forall i :: i in rest ==> i !in found
        invariant forall m, n :: 0 <= m < n < |found| ==> found[m] != found[n]
        invariant Snapshot() == RetryAll(before, found, policy, now)
        decreases rest
      {
        var i :| i in rest;
        assert (found + [i])[..|found|] == found;
        var retryable := ScheduleRetry(i, policy, now);
        found, rest := found + [i], rest - {i};
      }
      LI.ReaperClearsLapsed(before, found, policy, now);
    }

    method ResetTrackToPending(i: Isrc, now: int) returns (reset: bool)
      modifies this`tracks, this`items, this`orders
      ensures Snapshot() == Ledger.ResetTrackToPending(old(Snapshot()), i, now)
      ensures reset == Resettable(old(Snapshot()), i)
    {
      reset := i in tracks && !tracks[i].state.Ready?;
      if reset {
        tracks := tracks[i := tracks[i].(state := Pending, attempts := 0, nextAttemptAt := None, leaseExpiresAt := None)];
      }
      RefreshOrdersForIsrc(i);
      if reset {
        Enqueue(DownloadKey(i), 0, now);
      }
    }

    method CountDownloading() returns (n: nat)
      ensures n == |DownloadingTracks(Snapshot())|
    {
      n := |set i | i in tracks && tracks[i].state.Downloading?|;
    }

    // ── db.rs: orders ──────────────────────────────────────────────────────

    method CreateOrder(o: OrderId, isrcs: seq<Isrc>, priority: int, now: int) returns (created: bool)
      modifies this
      ensures Snapshot() == Ledger.CreateOrder(old(Snapshot()), o, Elems(isrcs), priority, now)
      ensures created == (o !in old(orders))
    {
      created := o !in orders;
      if !created {
        return;
      }
      ghost var before := Snapshot();
      orders := orders[o := Order(Open, priority)];
      assert InsertOrder(before, o, Elems(isrcs[..0]), priority, now).tracks == tracks;
      for n := 0 to |isrcs|
        invariant Snapshot() == InsertOrder(before, o, Elems(isrcs[..n]), priority, now)
      {
        var i := isrcs[n];
        assert Elems(isrcs[..n + 1]) == Elems(isrcs[..n]) + {i};
        InsertOneMore(before, o, Elems(isrcs[..n]), i, priority, now);
        if i !in tracks {
          tracks := tracks[i := Track(TrackSource(i), Pending, 0, None, None, now)];
        }
        links := links + {Link(o, i)};
      }
      assert isrcs[..|isrcs|] == isrcs;
      EnqueueEach(isrcs, priority, now);
      RefreshOrder(o);
    }

    method EnqueueEach(isrcs: seq<Isrc>, priority: int, now: int)
      modifies this`items
      ensures items == EnqueueDownloads(old(items), Elems(isrcs), priority, now)
    {
      for n := 0 to |isrcs|
        invariant items == EnqueueDownloads(old(items), Elems(isrcs[..n]), priority, now)
      {
        assert Elems(isrcs[..n + 1]) == Elems(isrcs[..n]) + {isrcs[n]};
        EnqueueOneMore(old(items), Elems(isrcs[..n]), isrcs[n], priority, now);
        Enqueue(DownloadKey(isrcs[n]), priority, now);
      }
      assert isrcs[..|isrcs|] == isrcs;
    }

    method SetOrderPriority(o: OrderId, priority: int, now: int) returns (found: bool)
      modifies this`orders, this`items
      ensures Snapshot() == Ledger.SetOrderPriority(old(Snapshot()), o, priority, now)
      ensures found == (o in old(orders))
    {
      found := o in orders;
      if !found {
        return;
      }
      orders := orders[o := orders[o].(priority := priority)];
      ghost var done: set<Isrc> := {};
      var rest := set l | l in links && l.order == o :: l.isrc;
      assert items == EnqueueDownloads(old(items), done, priority, now);
      while rest != {}
        invariant orders == old(orders)[o := old(orders)[o].(priority := priority)]
        invariant done + rest == LinkedTo(old(Snapshot()), o)
        invariant items == EnqueueDownloads(old(items), done, priority, now)
        decreases rest
      {
        var i :| i in rest;
        EnqueueOneMore(old(items), done, i, priority, now);
        Enqueue(DownloadKey(i), priority, now);
        done, rest := done + {i}, rest - {i};
      }
      assert done == LinkedTo(old(Snapshot()), o);
    }

    method CancelOrder(o: OrderId) returns (found: bool)
      modifies this`orders, this`links
      ensures Snapshot() == Ledger.CancelOrder(old(Snapshot()), o)
      ensures found == (o in old(orders))
      ensures found ==> o in orders && orders[o].status == Cancelled
      ensures forall k :: k in orders <==> k in old(orders)
      ensures forall k :: k in orders && k != o ==> orders[k] == old(orders)[k]
      ensures forall l :: l in links <==> l in old(links) && l.order != o
    {
      found := o in orders;
      if found {
        orders := orders[o := orders[o].(status := Cancelled)];
      }
      links := set l | l in links && l.order != o;
    }
  }
}
