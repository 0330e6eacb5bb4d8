/**
 * What every ledger transition keeps: the ledger and the queue agree track by track,
 * and every link has its rows, its priority floor and a correctly cached order status.
 */
module LedgerInvariant {
  import opened Wrappers
  import opened Ledger
  import opened Calls
  import Queue = WorkQueue

  predicate InQueue(w: Queue.WorkItem) {
    w.state.Queued? || w.state.Running?
  }

  /** The agreement between one track row and its download item, either of which may be missing. */
  predicate PairOk(t: Option<Track>, w: Option<Queue.WorkItem>, maxAttempts: nat) {
    // What is still to be downloaded has an item; what is under way has a live one.
    && (t.Some? && Unfinished(t.value.state) ==> w.Some?)
    && (t.Some? && t.value.state.Downloading? ==> InQueue(w.value))
    // A running item belongs to a known track.
    && (w.Some? && w.value.state.Running? ==> t.Some?)
    // Download items are never claimed, so their own retry budget is never touched.
    && (w.Some? ==> w.value.attempts == 0 && w.value.maxAttempts == Queue.MAX_ATTEMPTS && !w.value.state.Failed?)
    // A track waiting for another try still has one.
    && (t.Some? && t.value.state.Pending? ==> AsU32(t.value.attempts) < maxAttempts)
  }

  ghost predicate LinkOk(db: Db, l: Link) {
    && l.order in db.orders
    && l.isrc in db.tracks
    && DownloadKey(l.isrc) in db.items
    && db.items[DownloadKey(l.isrc)].priority >= db.orders[l.order].priority
    && db.orders[l.order].status == StatusOf(db.tracks, db.links, l.order)
  }

  ghost predicate Coherent(db: Db, maxAttempts: nat) {
    && (forall i: Isrc :: PairOk(TrackOf(db, i), ItemOf(db, i), maxAttempts))
    && (forall l :: l in db.links ==> LinkOk(db, l))
  }

  // ── Transitions that touch one track and its item ────────────────────────

  /** db' differs from db only in track i, its download item and the statuses that depend on i. */
  ghost predicate Touches(db: Db, db': Db, i: Isrc) {
    && db'.links == db.links
    && db'.orders == RefreshOrdersFor(db'.(orders := db.orders), i).orders
    && (forall j: Isrc :: j != i ==> TrackOf(db', j) == TrackOf(db, j))
    && (forall k :: k != DownloadKey(i) ==> Queue.Lookup(db'.items, k) == Queue.Lookup(db.items, k))
    && (i in db.tracks ==> i in db'.tracks)
    && (DownloadKey(i) in db.items ==>
          DownloadKey(i) in db'.items &&
          db.items[DownloadKey(i)].priority <= db'.items[DownloadKey(i)].priority)
  }

  lemma TouchKeepsCoherent(db: Db, db': Db, i: Isrc, maxAttempts: nat)
    requires Coherent(db, maxAttempts) && Touches(db, db', i)
    requires PairOk(TrackOf(db', i), ItemOf(db', i), maxAttempts)
    ensures Coherent(db', maxAttempts)
  {
    forall j: Isrc
      ensures PairOk(TrackOf(db', j), ItemOf(db', j), maxAttempts)
    {
      assert PairOk(TrackOf(db, j), ItemOf(db, j), maxAttempts);
    }
    forall l | l in db'.links
      ensures LinkOk(db', l)
    {
      assert LinkOk(db, l);
      assert l.isrc in db'.tracks by { assert TrackOf(db, l.isrc).Some?; assert TrackOf(db', l.isrc).Some?; }
      assert Queue.Lookup(db.items, DownloadKey(l.isrc)).Some?;
      assert Queue.Lookup(db'.items, DownloadKey(l.isrc)).Some?;
      if Link(l.order, i) !in db.links {
        forall m | m in db.links && m.order == l.order
          ensures m.isrc in db.tracks && m.isrc in db'.tracks && db.tracks[m.isrc].state == db'.tracks[m.isrc].state
        {
          assert LinkOk(db, m);
          assert m == Link(l.order, m.isrc);
          assert TrackOf(db', m.isrc) == TrackOf(db, m.isrc);
        }
        StatusFrame(db.tracks, db'.tracks, db.links, l.order);
      }
    }
  }

  lemma MarkDownloadingKeeps(db: Db, i: Isrc, leaseUntil: int, now: int, maxAttempts: nat)
    requires Coherent(db, maxAttempts) && i in db.tracks
    ensures Coherent(MarkDownloading(db, i, leaseUntil, now), maxAttempts)
  {
    assert PairOk(TrackOf(db, i), ItemOf(db, i), maxAttempts);
    TouchKeepsCoherent(db, MarkDownloading(db, i, leaseUntil, now), i, maxAttempts);
  }

  lemma MarkSettledKeeps(db: Db, i: Isrc, s: TrackState, now: int, maxAttempts: nat)
    requires Coherent(db, maxAttempts) && !Unfinished(s)
    ensures Coherent(MarkSettled(db, i, s, now), maxAttempts)
  {
    assert PairOk(TrackOf(db, i), ItemOf(db, i), maxAttempts);
    TouchKeepsCoherent(db, MarkSettled(db, i, s, now), i, maxAttempts);
  }

  lemma IngestKeeps(db: Db, i: Isrc, now: int, maxAttempts: nat)
    requires Coherent(db, maxAttempts)
    ensures Coherent(IngestReadyTrack(db, i, now), maxAttempts)
  {
    assert PairOk(TrackOf(db, i), ItemOf(db, i), maxAttempts);
    TouchKeepsCoherent(db, IngestReadyTrack(db, i, now), i, maxAttempts);
  }

  lemma ResetKeeps(db: Db, i: Isrc, now: int, maxAttempts: nat)
    requires Coherent(db, maxAttempts) && 1 <= maxAttempts
    ensures Coherent(ResetTrackToPending(db, i, now), maxAttempts)
  {
    assert PairOk(TrackOf(db, i), ItemOf(db, i), maxAttempts);
    TouchKeepsCoherent(db, ResetTrackToPending(db, i, now), i, maxAttempts);
  }

  lemma ScheduleRetryKeeps(db: Db, i: Isrc, policy: RetryPolicy, now: int)
    requires Coherent(db, policy.maxAttempts) && 1 <= policy.maxAttempts
    ensures Coherent(ScheduleRetry(db, i, policy, now), policy.maxAttempts)
  {
    assert PairOk(TrackOf(db, i), ItemOf(db, i), policy.maxAttempts);
    TouchKeepsCoherent(db, ScheduleRetry(db, i, policy, now), i, policy.maxAttempts);
  }

  lemma RenewLeaseKeeps(db: Db, i: Isrc, until: int, maxAttempts: nat)
    requires Coherent(db, maxAttempts)
    ensures Coherent(RenewLease(db, i, until), maxAttempts)
  {
    var db' := RenewLease(db, i, until);
    forall j: Isrc
      ensures PairOk(TrackOf(db', j), ItemOf(db', j), maxAttempts)
    {
      assert PairOk(TrackOf(db, j), ItemOf(db, j), maxAttempts);
    }
    forall l | l in db'.links
      ensures LinkOk(db', l)
    {
      assert LinkOk(db, l);
      assert forall m :: m in db.links ==> LinkOk(db, m);
      StatusFrame(db.tracks, db'.tracks, db.links, l.order);
    }
  }

  /** After the reaper no `downloading` row has a lapsed lease, whatever order its rows came in. */
  lemma ReaperClearsLapsed(db: Db, isrcs: seq<Isrc>, policy: RetryPolicy, now: int)
    requires Enumerates(isrcs, LapsedTracks(db, now))
    ensures LapsedTracks(RetryAll(db, isrcs, policy, now), now) == {}
  {
    RetryAllEffect(db, isrcs, policy, now);
    var db' := RetryAll(db, isrcs, policy, now);
    forall i | i in db'.tracks
      ensures !Lapsed(db'.tracks[i], now)
    {
      if i !in isrcs {
        assert db'.tracks[i] == db.tracks[i];
        assert i !in LapsedTracks(db, now);
      }
    }
  }

  lemma {:induction false} RetryAllEffect(db: Db, isrcs: seq<Isrc>, policy: RetryPolicy, now: int)
    ensures var db' := RetryAll(db, isrcs, policy, now);
            && db'.tracks.Keys == db.tracks.Keys
            && (forall i :: i in db.tracks && i !in isrcs ==> db'.tracks[i] == db.tracks[i])
            && (forall i :: i in db.tracks && i in isrcs ==> !db'.tracks[i].state.Downloading?)
    decreases |isrcs|
  {
    if isrcs != [] {
      var front, last := isrcs[..|isrcs| - 1], isrcs[|isrcs| - 1];
      assert isrcs == front + [last];
      RetryAllEffect(db, front, policy, now);
    }
  }

  // ── Transitions over several rows ────────────────────────────────────────

  lemma RecoverStaleKeeps(db: Db, now: int, staleSecs: int, maxAttempts: nat)
    requires Coherent(db, maxAttempts)
    ensures Coherent(db.(items := Queue.RecoverStale(db.items, now, staleSecs)), maxAttempts)
  {
    var db' := db.(items := Queue.RecoverStale(db.items, now, staleSecs));
    forall j: Isrc
      ensures PairOk(TrackOf(db', j), ItemOf(db', j), maxAttempts)
    {
      assert PairOk(TrackOf(db, j), ItemOf(db, j), maxAttempts);
    }
    forall l | l in db'.links
      ensures LinkOk(db', l)
    {
      assert LinkOk(db, l);
    }
  }

  lemma EnqueueDownloadsAt(items: Queue.Rows, isrcs: set<Isrc>, priority: int, now: int, i: Isrc)
    ensures Queue.Lookup(EnqueueDownloads(items, isrcs, priority, now), DownloadKey(i))
            == if i in isrcs
               then Some(Queue.Enqueued(Queue.Lookup(items, DownloadKey(i)), priority, now))
               else Queue.Lookup(items, DownloadKey(i))
  {
    var touched := set j | j in isrcs :: DownloadKey(j);
    assert DownloadKey(i) in touched <==> i in isrcs;
  }

  lemma CreateOrderKeeps(db: Db, o: OrderId, isrcs: set<Isrc>, priority: int, now: int, maxAttempts: nat)
    requires Coherent(db, maxAttempts) && 1 <= maxAttempts
    ensures Coherent(CreateOrder(db, o, isrcs, priority, now), maxAttempts)
  {
    var db' := CreateOrder(db, o, isrcs, priority, now);
    if o in db.orders {
      return;
    }
    forall j: Isrc
      ensures PairOk(TrackOf(db', j), ItemOf(db', j), maxAttempts)
    {
      assert PairOk(TrackOf(db, j), ItemOf(db, j), maxAttempts);
      EnqueueDownloadsAt(db.items, isrcs, priority, now, j);
    }
    forall l | l in db'.links
      ensures LinkOk(db', l)
    {
      EnqueueDownloadsAt(db.items, isrcs, priority, now, l.isrc);
      if l in db.links {
        assert LinkOk(db, l);
        assert l.order != o;
        assert Queue.Lookup(db.items, DownloadKey(l.isrc)).Some?;
        StatusAfterInsert(db, db', l.order);
      } else {
        assert l.order == o && l.isrc in isrcs;
      }
      assert Queue.Lookup(db'.items, DownloadKey(l.isrc)).Some?;
    }
  }

  // Links and tracks only added for another order leave this order's status alone.
  lemma StatusAfterInsert(db: Db, db': Db, p: OrderId)
    requires forall l :: l in db.links ==> l.isrc in db.tracks
    requires forall i :: i in db.tracks ==> i in db'.tracks && db'.tracks[i] == db.tracks[i]
    requires forall l: Link :: l.order == p ==> (l in db.links <==> l in db'.links)
    ensures StatusOf(db'.tracks, db'.links, p) == StatusOf(db.tracks, db.links, p)
  {
    assert Joined(db'.tracks, db'.links, p) == Joined(db.tracks, db.links, p);
  }

  lemma SetOrderPriorityKeeps(db: Db, o: OrderId, priority: int, now: int, maxAttempts: nat)
    requires Coherent(db, maxAttempts)
    ensures Coherent(SetOrderPriority(db, o, priority, now), maxAttempts)
  {
    var db' := SetOrderPriority(db, o, priority, now);
    if o !in db.orders {
      return;
    }
    forall j: Isrc
      ensures PairOk(TrackOf(db', j), ItemOf(db', j), maxAttempts)
    {
      assert PairOk(TrackOf(db, j), ItemOf(db, j), maxAttempts);
      EnqueueDownloadsAt(db.items, LinkedTo(db, o), priority, now, j);
    }
    forall l | l in db'.links
      ensures LinkOk(db', l)
    {
      assert LinkOk(db, l);
      EnqueueDownloadsAt(db.items, LinkedTo(db, o), priority, now, l.isrc);
      assert Queue.Lookup(db.items, DownloadKey(l.isrc)).Some?;
      assert l.order == o ==> l.isrc in LinkedTo(db, o);
      assert Queue.Lookup(db'.items, DownloadKey(l.isrc)).Some?;
    }
  }

  lemma CancelOrderKeeps(db: Db, o: OrderId, maxAttempts: nat)
    requires Coherent(db, maxAttempts)
    ensures Coherent(CancelOrder(db, o), maxAttempts)
  {
    var db' := CancelOrder(db, o);
    forall j: Isrc
      ensures PairOk(TrackOf(db', j), ItemOf(db', j), maxAttempts)
    {
      assert PairOk(TrackOf(db, j), ItemOf(db, j), maxAttempts);
    }
    forall l | l in db'.links
      ensures LinkOk(db', l)
    {
      assert LinkOk(db, l);
      assert forall m :: m in db.links ==> LinkOk(db, m);
      StatusAfterInsert(db, db', l.order);
    }
  }

  // ── Calls on queue rows ──────────────────────────────────────────────────

  lemma ItemMoveKeeps(db: Db, key: Queue.Key, items: Queue.Rows, maxAttempts: nat)
    requires Coherent(db, maxAttempts)
    requires forall k :: k != key ==> Queue.Lookup(items, k) == Queue.Lookup(db.items, k)
    requires key.kind.Download? ==>
               && (key in db.items ==> key in items && db.items[key].priority <= items[key].priority)
               && PairOk(TrackOf(db, key.reference), Queue.Lookup(items, key), maxAttempts)
    ensures Coherent(db.(items := items), maxAttempts)
  {
    var db' := db.(items := items);
    assert key.kind.Download? ==> key == DownloadKey(key.reference);
    forall i: Isrc
      ensures PairOk(TrackOf(db', i), ItemOf(db', i), maxAttempts)
    {
      assert PairOk(TrackOf(db, i), ItemOf(db, i), maxAttempts);
    }
    forall l | l in db'.links
      ensures LinkOk(db', l)
    {
      assert LinkOk(db, l);
      assert Queue.Lookup(db.items, DownloadKey(l.isrc)).Some?;
      assert Queue.Lookup(items, DownloadKey(l.isrc)).Some?;
    }
  }

  lemma QueueCallKeeps(db: Db, call: Call, policy: RetryPolicy, now: int)
    requires Coherent(db, policy.maxAttempts) && Allowed(db, call) && !LedgerCall(call) && !call.RecoverStaleCall?
    ensures Coherent(Apply(db, call, policy, now), policy.maxAttempts)
  {
    var i := call.key.reference;
    assert PairOk(TrackOf(db, i), ItemOf(db, i), policy.maxAttempts);
    assert call.key.kind.Download? ==> call.key == DownloadKey(i);
    ItemMoveKeeps(db, call.key, Apply(db, call, policy, now).items, policy.maxAttempts);
  }

  /** Every call the process makes keeps the ledger, the queue and the orders in agreement. */
  lemma CallKeepsCoherent(db: Db, call: Call, policy: RetryPolicy, now: int)
    requires Coherent(db, policy.maxAttempts) && 1 <= policy.maxAttempts && Allowed(db, call)
    ensures Coherent(Apply(db, call, policy, now), policy.maxAttempts)
  {
    var max := policy.maxAttempts;
    match call
    case NoCall =>
    case CreateOrderCall(o, isrcs, p) => CreateOrderKeeps(db, o, isrcs, p, now, max);
    case SetPriorityCall(o, p) => SetOrderPriorityKeeps(db, o, p, now, max);
    case CancelOrderCall(o) => CancelOrderKeeps(db, o, max);
    case ResetCall(i) => ResetKeeps(db, i, now, max);
    case StartCall(i, until) => MarkDownloadingKeeps(db, i, until, now, max);
    case SettleCall(i, s) => MarkSettledKeeps(db, i, s, now, max);
    case RetryCall(i) => ScheduleRetryKeeps(db, i, policy, now);
    case IngestCall(i) => IngestKeeps(db, i, now, max);
    case RenewCall(i, until) => RenewLeaseKeeps(db, i, until, max);
    case RecoverStaleCall => RecoverStaleKeeps(db, now, WORK_STALE_SECS, max);
    case _ => QueueCallKeeps(db, call, policy, now);
  }
}
