/** Runs from the empty database to the three failures: a download without tries, lost work, a stranded track. */
module SchedulerWitness {
  import opened Wrappers
  import opened Ledger
  import opened Calls
  import opened Scheduler
  import T = SchedulerTheorems
  import Queue = WorkQueue

  // Any tuning that grants two tries.
  predicate TwoTries(cfg: Config) {
    ValidConfig(cfg) && cfg.policy.maxAttempts == 2
  }

  // One track with its item; nothing else is in the ledger or the queue.
  ghost predicate Only(w: World, i: Isrc, t: Track, item: Queue.WorkItem) {
    w.db.tracks == map[i := t] && w.db.items == map[DownloadKey(i) := item]
  }

  // A set of worlds that no event leaves.
  ghost predicate Closed(cfg: Config, reach: World -> bool) {
    forall w, e :: reach(w) && Enabled(cfg, w, e) ==> reach(Step(cfg, w, e))
  }

  lemma Go(cfg: Config, reach: World -> bool, w: World, e: Event) returns (w': World)
    requires Closed(cfg, reach) && reach(w) && Enabled(cfg, w, e)
    ensures w' == Step(cfg, w, e) && reach(w')
  {
    w' := Step(cfg, w, e);
  }

  function NewItem(now: int): Queue.WorkItem {
    Queue.Fresh(0, Queue.Queued, now)
  }

  lemma Ordered(cfg: Config, reach: World -> bool, o: OrderId, i: Isrc) returns (w: World)
    requires ValidConfig(cfg) && TrackSource(i) == "deezer" && Closed(cfg, reach) && reach(EmptyWorld(0))
    ensures reach(w) && w.phase.Idle? && w.clock == 0 && w.finalizing == map[]
    ensures Only(w, i, NewTrack(i, 0), NewItem(0))
  {
    var w0 := EmptyWorld(0);
    w := Go(cfg, reach, w0, PostOrder(o, {i}, 0));
    assert w.db == CreateOrder(w0.db, o, {i}, 0, 0);
    assert w.db.tracks.Keys == {i};
    assert w.db.items.Keys == {DownloadKey(i)};
  }

  // The worker reads its free slots and is offered the one due download.
  lemma Read(cfg: Config, reach: World -> bool, w: World) returns (w': World)
    requires Closed(cfg, reach) && reach(w) && w.phase.Idle?
    requires |DownloadingTracks(w.db)| < cfg.maxInflight
    ensures reach(w') && w' == w.(phase := SlotsRead(cfg.maxInflight - |DownloadingTracks(w.db)|))
  {
    w' := Go(cfg, reach, w, ReadSlots);
  }

  lemma Taken(cfg: Config, reach: World -> bool, w: World, i: Isrc, t: Track, item: Queue.WorkItem) returns (w': World)
    requires Closed(cfg, reach) && reach(w) && w.phase.SlotsRead? && w.phase.slots >= 1
    requires Only(w, i, t, item) && Queue.Due(item, w.clock)
    ensures reach(w') && w' == w.(phase := Dispatching([DownloadKey(i)], true))
  {
    assert Queue.DueKeys(w.db.items, Queue.Download, w.clock) == {DownloadKey(i)};
    w' := Go(cfg, reach, w, TakeBatch([DownloadKey(i)], true));
  }

  lemma Offered(cfg: Config, reach: World -> bool, w: World, i: Isrc, t: Track, item: Queue.WorkItem) returns (w': World)
    requires ValidConfig(cfg) && Closed(cfg, reach) && reach(w) && w.phase.Idle? && Only(w, i, t, item)
    requires t.state.Pending? && t.source == "deezer" && Queue.Due(item, w.clock)
    ensures reach(w') && w' == w.(phase := Resolving(i, [], true))
  {
    assert DownloadingTracks(w.db) == {};
    w' := Read(cfg, reach, w);
    w' := Taken(cfg, reach, w', i, t, item);
    assert [DownloadKey(i)][1..] == [];
    w' := Go(cfg, reach, w', Pick);
  }

  lemma Ended(cfg: Config, reach: World -> bool, w: World) returns (w': World)
    requires Closed(cfg, reach) && reach(w)
    ensures reach(w') && w' == w.(phase := Idle)
  {
    w' := Go(cfg, reach, w, EndPhase);
  }

  lemma Accepted(cfg: Config, reach: World -> bool, w: World, i: Isrc, t: Track, item: Queue.WorkItem) returns (w': World)
    requires Closed(cfg, reach) && reach(w) && w.phase == Resolving(i, [], true) && Only(w, i, t, item)
    ensures reach(w') && w'.phase.Idle? && w'.clock == w.clock && w'.finalizing == w.finalizing
    ensures Only(w', i, t.(state := Downloading, leaseExpiresAt := Some(w.clock + cfg.downloadTimeout)),
                 item.(state := Queue.Running, updatedAt := w.clock))
  {
    StartOfOnly(w.db, i, t, item, w.clock + cfg.downloadTimeout, w.clock);
    var started := Go(cfg, reach, w, Resolve(QueuedAtDeemix));
    w' := Ended(cfg, reach, started);
  }

  lemma StartOfOnly(db: Db, i: Isrc, t: Track, item: Queue.WorkItem, until: int, now: int)
    requires db.tracks == map[i := t] && db.items == map[DownloadKey(i) := item]
    ensures var db' := MarkDownloading(db, i, until, now);
            && db'.tracks == map[i := t.(state := Downloading, leaseExpiresAt := Some(until))]
            && db'.items == map[DownloadKey(i) := item.(state := Queue.Running, updatedAt := now)]
  {
  }

  // deemix reports success and a finalize task starts looking for the file.
  lemma Finalizing(cfg: Config, reach: World -> bool, w: World, i: Isrc, t: Track, item: Queue.WorkItem)
    returns (w': World)
    requires Closed(cfg, reach) && reach(w) && w.phase.Idle? && Only(w, i, t, item) && w.finalizing == map[]
    requires t.state.Downloading? && t.source == "deezer"
    ensures reach(w') && w' == w.(finalizing := map[i := true])
  {
    assert DeezerDownloads(w.db) == {i};
    var polling := Go(cfg, reach, w, ReadDownloading([i]));
    var spawned := Spawned(cfg, reach, polling, i);
    w' := Ended(cfg, reach, spawned);
  }

  lemma Spawned(cfg: Config, reach: World -> bool, w: World, i: Isrc) returns (w': World)
    requires Closed(cfg, reach) && reach(w) && w.phase == Polling([i]) && w.finalizing == map[]
    ensures reach(w') && w' == w.(phase := Polling([]), finalizing := map[i := true])
  {
    assert [i][1..] == [];
    w' := Go(cfg, reach, w, Poll(Succeeded));
  }

  // The lease lapses while finalizing is still under way.
  lemma Lapsing(cfg: Config, reach: World -> bool, w: World, i: Isrc, t: Track, item: Queue.WorkItem) returns (w': World)
    requires Closed(cfg, reach) && reach(w) && w.phase.Idle? && Only(w, i, t, item)
    requires t.state.Downloading? && t.leaseExpiresAt == Some(w.clock + cfg.downloadTimeout)
    ensures reach(w') && w'.phase == Reaping([i]) && w'.finalizing == w.finalizing
    ensures Only(w', i, t, item)
  {
    var waited := Go(cfg, reach, w, Wait(Max(cfg.downloadTimeout, 0)));
    assert LapsedTracks(waited.db, waited.clock) == {i};
    w' := Go(cfg, reach, waited, ReadLapsed([i]));
  }

  lemma FirstFailure(db: Db, i: Isrc, t: Track, item: Queue.WorkItem, policy: RetryPolicy, now: int)
    requires db.tracks == map[i := t] && db.items == map[DownloadKey(i) := item]
    requires policy.maxAttempts == 2 && t.attempts == 0 && item.attempts < item.maxAttempts
    ensures var next := now + BackoffDelay(1, policy.baseSecs, policy.maxSecs);
            var db' := ScheduleRetry(db, i, policy, now);
            && db'.tracks == map[i := t.(attempts := 1, state := Pending, nextAttemptAt := Some(next), leaseExpiresAt := None)]
            && db'.items == map[DownloadKey(i) := item.(state := Queue.Queued, notBefore := Some(next), updatedAt := now)]
  {
  }

  // The reaper re-queues the track, and its backoff passes.
  lemma Retried(cfg: Config, reach: World -> bool, w: World, i: Isrc, t: Track, item: Queue.WorkItem)
    returns (w': World, t': Track, item': Queue.WorkItem, delay: int)
    requires TwoTries(cfg) && Closed(cfg, reach) && reach(w) && w.phase == Reaping([i]) && Only(w, i, t, item)
    requires t.attempts == 0 && item.attempts < item.maxAttempts
    ensures reach(w') && w'.finalizing == w.finalizing && w'.clock == w.clock
    ensures Only(w', i, t', item') && item'.state.Queued? && item'.notBefore == Some(w.clock + delay)
    ensures t'.state.Pending? && t'.attempts == 1 && t'.source == t.source
  {
    delay := BackoffDelay(1, cfg.policy.baseSecs, cfg.policy.maxSecs);
    FirstFailure(w.db, i, t, item, cfg.policy, w.clock);
    w' := Go(cfg, reach, w, ReapNext);
    t', item' := w'.db.tracks[i], w'.db.items[DownloadKey(i)];
  }

  lemma Requeued(cfg: Config, reach: World -> bool, w: World, i: Isrc, t: Track, item: Queue.WorkItem)
    returns (w': World, t': Track, item': Queue.WorkItem)
    requires TwoTries(cfg) && Closed(cfg, reach) && reach(w) && w.phase == Reaping([i]) && Only(w, i, t, item)
    requires t.attempts == 0 && item.attempts < item.maxAttempts
    ensures reach(w') && w'.phase.Idle? && w'.finalizing == w.finalizing
    ensures Only(w', i, t', item') && Queue.Due(item', w'.clock)
    ensures t'.state.Pending? && t'.attempts == 1 && t'.source == t.source
  {
    var retried, delay;
    retried, t', item', delay := Retried(cfg, reach, w, i, t, item);
    w' := Ended(cfg, reach, retried);
    w' := Go(cfg, reach, w', Wait(Max(delay, 0)));
  }

  // Finalizing gives up at last: the track's second failure is its last.
  lemma GivenUp(cfg: Config, reach: World -> bool, w: World, i: Isrc, t: Track, item: Queue.WorkItem)
    returns (w': World, t': Track, item': Queue.WorkItem)
    requires TwoTries(cfg) && Closed(cfg, reach) && reach(w) && Only(w, i, t, item) && w.finalizing == map[i := true]
    requires t.attempts == 1
    ensures reach(w') && w'.phase == w.phase && w'.clock == w.clock
    ensures Only(w', i, t', item') && t'.state.Failed? && t'.attempts == 2
  {
    LastFailure(w.db, i, t, item, cfg.policy, w.clock);
    w' := Go(cfg, reach, w, FinalizeMissing(i));
    t', item' := w'.db.tracks[i], w'.db.items[DownloadKey(i)];
  }

  lemma LastFailure(db: Db, i: Isrc, t: Track, item: Queue.WorkItem, policy: RetryPolicy, now: int)
    requires db.tracks == map[i := t] && db.items == map[DownloadKey(i) := item]
    requires policy.maxAttempts == 2 && t.attempts == 1
    ensures var db' := ScheduleRetry(db, i, policy, now);
            && db'.tracks == map[i := t.(attempts := 2, state := Failed, nextAttemptAt := None, leaseExpiresAt := None)]
            && db'.items == map[DownloadKey(i) := item.(state := Queue.Done, notBefore := None, updatedAt := now)]
  {
  }

  lemma SpentDownload(cfg: Config, reach: World -> bool, o: OrderId, i: Isrc) returns (w: World)
    requires TwoTries(cfg) && TrackSource(i) == "deezer" && Closed(cfg, reach) && reach(EmptyWorld(0))
    ensures reach(w) && i in w.db.tracks
    ensures w.db.tracks[i].state.Downloading? && w.db.tracks[i].attempts == cfg.policy.maxAttempts
  {
    var t, item := NewTrack(i, 0), NewItem(0);
    w := Ordered(cfg, reach, o, i);
    w := Offered(cfg, reach, w, i, t, item);
    w := Accepted(cfg, reach, w, i, t, item);
    t := t.(state := Downloading, leaseExpiresAt := Some(cfg.downloadTimeout));
    item := item.(state := Queue.Running);
    w := Finalizing(cfg, reach, w, i, t, item);
    w := Lapsing(cfg, reach, w, i, t, item);
    w, t, item := Requeued(cfg, reach, w, i, t, item);
    w := Offered(cfg, reach, w, i, t, item);
    w, t, item := GivenUp(cfg, reach, w, i, t, item);
    w := Accepted(cfg, reach, w, i, t, item);
  }

  // ── A finish that overtakes an order ─────────────────────────────────────

  // A download item without a track is offered, and the worker looks for its track in vain.
  lemma SeenWithoutTrack(cfg: Config, reach: World -> bool, i: Isrc) returns (w: World)
    requires ValidConfig(cfg) && Closed(cfg, reach) && reach(EmptyWorld(0))
    ensures reach(w) && w.phase == Picked(DownloadKey(i), NoTrack, [], true)
    ensures w.db.tracks == map[] && w.db.orders == map[] && w.db.items == map[DownloadKey(i) := NewItem(0)]
  {
    var posted := Go(cfg, reach, EmptyWorld(0), PostWork(DownloadKey(i), 0));
    assert DownloadingTracks(posted.db) == {};
    w := Read(cfg, reach, posted);
    assert Queue.DueKeys(w.db.items, Queue.Download, w.clock) == {DownloadKey(i)};
    w := Go(cfg, reach, w, TakeBatch([DownloadKey(i)], true));
    assert [DownloadKey(i)][1..] == [];
    w := Go(cfg, reach, w, Pick);
  }

  // Then the track is ordered, and the worker settles its item.
  lemma FinishedAfterOrder(cfg: Config, reach: World -> bool, w: World, o: OrderId, i: Isrc) returns (w': World)
    requires Closed(cfg, reach) && reach(w) && w.phase == Picked(DownloadKey(i), NoTrack, [], true)
    requires w.db.tracks == map[] && w.db.orders == map[] && w.db.items == map[DownloadKey(i) := NewItem(0)]
    ensures reach(w') && T.Lost(w'.db, i)
  {
    var ordered := OrderedMeanwhile(cfg, reach, w, o, i);
    w' := FinishedOutdated(cfg, reach, ordered, i);
  }

  lemma OrderedMeanwhile(cfg: Config, reach: World -> bool, w: World, o: OrderId, i: Isrc) returns (w': World)
    requires Closed(cfg, reach) && reach(w) && w.phase == Picked(DownloadKey(i), NoTrack, [], true)
    requires w.db.tracks == map[] && w.db.orders == map[] && DownloadKey(i) in w.db.items
    ensures reach(w') && w'.phase == w.phase
    ensures i in w'.db.tracks && w'.db.tracks[i].state.Pending? && DownloadKey(i) in w'.db.items
  {
    w' := Go(cfg, reach, w, PostOrder(o, {i}, 0));
    assert w'.db == CreateOrder(w.db, o, {i}, 0, w.clock);
  }

  lemma FinishedOutdated(cfg: Config, reach: World -> bool, w: World, i: Isrc) returns (w': World)
    requires Closed(cfg, reach) && reach(w) && w.phase == Picked(DownloadKey(i), NoTrack, [], true)
    requires i in w.db.tracks && w.db.tracks[i].state.Pending? && DownloadKey(i) in w.db.items
    ensures reach(w') && T.Lost(w'.db, i)
  {
    w' := Go(cfg, reach, w, ActOnPick);
  }

  /** A track can be ordered and at once lost to the queue. */
  lemma LostWorkIsReachable(cfg: Config, o: OrderId, i: Isrc) returns (w: World)
    requires ValidConfig(cfg)
    ensures T.Reachable(cfg, w) && T.Lost(w.db, i)
  {
    var reach := v => T.Reachable(cfg, v);
    ReachableWorlds(cfg, reach);
    var seen := SeenWithoutTrack(cfg, reach, i);
    w := FinishedAfterOrder(cfg, reach, seen, o, i);
  }

  // ── The two ways to strand a track ───────────────────────────────────────

  lemma UnderWay(cfg: Config, reach: World -> bool, o: OrderId, i: Isrc)
    returns (w: World, t: Track, item: Queue.WorkItem)
    requires ValidConfig(cfg) && TrackSource(i) == "deezer" && Closed(cfg, reach) && reach(EmptyWorld(0))
    ensures reach(w) && w.phase.Idle? && w.clock == 0 && Only(w, i, t, item)
    ensures t.state.Downloading? && item.state.Running? && item.updatedAt == 0
  {
    w := Ordered(cfg, reach, o, i);
    w := Offered(cfg, reach, w, i, NewTrack(i, 0), NewItem(0));
    w := Accepted(cfg, reach, w, i, NewTrack(i, 0), NewItem(0));
    t, item := w.db.tracks[i], w.db.items[DownloadKey(i)];
  }

  lemma ResetStrandsIt(cfg: Config, reach: World -> bool, w: World, i: Isrc, t: Track, item: Queue.WorkItem) returns (w': World)
    requires Closed(cfg, reach) && reach(w) && Only(w, i, t, item) && t.state.Downloading? && item.state.Running?
    ensures reach(w') && T.Stranded(w'.db, i)
  {
    w' := Go(cfg, reach, w, RetryTrack(i));
  }

  /** A download under way is reset, and its track is stranded. */
  lemma StrandedIsReachable(cfg: Config, o: OrderId, i: Isrc) returns (w: World)
    requires ValidConfig(cfg) && TrackSource(i) == "deezer"
    ensures T.Reachable(cfg, w) && T.Stranded(w.db, i)
  {
    var reach := v => T.Reachable(cfg, v);
    ReachableWorlds(cfg, reach);
    var running, t, item := UnderWay(cfg, reach, o, i);
    w := ResetStrandsIt(cfg, reach, running, i, t, item);
  }

  // Half an hour without news, and the queue row of the download counts as stale.
  lemma RecoveredUnderWay(cfg: Config, reach: World -> bool, w: World, i: Isrc, t: Track, item: Queue.WorkItem)
    returns (w': World, item': Queue.WorkItem)
    requires Closed(cfg, reach) && reach(w) && w.phase.Idle? && Only(w, i, t, item)
    requires item.state.Running? && item.updatedAt <= w.clock
    ensures reach(w') && w'.phase.Idle? && Only(w', i, t, item') && Queue.Due(item', w'.clock)
  {
    var waited := Go(cfg, reach, w, Wait(WORK_STALE_SECS));
    item' := item.(state := Queue.Queued, notBefore := None, updatedAt := waited.clock);
    RecoveryOfOnly(i, item, waited.clock);
    w' := Recovered(cfg, reach, waited, i, t, item, item');
  }

  lemma Recovered(cfg: Config, reach: World -> bool, w: World, i: Isrc, t: Track, item: Queue.WorkItem, item': Queue.WorkItem)
    returns (w': World)
    requires Closed(cfg, reach) && reach(w) && w.phase.Idle? && Only(w, i, t, item)
    requires Queue.RecoverStale(w.db.items, w.clock, WORK_STALE_SECS) == map[DownloadKey(i) := item']
    ensures reach(w') && w'.phase.Idle? && w'.clock == w.clock && Only(w', i, t, item')
  {
    w' := Go(cfg, reach, w, RecoverStale);
  }

  lemma RecoveryOfOnly(i: Isrc, item: Queue.WorkItem, now: int)
    requires Queue.Stale(item, now, WORK_STALE_SECS)
    ensures Queue.RecoverStale(map[DownloadKey(i) := item], now, WORK_STALE_SECS)
         == map[DownloadKey(i) := item.(state := Queue.Queued, notBefore := None, updatedAt := now)]
  {
  }

  // With a second slot the worker is offered it again, and sees the track under way.
  lemma SeenUnderWay(cfg: Config, reach: World -> bool, w: World, i: Isrc, t: Track, item: Queue.WorkItem) returns (w': World)
    requires cfg.maxInflight >= 2 && Closed(cfg, reach) && reach(w) && w.phase.Idle? && Only(w, i, t, item)
    requires t.state.Downloading? && Queue.Due(item, w.clock)
    ensures reach(w') && w' == w.(phase := Picked(DownloadKey(i), Sighting.UnderWay, [], true))
  {
    assert DownloadingTracks(w.db) == {i};
    w' := Read(cfg, reach, w);
    w' := Taken(cfg, reach, w', i, t, item);
    assert [DownloadKey(i)][1..] == [];
    w' := Go(cfg, reach, w', Pick);
  }

  // The track is reset meanwhile, and then its item marked running.
  lemma SyncStrandsIt(cfg: Config, reach: World -> bool, w: World, i: Isrc, t: Track, item: Queue.WorkItem)
    returns (reset: World, w': World)
    requires Closed(cfg, reach) && reach(w) && Only(w, i, t, item) && t.state.Downloading? && item.state.Queued?
    requires w.phase == Picked(DownloadKey(i), Sighting.UnderWay, [], true)
    ensures reach(reset) && !T.Stranded(reset.db, i) && Enabled(cfg, reset, ActOnPick)
    ensures w' == Step(cfg, reset, ActOnPick) && reach(w') && T.Stranded(w'.db, i)
  {
    reset := Go(cfg, reach, w, RetryTrack(i));
    w' := SyncedOutdated(cfg, reach, reset, i);
  }

  lemma SyncedOutdated(cfg: Config, reach: World -> bool, w: World, i: Isrc) returns (w': World)
    requires Closed(cfg, reach) && reach(w) && i in w.db.tracks && w.db.tracks[i].state.Pending?
    requires w.phase == Picked(DownloadKey(i), Sighting.UnderWay, [], true)
    ensures Enabled(cfg, w, ActOnPick) && w' == Step(cfg, w, ActOnPick) && reach(w') && T.Stranded(w'.db, i)
  {
    w' := Go(cfg, reach, w, ActOnPick);
  }

  /** With more slots than one, an outdated sync strands a track whose item was queued when it was reset. */
  lemma StrandedBySyncIsReachable(cfg: Config, o: OrderId, i: Isrc) returns (before: World, w: World)
    requires ValidConfig(cfg) && cfg.maxInflight >= 2 && TrackSource(i) == "deezer"
    ensures T.Reachable(cfg, before) && !T.Stranded(before.db, i)
    ensures Enabled(cfg, before, ActOnPick) && w == Step(cfg, before, ActOnPick)
    ensures T.Reachable(cfg, w) && T.Stranded(w.db, i)
  {
    var reach := v => T.Reachable(cfg, v);
    ReachableWorlds(cfg, reach);
    var running, t, item := UnderWay(cfg, reach, o, i);
    var queued, item' := RecoveredUnderWay(cfg, reach, running, i, t, item);
    var seen := SeenUnderWay(cfg, reach, queued, i, t, item');
    before, w := SyncStrandsIt(cfg, reach, seen, i, t, item');
  }

  // ── Reachability is such a set ───────────────────────────────────────────

  ghost predicate EndsIn(cfg: Config, w: World, events: seq<Event>, w': World) {
    ValidRun(cfg, w, events) && After(cfg, w, events) == w'
  }

  lemma Prepend(cfg: Config, w: World, e: Event, events: seq<Event>, w': World)
    requires Enabled(cfg, w, e) && EndsIn(cfg, Step(cfg, w, e), events, w')
    ensures EndsIn(cfg, w, [e] + events, w')
  {
    T.UnfoldRun(cfg, w, e, events);
  }

  lemma {:induction false} Extend(cfg: Config, w: World, events: seq<Event>, w': World, e: Event)
    requires EndsIn(cfg, w, events, w') && Enabled(cfg, w', e)
    ensures EndsIn(cfg, w, events + [e], Step(cfg, w', e))
    decreases |events|
  {
    if events == [] {
      Prepend(cfg, w, e, [], Step(cfg, w, e));
      assert events + [e] == [e] + [];
    } else {
      Extend(cfg, Step(cfg, w, events[0]), events[1..], w', e);
      Prepend(cfg, w, events[0], events[1..] + [e], Step(cfg, w', e));
      assert events + [e] == [events[0]] + (events[1..] + [e]);
    }
  }

  lemma ReachableIsClosed(cfg: Config, w: World, e: Event)
    requires T.Reachable(cfg, w) && Enabled(cfg, w, e)
    ensures T.Reachable(cfg, Step(cfg, w, e))
  {
    var start: int, events: seq<Event> :|
      ValidRun(cfg, EmptyWorld(start), events) && w == After(cfg, EmptyWorld(start), events);
    Extend(cfg, EmptyWorld(start), events, w, e);
  }

  lemma ReachableWorlds(cfg: Config, reach: World -> bool)
    requires forall w :: reach(w) <==> T.Reachable(cfg, w)
    ensures Closed(cfg, reach) && reach(EmptyWorld(0))
  {
    forall w, e | reach(w) && Enabled(cfg, w, e)
      ensures reach(Step(cfg, w, e))
    {
      ReachableIsClosed(cfg, w, e);
    }
    assert ValidRun(cfg, EmptyWorld(0), []) && After(cfg, EmptyWorld(0), []) == EmptyWorld(0);
  }

  /** For every such tuning a download that has failed as often as it may can be under way. */
  lemma SpentDownloadIsReachable(cfg: Config, o: OrderId, i: Isrc) returns (w: World)
    requires TwoTries(cfg) && TrackSource(i) == "deezer"
    ensures T.Reachable(cfg, w) && i in w.db.tracks
    ensures w.db.tracks[i].state.Downloading? && w.db.tracks[i].attempts == cfg.policy.maxAttempts
  {
    var reach := v => T.Reachable(cfg, v);
    ReachableWorlds(cfg, reach);
    w := SpentDownload(cfg, reach, o, i);
  }
}
