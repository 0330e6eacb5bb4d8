/** What holds in every world the process can reach, and how those worlds relate. */
module SchedulerTheorems {
  import opened Wrappers
  import opened Ledger
  import opened Calls
  import opened CallEffects
  import opened LedgerInvariant
  import opened Scheduler
  import opened SchedulerInvariant
  import Queue = WorkQueue

  ghost predicate Reachable(cfg: Config, w: World) {
    exists start: int, events: seq<Event> ::
      ValidRun(cfg, EmptyWorld(start), events) && w == After(cfg, EmptyWorld(start), events)
  }

  lemma ReachableInv(cfg: Config, w: World)
    requires ValidConfig(cfg) && Reachable(cfg, w)
    ensures Inv(cfg, w)
  {
    var start: int, events: seq<Event> :|
      ValidRun(cfg, EmptyWorld(start), events) && w == After(cfg, EmptyWorld(start), events);
    EmptyWorldInv(cfg, start);
    RunKeepsInv(cfg, EmptyWorld(start), events);
  }

  // ── In every reachable world ─────────────────────────────────────────────

  /**
   * What is still to be downloaded has a queue item with an untouched budget; the item is
   * live, unless an outdated finish has just settled it (see below).
   */
  lemma NoLostWork(cfg: Config, w: World, i: Isrc)
    requires ValidConfig(cfg) && Reachable(cfg, w)
    requires i in w.db.tracks && Unfinished(w.db.tracks[i].state)
    ensures DownloadKey(i) in w.db.items
    ensures w.db.items[DownloadKey(i)].attempts == 0
    ensures w.db.items[DownloadKey(i)].state.Queued? || w.db.items[DownloadKey(i)].state.Running? || Lost(w.db, i)
  {
    ReachableInv(cfg, w);
    assert PairOk(TrackOf(w.db, i), ItemOf(w.db, i), cfg.policy.maxAttempts);
  }

  /** The stored status of every order with links is the one derived from its tracks now. */
  lemma OrderStatusIsCurrent(cfg: Config, w: World, o: OrderId, states: seq<TrackState>)
    requires ValidConfig(cfg) && Reachable(cfg, w)
    requires exists i :: Link(o, i) in w.db.links
    requires ListsStates(w.db.tracks, w.db.links, o, states)
    ensures o in w.db.orders && w.db.orders[o].status == DeriveOrderStatus(states)
    ensures forall i :: Link(o, i) in w.db.links ==> i in w.db.tracks
  {
    ReachableInv(cfg, w);
    forall i | Link(o, i) in w.db.links
      ensures LinkOk(w.db, Link(o, i))
    {
    }
    StatusOfListing(w.db.tracks, w.db.links, o, states);
  }

  lemma CancelledHasNoLinks(cfg: Config, w: World, o: OrderId)
    requires Inv(cfg, w) && o in w.db.orders && w.db.orders[o].status.Cancelled?
    ensures forall i :: Link(o, i) !in w.db.links
  {
    assert forall i :: Link(o, i) in w.db.links ==> LinkOk(w.db, Link(o, i));
  }

  /** A cancelled order has no links, and no continuation of the run brings it back. */
  lemma {:induction false} CancelledForever(cfg: Config, w: World, events: seq<Event>, o: OrderId)
    requires ValidConfig(cfg) && Inv(cfg, w) && ValidRun(cfg, w, events)
    requires o in w.db.orders && w.db.orders[o].status.Cancelled?
    ensures var db := After(cfg, w, events).db;
            && o in db.orders && db.orders[o].status.Cancelled?
            && forall i :: Link(o, i) !in db.links
    decreases |events|
  {
    CancelledHasNoLinks(cfg, w, o);
    if events != [] {
      StepKeepsInv(cfg, w, events[0]);
      CancelledStays(w.db, CallOf(cfg, w, events[0]), cfg.policy, w.clock, o);
      CancelledForever(cfg, Step(cfg, w, events[0]), events[1..], o);
    }
  }

  /** The download cap holds although the count is read well before downloads are started. */
  lemma DownloadCapHolds(cfg: Config, w: World)
    requires ValidConfig(cfg) && Reachable(cfg, w)
    ensures |DownloadingTracks(w.db)| <= cfg.maxInflight
  {
    ReachableInv(cfg, w);
  }

  /** So does the cap of every kind whose rows are claimed. */
  lemma RunningCapHolds(cfg: Config, w: World, kind: Queue.Kind)
    requires ValidConfig(cfg) && Reachable(cfg, w) && Claimed(kind)
    ensures |Queue.RunningKeys(w.db.items, kind)| <= KindCap(cfg, kind)
  {
    ReachableInv(cfg, w);
    assert KindCapOk(cfg, w, kind);
  }

  /** A live link's download item is at least as urgent as its order. */
  lemma LinksSetThePriorityFloor(cfg: Config, w: World, o: OrderId, i: Isrc)
    requires ValidConfig(cfg) && Reachable(cfg, w) && Link(o, i) in w.db.links
    ensures o in w.db.orders && DownloadKey(i) in w.db.items
    ensures w.db.items[DownloadKey(i)].priority >= w.db.orders[o].priority
  {
    ReachableInv(cfg, w);
    assert LinkOk(w.db, Link(o, i));
  }

  /** Over any run no queue row disappears and no priority is ever lowered. */
  lemma {:induction false} PrioritiesOnlyRise(cfg: Config, w: World, events: seq<Event>)
    requires ValidRun(cfg, w, events)
    ensures Queue.Rises(w.db.items, After(cfg, w, events).db.items)
    decreases |events|
  {
    if events != [] {
      var w' := Step(cfg, w, events[0]);
      CallRaises(w.db, CallOf(cfg, w, events[0]), cfg.policy, w.clock);
      PrioritiesOnlyRise(cfg, w', events[1..]);
      Queue.RisesTransitive(w.db.items, w'.db.items, After(cfg, w', events[1..]).db.items);
    }
  }

  /**
   * Retry accounting: a pending track still has a try, and unless a counter has run past 32
   * bits a track is re-queued at most `maxAttempts - 1` times between manual resets.
   */
  lemma RetriesAreBounded(cfg: Config, w: World, i: Isrc)
    requires ValidConfig(cfg) && Reachable(cfg, w) && i in w.db.tracks
    ensures w.db.tracks[i].state.Pending? ==> AsU32(w.db.tracks[i].attempts) < cfg.policy.maxAttempts
    ensures w.db.tracks[i].attempts < 0x1_0000_0000 ==> Count(w.requeues, i) <= cfg.policy.maxAttempts - 1
    ensures Count(w.requeues, i) <= w.db.tracks[i].attempts
  {
    ReachableInv(cfg, w);
    assert PairOk(TrackOf(w.db, i), ItemOf(w.db, i), cfg.policy.maxAttempts);
    assert RequeueOk(w.db.tracks[i], Count(w.requeues, i), cfg.policy.maxAttempts);
  }

  /** A claimed row runs at most five times, plus once per stale recovery since it was armed. */
  lemma ClaimedAttemptsAreBounded(cfg: Config, w: World, k: Queue.Key)
    requires ValidConfig(cfg) && Reachable(cfg, w) && k in w.db.items && Claimed(k.kind)
    ensures w.db.items[k].attempts <= Queue.MAX_ATTEMPTS + Count(w.recoveries, k)
  {
    ReachableInv(cfg, w);
    assert BudgetOk(w.db.items[k], Count(w.recoveries, k));
  }

  // ── The finish that comes too late ───────────────────────────────────────

  /** Waiting for a download whose item is settled: no dispatcher is offered it until it is enqueued again. */
  predicate Lost(db: Db, i: Isrc) {
    && i in db.tracks && db.tracks[i].state.Pending?
    && DownloadKey(i) in db.items && db.items[DownloadKey(i)].state.Done?
  }

  /** The worker settles the item of a track that it saw missing or settled, and that is pending by now. */
  predicate FinishesPending(w: World, e: Event, i: Isrc) {
    && e.ActOnPick? && w.phase.Picked? && w.phase.key == DownloadKey(i)
    && (w.phase.sight.NoTrack? || w.phase.sight.SettledAlready?)
    && i in w.db.tracks && w.db.tracks[i].state.Pending?
    && DownloadKey(i) in w.db.items
  }

  lemma OrderCallLosesNothing(db: Db, call: Call, policy: RetryPolicy, now: int, i: Isrc)
    requires Coherent(db, policy.maxAttempts) && OrderCall(call) && !Lost(db, i)
    ensures !Lost(Apply(db, call, policy, now), i)
  {
    assert PairOk(TrackOf(db, i), ItemOf(db, i), policy.maxAttempts);
    if call.CreateOrderCall? {
      EnqueueDownloadsAt(db.items, call.isrcs, call.priority, now, i);
    } else if call.order in db.orders {
      EnqueueDownloadsAt(db.items, LinkedTo(db, call.order), call.priority, now, i);
    }
  }

  lemma TrackCallLosesNothing(db: Db, call: Call, policy: RetryPolicy, now: int, i: Isrc)
    requires Coherent(db, policy.maxAttempts) && Allowed(db, call) && LedgerCall(call) && !OrderCall(call)
    requires !Lost(db, i)
    ensures !Lost(Apply(db, call, policy, now), i)
  {
    assert PairOk(TrackOf(db, i), ItemOf(db, i), policy.maxAttempts);
  }

  lemma QueueCallLoses(db: Db, call: Call, policy: RetryPolicy, now: int, i: Isrc)
    requires Allowed(db, call) && !LedgerCall(call) && !Lost(db, i)
    ensures Lost(Apply(db, call, policy, now), i)
       <==> call == FinishCall(DownloadKey(i)) && i in db.tracks && db.tracks[i].state.Pending? && DownloadKey(i) in db.items
  {
  }

  lemma CallLoses(db: Db, call: Call, policy: RetryPolicy, now: int, i: Isrc)
    requires Coherent(db, policy.maxAttempts) && Allowed(db, call) && !Lost(db, i)
    ensures Lost(Apply(db, call, policy, now), i)
       <==> call == FinishCall(DownloadKey(i)) && i in db.tracks && db.tracks[i].state.Pending? && DownloadKey(i) in db.items
  {
    if OrderCall(call) {
      OrderCallLosesNothing(db, call, policy, now, i);
    } else if LedgerCall(call) {
      TrackCallLosesNothing(db, call, policy, now, i);
    } else {
      QueueCallLoses(db, call, policy, now, i);
    }
  }

  lemma OnlyActOnPickFinishesDownloads(cfg: Config, w: World, e: Event, i: Isrc)
    requires Enabled(cfg, w, e)
    ensures CallOf(cfg, w, e) == FinishCall(DownloadKey(i))
       <==> e.ActOnPick? && w.phase.key == DownloadKey(i) && (w.phase.sight.NoTrack? || w.phase.sight.SettledAlready?)
  {
  }

  /** A waiting track loses its queue item exactly when the dispatcher finishes it on an outdated sighting. */
  lemma LostExactlyByOutdatedFinish(cfg: Config, w: World, e: Event, i: Isrc)
    requires ValidConfig(cfg) && Inv(cfg, w) && Enabled(cfg, w, e) && !Lost(w.db, i)
    ensures Lost(Step(cfg, w, e).db, i) <==> FinishesPending(w, e, i)
  {
    CallsAreAllowed(cfg, w, e);
    CallLoses(w.db, CallOf(cfg, w, e), cfg.policy, w.clock, i);
    OnlyActOnPickFinishesDownloads(cfg, w, e, i);
  }

  ghost predicate NothingLost(db: Db) {
    forall i: Isrc :: !Lost(db, i)
  }

  // At every point of the run nothing is lost.
  ghost predicate NeverLoses(cfg: Config, w: World, events: seq<Event>)
    requires ValidRun(cfg, w, events)
    decreases |events|
  {
    NothingLost(w.db) && (events != [] ==> NeverLoses(cfg, Step(cfg, w, events[0]), events[1..]))
  }

  // The dispatcher never finishes a download that has become pending since it looked.
  ghost predicate FinishesInTime(cfg: Config, w: World, events: seq<Event>)
    requires ValidRun(cfg, w, events)
    decreases |events|
  {
    events != [] ==>
      && (forall i: Isrc :: !FinishesPending(w, events[0], i))
      && FinishesInTime(cfg, Step(cfg, w, events[0]), events[1..])
  }

  /** Over every run: no work is ever lost exactly when no finish acts on an outdated sighting. */
  lemma {:induction false} NoWorkIsLostExactly(cfg: Config, w: World, events: seq<Event>)
    requires ValidConfig(cfg) && Inv(cfg, w) && ValidRun(cfg, w, events) && NothingLost(w.db)
    ensures NeverLoses(cfg, w, events) <==> FinishesInTime(cfg, w, events)
    decreases |events|
  {
    if events != [] {
      var w' := Step(cfg, w, events[0]);
      forall i: Isrc
        ensures Lost(w'.db, i) <==> FinishesPending(w, events[0], i)
      {
        LostExactlyByOutdatedFinish(cfg, w, events[0], i);
      }
      StepKeepsInv(cfg, w, events[0]);
      if NothingLost(w'.db) {
        NoWorkIsLostExactly(cfg, w', events[1..]);
      }
    }
  }

  /** The loss lasts until the track is materialised into the queue again. */
  lemma ReconcilingRestores(cfg: Config, w: World, i: Isrc, priority: int)
    requires Lost(w.db, i) && w.phase.SlotsRead?
    ensures var w' := Step(cfg, w, Reconcile(i, priority));
            DownloadKey(i) in Queue.DueKeys(w'.db.items, Queue.Download, w'.clock)
  {
  }

  // ── The reset that strands a download ────────────────────────────────────

  /** Waiting for a download that no dispatcher will be offered: its item is not queued. */
  predicate Stranded(db: Db, i: Isrc) {
    && i in db.tracks && db.tracks[i].state.Pending?
    && DownloadKey(i) in db.items && db.items[DownloadKey(i)].state.Running?
  }

  /** A reset leaves a running item running. */
  predicate ResetStrands(db: Db, i: Isrc) {
    Resettable(db, i) && DownloadKey(i) in db.items && db.items[DownloadKey(i)].state.Running?
  }

  /** So does a late sync: the worker marks the item of a track running that it saw under way, and that is pending by now. */
  predicate SyncStrands(db: Db, i: Isrc) {
    i in db.tracks && db.tracks[i].state.Pending?
  }

  predicate InFlight(db: Db, i: Isrc) {
    && i in db.tracks && db.tracks[i].state.Downloading?
    && DownloadKey(i) in db.items && db.items[DownloadKey(i)].state.Running?
  }

  predicate CallStrandsAt(db: Db, call: Call, i: Isrc) {
    (call == ResetCall(i) && ResetStrands(db, i)) || (call == SyncRunningCall(DownloadKey(i)) && SyncStrands(db, i))
  }

  lemma OrderCallStrands(db: Db, call: Call, policy: RetryPolicy, now: int, i: Isrc)
    requires Coherent(db, policy.maxAttempts) && OrderCall(call) && !Stranded(db, i)
    ensures !Stranded(Apply(db, call, policy, now), i)
  {
    assert PairOk(TrackOf(db, i), ItemOf(db, i), policy.maxAttempts);
    if call.CreateOrderCall? {
      EnqueueDownloadsAt(db.items, call.isrcs, call.priority, now, i);
    } else if call.order in db.orders {
      EnqueueDownloadsAt(db.items, LinkedTo(db, call.order), call.priority, now, i);
    }
  }

  lemma TrackCallStrands(db: Db, call: Call, policy: RetryPolicy, now: int, i: Isrc)
    requires Coherent(db, policy.maxAttempts) && Allowed(db, call) && LedgerCall(call) && !OrderCall(call)
    requires !Stranded(db, i)
    ensures Stranded(Apply(db, call, policy, now), i) <==> call == ResetCall(i) && ResetStrands(db, i)
  {
    assert PairOk(TrackOf(db, i), ItemOf(db, i), policy.maxAttempts);
  }

  lemma QueueCallStrands(db: Db, call: Call, policy: RetryPolicy, now: int, i: Isrc)
    requires Coherent(db, policy.maxAttempts) && Allowed(db, call) && !LedgerCall(call) && !Stranded(db, i)
    ensures Stranded(Apply(db, call, policy, now), i)
       <==> call == SyncRunningCall(DownloadKey(i)) && SyncStrands(db, i)
  {
    assert PairOk(TrackOf(db, i), ItemOf(db, i), policy.maxAttempts);
  }

  lemma CallStrands(db: Db, call: Call, policy: RetryPolicy, now: int, i: Isrc)
    requires Coherent(db, policy.maxAttempts) && Allowed(db, call) && !Stranded(db, i)
    ensures Stranded(Apply(db, call, policy, now), i) <==> CallStrandsAt(db, call, i)
  {
    if OrderCall(call) {
      OrderCallStrands(db, call, policy, now, i);
    } else if LedgerCall(call) {
      TrackCallStrands(db, call, policy, now, i);
    } else {
      QueueCallStrands(db, call, policy, now, i);
    }
  }

  /**
   * A waiting track's item becomes stuck at running in two ways only: the track is reset while
   * its item runs, or the dispatcher marks the item running on an outdated sighting.
   */
  lemma StrandedExactly(cfg: Config, w: World, e: Event, i: Isrc)
    requires ValidConfig(cfg) && Inv(cfg, w) && Enabled(cfg, w, e) && !Stranded(w.db, i)
    ensures Stranded(Step(cfg, w, e).db, i)
       <==> || (e == RetryTrack(i) && ResetStrands(w.db, i))
            || (e.ActOnPick? && w.phase.key == DownloadKey(i) && w.phase.sight.UnderWay? && SyncStrands(w.db, i))
  {
    CallsAreAllowed(cfg, w, e);
    CallStrands(w.db, CallOf(cfg, w, e), cfg.policy, w.clock, i);
    OnlyRetryTrackResets(cfg, w, e, i);
    OnlyActOnPickSyncs(cfg, w, e, i);
  }

  lemma OnlyRetryTrackResets(cfg: Config, w: World, e: Event, i: Isrc)
    requires Enabled(cfg, w, e)
    ensures CallOf(cfg, w, e) == ResetCall(i) <==> e == RetryTrack(i)
  {
  }

  lemma OnlyActOnPickSyncs(cfg: Config, w: World, e: Event, i: Isrc)
    requires Enabled(cfg, w, e)
    ensures CallOf(cfg, w, e) == SyncRunningCall(DownloadKey(i))
       <==> e.ActOnPick? && w.phase.key == DownloadKey(i) && w.phase.sight.UnderWay?
  {
  }

  /** Every other pending track is queued, or lost until it is enqueued again. */
  lemma PendingIsQueuedStrandedOrLost(cfg: Config, w: World, i: Isrc)
    requires ValidConfig(cfg) && Reachable(cfg, w)
    requires i in w.db.tracks && w.db.tracks[i].state.Pending?
    ensures DownloadKey(i) in w.db.items
    ensures !Stranded(w.db, i) && !Lost(w.db, i) <==> w.db.items[DownloadKey(i)].state.Queued?
  {
    NoLostWork(cfg, w, i);
  }

  lemma StrandedIsNeverOffered(w: World, i: Isrc, slots: int, batch: seq<Queue.Key>)
    requires Stranded(w.db, i)
    requires Queue.IsBatch(w.db.items, Queue.Download, slots, w.clock, batch)
    ensures DownloadKey(i) !in batch
  {
  }

  // ── What ends it ─────────────────────────────────────────────────────────

  /** The calls that free a stranded item: all of one track, or recovery of a stale row. */
  predicate Frees(db: Db, call: Call, now: int, i: Isrc)
    requires Stranded(db, i)
  {
    match call
    case StartCall(j, _) => j == i
    case SettleCall(j, _) => j == i
    case RetryCall(j) => j == i
    case IngestCall(j) => j == i
    case FinishCall(k) => k == DownloadKey(i)
    case RecoverStaleCall => Queue.Stale(db.items[DownloadKey(i)], now, WORK_STALE_SECS)
    case _ => false
  }

  lemma OrderCallFrees(db: Db, call: Call, policy: RetryPolicy, now: int, i: Isrc)
    requires Stranded(db, i) && OrderCall(call)
    ensures Stranded(Apply(db, call, policy, now), i)
  {
    if call.CreateOrderCall? {
      EnqueueDownloadsAt(db.items, call.isrcs, call.priority, now, i);
    } else if call.order in db.orders {
      EnqueueDownloadsAt(db.items, LinkedTo(db, call.order), call.priority, now, i);
    }
  }

  lemma TrackCallFrees(db: Db, call: Call, policy: RetryPolicy, now: int, i: Isrc)
    requires Stranded(db, i) && Allowed(db, call) && LedgerCall(call) && !OrderCall(call)
    requires db.items[DownloadKey(i)].attempts < db.items[DownloadKey(i)].maxAttempts
    ensures !Stranded(Apply(db, call, policy, now), i) <==> Frees(db, call, now, i)
  {
  }

  lemma QueueCallFrees(db: Db, call: Call, policy: RetryPolicy, now: int, i: Isrc)
    requires Stranded(db, i) && Allowed(db, call) && !LedgerCall(call)
    ensures !Stranded(Apply(db, call, policy, now), i) <==> Frees(db, call, now, i)
  {
  }

  /**
   * A stranded download is freed exactly by the recovery of a stale row, or by a start, settle,
   * retry, ingest or finish of that very track.
   */
  lemma StrandedEndsExactly(cfg: Config, w: World, e: Event, i: Isrc)
    requires ValidConfig(cfg) && Inv(cfg, w) && Enabled(cfg, w, e) && Stranded(w.db, i)
    ensures !Stranded(Step(cfg, w, e).db, i) <==> Frees(w.db, CallOf(cfg, w, e), w.clock, i)
  {
    var call := CallOf(cfg, w, e);
    CallsAreAllowed(cfg, w, e);
    assert PairOk(TrackOf(w.db, i), ItemOf(w.db, i), cfg.policy.maxAttempts);
    if OrderCall(call) {
      OrderCallFrees(w.db, call, cfg.policy, w.clock, i);
    } else if LedgerCall(call) {
      TrackCallFrees(w.db, call, cfg.policy, w.clock, i);
    } else {
      QueueCallFrees(w.db, call, cfg.policy, w.clock, i);
    }
  }

  /** Nothing the process still holds leads back to the track: no task, and no list the worker walks. */
  predicate Forgotten(w: World, i: Isrc) {
    && i !in w.finalizing && i !in w.fetching
    && match w.phase
       case Reaping(lapsed) => i !in lapsed
       case Dispatching(offered, _) => DownloadKey(i) !in offered
       case Picked(k, _, later, _) => k != DownloadKey(i) && DownloadKey(i) !in later
       case Resolving(j, remaining, _) => j != i && DownloadKey(i) !in remaining
       case Polling(polled) => i !in polled
       case _ => true
  }

  /** The two events that can still free a forgotten track: a file from outside, and a recovery that finds its row stale. */
  predicate Rescues(w: World, e: Event, i: Isrc)
    requires Stranded(w.db, i)
  {
    e == IngestFile(i) || (e.RecoverStale? && Queue.Stale(w.db.items[DownloadKey(i)], w.clock, WORK_STALE_SECS))
  }

  lemma ForgottenStaysForgotten(cfg: Config, w: World, e: Event, i: Isrc)
    requires Inv(cfg, w) && Enabled(cfg, w, e) && Stranded(w.db, i) && Forgotten(w, i)
    ensures Forgotten(Step(cfg, w, e), i)
  {
    if e.TakeBatch? {
      StrandedIsNeverOffered(w, i, Min(w.phase.slots, DISPATCH_BATCH), e.batch);
    }
    PhaseForgets(cfg, w, e, i);
    TasksForget(cfg, w, e, i);
  }

  lemma PhaseForgets(cfg: Config, w: World, e: Event, i: Isrc)
    requires HeldOk(w) && Enabled(cfg, w, e) && Stranded(w.db, i) && Forgotten(w, i)
    requires e.TakeBatch? ==> DownloadKey(i) !in e.batch
    ensures Forgotten(w.(phase := PhaseAfter(cfg, w, e)), i)
  {
  }

  lemma TasksForget(cfg: Config, w: World, e: Event, i: Isrc)
    requires HeldOk(w) && Enabled(cfg, w, e) && Forgotten(w, i)
    ensures i !in FinalizingAfter(cfg, w, e) && i !in FetchingAfter(cfg, w, e)
  {
    if e.ActOnPick? {
      assert w.phase.key == DownloadKey(w.phase.key.reference);
    }
  }

  lemma ForgottenFreesExactly(cfg: Config, w: World, e: Event, i: Isrc)
    requires HeldOk(w) && Enabled(cfg, w, e) && Stranded(w.db, i) && Forgotten(w, i)
    ensures Frees(w.db, CallOf(cfg, w, e), w.clock, i) <==> Rescues(w, e, i)
  {
    if ActsOnRead(e) {
      ForgottenIsNotActedOn(cfg, w, e, i);
    } else {
      OthersFreeByRescue(cfg, w, e, i);
    }
  }

  lemma ForgottenIsNotActedOn(cfg: Config, w: World, e: Event, i: Isrc)
    requires HeldOk(w) && Enabled(cfg, w, e) && Stranded(w.db, i) && Forgotten(w, i) && ActsOnRead(e)
    ensures !Frees(w.db, CallOf(cfg, w, e), w.clock, i)
  {
    if e.ActOnPick? {
      assert w.phase.key == DownloadKey(w.phase.key.reference);
    }
  }

  lemma OthersFreeByRescue(cfg: Config, w: World, e: Event, i: Isrc)
    requires Enabled(cfg, w, e) && Stranded(w.db, i) && Forgotten(w, i) && !ActsOnRead(e)
    ensures Frees(w.db, CallOf(cfg, w, e), w.clock, i) <==> Rescues(w, e, i)
  {
  }

  // Along the run the track is stranded at every point.
  ghost predicate StaysStranded(cfg: Config, w: World, events: seq<Event>, i: Isrc)
    requires ValidRun(cfg, w, events)
    decreases |events|
  {
    Stranded(w.db, i) && (events != [] ==> StaysStranded(cfg, Step(cfg, w, events[0]), events[1..], i))
  }

  // No event of the run rescues the track, as long as it is stranded.
  ghost predicate NeverRescued(cfg: Config, w: World, events: seq<Event>, i: Isrc)
    requires ValidRun(cfg, w, events)
    decreases |events|
  {
    Stranded(w.db, i) && events != [] ==>
      !Rescues(w, events[0], i) && NeverRescued(cfg, Step(cfg, w, events[0]), events[1..], i)
  }

  /**
   * Over every run, whatever else happens: once nothing holds a stranded track any more, it
   * stays stranded, and so is never dispatched, exactly as long as no file for it comes from
   * outside and no recovery finds its queue row untouched for half an hour.
   */
  lemma {:induction false} ForgottenStaysStrandedExactly(cfg: Config, w: World, events: seq<Event>, i: Isrc)
    requires ValidConfig(cfg) && Inv(cfg, w) && ValidRun(cfg, w, events)
    requires Stranded(w.db, i) && Forgotten(w, i)
    ensures StaysStranded(cfg, w, events, i) <==> NeverRescued(cfg, w, events, i)
    ensures NeverRescued(cfg, w, events, i) ==> Forgotten(After(cfg, w, events), i)
    decreases |events|
  {
    if events != [] {
      var w' := Step(cfg, w, events[0]);
      StrandedEndsExactly(cfg, w, events[0], i);
      ForgottenFreesExactly(cfg, w, events[0], i);
      ForgottenStaysForgotten(cfg, w, events[0], i);
      StepKeepsInv(cfg, w, events[0]);
      if Stranded(w'.db, i) {
        ForgottenStaysStrandedExactly(cfg, w', events[1..], i);
      }
    }
  }

  // One undisturbed tick, as far as it concerns track i: stale rows are recovered, the
  // free slots read, and the pending track materialised into the queue again.
  function Tick(wait: nat, i: Isrc, priority: int): seq<Event> {
    [Wait(wait), RecoverStale, ReadSlots, Reconcile(i, priority), EndPhase]
  }

  function Ticks(waits: seq<nat>, i: Isrc, priority: int): seq<Event> {
    if waits == [] then [] else Tick(waits[0], i, priority) + Ticks(waits[1..], i, priority)
  }

  // The queue row was touched just now and a slot is free.
  predicate FreshlyStranded(cfg: Config, w: World, i: Isrc) {
    && Stranded(w.db, i) && w.phase.Idle?
    && w.db.items[DownloadKey(i)].updatedAt == w.clock
    && |DownloadingTracks(w.db)| < cfg.maxInflight
  }

  lemma RecoveryPassesOver(cfg: Config, w: World, i: Isrc)
    requires Stranded(w.db, i) && w.phase.Idle?
    requires w.db.items[DownloadKey(i)].updatedAt > w.clock - WORK_STALE_SECS
    ensures var w' := Step(cfg, w, RecoverStale);
            && w'.db.tracks == w.db.tracks && w'.clock == w.clock && w'.phase == w.phase
            && Stranded(w'.db, i)
  {
  }

  lemma SlotsAreFree(cfg: Config, w: World)
    requires w.phase.Idle? && |DownloadingTracks(w.db)| < cfg.maxInflight
    ensures var w' := Step(cfg, w, ReadSlots);
            w'.db == w.db && w'.clock == w.clock && w'.phase.SlotsRead?
  {
  }

  lemma ReconcilingTouches(cfg: Config, w: World, i: Isrc, priority: int)
    requires Stranded(w.db, i) && w.phase.SlotsRead?
    ensures var w' := Step(cfg, w, Reconcile(i, priority));
            && w'.db.tracks == w.db.tracks && w'.clock == w.clock
            && Stranded(w'.db, i) && w'.db.items[DownloadKey(i)].updatedAt == w.clock
  {
  }

  lemma SameTracksSameDownloads(db: Db, db': Db)
    requires db.tracks == db'.tracks
    ensures DownloadingTracks(db) == DownloadingTracks(db')
  {
  }

  // Continuing from w with `events` first is continuing from w'.
  ghost predicate LeadsTo(cfg: Config, w: World, events: seq<Event>, w': World, rest: seq<Event>) {
    ValidRun(cfg, w', rest) ==>
      ValidRun(cfg, w, events + rest) && After(cfg, w, events + rest) == After(cfg, w', rest)
  }

  lemma UnfoldTwo(cfg: Config, w: World, a: Event, b: Event, rest: seq<Event>)
    requires Enabled(cfg, w, a) && Enabled(cfg, Step(cfg, w, a), b)
    ensures LeadsTo(cfg, w, [a, b], Step(cfg, Step(cfg, w, a), b), rest)
  {
    UnfoldRun(cfg, Step(cfg, w, a), b, rest);
    UnfoldRun(cfg, w, a, [b] + rest);
    assert [a, b] + rest == [a] + ([b] + rest);
  }

  lemma WaitAndRecover(cfg: Config, w: World, wait: nat, i: Isrc, rest: seq<Event>) returns (w': World)
    requires FreshlyStranded(cfg, w, i) && wait < WORK_STALE_SECS
    ensures Stranded(w'.db, i) && w'.phase.Idle? && w'.db.tracks == w.db.tracks
    ensures LeadsTo(cfg, w, [Wait(wait), RecoverStale], w', rest)
  {
    var waited := Step(cfg, w, Wait(wait));
    RecoveryPassesOver(cfg, waited, i);
    w' := Step(cfg, waited, RecoverStale);
    UnfoldTwo(cfg, w, Wait(wait), RecoverStale, rest);
  }

  lemma ReadAndReconcile(cfg: Config, w: World, i: Isrc, priority: int, rest: seq<Event>) returns (w': World)
    requires Stranded(w.db, i) && w.phase.Idle? && |DownloadingTracks(w.db)| < cfg.maxInflight
    ensures Stranded(w'.db, i) && w'.phase.SlotsRead? && w'.db.tracks == w.db.tracks
    ensures w'.db.items[DownloadKey(i)].updatedAt == w'.clock
    ensures LeadsTo(cfg, w, [ReadSlots, Reconcile(i, priority)], w', rest)
  {
    SlotsAreFree(cfg, w);
    var read := Step(cfg, w, ReadSlots);
    ReconcilingTouches(cfg, read, i, priority);
    w' := Step(cfg, read, Reconcile(i, priority));
    UnfoldTwo(cfg, w, ReadSlots, Reconcile(i, priority), rest);
  }

  // Recovery passes the row over and reconciling it only touches it.
  lemma TickLeavesRow(cfg: Config, w: World, wait: nat, i: Isrc, priority: int, rest: seq<Event>) returns (w': World)
    requires FreshlyStranded(cfg, w, i) && wait < WORK_STALE_SECS
    ensures FreshlyStranded(cfg, w', i)
    ensures LeadsTo(cfg, w, Tick(wait, i, priority), w', rest)
  {
    var last := [EndPhase] + rest;
    var middle := [ReadSlots, Reconcile(i, priority)] + last;
    var recovered := WaitAndRecover(cfg, w, wait, i, middle);
    SameTracksSameDownloads(w.db, recovered.db);
    var reconciled := ReadAndReconcile(cfg, recovered, i, priority, last);
    SameTracksSameDownloads(w.db, reconciled.db);
    w' := EndTick(cfg, reconciled, rest);
    assert Tick(wait, i, priority) + rest == [Wait(wait), RecoverStale] + middle;
  }

  lemma EndTick(cfg: Config, w: World, rest: seq<Event>) returns (w': World)
    ensures w' == w.(phase := Idle)
    ensures LeadsTo(cfg, w, [EndPhase], w', rest)
  {
    w' := Step(cfg, w, EndPhase);
    UnfoldRun(cfg, w, EndPhase, rest);
  }

  lemma UnfoldRun(cfg: Config, w: World, e: Event, rest: seq<Event>)
    requires Enabled(cfg, w, e)
    ensures ValidRun(cfg, w, [e] + rest) <==> ValidRun(cfg, Step(cfg, w, e), rest)
    ensures ValidRun(cfg, Step(cfg, w, e), rest) ==>
              After(cfg, w, [e] + rest) == After(cfg, Step(cfg, w, e), rest)
  {
    assert ([e] + rest)[1..] == rest;
  }

  /**
   * However many ticks pass, a stranded download stays stranded as long as the worker ticks at
   * least every half hour with a free slot: reconciling the track touches its queue row, so
   * the row never looks stale.
   */
  lemma {:induction false} TicksNeverRescue(cfg: Config, w: World, waits: seq<nat>, i: Isrc, priority: int)
    requires FreshlyStranded(cfg, w, i)
    requires forall n :: 0 <= n < |waits| ==> waits[n] < WORK_STALE_SECS
    ensures ValidRun(cfg, w, Ticks(waits, i, priority))
    ensures Stranded(After(cfg, w, Ticks(waits, i, priority)).db, i)
    decreases |waits|
  {
    if waits != [] {
      var rest := Ticks(waits[1..], i, priority);
      var w' := TickLeavesRow(cfg, w, waits[0], i, priority, rest);
      TicksNeverRescue(cfg, w', waits[1..], i, priority);
    }
  }

  // One undisturbed tick of a worker without a free slot: it reconciles nothing.
  function FullTick(wait: nat): seq<Event> {
    [Wait(wait), RecoverStale, ReadSlots]
  }

  function FullTicks(waits: seq<nat>): seq<Event> {
    if waits == [] then [] else FullTick(waits[0]) + FullTicks(waits[1..])
  }

  function Sum(waits: seq<nat>): nat {
    if waits == [] then 0 else waits[0] + Sum(waits[1..])
  }

  predicate Full(cfg: Config, w: World) {
    w.phase.Idle? && |DownloadingTracks(w.db)| >= cfg.maxInflight
  }

  ghost predicate DueNow(w: World, i: Isrc) {
    DownloadKey(i) in Queue.DueKeys(w.db.items, Queue.Download, w.clock)
  }

  lemma FullTickRecovers(cfg: Config, w: World, wait: nat, rest: seq<Event>) returns (w': World)
    requires Full(cfg, w)
    ensures Full(cfg, w') && w'.clock == w.clock + wait
    ensures w'.db == w.db.(items := Queue.RecoverStale(w.db.items, w.clock + wait, WORK_STALE_SECS))
    ensures LeadsTo(cfg, w, FullTick(wait), w', rest)
  {
    w' := WaitedAndRecovered(cfg, w, wait);
    NoSlotNoChange(cfg, w');
    UnfoldRun(cfg, w', ReadSlots, rest);
    UnfoldTwo(cfg, w, Wait(wait), RecoverStale, [ReadSlots] + rest);
    assert [Wait(wait), RecoverStale] + ([ReadSlots] + rest) == FullTick(wait) + rest;
  }

  lemma WaitedAndRecovered(cfg: Config, w: World, wait: nat) returns (w': World)
    requires Full(cfg, w)
    ensures w' == Step(cfg, Step(cfg, w, Wait(wait)), RecoverStale)
    ensures Full(cfg, w') && w'.clock == w.clock + wait
    ensures w'.db == w.db.(items := Queue.RecoverStale(w.db.items, w.clock + wait, WORK_STALE_SECS))
  {
    w' := Step(cfg, Step(cfg, w, Wait(wait)), RecoverStale);
    SameTracksSameDownloads(w.db, w'.db);
  }

  lemma NoSlotNoChange(cfg: Config, w: World)
    requires Full(cfg, w)
    ensures Step(cfg, w, ReadSlots) == w
  {
  }

  lemma RecoveryByAge(rows: Queue.Rows, i: Isrc, now: int)
    requires DownloadKey(i) in rows && rows[DownloadKey(i)].state.Running?
    ensures var rows' := Queue.RecoverStale(rows, now, WORK_STALE_SECS);
            if rows[DownloadKey(i)].updatedAt <= now - WORK_STALE_SECS
            then DownloadKey(i) in Queue.DueKeys(rows', Queue.Download, now)
            else DownloadKey(i) in rows' && rows'[DownloadKey(i)] == rows[DownloadKey(i)]
  {
  }

  lemma DueStaysDue(rows: Queue.Rows, i: Isrc, now: int, later: int)
    requires DownloadKey(i) in Queue.DueKeys(rows, Queue.Download, now) && now <= later
    ensures DownloadKey(i) in Queue.DueKeys(Queue.RecoverStale(rows, later, WORK_STALE_SECS), Queue.Download, later)
  {
  }

  lemma {:induction false} DueThroughFullTicks(cfg: Config, w: World, waits: seq<nat>, i: Isrc)
    requires Full(cfg, w) && DueNow(w, i)
    ensures ValidRun(cfg, w, FullTicks(waits)) && DueNow(After(cfg, w, FullTicks(waits)), i)
    decreases |waits|
  {
    if waits != [] {
      var w' := FullTickRecovers(cfg, w, waits[0], FullTicks(waits[1..]));
      DueStaysDue(w.db.items, i, w.clock, w'.clock);
      DueThroughFullTicks(cfg, w', waits[1..], i);
    }
  }

  /**
   * With all slots taken a ticking worker reconciles nothing, and the row grows old: a stranded
   * track is due again exactly when the ticks, however long each, bring its row to half an hour.
   */
  lemma {:induction false} FullWorkerRescuesExactly(cfg: Config, w: World, waits: seq<nat>, i: Isrc)
    requires Full(cfg, w) && Stranded(w.db, i) && waits != []
    ensures ValidRun(cfg, w, FullTicks(waits))
    ensures var w' := After(cfg, w, FullTicks(waits));
            if w.db.items[DownloadKey(i)].updatedAt <= w.clock + Sum(waits) - WORK_STALE_SECS
            then DueNow(w', i) else Stranded(w'.db, i)
    decreases |waits|
  {
    var rest := FullTicks(waits[1..]);
    var w' := FullTickRecovers(cfg, w, waits[0], rest);
    RecoveryByAge(w.db.items, i, w'.clock);
    if DueNow(w', i) {
      DueThroughFullTicks(cfg, w', waits[1..], i);
    } else if waits[1..] == [] {
      assert rest == [] && ValidRun(cfg, w', rest) && After(cfg, w', rest) == w';
    } else {
      FullWorkerRescuesExactly(cfg, w', waits[1..], i);
      assert w'.clock + Sum(waits[1..]) == w.clock + Sum(waits);
    }
    assert FullTicks(waits) == FullTick(waits[0]) + rest;
    assert ValidRun(cfg, w, FullTicks(waits)) && After(cfg, w, FullTicks(waits)) == After(cfg, w', rest);
  }

  /** Left untouched for half an hour, the row is recovered and due at once. */
  lemma UntouchedRowsAreRecovered(cfg: Config, w: World, i: Isrc)
    requires Stranded(w.db, i) && w.phase.Idle?
    requires w.db.items[DownloadKey(i)].updatedAt <= w.clock - WORK_STALE_SECS
    ensures DownloadKey(i) in Queue.DueKeys(Step(cfg, w, RecoverStale).db.items, Queue.Download, w.clock)
  {
  }

  /** Resetting a download in flight strands it, and no sequence of undisturbed half-hourly ticks brings it back. */
  lemma ResetInFlightOutlastsTicks(cfg: Config, w: World, i: Isrc, waits: seq<nat>, priority: int)
    requires ValidConfig(cfg) && Inv(cfg, w) && w.phase.Idle? && InFlight(w.db, i)
    requires forall n :: 0 <= n < |waits| ==> waits[n] < WORK_STALE_SECS
    ensures var events := [RetryTrack(i)] + Ticks(waits, i, priority);
            ValidRun(cfg, w, events) && Stranded(After(cfg, w, events).db, i)
  {
    var w' := Step(cfg, w, RetryTrack(i));
    ResetFreesItsSlot(cfg, w, i);
    TicksNeverRescue(cfg, w', waits, i, priority);
    UnfoldRun(cfg, w, RetryTrack(i), Ticks(waits, i, priority));
  }

  lemma ResetFreesItsSlot(cfg: Config, w: World, i: Isrc)
    requires CapOk(cfg, w) && w.phase.Idle? && InFlight(w.db, i)
    ensures FreshlyStranded(cfg, Step(cfg, w, RetryTrack(i)), i)
  {
    var before := DownloadingTracks(w.db);
    var after := DownloadingTracks(ResetTrackToPending(w.db, i, w.clock));
    assert i in before;
    assert after <= before - {i};
    Queue.SubsetCardinality(after, before - {i});
  }

  // ── The answer that arrives too late ─────────────────────────────────────

  /** A download under way still has a try left. */
  predicate WithinBudget(db: Db, i: Isrc, maxAttempts: nat) {
    i in db.tracks && db.tracks[i].state.Downloading? ==> AsU32(db.tracks[i].attempts) < maxAttempts
  }

  predicate Spent(db: Db, i: Isrc, maxAttempts: nat) {
    i in db.tracks && AsU32(db.tracks[i].attempts) >= maxAttempts
  }

  lemma CallKeepsBudget(db: Db, call: Call, policy: RetryPolicy, now: int, i: Isrc)
    requires Coherent(db, policy.maxAttempts) && 1 <= policy.maxAttempts && Allowed(db, call)
    requires WithinBudget(db, i, policy.maxAttempts)
    ensures WithinBudget(Apply(db, call, policy, now), i, policy.maxAttempts)
            <==> !(call.StartCall? && call.isrc == i && Spent(db, i, policy.maxAttempts))
  {
    if !call.RetryCall? && !call.ResetCall? && i in db.tracks {
      OthersKeepAttempts(db, call, policy, now, i);
    }
    if !call.StartCall? {
      OthersStartNothing(db, call, policy, now);
      assert i in DownloadingTracks(Apply(db, call, policy, now)) ==> i in DownloadingTracks(db);
    }
  }

  /** The worker starts a download on what it saw earlier: a lookup's answer, or a fetchable track. */
  predicate StartsFromSight(w: World, e: Event, i: Isrc) {
    || (e == Resolve(QueuedAtDeemix) && w.phase.Resolving? && w.phase.isrc == i)
    || (e.ActOnPick? && w.phase.Picked? && w.phase.sight.ToFetch? && w.phase.key.reference == i)
  }

  /**
   * A download leaves its budget in exactly one way: the track spent its last try between the
   * worker's look at it and the start. A track still pending at the start has not.
   */
  lemma BudgetLeftOnlyByLateStart(cfg: Config, w: World, e: Event, i: Isrc)
    requires ValidConfig(cfg) && Inv(cfg, w) && Enabled(cfg, w, e)
    requires WithinBudget(w.db, i, cfg.policy.maxAttempts)
    ensures WithinBudget(Step(cfg, w, e).db, i, cfg.policy.maxAttempts)
            <==> !(StartsFromSight(w, e, i) && Spent(w.db, i, cfg.policy.maxAttempts))
    ensures i in w.db.tracks && w.db.tracks[i].state.Pending? ==> !Spent(w.db, i, cfg.policy.maxAttempts)
  {
    assert PairOk(TrackOf(w.db, i), ItemOf(w.db, i), cfg.policy.maxAttempts);
    CallsAreAllowed(cfg, w, e);
    CallKeepsBudget(w.db, CallOf(cfg, w, e), cfg.policy, w.clock, i);
    StartsComeFromSight(cfg, w, e, i);
  }

  lemma StartsComeFromSight(cfg: Config, w: World, e: Event, i: Isrc)
    requires Enabled(cfg, w, e)
    ensures CallOf(cfg, w, e).StartCall? && CallOf(cfg, w, e).isrc == i <==> StartsFromSight(w, e, i)
  {
    if !ActsOnRead(e) {
      OtherCallsAreAllowed(cfg, w, e);
    }
  }
}
