/** The invariant of the scheduler, kept by every event and so by every run. */
module SchedulerInvariant {
  import opened Wrappers
  import opened Ledger
  import opened Calls
  import opened CallEffects
  import opened LedgerInvariant
  import opened Scheduler
  import Queue = WorkQueue

  // Downloads the worker may still start on the strength of the slots it read.
  function Promised(p: Phase): nat {
    match p
    case SlotsRead(slots) => Max(slots, 0)
    case Dispatching(offered, _) => |offered|
    case Picked(_, sight, later, _) => if sight.ToFetch? then 1 + |later| else |later|
    case Resolving(_, remaining, _) => 1 + |remaining|
    case _ => 0
  }

  // Rows of `kind` the worker may still claim.
  function PromisedClaims(p: Phase, kind: Queue.Kind): nat {
    match p
    case FreeRead(k, free) => if k == kind then Max(free, 0) else 0
    case Draining(k, leads) => if k == kind then |leads| else 0
    case _ => 0
  }

  ghost predicate CapOk(cfg: Config, w: World) {
    |DownloadingTracks(w.db)| + Promised(w.phase) <= cfg.maxInflight
  }

  ghost predicate KindCapOk(cfg: Config, w: World, kind: Queue.Kind) {
    |Queue.RunningKeys(w.db.items, kind)| + PromisedClaims(w.phase, kind) <= KindCap(cfg, kind)
  }

  predicate OfKind(keys: seq<Queue.Key>, kind: Queue.Kind) {
    forall n :: 0 <= n < |keys| ==> keys[n].kind == kind
  }

  // What the worker and its tasks hold refers to rows that exist and are of the right kind.
  ghost predicate HeldOk(w: World) {
    TasksOk(w) && PhaseOk(w.db, w.phase)
  }

  ghost predicate TasksOk(w: World) {
    && (forall i :: i in w.finalizing ==> i in w.db.tracks)
    && (forall i :: i in w.fetching ==> i in w.db.tracks)
  }

  ghost predicate PhaseOk(db: Db, phase: Phase) {
    match phase
    case Dispatching(offered, _) => OfKind(offered, Queue.Download)
    case Picked(k, sight, later, _) => k.kind.Download? && OfKind(later, Queue.Download) && SightOk(db, k.reference, sight)
    case Resolving(i, remaining, _) => i in db.tracks && OfKind(remaining, Queue.Download)
    case Polling(polled) => forall i :: i in polled ==> i in db.tracks
    case FreeRead(kind, _) => Claimed(kind)
    case Draining(kind, leads) => Claimed(kind) && OfKind(leads, kind)
    case _ => true
  }

  // What stays true of a sighting, however old: rows are never deleted, and only the worker starts downloads.
  predicate SightOk(db: Db, i: Isrc, sight: Sighting) {
    && (sight.UnderWay? || sight.ToFetch? ==> i in db.tracks)
    && (sight.NoTrack? || sight.SettledAlready? ==> i in db.tracks ==> !db.tracks[i].state.Downloading?)
  }

  ghost predicate Inv(cfg: Config, w: World) {
    && Coherent(w.db, cfg.policy.maxAttempts)
    && HeldOk(w)
    && CapOk(cfg, w)
    && (forall kind :: Claimed(kind) ==> KindCapOk(cfg, w, kind))
    && BudgetsOk(w.db, w.recoveries)
    && RequeuesOk(w.db, w.requeues, cfg.policy.maxAttempts)
  }

  lemma EmptyWorldInv(cfg: Config, start: int)
    requires ValidConfig(cfg)
    ensures Inv(cfg, EmptyWorld(start))
  {
    var w := EmptyWorld(start);
    assert DownloadingTracks(w.db) == {};
    forall kind | Claimed(kind)
      ensures KindCapOk(cfg, w, kind)
    {
      assert Queue.RunningKeys(w.db.items, kind) == {};
    }
  }

  // The worker's events that act on what it read earlier.
  predicate ActsOnRead(e: Event) {
    e.ReapNext? || e.ActOnPick? || e.Resolve? || e.Poll? || e.ClaimNext?
  }

  lemma ReadsAreActedOnRightly(cfg: Config, w: World, e: Event)
    requires HeldOk(w) && Enabled(cfg, w, e) && ActsOnRead(e)
    ensures Allowed(w.db, CallOf(cfg, w, e))
  {
  }

  lemma OtherCallsAreAllowed(cfg: Config, w: World, e: Event)
    requires Enabled(cfg, w, e) && !ActsOnRead(e)
    ensures Allowed(w.db, CallOf(cfg, w, e))
    ensures !CallOf(cfg, w, e).StartCall?
  {
  }

  /** The process only ever makes allowed calls. */
  lemma CallsAreAllowed(cfg: Config, w: World, e: Event)
    requires HeldOk(w) && Enabled(cfg, w, e)
    ensures Allowed(w.db, CallOf(cfg, w, e))
  {
    if ActsOnRead(e) {
      ReadsAreActedOnRightly(cfg, w, e);
    } else {
      OtherCallsAreAllowed(cfg, w, e);
    }
  }

  lemma PhaseStaysOk(cfg: Config, w: World, e: Event, db: Db)
    requires HeldOk(w) && Enabled(cfg, w, e)
    requires w.db.tracks.Keys <= db.tracks.Keys
    requires CallOf(cfg, w, e).StartCall? || DownloadingTracks(db) <= DownloadingTracks(w.db)
    ensures PhaseOk(db, PhaseAfter(cfg, w, e))
  {
    var phase := PhaseAfter(cfg, w, e);
    if phase.Picked? {
      var i := phase.key.reference;
      assert !CallOf(cfg, w, e).StartCall?;
      assert i in DownloadingTracks(db) ==> i in DownloadingTracks(w.db);
    }
  }

  lemma TasksStayOk(cfg: Config, w: World, e: Event)
    requires HeldOk(w) && Enabled(cfg, w, e)
    ensures forall i :: i in FinalizingAfter(cfg, w, e) ==> i in w.db.tracks
    ensures forall i :: i in FetchingAfter(cfg, w, e) ==> i in w.db.tracks
  {
  }

  lemma StepKeepsHeld(cfg: Config, w: World, e: Event)
    requires HeldOk(w) && Enabled(cfg, w, e)
    ensures HeldOk(Step(cfg, w, e))
  {
    CallKeepsTracks(w.db, CallOf(cfg, w, e), cfg.policy, w.clock);
    TasksStayOk(cfg, w, e);
    CallsAreAllowed(cfg, w, e);
    if !CallOf(cfg, w, e).StartCall? {
      OthersStartNothing(w.db, CallOf(cfg, w, e), cfg.policy, w.clock);
    }
    PhaseStaysOk(cfg, w, e, Apply(w.db, CallOf(cfg, w, e), cfg.policy, w.clock));
  }

  // A started download spends a promise; promises come only from free slots.
  lemma StartsArePromised(cfg: Config, w: World, e: Event)
    requires CapOk(cfg, w) && Enabled(cfg, w, e)
    ensures |DownloadingTracks(w.db)| + (if CallOf(cfg, w, e).StartCall? then 1 else 0)
            + Promised(PhaseAfter(cfg, w, e)) <= cfg.maxInflight
  {
  }

  lemma StepKeepsCap(cfg: Config, w: World, e: Event)
    requires CapOk(cfg, w) && HeldOk(w) && Enabled(cfg, w, e)
    ensures CapOk(cfg, Step(cfg, w, e))
  {
    CallsAreAllowed(cfg, w, e);
    StartsArePromised(cfg, w, e);
    DownloadsGrowByStarting(w.db, CallOf(cfg, w, e), cfg.policy, w.clock);
  }

  lemma ClaimsArePromised(cfg: Config, w: World, e: Event, kind: Queue.Kind)
    requires KindCapOk(cfg, w, kind) && HeldOk(w) && Enabled(cfg, w, e) && Claimed(kind)
    ensures |Queue.RunningKeys(w.db.items, kind)|
            + (if CallOf(cfg, w, e).ClaimCall? && CallOf(cfg, w, e).key.kind == kind then 1 else 0)
            + PromisedClaims(PhaseAfter(cfg, w, e), kind) <= KindCap(cfg, kind)
  {
    if !e.ClaimNext? {
      OnlyClaimNextClaims(cfg, w, e);
    }
  }

  lemma OnlyClaimNextClaims(cfg: Config, w: World, e: Event)
    requires Enabled(cfg, w, e)
    ensures CallOf(cfg, w, e).ClaimCall? <==> e.ClaimNext?
  {
  }

  lemma StepKeepsKindCap(cfg: Config, w: World, e: Event, kind: Queue.Kind)
    requires KindCapOk(cfg, w, kind) && HeldOk(w) && Enabled(cfg, w, e) && Claimed(kind)
    ensures KindCapOk(cfg, Step(cfg, w, e), kind)
  {
    CallsAreAllowed(cfg, w, e);
    ClaimsArePromised(cfg, w, e, kind);
    RunningGrowsByClaiming(w.db, CallOf(cfg, w, e), cfg.policy, w.clock, kind);
  }

  lemma StepKeepsInv(cfg: Config, w: World, e: Event)
    requires ValidConfig(cfg) && Inv(cfg, w) && Enabled(cfg, w, e)
    ensures Inv(cfg, Step(cfg, w, e))
  {
    var call := CallOf(cfg, w, e);
    CallsAreAllowed(cfg, w, e);
    CallKeepsCoherent(w.db, call, cfg.policy, w.clock);
    StepKeepsHeld(cfg, w, e);
    StepKeepsCap(cfg, w, e);
    forall kind | Claimed(kind)
      ensures KindCapOk(cfg, Step(cfg, w, e), kind)
    {
      StepKeepsKindCap(cfg, w, e, kind);
    }
    CallKeepsBudgets(w.db, w.recoveries, call, cfg.policy, w.clock);
    CallKeepsRequeues(w.db, w.requeues, call, cfg.policy, w.clock);
  }

  lemma {:induction false} RunKeepsInv(cfg: Config, w: World, events: seq<Event>)
    requires ValidConfig(cfg) && Inv(cfg, w) && ValidRun(cfg, w, events)
    ensures Inv(cfg, After(cfg, w, events))
    decreases |events|
  {
    if events != [] {
      StepKeepsInv(cfg, w, events[0]);
      RunKeepsInv(cfg, Step(cfg, w, events[0]), events[1..]);
    }
  }
}
