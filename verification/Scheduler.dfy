/**
 * The music-api process as a transition system: HTTP calls, background tasks and the one
 * worker loop (music-api/src/worker.rs) acting on a shared database. Every `db::` and
 * `work::` call is one atomic event. Wherever the worker awaits something slow, or walks
 * a list it read earlier, it is parked in a phase and any other event may come in between.
 */
module Scheduler {
  import opened Wrappers
  import opened Ledger
  import opened Calls
  import Queue = WorkQueue

  datatype Config = Config(policy: RetryPolicy, maxInflight: nat, analysisConcurrency: nat, downloadTimeout: int)

  // These are read with `.max(1)`, and the attempt cap is a `u32`. The download timeout may be
  // zero, and negative once it is cast to a signed number.
  predicate ValidConfig(cfg: Config) {
    && 1 <= cfg.policy.maxAttempts < 0x1_0000_0000
    && 1 <= cfg.policy.baseSecs
    && 1 <= cfg.policy.maxSecs
    && 1 <= cfg.maxInflight
    && 1 <= cfg.analysisConcurrency
  }

  const DISPATCH_BATCH := 25

  /** What the dispatcher saw when it read the track of an offered download. */
  datatype Sighting = NoTrack | UnderWay | SettledAlready | ToFetch

  /** Where the worker stands inside its tick. */
  datatype Phase =
    | Idle
    | Reaping(lapsed: seq<Isrc>)
    | SlotsRead(slots: int)
    | Dispatching(offered: seq<Queue.Key>, session: bool)
    | Picked(key: Queue.Key, sight: Sighting, later: seq<Queue.Key>, loggedIn: bool)
    | Resolving(isrc: Isrc, remaining: seq<Queue.Key>, deemixReady: bool)
    | Polling(polled: seq<Isrc>)
    | FreeRead(kind: Queue.Kind, free: int)
    | Draining(drained: Queue.Kind, leads: seq<Queue.Key>)

  /**
   * `finalizing` maps each live finalize task to its retry-if-missing flag; `fetching`
   * holds the live yt-dlp tasks. `requeues` and `recoveries` are history (see Calls).
   */
  datatype World = World(
    db: Db,
    clock: int,
    phase: Phase,
    finalizing: map<Isrc, bool>,
    fetching: multiset<Isrc>,
    requeues: map<Isrc, nat>,
    recoveries: map<Queue.Key, nat>)

  datatype Outcome = AbsentOnDeezer | NoSession | QueuedAtDeemix | CannotStream | TransientFailure

  datatype PollStatus = Succeeded | Unsuccessful | StillDownloading | Evicted

  datatype Event =
    // HTTP calls
    | PostOrder(order: OrderId, isrcs: set<Isrc>, priority: int)
    | Reprioritise(order: OrderId, priority: int)
    | CancelOrder(order: OrderId)
    | RetryTrack(isrc: Isrc)
    | PostWork(key: Queue.Key, priority: int)
    // Background tasks
    | FinalizeReady(isrc: Isrc)
    | FinalizeMissing(isrc: Isrc)
    | FinalizeError(isrc: Isrc)
    | FetchStarted(isrc: Isrc)
    | FetchReady(isrc: Isrc)
    | FetchFailed(isrc: Isrc)
    | IngestFile(isrc: Isrc)
    | FinishItem(key: Queue.Key)
    | FailItem(key: Queue.Key)
    | RetryItem(key: Queue.Key, notBefore: int)
    // The worker loop
    | ReadLapsed(found: seq<Isrc>)
    | ReapNext
    | RecoverStale
    | ReadSlots
    | Reconcile(isrc: Isrc, priority: int)
    | TakeBatch(batch: seq<Queue.Key>, deemixReady: bool)
    | Pick
    | ActOnPick
    | Resolve(outcome: Outcome)
    | ReadDownloading(found: seq<Isrc>)
    | Poll(status: PollStatus)
    | SeedAnalysis(isrc: Isrc, priority: int)
    | ReadFree(kind: Queue.Kind)
    | TakeLeads(batch: seq<Queue.Key>)
    | ClaimNext
    // The end of a phase, or a tick abandoned on a database error
    | EndPhase
    // Time passes; a crash keeps the database and loses the tasks
    | Wait(secs: nat)
    | Restart

  function KindCap(cfg: Config, kind: Queue.Kind): nat {
    if kind == Queue.Analyze then cfg.analysisConcurrency else cfg.maxInflight
  }

  function FreeSlots(cfg: Config, db: Db, kind: Queue.Kind): int {
    Max(KindCap(cfg, kind) - |Queue.RunningKeys(db.items, kind)|, 0)
  }

  function DeezerDownloads(db: Db): set<Isrc> {
    set i | i in db.tracks && db.tracks[i].state.Downloading? && db.tracks[i].source == "deezer"
  }

  ghost predicate Enabled(cfg: Config, w: World, e: Event) {
    match e
    case FinalizeReady(i) => i in w.finalizing
    case FinalizeMissing(i) => i in w.finalizing
    case FinalizeError(i) => i in w.finalizing
    case FetchStarted(i) => i in w.fetching
    case FetchReady(i) => i in w.fetching
    case FetchFailed(i) => i in w.fetching
    case FinishItem(k) => Claimed(k.kind)
    case FailItem(k) => Claimed(k.kind)
    case RetryItem(k, _) => Claimed(k.kind)
    case ReadLapsed(found) => w.phase.Idle? && Enumerates(found, LapsedTracks(w.db, w.clock))
    case ReapNext => w.phase.Reaping? && w.phase.lapsed != []
    case RecoverStale => w.phase.Idle?
    case ReadSlots => w.phase.Idle?
    case Reconcile(i, _) => w.phase.SlotsRead? && i in w.db.tracks
    case TakeBatch(batch, _) =>
      && w.phase.SlotsRead?
      && Queue.IsBatch(w.db.items, Queue.Download, Min(w.phase.slots, DISPATCH_BATCH), w.clock, batch)
    case Pick => w.phase.Dispatching? && w.phase.offered != []
    case ActOnPick => w.phase.Picked?
    case Resolve(outcome) =>
      && w.phase.Resolving?
      && (outcome.NoSession? ==> !w.phase.deemixReady)
      && (outcome.QueuedAtDeemix? || outcome.CannotStream? ==> w.phase.deemixReady)
    case ReadDownloading(found) => w.phase.Idle? && Enumerates(found, DeezerDownloads(w.db))
    case Poll(_) => w.phase.Polling? && w.phase.polled != []
    case SeedAnalysis(_, _) => w.phase.Idle?
    case ReadFree(kind) => w.phase.Idle? && Claimed(kind)
    case TakeLeads(batch) =>
      && w.phase.FreeRead?
      && Queue.IsBatch(w.db.items, w.phase.kind, w.phase.free, w.clock, batch)
    case ClaimNext => w.phase.Draining? && w.phase.leads != []
    case _ => true
  }

  // ── The call an event makes ──────────────────────────────────────────────

  function Start(cfg: Config, w: World, i: Isrc): Call {
    StartCall(i, w.clock + cfg.downloadTimeout)
  }

  predicate NeedsLookup(db: Db, i: Isrc) {
    i in db.tracks && db.tracks[i].state.Pending? && db.tracks[i].source == "deezer"
  }

  // `get_track` on an offered download that needs no lookup.
  function Seen(db: Db, i: Isrc): Sighting {
    if i !in db.tracks then NoTrack
    else match db.tracks[i].state
      case Downloading => UnderWay
      case Pending => ToFetch
      case _ => SettledAlready
  }

  // What the dispatcher then does, on the strength of what it saw.
  function ActCall(cfg: Config, w: World, key: Queue.Key, sight: Sighting): Call {
    match sight
    case NoTrack => FinishCall(key)
    case UnderWay => SyncRunningCall(key)
    case SettledAlready => FinishCall(key)
    case ToFetch => Start(cfg, w, key.reference)
  }

  function ResolveCall(cfg: Config, w: World, i: Isrc, outcome: Outcome): Call {
    match outcome
    case AbsentOnDeezer => SettleCall(i, Absent)
    case NoSession => NoCall
    case QueuedAtDeemix => Start(cfg, w, i)
    case CannotStream => SettleCall(i, Absent)
    case TransientFailure => RetryCall(i)
  }

  function PollCall(cfg: Config, w: World, i: Isrc, status: PollStatus): Call {
    match status
    case Unsuccessful => RetryCall(i)
    case StillDownloading => RenewCall(i, w.clock + cfg.downloadTimeout)
    case _ => NoCall
  }

  function CallOf(cfg: Config, w: World, e: Event): Call
    requires Enabled(cfg, w, e)
  {
    match e
    case PostOrder(o, isrcs, p) => CreateOrderCall(o, isrcs, p)
    case Reprioritise(o, p) => SetPriorityCall(o, p)
    case CancelOrder(o) => CancelOrderCall(o)
    case RetryTrack(i) => ResetCall(i)
    case PostWork(k, p) => EnqueueCall(k, p)
    case FinalizeReady(i) => SettleCall(i, Ready)
    case FinalizeMissing(i) => if w.finalizing[i] then RetryCall(i) else NoCall
    case FetchStarted(i) => RenewCall(i, w.clock + cfg.downloadTimeout)
    case FetchReady(i) => SettleCall(i, Ready)
    case FetchFailed(i) => RetryCall(i)
    case IngestFile(i) => IngestCall(i)
    case FinishItem(k) => FinishCall(k)
    case FailItem(k) => FailCall(k)
    case RetryItem(k, t) => RetryLaterCall(k, t)
    case ReapNext => RetryCall(w.phase.lapsed[0])
    case RecoverStale => RecoverStaleCall
    case Reconcile(i, p) => EnqueueCall(DownloadKey(i), p)
    case ActOnPick => ActCall(cfg, w, w.phase.key, w.phase.sight)
    case Resolve(outcome) => ResolveCall(cfg, w, w.phase.isrc, outcome)
    case Poll(status) => PollCall(cfg, w, w.phase.polled[0], status)
    case SeedAnalysis(i, p) => SeedCall(Queue.Key(Queue.Analyze, i), p)
    case ClaimNext => ClaimCall(w.phase.leads[0])
    case _ => NoCall
  }

  // ── Where the worker goes next ───────────────────────────────────────────

  function PhaseAfter(cfg: Config, w: World, e: Event): Phase
    requires Enabled(cfg, w, e)
  {
    match e
    case ReadLapsed(found) => Reaping(found)
    case ReapNext => Reaping(w.phase.lapsed[1..])
    case ReadSlots =>
      var slots := cfg.maxInflight - |DownloadingTracks(w.db)|;
      if slots <= 0 then Idle else SlotsRead(slots)
    case TakeBatch(batch, ready) => Dispatching(batch, ready)
    case Pick =>
      var i, rest := w.phase.offered[0].reference, w.phase.offered[1..];
      if NeedsLookup(w.db, i) then Resolving(i, rest, w.phase.session)
      else Picked(w.phase.offered[0], Seen(w.db, i), rest, w.phase.session)
    case ActOnPick => Dispatching(w.phase.later, w.phase.loggedIn)
    case Resolve(_) => Dispatching(w.phase.remaining, w.phase.deemixReady)
    case ReadDownloading(found) => Polling(found)
    case Poll(_) => Polling(w.phase.polled[1..])
    case ReadFree(kind) =>
      var free := FreeSlots(cfg, w.db, kind);
      if free == 0 then Idle else FreeRead(kind, free)
    case TakeLeads(batch) => Draining(w.phase.kind, batch)
    case ClaimNext => Draining(w.phase.drained, w.phase.leads[1..])
    case EndPhase => Idle
    case Restart => Idle
    case _ => w.phase
  }

  // At most one finalize task per track is live.
  function FinalizingAfter(cfg: Config, w: World, e: Event): map<Isrc, bool>
    requires Enabled(cfg, w, e)
  {
    match e
    case FinalizeReady(i) => w.finalizing - {i}
    case FinalizeMissing(i) => w.finalizing - {i}
    case FinalizeError(i) => w.finalizing - {i}
    case Poll(status) =>
      var i := w.phase.polled[0];
      if (status.Succeeded? || status.Evicted?) && i !in w.finalizing
      then w.finalizing[i := status.Succeeded?]
      else w.finalizing
    case Restart => map[]
    case _ => w.finalizing
  }

  function FetchingAfter(cfg: Config, w: World, e: Event): multiset<Isrc>
    requires Enabled(cfg, w, e)
  {
    match e
    case ActOnPick =>
      if w.phase.sight.ToFetch? then w.fetching + multiset{w.phase.key.reference} else w.fetching
    case FetchReady(i) => w.fetching - multiset{i}
    case FetchFailed(i) => w.fetching - multiset{i}
    case Restart => multiset{}
    case _ => w.fetching
  }

  function Step(cfg: Config, w: World, e: Event): World
    requires Enabled(cfg, w, e)
  {
    var call := CallOf(cfg, w, e);
    World(
      Apply(w.db, call, cfg.policy, w.clock),
      if e.Wait? then w.clock + e.secs else w.clock,
      PhaseAfter(cfg, w, e),
      FinalizingAfter(cfg, w, e),
      FetchingAfter(cfg, w, e),
      Requeues(w.requeues, w.db, call, cfg.policy),
      Recoveries(w.recoveries, w.db, call, w.clock))
  }

  // ── Runs ─────────────────────────────────────────────────────────────────

  function EmptyWorld(start: int): World {
    World(Db(map[], map[], map[], {}), start, Idle, map[], multiset{}, map[], map[])
  }

  ghost predicate ValidRun(cfg: Config, w: World, events: seq<Event>)
    decreases |events|
  {
    events == [] || (Enabled(cfg, w, events[0]) && ValidRun(cfg, Step(cfg, w, events[0]), events[1..]))
  }

  ghost function After(cfg: Config, w: World, events: seq<Event>): World
    requires ValidRun(cfg, w, events)
    decreases |events|
  {
    if events == [] then w else After(cfg, Step(cfg, w, events[0]), events[1..])
  }
}
