/**
 * What each event of the process does to a queue row: music-api/src/work.rs, told from outside,
 * by event and not by call.
 */
module RowHistory {
  import opened Wrappers
  import opened Ledger
  import opened Calls
  import opened CallEffects
  import opened LedgerInvariant
  import opened Scheduler
  import opened TrackHistory
  import T = SchedulerTheorems
  import Queue = WorkQueue

  type Row = Queue.WorkItem

  // ── The events of a row ──────────────────────────────────────────────────

  predicate IsDownload(k: Queue.Key, i: Isrc) {
    k == Queue.Key(Queue.Download, i)
  }

  /** The priority at which an event enqueues the row: posted, ordered, raised, reset or reconciled. */
  function EnqueuedAt(w: World, e: Event, k: Queue.Key): Option<int> {
    match e
    case PostWork(key, p) => if key == k then Some(p) else None
    case PostOrder(o, isrcs, p) => if k.kind.Download? && o !in w.db.orders && k.reference in isrcs then Some(p) else None
    case Reprioritise(o, p) =>
      if k.kind.Download? && o in w.db.orders && Link(o, k.reference) in w.db.links then Some(p) else None
    case RetryTrack(i) => if IsDownload(k, i) && ResetBy(w, e, i) then Some(0) else None
    case Reconcile(i, p) => if IsDownload(k, i) then Some(p) else None
    case _ => None
  }

  /** A new row, a settled one armed afresh, or a live one raised. */
  function Armed(row: Option<Row>, priority: int, now: int): Row {
    match row
    case None => Queue.WorkItem(priority, Queue.Queued, 0, 5, None, now, now)
    case Some(r) =>
      var high := if r.priority < priority then priority else r.priority;
      if r.state.Done? || r.state.Failed?
      then Queue.WorkItem(high, Queue.Queued, 0, r.maxAttempts, None, r.createdAt, now)
      else Queue.WorkItem(high, r.state, r.attempts, r.maxAttempts, r.notBefore, r.createdAt, now)
  }

  /** After a failed try a track may try again; one that is not known has no failures. */
  predicate TriesLeft(cfg: Config, w: World, i: Isrc) {
    if i in w.db.tracks then MayTryAgain(cfg, w.db.tracks[i]) else 0 < cfg.policy.maxAttempts
  }

  function RetryTime(cfg: Config, w: World, i: Isrc): int {
    var n := if i in w.db.tracks then (w.db.tracks[i].attempts + 1) % 0x1_0000_0000 else 0;
    w.clock + BackoffDelay(n, cfg.policy.baseSecs, cfg.policy.maxSecs)
  }

  /** The time until which an event puts the row back: a task's retry, or a failed try of its track. */
  function PutBackUntil(cfg: Config, w: World, e: Event, k: Queue.Key): Option<int> {
    if e.RetryItem? && e.key == k then Some(e.notBefore)
    else if k.kind.Download? && TryFails(w, e, k.reference) && TriesLeft(cfg, w, k.reference)
    then Some(RetryTime(cfg, w, k.reference))
    else None
  }

  /** The row is done: its task says so, its track is settled or given up, or the dispatcher saw nothing to do. */
  predicate Finishes(cfg: Config, w: World, e: Event, k: Queue.Key) {
    || e == FinishItem(k)
    || (e.ActOnPick? && w.phase.Picked? && w.phase.key == k && (w.phase.sight.NoTrack? || w.phase.sight.SettledAlready?))
    || (k.kind.Download?
        && var i := k.reference;
           FileFound(e, i) || FoundAbsent(w, e, i) || (TryFails(w, e, i) && !TriesLeft(cfg, w, i)))
  }

  predicate Runs(w: World, e: Event, k: Queue.Key) {
    || (k.kind.Download? && T.StartsFromSight(w, e, k.reference))
    || (e.ActOnPick? && w.phase.Picked? && w.phase.key == k && w.phase.sight.UnderWay?)
  }

  predicate Claims(w: World, e: Event, k: Queue.Key) {
    e.ClaimNext? && w.phase.Draining? && w.phase.leads != [] && w.phase.leads[0] == k
  }

  /** What a row is after an event. */
  function NextRow(cfg: Config, w: World, e: Event, k: Queue.Key): Option<Row> {
    var row, now := Queue.Lookup(w.db.items, k), w.clock;
    if EnqueuedAt(w, e, k).Some? then Some(Armed(row, EnqueuedAt(w, e, k).value, now))
    else match row
      case None =>
        if Runs(w, e, k) then Some(Queue.WorkItem(0, Queue.Running, 0, 5, None, now, now))
        else if e.SeedAnalysis? && k == Queue.Key(Queue.Analyze, e.isrc)
        then Some(Queue.WorkItem(e.priority, Queue.Queued, 0, 5, None, now, now))
        else if PutBackUntil(cfg, w, e, k).Some? && !e.RetryItem?
        then Some(Queue.WorkItem(0, Queue.Queued, 0, 5, None, now, now))
        else None
      case Some(r) =>
        if PutBackUntil(cfg, w, e, k).Some? then
          if r.attempts >= r.maxAttempts
          then Some(r.(state := Queue.Failed, updatedAt := now))
          else Some(r.(state := Queue.Queued, notBefore := PutBackUntil(cfg, w, e, k), updatedAt := now))
        else if Finishes(cfg, w, e, k) then Some(r.(state := Queue.Done, notBefore := None, updatedAt := now))
        else if e == FailItem(k) then Some(r.(state := Queue.Failed, updatedAt := now))
        else if Runs(w, e, k) then Some(r.(state := Queue.Running, updatedAt := now))
        else if Claims(w, e, k) && r.state.Queued?
        then Some(r.(state := Queue.Running, attempts := r.attempts + 1, updatedAt := now))
        else if e.RecoverStale? && r.state.Running? && r.updatedAt + 1800 <= now
        then Some(r.(state := Queue.Queued, notBefore := None, updatedAt := now))
        else Some(r)
  }

  // ── What the calls behind them do ────────────────────────────────────────

  /** What an order's calls leave in a row. */
  function OrderedRow(db: Db, call: Call, now: int, k: Queue.Key): Option<Row>
    requires OrderCall(call)
  {
    var row := Queue.Lookup(db.items, k);
    if k.kind.Download? && k.reference in RaisedBy(db, call) then Some(Queue.Enqueued(row, call.priority, now)) else row
  }

  function RaisedBy(db: Db, call: Call): set<Isrc>
    requires OrderCall(call)
  {
    if call.CreateOrderCall? then (if call.order in db.orders then {} else call.isrcs)
    else if call.order in db.orders then LinkedTo(db, call.order) else {}
  }

  lemma OrderCallsRow(db: Db, call: Call, policy: RetryPolicy, now: int, k: Queue.Key)
    requires OrderCall(call)
    ensures Queue.Lookup(Apply(db, call, policy, now).items, k) == OrderedRow(db, call, now, k)
  {
    if !k.kind.Download? {
      OrderCallLeavesOtherKinds(db, call, policy, now, k);
    } else {
      EnqueueDownloadsAt(db.items, RaisedBy(db, call), call.priority, now, k.reference);
    }
  }

  lemma OrderEventsRow(cfg: Config, w: World, e: Event, k: Queue.Key)
    requires Enabled(cfg, w, e) && OrderCall(CallOf(cfg, w, e))
    ensures NextRow(cfg, w, e, k) == OrderedRow(w.db, CallOf(cfg, w, e), w.clock, k)
  {
  }

  /** What a retry of track `i` leaves in a row. */
  function RetriedRow(cfg: Config, w: World, i: Isrc, k: Queue.Key): Option<Row> {
    var row := Queue.Lookup(w.db.items, k);
    if k != DownloadKey(i) then row
    else if TriesLeft(cfg, w, i) then
      match row
      case None => Some(Queue.Fresh(0, Queue.Queued, w.clock))
      case Some(r) => Some(Queue.Requeued(r, RetryTime(cfg, w, i), w.clock))
    else if row.None? then None
    else Some(row.value.(state := Queue.Done, notBefore := None, updatedAt := w.clock))
  }

  lemma RetryEventsRow(cfg: Config, w: World, e: Event, k: Queue.Key)
    requires Enabled(cfg, w, e) && CallOf(cfg, w, e).RetryCall?
    ensures NextRow(cfg, w, e, k) == RetriedRow(cfg, w, CallOf(cfg, w, e).isrc, k)
  {
    RetriesByEvent(cfg, w, e, k.reference);
    SettlesByEvent(cfg, w, e, k.reference);
    StartsByEvent(cfg, w, e, k.reference);
  }

  lemma RetryCallsRow(cfg: Config, w: World, i: Isrc, k: Queue.Key)
    ensures Queue.Lookup(ScheduleRetry(w.db, i, cfg.policy, w.clock).items, k) == RetriedRow(cfg, w, i, k)
  {
  }

  /** Calls on a single track, other than a retry. */
  predicate TrackCall(call: Call) {
    LedgerCall(call) && !OrderCall(call) && !call.RetryCall?
  }

  /** What such a call leaves in a row. */
  function CalledRow(db: Db, call: Call, now: int, k: Queue.Key): Option<Row> {
    var row := Queue.Lookup(db.items, k);
    match call
    case StartCall(i, _) =>
      if k != DownloadKey(i) then row
      else if row.None? then Some(Queue.Fresh(0, Queue.Running, now))
      else Some(row.value.(state := Queue.Running, updatedAt := now))
    case SettleCall(i, _) =>
      if k != DownloadKey(i) || row.None? then row
      else Some(row.value.(state := Queue.Done, notBefore := None, updatedAt := now))
    case ResetCall(i) =>
      if k != DownloadKey(i) || !Resettable(db, i) then row else Some(Queue.Enqueued(row, 0, now))
    case _ => row
  }

  lemma TrackCallsRow(db: Db, call: Call, policy: RetryPolicy, now: int, k: Queue.Key)
    requires TrackCall(call)
    ensures Queue.Lookup(Apply(db, call, policy, now).items, k) == CalledRow(db, call, now, k)
  {
  }

  lemma StartEventsRow(cfg: Config, w: World, e: Event, k: Queue.Key)
    requires Enabled(cfg, w, e) && CallOf(cfg, w, e).StartCall?
    ensures NextRow(cfg, w, e, k) == CalledRow(w.db, CallOf(cfg, w, e), w.clock, k)
  {
    StartsByEvent(cfg, w, e, k.reference);
  }

  lemma TrackEventsRow(cfg: Config, w: World, e: Event, k: Queue.Key)
    requires Enabled(cfg, w, e) && TrackCall(CallOf(cfg, w, e)) && !CallOf(cfg, w, e).StartCall?
    ensures NextRow(cfg, w, e, k) == CalledRow(w.db, CallOf(cfg, w, e), w.clock, k)
  {
    RetriesByEvent(cfg, w, e, k.reference);
    SettlesByEvent(cfg, w, e, k.reference);
    StartsByEvent(cfg, w, e, k.reference);
    OthersByEvent(cfg, w, e, k.reference);
  }

  /** What a call on the queue alone leaves in a row. */
  function QueuedRow(db: Db, call: Call, now: int, k: Queue.Key): Option<Row> {
    var row := Queue.Lookup(db.items, k);
    match call
    case EnqueueCall(key, p) => if key == k then Some(Queue.Enqueued(row, p, now)) else row
    case SeedCall(key, p) => if key == k && row.None? then Some(Queue.Fresh(p, Queue.Queued, now)) else row
    case SyncRunningCall(key) =>
      if key != k then row
      else if row.None? then Some(Queue.Fresh(0, Queue.Running, now))
      else Some(row.value.(state := Queue.Running, updatedAt := now))
    case _ => if row.Some? then Some(UpdatedRow(row.value, call, now, k)) else None
  }

  function UpdatedRow(r: Row, call: Call, now: int, k: Queue.Key): Row {
    match call
    case ClaimCall(key) =>
      if key == k && r.state.Queued? then r.(state := Queue.Running, attempts := r.attempts + 1, updatedAt := now) else r
    case FinishCall(key) => if key == k then r.(state := Queue.Done, notBefore := None, updatedAt := now) else r
    case FailCall(key) => if key == k then r.(state := Queue.Failed, updatedAt := now) else r
    case RetryLaterCall(key, t) => if key == k then Queue.Requeued(r, t, now) else r
    case RecoverStaleCall =>
      if Queue.Stale(r, now, WORK_STALE_SECS) then r.(state := Queue.Queued, notBefore := None, updatedAt := now) else r
    case _ => r
  }

  lemma QueueCallsRow(db: Db, call: Call, policy: RetryPolicy, now: int, k: Queue.Key)
    requires !LedgerCall(call)
    ensures Queue.Lookup(Apply(db, call, policy, now).items, k) == QueuedRow(db, call, now, k)
  {
  }

  /** Calls that may make a row. */
  predicate ArmingCall(call: Call) {
    call.EnqueueCall? || call.SeedCall? || call.SyncRunningCall?
  }

  lemma ArmingEventsRow(cfg: Config, w: World, e: Event, k: Queue.Key)
    requires Enabled(cfg, w, e) && ArmingCall(CallOf(cfg, w, e))
    ensures NextRow(cfg, w, e, k) == QueuedRow(w.db, CallOf(cfg, w, e), w.clock, k)
  {
  }

  lemma SilentEventsRow(cfg: Config, w: World, e: Event, k: Queue.Key)
    requires Enabled(cfg, w, e) && CallOf(cfg, w, e).NoCall?
    ensures NextRow(cfg, w, e, k) == Queue.Lookup(w.db.items, k)
  {
    SilentEventsQueueNothing(cfg, w, e, k);
    SilentEventsMoveNothing(cfg, w, e, k);
  }

  lemma SilentEventsQueueNothing(cfg: Config, w: World, e: Event, k: Queue.Key)
    requires Enabled(cfg, w, e) && CallOf(cfg, w, e).NoCall?
    ensures EnqueuedAt(w, e, k).None? && PutBackUntil(cfg, w, e, k).None? && !e.SeedAnalysis?
  {
  }

  lemma SilentEventsMoveNothing(cfg: Config, w: World, e: Event, k: Queue.Key)
    requires Enabled(cfg, w, e) && CallOf(cfg, w, e).NoCall?
    ensures !Finishes(cfg, w, e, k) && e != FailItem(k) && !Runs(w, e, k) && !Claims(w, e, k) && !e.RecoverStale?
  {
  }

  lemma UpdatingEventsRow(cfg: Config, w: World, e: Event, k: Queue.Key)
    requires Enabled(cfg, w, e) && !LedgerCall(CallOf(cfg, w, e)) && !ArmingCall(CallOf(cfg, w, e))
    requires !CallOf(cfg, w, e).NoCall?
    ensures NextRow(cfg, w, e, k) == QueuedRow(w.db, CallOf(cfg, w, e), w.clock, k)
  {
  }

  lemma OrderRow(cfg: Config, w: World, e: Event, k: Queue.Key)
    requires Enabled(cfg, w, e) && OrderCall(CallOf(cfg, w, e))
    ensures Queue.Lookup(Apply(w.db, CallOf(cfg, w, e), cfg.policy, w.clock).items, k) == NextRow(cfg, w, e, k)
  {
    OrderCallsRow(w.db, CallOf(cfg, w, e), cfg.policy, w.clock, k);
    OrderEventsRow(cfg, w, e, k);
  }

  lemma TrackRow(cfg: Config, w: World, e: Event, k: Queue.Key)
    requires Enabled(cfg, w, e) && LedgerCall(CallOf(cfg, w, e)) && !OrderCall(CallOf(cfg, w, e))
    ensures Queue.Lookup(Apply(w.db, CallOf(cfg, w, e), cfg.policy, w.clock).items, k) == NextRow(cfg, w, e, k)
  {
    var call := CallOf(cfg, w, e);
    if call.RetryCall? {
      RetryEventsRow(cfg, w, e, k);
      RetryCallsRow(cfg, w, call.isrc, k);
    } else {
      TrackCallsRow(w.db, call, cfg.policy, w.clock, k);
      if call.StartCall? {
        StartEventsRow(cfg, w, e, k);
      } else {
        TrackEventsRow(cfg, w, e, k);
      }
    }
  }

  lemma QueueRow(cfg: Config, w: World, e: Event, k: Queue.Key)
    requires Enabled(cfg, w, e) && !LedgerCall(CallOf(cfg, w, e))
    ensures Queue.Lookup(Apply(w.db, CallOf(cfg, w, e), cfg.policy, w.clock).items, k) == NextRow(cfg, w, e, k)
  {
    QueueCallsRow(w.db, CallOf(cfg, w, e), cfg.policy, w.clock, k);
    if ArmingCall(CallOf(cfg, w, e)) {
      ArmingEventsRow(cfg, w, e, k);
    } else if CallOf(cfg, w, e).NoCall? {
      SilentEventsRow(cfg, w, e, k);
    } else {
      UpdatingEventsRow(cfg, w, e, k);
    }
  }

  lemma StepApplies(cfg: Config, w: World, e: Event)
    requires Enabled(cfg, w, e)
    ensures Step(cfg, w, e).db == Apply(w.db, CallOf(cfg, w, e), cfg.policy, w.clock)
  {
  }

  /** Every event's effect on every queue row: nothing else changes one, and nothing deletes one. */
  lemma RowStep(cfg: Config, w: World, e: Event, k: Queue.Key)
    requires Enabled(cfg, w, e)
    ensures Queue.Lookup(Step(cfg, w, e).db.items, k) == NextRow(cfg, w, e, k)
  {
    StepApplies(cfg, w, e);
    if OrderCall(CallOf(cfg, w, e)) {
      OrderRow(cfg, w, e, k);
    } else if LedgerCall(CallOf(cfg, w, e)) {
      TrackRow(cfg, w, e, k);
    } else {
      QueueRow(cfg, w, e, k);
    }
  }
}
