/**
 * The calls the process makes on its database, as values: one constructor per `db::` or
 * `work::` function, `Apply` for its effect, and two history counters that a call moves.
 */
module Calls {
  import opened Wrappers
  import opened Ledger
  import Queue = WorkQueue

  datatype Call =
    | NoCall
    | CreateOrderCall(order: OrderId, isrcs: set<Isrc>, priority: int)
    | SetPriorityCall(order: OrderId, priority: int)
    | CancelOrderCall(order: OrderId)
    | ResetCall(isrc: Isrc)
    | StartCall(isrc: Isrc, leaseUntil: int)
    | SettleCall(isrc: Isrc, state: TrackState)
    | RetryCall(isrc: Isrc)
    | IngestCall(isrc: Isrc)
    | RenewCall(isrc: Isrc, until: int)
    | EnqueueCall(key: Queue.Key, priority: int)
    | SeedCall(key: Queue.Key, priority: int)
    | ClaimCall(key: Queue.Key)
    | FinishCall(key: Queue.Key)
    | FailCall(key: Queue.Key)
    | RetryLaterCall(key: Queue.Key, notBefore: int)
    | SyncRunningCall(key: Queue.Key)
    | RecoverStaleCall

  const WORK_STALE_SECS := 1800

  function Apply(db: Db, call: Call, policy: RetryPolicy, now: int): Db {
    match call
    case NoCall => db
    case CreateOrderCall(o, isrcs, p) => CreateOrder(db, o, isrcs, p, now)
    case SetPriorityCall(o, p) => SetOrderPriority(db, o, p, now)
    case CancelOrderCall(o) => CancelOrder(db, o)
    case ResetCall(i) => ResetTrackToPending(db, i, now)
    case StartCall(i, until) => MarkDownloading(db, i, until, now)
    case SettleCall(i, s) => MarkSettled(db, i, s, now)
    case RetryCall(i) => ScheduleRetry(db, i, policy, now)
    case IngestCall(i) => IngestReadyTrack(db, i, now)
    case RenewCall(i, until) => RenewLease(db, i, until)
    case EnqueueCall(k, p) => db.(items := Queue.Enqueue(db.items, k, p, now))
    case SeedCall(k, p) => db.(items := Queue.EnqueueIfAbsent(db.items, k, p, now))
    case ClaimCall(k) => db.(items := Queue.Claim(db.items, k, now))
    case FinishCall(k) => db.(items := Queue.Finish(db.items, k, now))
    case FailCall(k) => db.(items := Queue.Fail(db.items, k, now))
    case RetryLaterCall(k, t) => db.(items := Queue.RetryLater(db.items, k, t, now))
    case SyncRunningCall(k) => db.(items := Queue.EnsureRunning(db.items, k, now))
    case RecoverStaleCall => db.(items := Queue.RecoverStale(db.items, now, WORK_STALE_SECS))
  }

  // ── History ──────────────────────────────────────────────────────────────

  function Count<K>(counts: map<K, nat>, k: K): nat {
    if k in counts then counts[k] else 0
  }

  // How often a track was sent back to `pending` since its last manual reset.
  function Requeues(counts: map<Isrc, nat>, db: Db, call: Call, policy: RetryPolicy): map<Isrc, nat> {
    match call
    case ResetCall(i) => if Resettable(db, i) then counts[i := 0] else counts
    case RetryCall(i) =>
      if i in db.tracks && Retryable(db, i, policy) then counts[i := Count(counts, i) + 1] else counts
    case _ => counts
  }

  // How often a queue row was recovered as stale since it was last armed. Rows of the
  // download kind are armed by ledger calls too; their count is not used.
  function Recoveries(counts: map<Queue.Key, nat>, db: Db, call: Call, now: int): map<Queue.Key, nat> {
    match call
    case EnqueueCall(k, _) =>
      if k !in db.items || Queue.Terminal(db.items[k]) then counts[k := 0] else counts
    case SeedCall(k, _) => if k !in db.items then counts[k := 0] else counts
    case RecoverStaleCall =>
      map k | k in db.items ::
        if Queue.Stale(db.items[k], now, WORK_STALE_SECS) then Count(counts, k) + 1 else Count(counts, k)
    case _ => counts
  }

  // Calls on the ledger and on download rows, which leave every other kind alone.
  predicate LedgerCall(call: Call) {
    !(|| call.EnqueueCall? || call.SeedCall? || call.ClaimCall? || call.FinishCall? || call.FailCall?
      || call.RetryLaterCall? || call.SyncRunningCall? || call.RecoverStaleCall?)
  }

  predicate Claimed(kind: Queue.Kind) {
    kind == Queue.Transcode || kind == Queue.Crawl("deezer") || kind == Queue.Analyze
  }

  /**
   * The calls the process may make in a given state: downloads are started only for known
   * tracks, settled only in a settled state, never claimed, failed or retried only through
   * the ledger, and not finished while they are under way.
   */
  predicate Allowed(db: Db, call: Call) {
    match call
    case StartCall(i, _) => i in db.tracks
    case SettleCall(_, s) => !Unfinished(s)
    case SeedCall(k, _) => k.kind == Queue.Analyze
    case ClaimCall(k) => Claimed(k.kind)
    case FailCall(k) => Claimed(k.kind)
    case RetryLaterCall(k, _) => Claimed(k.kind)
    case FinishCall(k) =>
      Claimed(k.kind) || (k.kind.Download? && (k.reference in db.tracks ==> !db.tracks[k.reference].state.Downloading?))
    case SyncRunningCall(k) => k.kind.Download? && k.reference in db.tracks
    case _ => true
  }
}
