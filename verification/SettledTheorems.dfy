/** What brings a settled queue row back: music-api/src/work.rs against every call of the process. */
module SettledTheorems {
  import opened Wrappers
  import opened Ledger
  import opened Calls
  import opened CallEffects
  import opened LedgerInvariant
  import opened Scheduler
  import Queue = WorkQueue

  predicate IsSettled(db: Db, k: Queue.Key) {
    k in db.items && Queue.Terminal(db.items[k])
  }

  predicate HasTriesLeft(w: Queue.WorkItem) {
    w.attempts < w.maxAttempts
  }

  /** The calls that enqueue row `k`: posted, ordered, raised with its order, or reset. */
  predicate Enqueues(db: Db, call: Call, k: Queue.Key) {
    match call
    case EnqueueCall(key, _) => key == k
    case CreateOrderCall(o, isrcs, _) => o !in db.orders && k.kind.Download? && k.reference in isrcs
    case SetPriorityCall(o, _) => o in db.orders && k.kind.Download? && Link(o, k.reference) in db.links
    case ResetCall(i) => k == DownloadKey(i) && Resettable(db, i)
    case _ => false
  }

  /** The other calls that bring a settled row back: a retry with tries left, and a start or sync of a download. */
  predicate Revives(db: Db, call: Call, policy: RetryPolicy, k: Queue.Key)
    requires k in db.items
  {
    match call
    case RetryCall(i) => k == DownloadKey(i) && Retryable(db, i, policy) && HasTriesLeft(db.items[k])
    case RetryLaterCall(key, _) => key == k && HasTriesLeft(db.items[k])
    case StartCall(i, _) => k == DownloadKey(i)
    case SyncRunningCall(key) => key == k
    case _ => false
  }

  /** Row `k` comes back exactly by those calls, armed afresh if it was enqueued. */
  ghost predicate ComesBackRightly(db: Db, call: Call, policy: RetryPolicy, db': Db, k: Queue.Key)
    requires IsSettled(db, k)
  {
    && k in db'.items
    && (!IsSettled(db', k) <==> Enqueues(db, call, k) || Revives(db, call, policy, k))
    && (Enqueues(db, call, k) ==> db'.items[k].attempts == 0 && db'.items[k].notBefore.None?)
  }

  lemma OrderCallRearms(db: Db, call: Call, policy: RetryPolicy, now: int, k: Queue.Key)
    requires OrderCall(call) && IsSettled(db, k)
    ensures Queue.Lookup(Apply(db, call, policy, now).items, k)
         == if Enqueues(db, call, k) then Some(Queue.Rearmed(db.items[k], call.priority, now)) else Some(db.items[k])
  {
    if !k.kind.Download? {
      OrderCallLeavesOtherKinds(db, call, policy, now, k);
    } else {
      assert k == DownloadKey(k.reference);
      if call.CreateOrderCall? {
        EnqueueDownloadsAt(db.items, call.isrcs, call.priority, now, k.reference);
      } else if call.order in db.orders {
        EnqueueDownloadsAt(db.items, LinkedTo(db, call.order), call.priority, now, k.reference);
      }
    }
  }

  lemma RetryRevives(db: Db, i: Isrc, policy: RetryPolicy, now: int, k: Queue.Key)
    requires IsSettled(db, k)
    ensures ComesBackRightly(db, RetryCall(i), policy, ScheduleRetry(db, i, policy, now), k)
  {
    var next := RetriedItems(db, i, policy, now);
  }

  lemma TrackCallRevives(db: Db, call: Call, policy: RetryPolicy, now: int, k: Queue.Key)
    requires LedgerCall(call) && !OrderCall(call) && !call.RetryCall? && IsSettled(db, k)
    ensures ComesBackRightly(db, call, policy, Apply(db, call, policy, now), k)
  {
  }

  lemma QueueCallRevives(db: Db, call: Call, policy: RetryPolicy, now: int, k: Queue.Key)
    requires !LedgerCall(call) && IsSettled(db, k)
    ensures ComesBackRightly(db, call, policy, Apply(db, call, policy, now), k)
  {
  }

  lemma OrderCallRevives(db: Db, call: Call, policy: RetryPolicy, now: int, k: Queue.Key)
    requires OrderCall(call) && IsSettled(db, k)
    ensures ComesBackRightly(db, call, policy, Apply(db, call, policy, now), k)
  {
    OrderCallRearms(db, call, policy, now, k);
    assert Queue.Lookup(Apply(db, call, policy, now).items, k).Some?;
  }

  lemma CallRevives(db: Db, call: Call, policy: RetryPolicy, now: int, k: Queue.Key)
    requires IsSettled(db, k)
    ensures ComesBackRightly(db, call, policy, Apply(db, call, policy, now), k)
  {
    if OrderCall(call) {
      OrderCallRevives(db, call, policy, now, k);
    } else if call.RetryCall? {
      RetryRevives(db, call.isrc, policy, now, k);
    } else if LedgerCall(call) {
      TrackCallRevives(db, call, policy, now, k);
    } else {
      QueueCallRevives(db, call, policy, now, k);
    }
  }

  /**
    * Claims, seeds, finishes, failures and recoveries leave a settled row settled. It comes back
    * exactly by being enqueued, then armed afresh, or by a retry, start or sync of its own.
    */
  lemma SettledEndsExactly(cfg: Config, w: World, e: Event, k: Queue.Key)
    requires Enabled(cfg, w, e) && IsSettled(w.db, k)
    ensures ComesBackRightly(w.db, CallOf(cfg, w, e), cfg.policy, Step(cfg, w, e).db, k)
  {
    CallRevives(w.db, CallOf(cfg, w, e), cfg.policy, w.clock, k);
  }

  // Along the run row k is settled at every point.
  ghost predicate StaysSettled(cfg: Config, w: World, events: seq<Event>, k: Queue.Key)
    requires ValidRun(cfg, w, events)
    decreases |events|
  {
    IsSettled(w.db, k) && (events != [] ==> StaysSettled(cfg, Step(cfg, w, events[0]), events[1..], k))
  }

  // No event of the run brings it back.
  ghost predicate LeftAlone(cfg: Config, w: World, events: seq<Event>, k: Queue.Key)
    requires ValidRun(cfg, w, events)
    decreases |events|
  {
    IsSettled(w.db, k) && events != [] ==>
      && !Enqueues(w.db, CallOf(cfg, w, events[0]), k)
      && !Revives(w.db, CallOf(cfg, w, events[0]), cfg.policy, k)
      && LeftAlone(cfg, Step(cfg, w, events[0]), events[1..], k)
  }

  /** Over every run a settled row stays settled exactly until one of these calls. */
  lemma {:induction false} SettledStaysExactly(cfg: Config, w: World, events: seq<Event>, k: Queue.Key)
    requires ValidRun(cfg, w, events) && IsSettled(w.db, k)
    ensures StaysSettled(cfg, w, events, k) <==> LeftAlone(cfg, w, events, k)
    decreases |events|
  {
    if events != [] {
      SettledEndsExactly(cfg, w, events[0], k);
      if IsSettled(Step(cfg, w, events[0]).db, k) {
        SettledStaysExactly(cfg, Step(cfg, w, events[0]), events[1..], k);
      }
    }
  }
}
