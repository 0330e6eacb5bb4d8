/** What a single call can and cannot do to caps, priorities, cancelled orders and retry budgets. */
module CallEffects {
  import opened Wrappers
  import opened Ledger
  import opened Calls
  import Queue = WorkQueue
  import LI = LedgerInvariant

  lemma CallKeepsTracks(db: Db, call: Call, policy: RetryPolicy, now: int)
    ensures db.tracks.Keys <= Apply(db, call, policy, now).tracks.Keys
  {
  }

  // ── Caps ─────────────────────────────────────────────────────────────────

  lemma OthersStartNothing(db: Db, call: Call, policy: RetryPolicy, now: int)
    requires Allowed(db, call) && !call.StartCall?
    ensures DownloadingTracks(Apply(db, call, policy, now)) <= DownloadingTracks(db)
  {
  }

  /** Only `mark_downloading` raises the number of downloads, and by at most one. */
  lemma DownloadsGrowByStarting(db: Db, call: Call, policy: RetryPolicy, now: int)
    requires Allowed(db, call)
    ensures |DownloadingTracks(Apply(db, call, policy, now))|
            <= |DownloadingTracks(db)| + if call.StartCall? then 1 else 0
  {
    var before := DownloadingTracks(db);
    if call.StartCall? {
      var after := DownloadingTracks(MarkDownloading(db, call.isrc, call.leaseUntil, now));
      assert after <= before + {call.isrc};
      Queue.SubsetCardinality(after, before + {call.isrc});
    } else {
      OthersStartNothing(db, call, policy, now);
      Queue.SubsetCardinality(DownloadingTracks(Apply(db, call, policy, now)), before);
    }
  }

  predicate OrderCall(call: Call) {
    call.CreateOrderCall? || call.SetPriorityCall?
  }

  lemma OrderCallLeavesOtherKinds(db: Db, call: Call, policy: RetryPolicy, now: int, k: Queue.Key)
    requires OrderCall(call) && !k.kind.Download?
    ensures Queue.Lookup(Apply(db, call, policy, now).items, k) == Queue.Lookup(db.items, k)
  {
  }

  lemma TrackCallLeavesOtherKinds(db: Db, call: Call, policy: RetryPolicy, now: int, k: Queue.Key)
    requires LedgerCall(call) && !OrderCall(call) && !k.kind.Download?
    ensures Queue.Lookup(Apply(db, call, policy, now).items, k) == Queue.Lookup(db.items, k)
  {
  }

  lemma LedgerLeavesOtherKinds(db: Db, call: Call, policy: RetryPolicy, now: int, k: Queue.Key)
    requires LedgerCall(call) && !k.kind.Download?
    ensures Queue.Lookup(Apply(db, call, policy, now).items, k) == Queue.Lookup(db.items, k)
  {
    if OrderCall(call) {
      OrderCallLeavesOtherKinds(db, call, policy, now, k);
    } else {
      TrackCallLeavesOtherKinds(db, call, policy, now, k);
    }
  }

  lemma LedgerNeverRuns(db: Db, call: Call, policy: RetryPolicy, now: int, kind: Queue.Kind)
    requires LedgerCall(call) && !kind.Download?
    ensures Queue.RunningKeys(Apply(db, call, policy, now).items, kind) <= Queue.RunningKeys(db.items, kind)
  {
    var items' := Apply(db, call, policy, now).items;
    forall k | k in Queue.RunningKeys(items', kind)
      ensures k in Queue.RunningKeys(db.items, kind)
    {
      LedgerLeavesOtherKinds(db, call, policy, now, k);
      assert Queue.Lookup(items', k) == Queue.Lookup(db.items, k);
    }
  }

  lemma OthersRunNothing(db: Db, call: Call, policy: RetryPolicy, now: int, kind: Queue.Kind)
    requires !LedgerCall(call) && Allowed(db, call) && Claimed(kind) && !call.ClaimCall?
    ensures Queue.RunningKeys(Apply(db, call, policy, now).items, kind) <= Queue.RunningKeys(db.items, kind)
  {
  }

  /** Only a claim raises the number of running rows of a claimed kind, and by at most one. */
  lemma RunningGrowsByClaiming(db: Db, call: Call, policy: RetryPolicy, now: int, kind: Queue.Kind)
    requires Allowed(db, call) && Claimed(kind)
    ensures |Queue.RunningKeys(Apply(db, call, policy, now).items, kind)|
            <= |Queue.RunningKeys(db.items, kind)| + if call.ClaimCall? && call.key.kind == kind then 1 else 0
  {
    var before := Queue.RunningKeys(db.items, kind);
    if call.ClaimCall? {
      var after := Queue.RunningKeys(Queue.Claim(db.items, call.key, now), kind);
      var limit := if call.key.kind == kind then before + {call.key} else before;
      assert after <= limit;
      Queue.SubsetCardinality(after, limit);
    } else {
      if LedgerCall(call) {
        LedgerNeverRuns(db, call, policy, now, kind);
      } else {
        OthersRunNothing(db, call, policy, now, kind);
      }
      Queue.SubsetCardinality(Queue.RunningKeys(Apply(db, call, policy, now).items, kind), before);
    }
  }

  // ── Priorities ───────────────────────────────────────────────────────────

  lemma OrderCallRaises(db: Db, call: Call, policy: RetryPolicy, now: int)
    requires OrderCall(call)
    ensures Queue.Rises(db.items, Apply(db, call, policy, now).items)
  {
  }

  lemma RetriedItems(db: Db, i: Isrc, policy: RetryPolicy, now: int) returns (next: int)
    ensures ScheduleRetry(db, i, policy, now).items
         == if Retryable(db, i, policy) then Queue.RetryRef(db.items, DownloadKey(i), next, now)
            else Queue.Finish(db.items, DownloadKey(i), now)
  {
    next := now + BackoffDelay(AsU32(AttemptsAfter(db, i)), policy.baseSecs, policy.maxSecs);
  }

  lemma RetryRaises(db: Db, i: Isrc, policy: RetryPolicy, now: int)
    ensures Queue.Rises(db.items, ScheduleRetry(db, i, policy, now).items)
  {
    var next := RetriedItems(db, i, policy, now);
  }

  lemma TrackCallRaises(db: Db, call: Call, policy: RetryPolicy, now: int)
    requires LedgerCall(call) && !OrderCall(call) && !call.RetryCall?
    ensures Queue.Rises(db.items, Apply(db, call, policy, now).items)
  {
  }

  lemma QueueCallRaises(db: Db, call: Call, policy: RetryPolicy, now: int)
    requires !LedgerCall(call)
    ensures Queue.Rises(db.items, Apply(db, call, policy, now).items)
  {
  }

  /** No call lowers a priority or drops a row. */
  lemma CallRaises(db: Db, call: Call, policy: RetryPolicy, now: int)
    ensures Queue.Rises(db.items, Apply(db, call, policy, now).items)
  {
    if OrderCall(call) {
      OrderCallRaises(db, call, policy, now);
    } else if call.RetryCall? {
      RetryRaises(db, call.isrc, policy, now);
    } else if LedgerCall(call) {
      TrackCallRaises(db, call, policy, now);
    } else {
      QueueCallRaises(db, call, policy, now);
    }
  }

  // ── Cancelled orders ─────────────────────────────────────────────────────

  /** An order that is cancelled and has no links stays so, whatever is called. */
  lemma CancelledStays(db: Db, call: Call, policy: RetryPolicy, now: int, o: OrderId)
    requires o in db.orders && db.orders[o].status.Cancelled?
    requires forall i :: Link(o, i) !in db.links
    ensures var db' := Apply(db, call, policy, now);
            && o in db'.orders && db'.orders[o].status.Cancelled?
            && forall i :: Link(o, i) !in db'.links
  {
  }

  // ── Retry budgets ────────────────────────────────────────────────────────

  // A track is re-queued no more often than it failed, and less often than it may try.
  predicate RequeueOk(t: Track, requeues: nat, maxAttempts: nat) {
    && requeues <= t.attempts
    && (t.attempts < 0x1_0000_0000 ==> requeues < maxAttempts)
  }

  ghost predicate RequeuesOk(db: Db, counts: map<Isrc, nat>, maxAttempts: nat) {
    forall i: Isrc ::
      if i in db.tracks then RequeueOk(db.tracks[i], Count(counts, i), maxAttempts) else Count(counts, i) == 0
  }

  lemma OthersKeepAttempts(db: Db, call: Call, policy: RetryPolicy, now: int, i: Isrc)
    requires !call.RetryCall? && !call.ResetCall? && i in db.tracks
    ensures i in Apply(db, call, policy, now).tracks
    ensures Apply(db, call, policy, now).tracks[i].attempts == db.tracks[i].attempts
  {
  }

  /** Requeues since the last reset stay below the allowed attempts, and never outnumber failures. */
  lemma CallKeepsRequeues(db: Db, counts: map<Isrc, nat>, call: Call, policy: RetryPolicy, now: int)
    requires RequeuesOk(db, counts, policy.maxAttempts) && 1 <= policy.maxAttempts
    ensures RequeuesOk(Apply(db, call, policy, now), Requeues(counts, db, call, policy), policy.maxAttempts)
  {
    var db', counts' := Apply(db, call, policy, now), Requeues(counts, db, call, policy);
    CallKeepsTracks(db, call, policy, now);
    forall i: Isrc
      ensures if i in db'.tracks
              then RequeueOk(db'.tracks[i], Count(counts', i), policy.maxAttempts)
              else Count(counts', i) == 0
    {
      if call.RetryCall? {
        RetryKeepsRequeue(db, counts, call, policy, now, i);
      } else if call.ResetCall? {
        ResetKeepsRequeue(db, counts, call, policy, now, i);
      } else if i in db.tracks {
        OthersKeepAttempts(db, call, policy, now, i);
      }
    }
  }

  lemma RetryCounts(db: Db, i: Isrc, policy: RetryPolicy, now: int)
    ensures var db' := ScheduleRetry(db, i, policy, now);
            && db'.tracks.Keys == db.tracks.Keys
            && forall j :: j in db.tracks ==>
                 db'.tracks[j].attempts == db.tracks[j].attempts + if j == i then 1 else 0
  {
  }

  lemma RetryKeepsRequeue(db: Db, counts: map<Isrc, nat>, call: Call, policy: RetryPolicy, now: int, i: Isrc)
    requires RequeuesOk(db, counts, policy.maxAttempts) && 1 <= policy.maxAttempts
    requires call.RetryCall?
    ensures var db', counts' := Apply(db, call, policy, now), Requeues(counts, db, call, policy);
            if i in db'.tracks
            then RequeueOk(db'.tracks[i], Count(counts', i), policy.maxAttempts)
            else Count(counts', i) == 0
  {
    RetryCounts(db, call.isrc, policy, now);
    assert i in db.tracks ==> RequeueOk(db.tracks[i], Count(counts, i), policy.maxAttempts);
  }

  lemma ResetKeepsRequeue(db: Db, counts: map<Isrc, nat>, call: Call, policy: RetryPolicy, now: int, i: Isrc)
    requires RequeuesOk(db, counts, policy.maxAttempts) && 1 <= policy.maxAttempts
    requires call.ResetCall?
    ensures var db', counts' := Apply(db, call, policy, now), Requeues(counts, db, call, policy);
            if i in db'.tracks
            then RequeueOk(db'.tracks[i], Count(counts', i), policy.maxAttempts)
            else Count(counts', i) == 0
  {
    ResetClears(db, call.isrc, now);
    assert i in db.tracks ==> RequeueOk(db.tracks[i], Count(counts, i), policy.maxAttempts);
  }

  lemma ResetClears(db: Db, i: Isrc, now: int)
    ensures var db' := ResetTrackToPending(db, i, now);
            && db'.tracks.Keys == db.tracks.Keys
            && forall j :: j in db.tracks ==>
                 db'.tracks[j].attempts == if j == i && Resettable(db, i) then 0 else db.tracks[j].attempts
  {
  }

  // A claimed row's attempts are covered by its budget and its stale recoveries.
  predicate BudgetOk(item: Queue.WorkItem, recoveries: nat) {
    && item.maxAttempts == Queue.MAX_ATTEMPTS
    && item.attempts <= Queue.MAX_ATTEMPTS + recoveries
    && (item.state.Queued? ==> item.attempts < Queue.MAX_ATTEMPTS + recoveries)
  }

  ghost predicate BudgetsOk(db: Db, counts: map<Queue.Key, nat>) {
    forall k :: k in db.items && Claimed(k.kind) ==> BudgetOk(db.items[k], Count(counts, k))
  }

  lemma CallKeepsBudgets(db: Db, counts: map<Queue.Key, nat>, call: Call, policy: RetryPolicy, now: int)
    requires BudgetsOk(db, counts) && Allowed(db, call)
    ensures BudgetsOk(Apply(db, call, policy, now), Recoveries(counts, db, call, now))
  {
    var db', counts' := Apply(db, call, policy, now), Recoveries(counts, db, call, now);
    forall k | k in db'.items && Claimed(k.kind)
      ensures BudgetOk(db'.items[k], Count(counts', k))
    {
      if LedgerCall(call) {
        LedgerLeavesOtherKinds(db, call, policy, now, k);
        assert Queue.Lookup(db'.items, k) == Queue.Lookup(db.items, k);
      } else {
        assert k in db.items ==> BudgetOk(db.items[k], Count(counts, k));
      }
    }
  }
}
