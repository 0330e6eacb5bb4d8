/**
 * How the worker walks what it has read, and which tasks live beside it: music-api/src/worker.rs,
 * `resolve_pending`, `advance_downloads` and the tasks they spawn.
 */
module WorkerHistory {
  import opened Wrappers
  import opened Ledger
  import opened Scheduler
  import opened SchedulerInvariant
  import opened TrackHistory
  import T = SchedulerTheorems
  import Queue = WorkQueue

  // ── One look at each offered download ────────────────────────────────────

  /** The offered downloads the dispatcher has not looked at yet. */
  function StillOffered(p: Phase): seq<Queue.Key> {
    match p
    case Dispatching(offered, _) => offered
    case Picked(_, _, later, _) => later
    case Resolving(_, remaining, _) => remaining
    case _ => []
  }

  predicate OfDispatch(p: Phase) {
    p.Dispatching? || p.Picked? || p.Resolving?
  }

  function LookedAt(w: World, e: Event): seq<Queue.Key> {
    if e.Pick? && w.phase.Dispatching? && w.phase.offered != [] then [w.phase.offered[0]] else []
  }

  ghost function AllLookedAt(cfg: Config, w: World, events: seq<Event>): seq<Queue.Key>
    requires ValidRun(cfg, w, events)
    decreases |events|
  {
    if events == [] then [] else LookedAt(w, events[0]) + AllLookedAt(cfg, Step(cfg, w, events[0]), events[1..])
  }

  lemma LooksOnce(cfg: Config, w: World, e: Event)
    requires Enabled(cfg, w, e) && OfDispatch(w.phase) && !e.EndPhase? && !e.Restart?
    ensures OfDispatch(PhaseAfter(cfg, w, e))
    ensures StillOffered(w.phase) == LookedAt(w, e) + StillOffered(PhaseAfter(cfg, w, e))
  {
  }

  /** Whatever comes between, the dispatcher looks at each offered download once, in the order of the batch. */
  lemma {:induction false} LooksInTurn(cfg: Config, w: World, events: seq<Event>)
    requires ValidRun(cfg, w, events) && OfDispatch(w.phase)
    requires forall n :: 0 <= n < |events| ==> !events[n].EndPhase? && !events[n].Restart?
    ensures StillOffered(w.phase) == AllLookedAt(cfg, w, events) + StillOffered(After(cfg, w, events).phase)
    decreases |events|
  {
    if events != [] {
      var w', rest := Step(cfg, w, events[0]), events[1..];
      LooksOnce(cfg, w, events[0]);
      assert forall n :: 0 <= n < |rest| ==> rest[n] == events[n + 1];
      LooksInTurn(cfg, w', rest);
      Regroup(LookedAt(w, events[0]), AllLookedAt(cfg, w', rest), StillOffered(After(cfg, w', rest).phase));
    }
  }

  lemma Regroup<T>(a: seq<T>, b: seq<T>, c: seq<T>)
    ensures a + (b + c) == a + b + c
  {
  }

  /** What the dispatcher is offered: queued downloads whose time has come, no more than the free slots, and at most 25. */
  lemma OfferedBatch(cfg: Config, w: World, batch: seq<Queue.Key>, session: bool, n: nat)
    requires Enabled(cfg, w, TakeBatch(batch, session)) && n < |batch|
    ensures w.phase.SlotsRead? && |batch| <= 25 && |batch| <= w.phase.slots
    ensures batch[n].kind.Download? && batch[n] in w.db.items
    ensures var row := w.db.items[batch[n]]; row.state.Queued? && (row.notBefore.Some? ==> row.notBefore.value <= w.clock)
  {
  }

  /** The slots read are those between the downloads under way and the cap. */
  lemma SlotsAreTheRest(cfg: Config, w: World)
    requires w.phase.Idle?
    ensures var under := set i | i in w.db.tracks && w.db.tracks[i].state.Downloading?;
            Step(cfg, w, ReadSlots).phase == if |under| < cfg.maxInflight then SlotsRead(cfg.maxInflight - |under|) else Idle
  {
    assert DownloadingTracks(w.db) == set i | i in w.db.tracks && w.db.tracks[i].state.Downloading?;
  }

  /** The caps of the claimed kinds, one by one. */
  lemma CapsByKind(cfg: Config, w: World)
    requires ValidConfig(cfg) && T.Reachable(cfg, w)
    ensures |Running(w, Queue.Transcode)| <= cfg.maxInflight
    ensures |Running(w, Queue.Crawl("deezer"))| <= cfg.maxInflight
    ensures |Running(w, Queue.Analyze)| <= cfg.analysisConcurrency
  {
    T.RunningCapHolds(cfg, w, Queue.Transcode);
    T.RunningCapHolds(cfg, w, Queue.Crawl("deezer"));
    T.RunningCapHolds(cfg, w, Queue.Analyze);
  }

  function Running(w: World, kind: Queue.Kind): set<Queue.Key> {
    set k | k in w.db.items && k.kind == kind && w.db.items[k].state.Running?
  }

  /** The lists of one tick hold what they are for, each once. */
  predicate NoneTwice<T(==)>(s: seq<T>) {
    forall i, j :: 0 <= i < j < |s| ==> s[i] != s[j]
  }

  /** Polled are exactly the downloads under way whose source is Deezer. */
  lemma PolledExactly(cfg: Config, w: World, found: seq<Isrc>, i: Isrc)
    requires Enabled(cfg, w, ReadDownloading(found))
    ensures Step(cfg, w, ReadDownloading(found)).phase == Polling(found) && NoneTwice(found)
    ensures i in found <==> i in w.db.tracks && w.db.tracks[i].state.Downloading? && w.db.tracks[i].source == "deezer"
  {
    assert i in found <==> i in DeezerDownloads(w.db);
  }

  /** Reaped are exactly the downloads under way without a lease, or whose lease is over. */
  lemma ReapedExactly(cfg: Config, w: World, found: seq<Isrc>, i: Isrc)
    requires Enabled(cfg, w, ReadLapsed(found))
    ensures Step(cfg, w, ReadLapsed(found)).phase == Reaping(found) && NoneTwice(found)
    ensures i in found
       <==> && i in w.db.tracks && w.db.tracks[i].state.Downloading?
            && (w.db.tracks[i].leaseExpiresAt.Some? ==> w.db.tracks[i].leaseExpiresAt.value <= w.clock)
  {
    assert i in found <==> i in LapsedTracks(w.db, w.clock);
  }

  /** A worker of a kind takes queued rows of its kind whose time has come, no more than are free. */
  lemma LeadsOfKind(cfg: Config, w: World, batch: seq<Queue.Key>, n: nat)
    requires Enabled(cfg, w, TakeLeads(batch)) && n < |batch|
    ensures Step(cfg, w, TakeLeads(batch)).phase == Draining(w.phase.kind, batch) && NoneTwice(batch)
    ensures |batch| <= w.phase.free && batch[n].kind == w.phase.kind && batch[n] in w.db.items
    ensures var row := w.db.items[batch[n]]; row.state.Queued? && (row.notBefore.Some? ==> row.notBefore.value <= w.clock)
  {
  }

  /** Free is what the running rows of the kind leave of its cap. */
  lemma FreeIsTheRest(cfg: Config, w: World, kind: Queue.Kind)
    requires Enabled(cfg, w, ReadFree(kind))
    ensures kind in {Queue.Transcode, Queue.Analyze, Queue.Crawl("deezer")}
    ensures var cap := if kind == Queue.Analyze then cfg.analysisConcurrency else cfg.maxInflight;
            Step(cfg, w, ReadFree(kind)).phase
            == if |Running(w, kind)| < cap then FreeRead(kind, cap - |Running(w, kind)|) else Idle
  {
    assert Queue.RunningKeys(w.db.items, kind) == Running(w, kind);
  }

  /** One list entry a step, from the front. */
  lemma EachInTurn(cfg: Config, w: World, e: Event)
    requires Enabled(cfg, w, e)
    ensures e.ReapNext? ==> w.phase == Reaping([w.phase.lapsed[0]] + Step(cfg, w, e).phase.lapsed)
    ensures e.Poll? ==> w.phase == Polling([w.phase.polled[0]] + Step(cfg, w, e).phase.polled)
    ensures e.ClaimNext? ==> w.phase == Draining(w.phase.drained, [w.phase.leads[0]] + Step(cfg, w, e).phase.leads)
  {
  }

  // ── Tasks ────────────────────────────────────────────────────────────────

  predicate PolledNow(w: World, i: Isrc) {
    w.phase.Polling? && w.phase.polled != [] && w.phase.polled[0] == i
  }

  /** A finalize task lives from the poll that finds the download over to its own report, or a crash. */
  lemma FinalizeStep(cfg: Config, w: World, e: Event, i: Isrc)
    requires Enabled(cfg, w, e)
    ensures var tasks := Step(cfg, w, e).finalizing;
            && (i in tasks <==>
                  || (PolledNow(w, i) && (e == Poll(Succeeded) || e == Poll(Evicted)))
                  || (i in w.finalizing
                      && e !in {FinalizeReady(i), FinalizeMissing(i), FinalizeError(i), Restart}))
            && (i in tasks ==> tasks[i] == if i in w.finalizing then w.finalizing[i] else e == Poll(Succeeded))
  {
    if e.Poll? {
      FinalizeByPoll(cfg, w, e.status, i);
    } else {
      FinalizeByOthers(cfg, w, e, i);
    }
  }

  lemma FinalizeByPoll(cfg: Config, w: World, status: PollStatus, i: Isrc)
    requires Enabled(cfg, w, Poll(status))
    ensures var tasks := FinalizingAfter(cfg, w, Poll(status));
            && (i in tasks <==> i in w.finalizing || (PolledNow(w, i) && (status.Succeeded? || status.Evicted?)))
            && (i in tasks ==> tasks[i] == if i in w.finalizing then w.finalizing[i] else status.Succeeded?)
  {
  }

  lemma FinalizeByOthers(cfg: Config, w: World, e: Event, i: Isrc)
    requires Enabled(cfg, w, e) && !e.Poll?
    ensures var tasks := FinalizingAfter(cfg, w, e);
            && (i in tasks <==> i in w.finalizing && e !in {FinalizeReady(i), FinalizeMissing(i), FinalizeError(i), Restart})
            && (i in tasks ==> tasks[i] == w.finalizing[i])
  {
  }

  /** A fetch task begins with each start of a download that needs no lookup, and ends with its report, or a crash. */
  lemma FetchStep(cfg: Config, w: World, e: Event, i: Isrc)
    requires Enabled(cfg, w, e)
    ensures Step(cfg, w, e).fetching[i]
         == if e.Restart? then 0
            else if e.ActOnPick? && w.phase.sight.ToFetch? && w.phase.key.reference == i then w.fetching[i] + 1
            else if e == FetchReady(i) || e == FetchFailed(i) then w.fetching[i] - 1
            else w.fetching[i]
  {
  }

  /**
   * A file that cannot be found counts as a failed try only if deemix had reported success; of a
   * download that deemix no longer knows, nothing is said until its lease runs out.
   */
  lemma MissingFileFailsOnlyAfterSuccess(cfg: Config, w: World, i: Isrc, status: PollStatus)
    requires PolledNow(w, i) && i !in w.finalizing && i in w.db.tracks && status in {Succeeded, Evicted}
    ensures var polled := Step(cfg, w, Poll(status));
            && Enabled(cfg, polled, FinalizeMissing(i))
            && var tracks := Step(cfg, polled, FinalizeMissing(i)).db.tracks;
               && i in tracks
               && (status.Succeeded? ==> tracks[i].attempts == w.db.tracks[i].attempts + 1)
               && (status.Evicted? ==> tracks[i] == w.db.tracks[i])
  {
    var polled := Step(cfg, w, Poll(status));
    FinalizeStep(cfg, w, Poll(status), i);
    TrackStep(cfg, w, Poll(status), i);
    TrackStep(cfg, polled, FinalizeMissing(i), i);
  }

  /** A worker that looks for a track first asks Deezer exactly for pending tracks whose source is Deezer. */
  lemma LooksUpExactly(cfg: Config, w: World)
    requires Enabled(cfg, w, Pick)
    ensures var i := w.phase.offered[0].reference;
            (Step(cfg, w, Pick).phase.Resolving?
             <==> i in w.db.tracks && w.db.tracks[i].state.Pending? && w.db.tracks[i].source == "deezer")
    ensures var i, p := w.phase.offered[0].reference, Step(cfg, w, Pick).phase;
            !p.Resolving? ==>
              && p.Picked? && p.key == w.phase.offered[0]
              && (p.sight.NoTrack? <==> i !in w.db.tracks)
              && (p.sight.UnderWay? <==> i in w.db.tracks && w.db.tracks[i].state.Downloading?)
              && (p.sight.ToFetch? <==> i in w.db.tracks && w.db.tracks[i].state.Pending?)
  {
  }
}
