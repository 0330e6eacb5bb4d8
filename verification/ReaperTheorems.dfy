/**
 * What the reaper achieves while other steps come between: music-api/src/db.rs,
 * `recover_expired_leases`, whose list is read once and then retried row by row.
 */
module ReaperTheorems {
  import opened Wrappers
  import opened Ledger
  import opened Calls
  import opened CallEffects
  import opened LedgerInvariant
  import opened Scheduler
  import opened SchedulerInvariant
  import Queue = WorkQueue

  // ── Leases a fetch task may renew ────────────────────────────────────────

  /** The lease of a download with a live fetch task was given by this process, and so runs no longer than its timeout. */
  ghost predicate FetchesLeased(cfg: Config, w: World) {
    forall i :: i in w.fetching && i in w.db.tracks ==> LeasedUntil(w.db.tracks[i], w.clock + cfg.downloadTimeout)
  }

  predicate LeasedUntil(t: Track, until: int) {
    t.state.Downloading? && t.leaseExpiresAt.Some? ==> t.leaseExpiresAt.value <= until
  }

  lemma CallLeases(db: Db, call: Call, policy: RetryPolicy, now: int, until: int, i: Isrc)
    requires i in db.tracks && i in Apply(db, call, policy, now).tracks
    requires call.StartCall? && call.isrc == i ==> call.leaseUntil <= until
    requires call.RenewCall? && call.isrc == i ==> call.until <= until
    requires LeasedUntil(db.tracks[i], until) || (call.StartCall? && call.isrc == i)
    ensures LeasedUntil(Apply(db, call, policy, now).tracks[i], until)
  {
  }

  lemma LeasesGiven(cfg: Config, w: World, e: Event)
    requires Enabled(cfg, w, e)
    ensures var call := CallOf(cfg, w, e);
            && (call.StartCall? ==> call.leaseUntil == w.clock + cfg.downloadTimeout)
            && (call.RenewCall? ==> call.until == w.clock + cfg.downloadTimeout)
  {
  }

  lemma FetchesStartLeased(cfg: Config, w: World, e: Event, i: Isrc)
    requires HeldOk(w) && Enabled(cfg, w, e) && i in FetchingAfter(cfg, w, e) && i !in w.fetching
    ensures CallOf(cfg, w, e).StartCall? && CallOf(cfg, w, e).isrc == i
  {
  }

  lemma StepKeepsFetchesLeased(cfg: Config, w: World, e: Event)
    requires HeldOk(w) && Enabled(cfg, w, e) && FetchesLeased(cfg, w)
    ensures FetchesLeased(cfg, Step(cfg, w, e))
  {
    var call, w' := CallOf(cfg, w, e), Step(cfg, w, e);
    CallsAreAllowed(cfg, w, e);
    LeasesGiven(cfg, w, e);
    forall i | i in w'.fetching && i in w'.db.tracks
      ensures LeasedUntil(w'.db.tracks[i], w'.clock + cfg.downloadTimeout)
    {
      if i !in w.fetching {
        FetchesStartLeased(cfg, w, e, i);
      }
      CallLeases(w.db, call, cfg.policy, w.clock, w.clock + cfg.downloadTimeout, i);
    }
  }

  lemma {:induction false} RunKeepsFetchesLeased(cfg: Config, w: World, events: seq<Event>)
    requires ValidConfig(cfg) && Inv(cfg, w) && ValidRun(cfg, w, events) && FetchesLeased(cfg, w)
    ensures FetchesLeased(cfg, After(cfg, w, events)) && Inv(cfg, After(cfg, w, events))
    decreases |events|
  {
    if events != [] {
      StepKeepsFetchesLeased(cfg, w, events[0]);
      StepKeepsInv(cfg, w, events[0]);
      RunKeepsFetchesLeased(cfg, Step(cfg, w, events[0]), events[1..]);
    }
  }

  // ── From the read to the last retry ──────────────────────────────────────

  /**
   * What the reaper must still retry: a row whose lease had lapsed at `read`, or one that a fetch
   * task could renew into a lease lapsed already.
   */
  ghost predicate Dues(cfg: Config, w: World, read: int, i: Isrc) {
    && i in w.db.tracks && w.db.tracks[i].state.Downloading?
    && (Lapsed(w.db.tracks[i], read) || (cfg.downloadTimeout < 1 && i in w.fetching))
  }

  ghost predicate ReapsAll(cfg: Config, w: World, read: int) {
    w.phase.Reaping? && forall i :: Dues(cfg, w, read, i) ==> i in w.phase.lapsed
  }

  lemma CallLapsesNothing(db: Db, call: Call, policy: RetryPolicy, now: int, read: int, i: Isrc)
    requires Allowed(db, call) && !call.StartCall?
    requires i in Apply(db, call, policy, now).tracks && Apply(db, call, policy, now).tracks[i].state.Downloading?
    ensures i in db.tracks && db.tracks[i].state.Downloading? && call != RetryCall(i)
    ensures !(call.RenewCall? && call.isrc == i) && Lapsed(Apply(db, call, policy, now).tracks[i], read)
            ==> Lapsed(db.tracks[i], read)
    ensures call.RenewCall? && call.isrc == i && Lapsed(Apply(db, call, policy, now).tracks[i], read)
            ==> call.until <= read
  {
  }

  lemma ReaperCalls(cfg: Config, w: World, e: Event)
    requires Enabled(cfg, w, e) && w.phase.Reaping? && !e.EndPhase? && !e.Restart?
    ensures var call := CallOf(cfg, w, e);
            && !call.StartCall?
            && (call.RenewCall? ==> call.until == w.clock + cfg.downloadTimeout && call.isrc in w.fetching)
    ensures if e.ReapNext? then CallOf(cfg, w, e) == RetryCall(w.phase.lapsed[0])
                                && PhaseAfter(cfg, w, e) == Reaping(w.phase.lapsed[1..])
            else PhaseAfter(cfg, w, e) == w.phase
    ensures forall i :: i in FetchingAfter(cfg, w, e) ==> i in w.fetching
  {
  }

  lemma ReaperStep(cfg: Config, w: World, e: Event, read: int)
    requires HeldOk(w) && Enabled(cfg, w, e) && ReapsAll(cfg, w, read) && read <= w.clock
    requires !e.EndPhase? && !e.Restart?
    ensures ReapsAll(cfg, Step(cfg, w, e), read) && read <= Step(cfg, w, e).clock
  {
    CallsAreAllowed(cfg, w, e);
    var call, w' := CallOf(cfg, w, e), Step(cfg, w, e);
    ReaperCalls(cfg, w, e);
    forall i | Dues(cfg, w', read, i)
      ensures i in w'.phase.lapsed
    {
      CallLapsesNothing(w.db, call, cfg.policy, w.clock, read, i);
      assert Dues(cfg, w, read, i);
    }
  }

  lemma {:induction false} ReapsThrough(cfg: Config, w: World, events: seq<Event>, read: int)
    requires ValidConfig(cfg) && Inv(cfg, w) && ValidRun(cfg, w, events)
    requires ReapsAll(cfg, w, read) && read <= w.clock
    requires forall n :: 0 <= n < |events| ==> !events[n].EndPhase? && !events[n].Restart?
    ensures ReapsAll(cfg, After(cfg, w, events), read)
    decreases |events|
  {
    if events != [] {
      ReaperStep(cfg, w, events[0], read);
      StepKeepsInv(cfg, w, events[0]);
      ReapsThrough(cfg, Step(cfg, w, events[0]), events[1..], read);
    }
  }

  lemma ReadingListsAll(cfg: Config, w: World, found: seq<Isrc>)
    requires Enabled(cfg, w, ReadLapsed(found)) && FetchesLeased(cfg, w)
    ensures ReapsAll(cfg, Step(cfg, w, ReadLapsed(found)), w.clock)
  {
    var w' := Step(cfg, w, ReadLapsed(found));
    forall i | Dues(cfg, w', w.clock, i)
      ensures i in found
    {
      assert i in w.fetching ==> LeasedUntil(w.db.tracks[i], w.clock + cfg.downloadTimeout);
    }
  }

  /** A run of the reaper, with whatever comes between, up to its last row. */
  ghost predicate ReaperRun(cfg: Config, w: World, found: seq<Isrc>, events: seq<Event>) {
    && Enabled(cfg, w, ReadLapsed(found))
    && ValidRun(cfg, Step(cfg, w, ReadLapsed(found)), events)
    && (forall n :: 0 <= n < |events| ==> !events[n].EndPhase? && !events[n].Restart?)
    && After(cfg, Step(cfg, w, ReadLapsed(found)), events).phase == Reaping([])
  }

  ghost predicate Clears(cfg: Config, w: World, found: seq<Isrc>, events: seq<Event>)
    requires ReaperRun(cfg, w, found, events)
  {
    LapsedTracks(After(cfg, Step(cfg, w, ReadLapsed(found)), events).db, w.clock) == {}
  }

  lemma LeasedReaperClears(cfg: Config, w: World, found: seq<Isrc>, events: seq<Event>)
    requires ValidConfig(cfg) && Inv(cfg, w) && ReaperRun(cfg, w, found, events)
    requires FetchesLeased(cfg, w)
    ensures Clears(cfg, w, found, events)
  {
    var read := Step(cfg, w, ReadLapsed(found));
    ReadingListsAll(cfg, w, found);
    StepKeepsInv(cfg, w, ReadLapsed(found));
    ReapsThrough(cfg, read, events, w.clock);
    var w' := After(cfg, read, events);
    forall i | i in LapsedTracks(w'.db, w.clock)
      ensures false
    {
      assert Dues(cfg, w', w.clock, i);
    }
  }

  /**
   * Whatever the download timeout, from any process start on any coherent database: whatever
   * comes between the reaper's read and its last row, no download then has a lease that had
   * lapsed at the time of the read.
   */
  lemma ReaperClearsAmongOthers(cfg: Config, start: World, before: seq<Event>, found: seq<Isrc>, events: seq<Event>)
    requires ValidConfig(cfg) && Inv(cfg, start) && start.fetching == multiset{}
    requires ValidRun(cfg, start, before) && ReaperRun(cfg, After(cfg, start, before), found, events)
    ensures Clears(cfg, After(cfg, start, before), found, events)
  {
    RunKeepsFetchesLeased(cfg, start, before);
    LeasedReaperClears(cfg, After(cfg, start, before), found, events);
  }

  // ── Without the history of the process ───────────────────────────────────

  ghost predicate AlwaysClears(cfg: Config) {
    forall w, found, events :: Inv(cfg, w) && ReaperRun(cfg, w, found, events) ==> Clears(cfg, w, found, events)
  }

  lemma LongTimeoutReaps(cfg: Config, w: World, found: seq<Isrc>)
    requires Enabled(cfg, w, ReadLapsed(found)) && 1 <= cfg.downloadTimeout
    ensures ReapsAll(cfg, Step(cfg, w, ReadLapsed(found)), w.clock)
  {
  }

  lemma LongTimeoutClears(cfg: Config, w: World, found: seq<Isrc>, events: seq<Event>)
    requires ValidConfig(cfg) && Inv(cfg, w) && ReaperRun(cfg, w, found, events) && 1 <= cfg.downloadTimeout
    ensures Clears(cfg, w, found, events)
  {
    var read := Step(cfg, w, ReadLapsed(found));
    LongTimeoutReaps(cfg, w, found);
    StepKeepsInv(cfg, w, ReadLapsed(found));
    ReapsThrough(cfg, read, events, w.clock);
    var w' := After(cfg, read, events);
    forall i | i in LapsedTracks(w'.db, w.clock)
      ensures false
    {
      assert Dues(cfg, w', w.clock, i);
    }
  }

  /** One download with a live fetch task, under a lease longer than the timeout: no process gets there. */
  function ForeignLease(): World {
    var i := "soundcloud:1";
    var t := Track("soundcloud", Downloading, 0, None, Some(1), 0);
    World(Db(map[i := t], map[DownloadKey(i) := Queue.Fresh(0, Queue.Running, 0)], map[], {}),
          0, Idle, map[], multiset{i}, map[], map[])
  }

  lemma ForeignLeaseInv(cfg: Config)
    requires ValidConfig(cfg)
    ensures Inv(cfg, ForeignLease())
  {
    var w := ForeignLease();
    assert DownloadingTracks(w.db) == {"soundcloud:1"};
    forall kind | Claimed(kind)
      ensures KindCapOk(cfg, w, kind)
    {
      assert Queue.RunningKeys(w.db.items, kind) == {};
    }
  }

  lemma ShortTimeoutFails(cfg: Config)
    requires ValidConfig(cfg) && cfg.downloadTimeout < 1
    ensures !AlwaysClears(cfg)
  {
    var i, w := "soundcloud:1", ForeignLease();
    ForeignLeaseInv(cfg);
    assert LapsedTracks(w.db, 0) == {};
    var read := Step(cfg, w, ReadLapsed([]));
    OneEvent(cfg, read, FetchStarted(i));
    RenewedLapses(cfg, read, i);
    assert ReaperRun(cfg, w, [], [FetchStarted(i)]) && !Clears(cfg, w, [], [FetchStarted(i)]);
  }

  lemma OneEvent(cfg: Config, w: World, e: Event)
    requires Enabled(cfg, w, e)
    ensures ValidRun(cfg, w, [e]) && After(cfg, w, [e]) == Step(cfg, w, e)
  {
    assert [e][1..] == [];
    assert After(cfg, Step(cfg, w, e), []) == Step(cfg, w, e);
  }

  lemma RenewedLapses(cfg: Config, w: World, i: Isrc)
    requires i in w.fetching && i in w.db.tracks && w.db.tracks[i].state.Downloading? && cfg.downloadTimeout < 1
    ensures i in LapsedTracks(Step(cfg, w, FetchStarted(i)).db, w.clock)
    ensures Step(cfg, w, FetchStarted(i)).phase == w.phase
  {
  }

  /** From every world that keeps the invariant, reached or not, it takes a timeout of at least a second. */
  lemma AlwaysClearsExactly(cfg: Config)
    requires ValidConfig(cfg)
    ensures AlwaysClears(cfg) <==> 1 <= cfg.downloadTimeout
  {
    if 1 <= cfg.downloadTimeout {
      forall w, found, events | Inv(cfg, w) && ReaperRun(cfg, w, found, events)
        ensures Clears(cfg, w, found, events)
      {
        LongTimeoutClears(cfg, w, found, events);
      }
    } else {
      ShortTimeoutFails(cfg);
    }
  }
}
