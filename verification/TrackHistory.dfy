/**
 * What each event of the process does to a track: music-api/src/worker.rs and the calls of
 * music-api/src/db.rs it makes, told from outside, by event and not by call.
 */
module TrackHistory {
  import opened Wrappers
  import opened Ledger
  import opened Calls
  import opened CallEffects
  import opened Scheduler
  import opened SchedulerInvariant
  import T = SchedulerTheorems

  // ── The events of a track ────────────────────────────────────────────────

  /** A new order lists the track. */
  predicate OrderedBy(w: World, e: Event, i: Isrc) {
    e.PostOrder? && e.order !in w.db.orders && i in e.isrcs
  }

  /** A finalize or fetch task has the file. */
  predicate FileFound(e: Event, i: Isrc) {
    e == FinalizeReady(i) || e == FetchReady(i)
  }

  /** The lookup says that there is no such track, or that it cannot be streamed. */
  predicate FoundAbsent(w: World, e: Event, i: Isrc) {
    (e == Resolve(AbsentOnDeezer) || e == Resolve(CannotStream)) && w.phase.Resolving? && w.phase.isrc == i
  }

  /**
   * A try has failed: finalizing found no file of a download that had succeeded, a fetch failed,
   * the lookup failed, deemix reported failure, or the lease ran out.
   */
  predicate TryFails(w: World, e: Event, i: Isrc) {
    || (e == FinalizeMissing(i) && i in w.finalizing && w.finalizing[i])
    || e == FetchFailed(i)
    || (e == Resolve(TransientFailure) && w.phase.Resolving? && w.phase.isrc == i)
    || (e == Poll(Unsuccessful) && w.phase.Polling? && w.phase.polled != [] && w.phase.polled[0] == i)
    || (e == ReapNext && w.phase.Reaping? && w.phase.lapsed != [] && w.phase.lapsed[0] == i)
  }

  /** News of the download: its fetch has begun, or deemix still works on it. */
  predicate StillUnderWay(w: World, e: Event, i: Isrc) {
    || e == FetchStarted(i)
    || (e == Poll(StillDownloading) && w.phase.Polling? && w.phase.polled != [] && w.phase.polled[0] == i)
  }

  predicate ResetBy(w: World, e: Event, i: Isrc) {
    e == RetryTrack(i) && i in w.db.tracks && !w.db.tracks[i].state.Ready?
  }

  /** After a failure a track may try again while its counter, as a 32-bit number, is below the cap. */
  predicate MayTryAgain(cfg: Config, t: Track) {
    (t.attempts + 1) % 0x1_0000_0000 < cfg.policy.maxAttempts
  }

  /** What a known track is after an event. */
  function NextTrack(cfg: Config, w: World, e: Event, i: Isrc): Track
    requires i in w.db.tracks
  {
    var t := w.db.tracks[i];
    if T.StartsFromSight(w, e, i) then
      Track(t.source, Downloading, t.attempts, t.nextAttemptAt, Some(w.clock + cfg.downloadTimeout), t.createdAt)
    else if FileFound(e, i) || e == IngestFile(i) then
      Track(t.source, Ready, t.attempts, None, None, t.createdAt)
    else if FoundAbsent(w, e, i) then
      Track(t.source, Absent, t.attempts, None, None, t.createdAt)
    else if TryFails(w, e, i) && MayTryAgain(cfg, t) then
      var wait := BackoffDelay((t.attempts + 1) % 0x1_0000_0000, cfg.policy.baseSecs, cfg.policy.maxSecs);
      Track(t.source, Pending, t.attempts + 1, Some(w.clock + wait), None, t.createdAt)
    else if TryFails(w, e, i) then
      Track(t.source, Failed, t.attempts + 1, None, None, t.createdAt)
    else if StillUnderWay(w, e, i) then
      Track(t.source, t.state, t.attempts, t.nextAttemptAt, Some(w.clock + cfg.downloadTimeout), t.createdAt)
    else if ResetBy(w, e, i) then
      Track(t.source, Pending, 0, None, None, t.createdAt)
    else t
  }

  /** `tracks` holds of track `i` what the event makes of it. */
  predicate Follows(cfg: Config, w: World, e: Event, i: Isrc, tracks: map<Isrc, Track>) {
    && (i in tracks <==> i in w.db.tracks || OrderedBy(w, e, i) || e == IngestFile(i))
    && (i in w.db.tracks ==> tracks[i] == NextTrack(cfg, w, e, i))
    && (i !in w.db.tracks && OrderedBy(w, e, i) ==> tracks[i] == Track(TrackSource(i), Pending, 0, None, None, w.clock))
    && (i !in w.db.tracks && e == IngestFile(i) ==> tracks[i] == Track("deezer", Ready, 0, None, None, w.clock))
  }

  // ── What the calls behind them do ────────────────────────────────────────

  /** What a known track is after a call. */
  function CalledTrack(t: Track, call: Call, policy: RetryPolicy, now: int, i: Isrc): Track {
    match call
    case StartCall(j, until) => if j == i then t.(state := Downloading, leaseExpiresAt := Some(until)) else t
    case SettleCall(j, s) => if j == i then Settled(t, s) else t
    case RetryCall(j) => if j == i then RetriedTrack(t, policy, now) else t
    case ResetCall(j) =>
      if j == i && !t.state.Ready? then t.(state := Pending, attempts := 0, nextAttemptAt := None, leaseExpiresAt := None)
      else t
    case IngestCall(j) => if j == i then Settled(t, Ready) else t
    case RenewCall(j, until) => if j == i then t.(leaseExpiresAt := Some(until)) else t
    case _ => t
  }

  function RetriedTrack(t: Track, policy: RetryPolicy, now: int): Track {
    var n := AsU32(t.attempts + 1);
    if n < policy.maxAttempts
    then t.(state := Pending, attempts := t.attempts + 1, leaseExpiresAt := None,
            nextAttemptAt := Some(now + BackoffDelay(n, policy.baseSecs, policy.maxSecs)))
    else Settled(t.(attempts := t.attempts + 1), Failed)
  }

  lemma RetryCallsTrack(db: Db, call: Call, policy: RetryPolicy, now: int, i: Isrc)
    requires i in db.tracks && call.RetryCall?
    ensures var tracks := Apply(db, call, policy, now).tracks;
            i in tracks && tracks[i] == CalledTrack(db.tracks[i], call, policy, now, i)
  {
  }

  lemma OtherCallsTrack(db: Db, call: Call, policy: RetryPolicy, now: int, i: Isrc)
    requires i in db.tracks && !call.RetryCall?
    ensures var tracks := Apply(db, call, policy, now).tracks;
            i in tracks && tracks[i] == CalledTrack(db.tracks[i], call, policy, now, i)
  {
  }

  lemma NewTracks(db: Db, call: Call, policy: RetryPolicy, now: int, i: Isrc)
    requires i !in db.tracks
    ensures var db' := Apply(db, call, policy, now);
            i in db'.tracks <==> || (call.CreateOrderCall? && call.order !in db.orders && i in call.isrcs)
                                 || call == IngestCall(i)
    ensures var db' := Apply(db, call, policy, now);
            i in db'.tracks ==>
              db'.tracks[i] == if call.IngestCall? then Track("deezer", Ready, 0, None, None, now)
                               else Track(TrackSource(i), Pending, 0, None, None, now)
  {
  }

  // ── Which call an event makes ────────────────────────────────────────────

  lemma RetriesByEvent(cfg: Config, w: World, e: Event, i: Isrc)
    requires Enabled(cfg, w, e)
    ensures TryFails(w, e, i) <==> CallOf(cfg, w, e) == RetryCall(i)
  {
  }

  lemma SettlesByEvent(cfg: Config, w: World, e: Event, i: Isrc)
    requires Enabled(cfg, w, e)
    ensures FileFound(e, i) <==> CallOf(cfg, w, e) == SettleCall(i, Ready)
    ensures FoundAbsent(w, e, i) <==> CallOf(cfg, w, e) == SettleCall(i, Absent)
    ensures CallOf(cfg, w, e).SettleCall? ==> CallOf(cfg, w, e).state in {Ready, Absent}
  {
  }

  lemma StartsByEvent(cfg: Config, w: World, e: Event, i: Isrc)
    requires Enabled(cfg, w, e)
    ensures T.StartsFromSight(w, e, i) <==> CallOf(cfg, w, e).StartCall? && CallOf(cfg, w, e).isrc == i
    ensures CallOf(cfg, w, e).StartCall? ==> CallOf(cfg, w, e).leaseUntil == w.clock + cfg.downloadTimeout
  {
    T.StartsComeFromSight(cfg, w, e, i);
  }

  lemma RenewsByEvent(cfg: Config, w: World, e: Event, i: Isrc)
    requires Enabled(cfg, w, e)
    ensures StillUnderWay(w, e, i) <==> CallOf(cfg, w, e).RenewCall? && CallOf(cfg, w, e).isrc == i
    ensures CallOf(cfg, w, e).RenewCall? ==> CallOf(cfg, w, e).until == w.clock + cfg.downloadTimeout
  {
  }

  lemma OthersByEvent(cfg: Config, w: World, e: Event, i: Isrc)
    requires Enabled(cfg, w, e)
    ensures e == RetryTrack(i) <==> CallOf(cfg, w, e) == ResetCall(i)
    ensures e == IngestFile(i) <==> CallOf(cfg, w, e) == IngestCall(i)
    ensures OrderedBy(w, e, i)
       <==> CallOf(cfg, w, e).CreateOrderCall? && CallOf(cfg, w, e).order !in w.db.orders && i in CallOf(cfg, w, e).isrcs
  {
  }

  lemma NextIsCalled(cfg: Config, w: World, e: Event, i: Isrc)
    requires Enabled(cfg, w, e) && i in w.db.tracks
    ensures CalledTrack(w.db.tracks[i], CallOf(cfg, w, e), cfg.policy, w.clock, i) == NextTrack(cfg, w, e, i)
  {
    RetriesByEvent(cfg, w, e, i);
    SettlesByEvent(cfg, w, e, i);
    StartsByEvent(cfg, w, e, i);
    RenewsByEvent(cfg, w, e, i);
    OthersByEvent(cfg, w, e, i);
    var call := CallOf(cfg, w, e);
    CallIsOneOf(w.db.tracks[i], call, cfg.policy, w.clock, i);
  }

  /** A call that concerns another track, or none, changes nothing. */
  lemma CallIsOneOf(t: Track, call: Call, policy: RetryPolicy, now: int, i: Isrc)
    ensures || CalledTrack(t, call, policy, now, i) == t
            || ((call.StartCall? || call.SettleCall? || call.RetryCall? || call.ResetCall? || call.IngestCall? || call.RenewCall?)
                && call.isrc == i)
  {
  }

  /** Every event's effect on every track: nothing else changes one, and nothing deletes one. */
  lemma TrackStep(cfg: Config, w: World, e: Event, i: Isrc)
    requires Enabled(cfg, w, e)
    ensures Follows(cfg, w, e, i, Step(cfg, w, e).db.tracks)
  {
    var call := CallOf(cfg, w, e);
    OthersByEvent(cfg, w, e, i);
    if i !in w.db.tracks {
      NewTracks(w.db, call, cfg.policy, w.clock, i);
    } else {
      NextIsCalled(cfg, w, e, i);
      if call.RetryCall? {
        RetryCallsTrack(w.db, call, cfg.policy, w.clock, i);
      } else {
        OtherCallsTrack(w.db, call, cfg.policy, w.clock, i);
      }
    }
  }

  // ── Over whole runs ──────────────────────────────────────────────────────

  /** The failed tries of a track along a run since it was last reset, on top of `n` before. */
  ghost function FailedTries(cfg: Config, w: World, events: seq<Event>, i: Isrc, n: nat): nat
    requires ValidRun(cfg, w, events)
    decreases |events|
  {
    if events == [] then n
    else FailedTries(cfg, Step(cfg, w, events[0]), events[1..], i, CountedOn(w, events[0], i, n))
  }

  function AttemptsOf(tracks: map<Isrc, Track>, i: Isrc): nat {
    if i in tracks then tracks[i].attempts else 0
  }

  function CountedOn(w: World, e: Event, i: Isrc, n: nat): nat {
    if ResetBy(w, e, i) then 0 else if i in w.db.tracks && TryFails(w, e, i) then n + 1 else n
  }

  lemma AttemptsFollow(cfg: Config, w: World, e: Event, i: Isrc, tracks: map<Isrc, Track>)
    requires Follows(cfg, w, e, i, tracks)
    ensures AttemptsOf(tracks, i) == CountedOn(w, e, i, AttemptsOf(w.db.tracks, i))
  {
  }

  /** A track's counter is the number of its failed tries since it was last reset. */
  lemma {:induction false} AttemptsCountFailures(cfg: Config, w: World, events: seq<Event>, i: Isrc)
    requires ValidRun(cfg, w, events)
    ensures AttemptsOf(After(cfg, w, events).db.tracks, i) == FailedTries(cfg, w, events, i, AttemptsOf(w.db.tracks, i))
    decreases |events|
  {
    if events != [] {
      var w' := Step(cfg, w, events[0]);
      TrackStep(cfg, w, events[0], i);
      AttemptsFollow(cfg, w, events[0], i, w'.db.tracks);
      AttemptsCountFailures(cfg, w', events[1..], i);
    }
  }

  predicate IsReady(tracks: map<Isrc, Track>, i: Isrc) {
    i in tracks && tracks[i].state.Ready?
  }

  /** The events that make a track ready, and those that make a ready one something else. */
  predicate MakesReady(w: World, e: Event, i: Isrc) {
    e == IngestFile(i) || (i in w.db.tracks && FileFound(e, i))
  }

  predicate TakesReadiness(w: World, e: Event, i: Isrc) {
    T.StartsFromSight(w, e, i) || FoundAbsent(w, e, i) || TryFails(w, e, i)
  }

  lemma ReadyFollows(cfg: Config, w: World, e: Event, i: Isrc, tracks: map<Isrc, Track>)
    requires Follows(cfg, w, e, i, tracks)
    ensures IsReady(tracks, i) <==> MakesReady(w, e, i) || (IsReady(w.db.tracks, i) && !TakesReadiness(w, e, i))
  {
  }

  ghost predicate KeepsReadiness(cfg: Config, w: World, events: seq<Event>, i: Isrc)
    requires ValidRun(cfg, w, events)
    decreases |events|
  {
    events != [] ==>
      && (MakesReady(w, events[0], i) || !TakesReadiness(w, events[0], i))
      && KeepsReadiness(cfg, Step(cfg, w, events[0]), events[1..], i)
  }

  /** Some event of the run finds the file or brings it from outside, and no later one takes it back. */
  ghost predicate FileStands(cfg: Config, w: World, events: seq<Event>, i: Isrc)
    requires ValidRun(cfg, w, events)
    decreases |events|
  {
    && events != []
    && var w', rest := Step(cfg, w, events[0]), events[1..];
       FileStands(cfg, w', rest, i) || (MakesReady(w, events[0], i) && KeepsReadiness(cfg, w', rest, i))
  }

  /** Over every run: a track is ready at the end exactly if a file was found for it and stands, or it was ready and stayed so. */
  lemma {:induction false} ReadyAtTheEndExactly(cfg: Config, w: World, events: seq<Event>, i: Isrc)
    requires ValidRun(cfg, w, events)
    ensures IsReady(After(cfg, w, events).db.tracks, i)
       <==> FileStands(cfg, w, events, i) || (IsReady(w.db.tracks, i) && KeepsReadiness(cfg, w, events, i))
    decreases |events|
  {
    if events != [] {
      var w', rest := Step(cfg, w, events[0]), events[1..];
      TrackStep(cfg, w, events[0], i);
      ReadyFollows(cfg, w, events[0], i, w'.db.tracks);
      ReadyAtTheEndExactly(cfg, w', rest, i);
    }
  }
}
