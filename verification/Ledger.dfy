/**
 * The download ledger (music-api/src/db.rs): tracks, orders and their links, coupled to
 * the work queue. Every function below is the net effect of one `db::` call on the
 * whole database; the class in Database.dfy carries the calls out statement by statement.
 */
module Ledger {
  import opened Wrappers
  import Ascii
  import Queue = WorkQueue

  type Isrc = string
  type OrderId = string

  datatype TrackState = Pending | Downloading | Ready | Absent | Failed

  datatype Track = Track(
    source: string,
    state: TrackState,
    attempts: nat,
    nextAttemptAt: Option<int>,
    leaseExpiresAt: Option<int>,
    createdAt: int)

  datatype OrderStatus = Open | Complete | Partial | Cancelled

  datatype Order = Order(status: OrderStatus, priority: int)

  datatype Link = Link(order: OrderId, isrc: Isrc)

  datatype Db = Db(
    tracks: map<Isrc, Track>,
    items: Queue.Rows,
    orders: map<OrderId, Order>,
    links: set<Link>)

  datatype RetryPolicy = RetryPolicy(maxAttempts: nat, baseSecs: int, maxSecs: int)

  function DownloadKey(i: Isrc): Queue.Key {
    Queue.Key(Queue.Download, i)
  }

  function TrackOf(db: Db, i: Isrc): Option<Track> {
    if i in db.tracks then Some(db.tracks[i]) else None
  }

  function ItemOf(db: Db, i: Isrc): Option<Queue.WorkItem> {
    Queue.Lookup(db.items, DownloadKey(i))
  }

  predicate Unfinished(s: TrackState) {
    s.Pending? || s.Downloading?
  }

  // ── Track sources ────────────────────────────────────────────────────────

  // The part before the first ':', when there is one.
  function Prefix(s: string): Option<string> {
    if s == "" then None
    else if s[0] == ':' then Some("")
    else match Prefix(s[1..])
      case None => None
      case Some(p) => Some([s[0]] + p)
  }

  function TrackSource(i: Isrc): string {
    match Prefix(i)
    case Some(p) => if p != "" && !Ascii.Alike(p, "deezer") then p else "deezer"
    case None => "deezer"
  }

  lemma {:induction false} PrefixEndsAtColon(a: string, b: string)
    requires ':' !in a
    ensures Prefix(a + ":" + b) == Some(a)
    ensures Prefix(a) == None
  {
    var s := a + ":" + b;
    if a == "" {
      assert s[0] == ':';
    } else {
      assert s[0] == a[0] && s[1..] == a[1..] + ":" + b && a == [a[0]] + a[1..];
      PrefixEndsAtColon(a[1..], b);
    }
  }

  /** A track's source is what stands before the first colon of its key, unless that is nothing or Deezer in any case. */
  lemma SourceStandsBeforeColon(a: string, b: string)
    requires ':' !in a
    ensures TrackSource(a) == "deezer"
    ensures TrackSource(a + ":" + b) == if a == "" || Ascii.Alike(a, "deezer") then "deezer" else a
  {
    PrefixEndsAtColon(a, b);
  }

  function NewTrack(i: Isrc, now: int): Track {
    Track(TrackSource(i), Pending, 0, None, None, now)
  }

  // ── Order status ─────────────────────────────────────────────────────────

  function DeriveOrderStatus(states: seq<TrackState>): OrderStatus {
    if |states| == 0 then Open
    else if exists i :: 0 <= i < |states| && Unfinished(states[i]) then Open
    else if forall i :: 0 <= i < |states| ==> states[i].Ready? then Complete
    else Partial
  }

  // The rows the join of `order_items` and `tracks` yields for one order.
  function Joined(tracks: map<Isrc, Track>, links: set<Link>, o: OrderId): set<Isrc> {
    set l | l in links && l.order == o && l.isrc in tracks :: l.isrc
  }

  function StatusOf(tracks: map<Isrc, Track>, links: set<Link>, o: OrderId): OrderStatus {
    var rows := Joined(tracks, links, o);
    if rows == {} then Open
    else if exists i :: i in rows && Unfinished(tracks[i].state) then Open
    else if forall i :: i in rows ==> tracks[i].state.Ready? then Complete
    else Partial
  }

  // `states` lists the joined states, in any order and with every row represented.
  ghost predicate ListsStates(tracks: map<Isrc, Track>, links: set<Link>, o: OrderId, states: seq<TrackState>) {
    && (forall i :: i in Joined(tracks, links, o) ==> tracks[i].state in states)
    && (forall s :: s in states ==> exists i :: i in Joined(tracks, links, o) && tracks[i].state == s)
  }

  /** The status depends only on which states the join yields, not on the row order. */
  lemma StatusOfListing(tracks: map<Isrc, Track>, links: set<Link>, o: OrderId, states: seq<TrackState>)
    requires ListsStates(tracks, links, o, states)
    ensures DeriveOrderStatus(states) == StatusOf(tracks, links, o)
  {
    var rows := Joined(tracks, links, o);
    forall i | i in rows
      ensures exists j :: 0 <= j < |states| && states[j] == tracks[i].state
    {
      assert tracks[i].state in states;
    }
    if states != [] {
      assert states[0] in states;
    }
    if i :| i in rows && Unfinished(tracks[i].state) {
      var j :| 0 <= j < |states| && states[j] == tracks[i].state;
      assert Unfinished(states[j]);
    } else if !(forall i :: i in rows ==> tracks[i].state.Ready?) {
      var i :| i in rows && !tracks[i].state.Ready?;
      var j :| 0 <= j < |states| && states[j] == tracks[i].state;
      assert !states[j].Ready?;
      NoneUnfinished(tracks, links, o, states);
    } else {
      forall j | 0 <= j < |states|
        ensures states[j].Ready?
      {
        assert states[j] in states;
      }
    }
  }

  lemma NoneUnfinished(tracks: map<Isrc, Track>, links: set<Link>, o: OrderId, states: seq<TrackState>)
    requires ListsStates(tracks, links, o, states)
    requires forall i :: i in Joined(tracks, links, o) ==> !Unfinished(tracks[i].state)
    ensures forall j :: 0 <= j < |states| ==> !Unfinished(states[j])
  {
    forall j | 0 <= j < |states|
      ensures !Unfinished(states[j])
    {
      assert states[j] in states;
    }
  }

  // An order's status reads only the tracks linked to it.
  lemma StatusFrame(tracks: map<Isrc, Track>, tracks': map<Isrc, Track>, links: set<Link>, o: OrderId)
    requires forall l :: l in links && l.order == o ==>
               l.isrc in tracks && l.isrc in tracks' && tracks[l.isrc].state == tracks'[l.isrc].state
    ensures StatusOf(tracks, links, o) == StatusOf(tracks', links, o)
  {
    assert Joined(tracks, links, o) == Joined(tracks', links, o);
  }

  function RefreshOrder(db: Db, o: OrderId): Db {
    if o in db.orders
    then db.(orders := db.orders[o := db.orders[o].(status := StatusOf(db.tracks, db.links, o))])
    else db
  }

  function RefreshOrdersFor(db: Db, i: Isrc): Db {
    db.(orders := map o | o in db.orders ::
          if Link(o, i) in db.links
          then db.orders[o].(status := StatusOf(db.tracks, db.links, o))
          else db.orders[o])
  }

  // ── One track and its queue item move together ───────────────────────────

  // UPDATE tracks ... WHERE isrc = i: no row, no effect.
  function SetTrack(db: Db, i: Isrc, t: Track): Db {
    if i in db.tracks then db.(tracks := db.tracks[i := t]) else db
  }

  function MarkDownloading(db: Db, i: Isrc, leaseUntil: int, now: int): Db {
    var moved := if i in db.tracks
                 then SetTrack(db, i, db.tracks[i].(state := Downloading, leaseExpiresAt := Some(leaseUntil)))
                 else db;
    RefreshOrdersFor(moved.(items := Queue.EnsureRunning(moved.items, DownloadKey(i), now)), i)
  }

  function Settled(t: Track, s: TrackState): Track {
    t.(state := s, leaseExpiresAt := None, nextAttemptAt := None)
  }

  // `mark_ready` and `mark_terminal` differ only in the state and the text columns.
  function MarkSettled(db: Db, i: Isrc, s: TrackState, now: int): Db {
    var moved := if i in db.tracks then SetTrack(db, i, Settled(db.tracks[i], s)) else db;
    RefreshOrdersFor(moved.(items := Queue.Finish(moved.items, DownloadKey(i), now)), i)
  }

  function IngestReadyTrack(db: Db, i: Isrc, now: int): Db {
    var t := if i in db.tracks
             then Settled(db.tracks[i], Ready)
             else Track("deezer", Ready, 0, None, None, now);
    RefreshOrdersFor(db.(tracks := db.tracks[i := t]), i)
  }

  function RenewLease(db: Db, i: Isrc, until: int): Db {
    if i in db.tracks then SetTrack(db, i, db.tracks[i].(leaseExpiresAt := Some(until))) else db
  }

  // ── Retries ──────────────────────────────────────────────────────────────

  // Rust's `attempts as u32`: the low 32 bits.
  function AsU32(n: nat): nat {
    n % 0x1_0000_0000
  }

  function Pow2(n: nat): nat {
    if n == 0 then 1 else 2 * Pow2(n - 1)
  }

  const I64_MAX: int := 0x7FFF_FFFF_FFFF_FFFF

  function SaturatingMul(a: int, b: int): int {
    Min(Max(a * b, -I64_MAX - 1), I64_MAX)
  }

  function BackoffDelay(attempts: nat, base: int, cap: int): int {
    Min(SaturatingMul(base, Pow2(Min(Max(attempts - 1, 0), 20))), cap)
  }

  // The attempt number a failure is recorded under; a missing row reads as 0.
  function AttemptsAfter(db: Db, i: Isrc): nat {
    if i in db.tracks then db.tracks[i].attempts + 1 else 0
  }

  predicate Retryable(db: Db, i: Isrc, policy: RetryPolicy) {
    AsU32(AttemptsAfter(db, i)) < policy.maxAttempts
  }

  function ScheduleRetry(db: Db, i: Isrc, policy: RetryPolicy, now: int): Db {
    var counted := if i in db.tracks
                   then SetTrack(db, i, db.tracks[i].(attempts := AttemptsAfter(db, i)))
                   else db;
    if !Retryable(db, i, policy) then
      MarkSettled(counted, i, Failed, now)
    else
      var next := now + BackoffDelay(AsU32(AttemptsAfter(db, i)), policy.baseSecs, policy.maxSecs);
      var pending := if i in db.tracks
                     then SetTrack(counted, i,
                                   counted.tracks[i].(state := Pending, nextAttemptAt := Some(next), leaseExpiresAt := None))
                     else counted;
      var refreshed := RefreshOrdersFor(pending, i);
      refreshed.(items := Queue.RetryRef(refreshed.items, DownloadKey(i), next, now))
  }

  predicate Lapsed(t: Track, now: int) {
    t.state.Downloading? && (t.leaseExpiresAt.None? || t.leaseExpiresAt.value <= now)
  }

  function LapsedTracks(db: Db, now: int): set<Isrc> {
    set i | i in db.tracks && Lapsed(db.tracks[i], now)
  }

  /** A heartbeat moves one download out of the reaper's reach until the new lease lapses, and nothing else. */
  lemma RenewalPostponesReaping(db: Db, i: Isrc, until: int, t: int)
    requires i in db.tracks && db.tracks[i].state.Downloading?
    ensures LapsedTracks(RenewLease(db, i, until), t)
         == if until <= t then LapsedTracks(db, t) + {i} else LapsedTracks(db, t) - {i}
  {
    assert forall j :: j in db.tracks && j != i ==> RenewLease(db, i, until).tracks[j] == db.tracks[j];
  }

  // The reaper's loop over the rows its SELECT returned, in whatever order they came.
  function RetryAll(db: Db, isrcs: seq<Isrc>, policy: RetryPolicy, now: int): Db
    decreases |isrcs|
  {
    if isrcs == [] then db
    else ScheduleRetry(RetryAll(db, isrcs[..|isrcs| - 1], policy, now), isrcs[|isrcs| - 1], policy, now)
  }

  ghost predicate Enumerates<T(!new)>(s: seq<T>, elems: set<T>) {
    && (forall x :: x in elems <==> x in s)
    && (forall i, j :: 0 <= i < j < |s| ==> s[i] != s[j])
  }

  predicate Resettable(db: Db, i: Isrc) {
    i in db.tracks && !db.tracks[i].state.Ready?
  }

  function ResetTrackToPending(db: Db, i: Isrc, now: int): Db {
    if Resettable(db, i) then
      var t := db.tracks[i].(state := Pending, attempts := 0, nextAttemptAt := None, leaseExpiresAt := None);
      var refreshed := RefreshOrdersFor(SetTrack(db, i, t), i);
      refreshed.(items := Queue.Enqueue(refreshed.items, DownloadKey(i), 0, now))
    else
      RefreshOrdersFor(db, i)
  }

  // ── Orders ───────────────────────────────────────────────────────────────

  // Every key of `isrcs` is enqueued at `priority`; enqueuing one twice adds nothing.
  function EnqueueDownloads(items: Queue.Rows, isrcs: set<Isrc>, priority: int, now: int): Queue.Rows {
    var touched := set i | i in isrcs :: DownloadKey(i);
    map k | k in items.Keys + touched ::
      if k in touched then Queue.Enqueued(Queue.Lookup(items, k), priority, now) else items[k]
  }

  function InsertOrder(db: Db, o: OrderId, isrcs: set<Isrc>, priority: int, now: int): Db {
    db.(orders := db.orders[o := Order(Open, priority)],
        tracks := map i | i in db.tracks.Keys + isrcs ::
                    if i in db.tracks then db.tracks[i] else NewTrack(i, now),
        links := db.links + set i | i in isrcs :: Link(o, i))
  }

  // A taken order id violates the primary key: the transaction rolls back.
  function CreateOrder(db: Db, o: OrderId, isrcs: set<Isrc>, priority: int, now: int): Db {
    if o in db.orders then db
    else
      var inserted := InsertOrder(db, o, isrcs, priority, now);
      RefreshOrder(inserted.(items := EnqueueDownloads(db.items, isrcs, priority, now)), o)
  }

  function LinkedTo(db: Db, o: OrderId): set<Isrc> {
    set l | l in db.links && l.order == o :: l.isrc
  }

  function SetOrderPriority(db: Db, o: OrderId, priority: int, now: int): Db {
    if o in db.orders then
      db.(orders := db.orders[o := db.orders[o].(priority := priority)],
          items := EnqueueDownloads(db.items, LinkedTo(db, o), priority, now))
    else db
  }

  function CancelOrder(db: Db, o: OrderId): Db {
    db.(orders := if o in db.orders then db.orders[o := db.orders[o].(status := Cancelled)] else db.orders,
        links := set l | l in db.links && l.order != o)
  }

  function DownloadingTracks(db: Db): set<Isrc> {
    set i | i in db.tracks && db.tracks[i].state.Downloading?
  }

  // ── Backoff ──────────────────────────────────────────────────────────────

  lemma {:induction false} Pow2Grows(a: nat, b: nat)
    requires a <= b
    ensures 1 <= Pow2(a) <= Pow2(b)
    decreases b
  {
    if a < b {
      Pow2Grows(a, b - 1);
    } else if b > 0 {
      Pow2Grows(b - 1, b - 1);
    }
  }

  /** Delays never shrink from one failure to the next and never pass the cap. */
  lemma BackoffGrowsToCap(a: nat, b: nat, base: int, cap: int)
    requires a <= b && 1 <= base
    ensures BackoffDelay(a, base, cap) <= BackoffDelay(b, base, cap) <= cap
    ensures 1 <= cap ==> 1 <= BackoffDelay(a, base, cap)
  {
    var sa, sb := Min(Max(a - 1, 0), 20), Min(Max(b - 1, 0), 20);
    Pow2Grows(sa, sb);
    Scale(base, Pow2(sa), Pow2(sb));
  }

  /** The first delay is the base, each further one the double of the one before, up to the cap and to 20 doublings. */
  lemma BackoffDoubles(n: nat, base: int, cap: int)
    requires 1 <= base && 1 <= cap <= I64_MAX
    ensures BackoffDelay(0, base, cap) == BackoffDelay(1, base, cap) == Min(base, cap)
    ensures 1 <= n <= 20 ==> BackoffDelay(n + 1, base, cap) == Min(2 * BackoffDelay(n, base, cap), cap)
    ensures n >= 21 ==> BackoffDelay(n, base, cap) == BackoffDelay(21, base, cap)
  {
    assert Pow2(0) == 1;
    DelayIs(1, base, cap, base);
    DelayIs(0, base, cap, base);
    if 1 <= n <= 20 {
      Pow2Grows(0, n - 1);
      Scale(base, 1, Pow2(n - 1));
      var p := base * Pow2(n - 1);
      TwiceAsMuch(base, Pow2(n - 1), Pow2(n));
      DelayIs(n, base, cap, p);
      DelayIs(n + 1, base, cap, 2 * p);
    }
  }

  lemma DelayIs(n: nat, base: int, cap: int, p: int)
    requires n <= 21 && p >= 1 && cap <= I64_MAX && base * Pow2(Max(n - 1, 0)) == p
    ensures BackoffDelay(n, base, cap) == Min(p, cap)
  {
  }

  lemma TwiceAsMuch(base: int, p: int, q: int)
    requires q == 2 * p
    ensures base * q == 2 * (base * p)
  {
  }

  lemma Scale(base: int, p: int, q: int)
    requires 1 <= base && 1 <= p <= q
    ensures 1 <= base * p <= base * q
  {
    assert base * q - base * p == base * (q - p);
    assert base * p >= p;
  }
}
