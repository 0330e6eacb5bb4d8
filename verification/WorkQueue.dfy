/**
 * The priority work queue (music-api/src/work.rs): the `work_items` table and the
 * transitions of one row. A row is identified by its UNIQUE (kind, ref) pair; no
 * statement deletes a row, so the numeric id of a row names the same pair forever.
 */
module WorkQueue {
  import opened Wrappers

  datatype Kind = Download | Transcode | Analyze | Crawl(source: string) | OtherKind(name: string)

  datatype ItemState = Queued | Running | Done | Failed

  datatype Key = Key(kind: Kind, reference: string)

  datatype WorkItem = WorkItem(
    priority: int,
    state: ItemState,
    attempts: nat,
    maxAttempts: int,
    notBefore: Option<int>,
    createdAt: int,
    updatedAt: int)

  type Rows = map<Key, WorkItem>

  // The column default of `max_attempts`; no statement ever writes another value.
  const MAX_ATTEMPTS := 5

  function Lookup(rows: Rows, key: Key): Option<WorkItem> {
    if key in rows then Some(rows[key]) else None
  }

  predicate Terminal(w: WorkItem) {
    w.state.Done? || w.state.Failed?
  }

  // ── Row transitions ──────────────────────────────────────────────────────

  function Fresh(priority: int, state: ItemState, now: int): WorkItem {
    WorkItem(priority, state, 0, MAX_ATTEMPTS, None, now, now)
  }

  function Rearmed(w: WorkItem, priority: int, now: int): WorkItem {
    var up := w.(priority := Max(w.priority, priority), updatedAt := now);
    if Terminal(w) then up.(state := Queued, attempts := 0, notBefore := None) else up
  }

  function Enqueued(row: Option<WorkItem>, priority: int, now: int): WorkItem {
    match row
    case None => Fresh(priority, Queued, now)
    case Some(w) => Rearmed(w, priority, now)
  }

  function Enqueue(rows: Rows, key: Key, priority: int, now: int): Rows {
    rows[key := Enqueued(Lookup(rows, key), priority, now)]
  }

  function EnqueueIfAbsent(rows: Rows, key: Key, priority: int, now: int): Rows {
    if key in rows then rows else rows[key := Fresh(priority, Queued, now)]
  }

  function Claim(rows: Rows, key: Key, now: int): Rows {
    if key in rows && rows[key].state.Queued?
    then rows[key := rows[key].(state := Running, attempts := rows[key].attempts + 1, updatedAt := now)]
    else rows
  }

  function Finish(rows: Rows, key: Key, now: int): Rows {
    if key in rows then rows[key := rows[key].(state := Done, notBefore := None, updatedAt := now)] else rows
  }

  function Fail(rows: Rows, key: Key, now: int): Rows {
    if key in rows then rows[key := rows[key].(state := Failed, updatedAt := now)] else rows
  }

  // Re-queue with a backoff, or fail the row out once its attempts are used up.
  function Requeued(w: WorkItem, notBefore: int, now: int): WorkItem {
    if w.attempts >= w.maxAttempts
    then w.(state := Failed, updatedAt := now)
    else w.(state := Queued, notBefore := Some(notBefore), updatedAt := now)
  }

  function RetryLater(rows: Rows, key: Key, notBefore: int, now: int): Rows {
    if key in rows then rows[key := Requeued(rows[key], notBefore, now)] else rows
  }

  function RetryRef(rows: Rows, key: Key, notBefore: int, now: int): Rows {
    if key in rows then rows[key := Requeued(rows[key], notBefore, now)] else Enqueue(rows, key, 0, now)
  }

  function EnsureRunning(rows: Rows, key: Key, now: int): Rows {
    if key in rows
    then rows[key := rows[key].(state := Running, updatedAt := now)]
    else rows[key := Fresh(0, Running, now)]
  }

  predicate Stale(w: WorkItem, now: int, staleSecs: int) {
    w.state.Running? && w.updatedAt <= now - staleSecs
  }

  function RecoverStale(rows: Rows, now: int, staleSecs: int): Rows {
    map k | k in rows ::
      if Stale(rows[k], now, staleSecs)
      then rows[k].(state := Queued, notBefore := None, updatedAt := now)
      else rows[k]
  }

  // ── Reading the queue ────────────────────────────────────────────────────

  function RunningKeys(rows: Rows, kind: Kind): set<Key> {
    set k | k in rows && k.kind == kind && rows[k].state.Running?
  }

  predicate Due(w: WorkItem, now: int) {
    w.state.Queued? && (w.notBefore.None? || w.notBefore.value <= now)
  }

  function DueKeys(rows: Rows, kind: Kind, now: int): set<Key> {
    set k | k in rows && k.kind == kind && Due(rows[k], now)
  }

  // The order of `next`: higher priority first, then the older row.
  predicate Outranks(a: WorkItem, b: WorkItem) {
    a.priority > b.priority || (a.priority == b.priority && a.createdAt < b.createdAt)
  }

  /** What `next` may return: the first `slots` rows of some ranked listing of the due rows. */
  ghost predicate IsBatch(rows: Rows, kind: Kind, slots: int, now: int, batch: seq<Key>) {
    && (forall i :: 0 <= i < |batch| ==> batch[i] in DueKeys(rows, kind, now))
    && (forall i, j :: 0 <= i < j < |batch| ==> batch[i] != batch[j])
    && (forall i, j :: 0 <= i < j < |batch| ==> !Outranks(rows[batch[j]], rows[batch[i]]))
    && |batch| == Min(Max(slots, 0), |DueKeys(rows, kind, now)|)
    && (forall k, i :: k in DueKeys(rows, kind, now) && k !in batch && 0 <= i < |batch| ==>
          !Outranks(rows[k], rows[batch[i]]))
  }

  // `batch` ranks some of the due rows, and none of the `rest` ranks above any of them.
  ghost predicate RankedSoFar(rows: Rows, due: set<Key>, rest: set<Key>, batch: seq<Key>) {
    && due <= rows.Keys && rest <= due && |batch| + |rest| == |due|
    && (forall k :: k in due ==> (k in rest <==> k !in batch))
    && (forall i :: 0 <= i < |batch| ==> batch[i] in due)
    && (forall i, j :: 0 <= i < j < |batch| ==> batch[i] != batch[j])
    && (forall i, j :: 0 <= i < j < |batch| ==> !Outranks(rows[batch[j]], rows[batch[i]]))
    && (forall k, i :: k in rest && 0 <= i < |batch| ==> !Outranks(rows[k], rows[batch[i]]))
  }

  lemma RankOneMore(rows: Rows, due: set<Key>, rest: set<Key>, batch: seq<Key>, best: Key)
    requires RankedSoFar(rows, due, rest, batch) && best in rest
    requires forall k :: k in rest ==> !Outranks(rows[k], rows[best])
    ensures RankedSoFar(rows, due, rest - {best}, batch + [best])
  {
    var batch' := batch + [best];
    forall k | k in due
      ensures k in rest - {best} <==> k !in batch'
    {
      assert k in batch' <==> k in batch || k == best;
    }
  }

  // ── What every transition keeps ──────────────────────────────────────────

  /** No row is lost, no priority is lowered, and creation time and cap never change. */
  ghost predicate Rises(rows: Rows, rows': Rows) {
    forall k :: k in rows ==>
      && k in rows'
      && rows[k].priority <= rows'[k].priority
      && rows[k].createdAt == rows'[k].createdAt
      && rows[k].maxAttempts == rows'[k].maxAttempts
  }

  lemma RisesTransitive(a: Rows, b: Rows, c: Rows)
    requires Rises(a, b) && Rises(b, c)
    ensures Rises(a, c)
  {
    forall k | k in a
      ensures k in c && a[k].priority <= c[k].priority
      ensures a[k].createdAt == c[k].createdAt && a[k].maxAttempts == c[k].maxAttempts
    {
      assert k in b;
    }
  }

  /** A batch is exhaustive from the top: every due row it leaves out ranks no higher than all it took. */
  lemma BatchIsTopOfRanking(rows: Rows, kind: Kind, slots: int, now: int, batch: seq<Key>, k: Key)
    requires IsBatch(rows, kind, slots, now, batch)
    requires k in DueKeys(rows, kind, now) && k !in batch
    ensures |batch| == Max(slots, 0)
    ensures forall b :: b in batch ==> rows[b].priority >= rows[k].priority
    ensures forall b :: b in batch && rows[b].priority == rows[k].priority ==> rows[b].createdAt <= rows[k].createdAt
  {
    var taken := set b | b in batch;
    assert taken <= DueKeys(rows, kind, now) - {k};
    DistinctCardinality(batch, taken);
    SubsetCardinality(taken, DueKeys(rows, kind, now) - {k});
  }

  /** A batch lists different rows by falling priority, then by age. */
  lemma BatchIsRanked(rows: Rows, kind: Kind, slots: int, now: int, batch: seq<Key>, i: nat, j: nat)
    requires IsBatch(rows, kind, slots, now, batch) && i < j < |batch|
    ensures batch[i] != batch[j] && batch[i] in rows && batch[j] in rows && |batch| <= Max(slots, 0)
    ensures var a, b := rows[batch[i]], rows[batch[j]];
            a.priority > b.priority || (a.priority == b.priority && a.createdAt <= b.createdAt)
  {
    assert batch[i] in DueKeys(rows, kind, now) && batch[j] in DueKeys(rows, kind, now);
    assert !Outranks(rows[batch[j]], rows[batch[i]]);
  }

  /** What is due is queued, of the kind asked for, and its time has come; a batch lists nothing else. */
  lemma BatchIsDue(rows: Rows, kind: Kind, slots: int, now: int, batch: seq<Key>, k: Key)
    requires IsBatch(rows, kind, slots, now, batch)
    ensures k in DueKeys(rows, kind, now)
       <==> && k in rows && k.kind == kind && rows[k].state.Queued?
            && (rows[k].notBefore.Some? ==> rows[k].notBefore.value <= now)
    ensures k in batch ==> k in DueKeys(rows, kind, now)
  {
  }

  // ── What settling and starting a row mean for the queue ──────────────────

  /** A settled row, done or failed, is neither offered nor counted as running; every other row is as before. */
  lemma SettlingLeavesQueue(rows: Rows, key: Key, now: int, kind: Kind, t: int)
    requires key in rows
    ensures DueKeys(Finish(rows, key, now), kind, t) == DueKeys(Fail(rows, key, now), kind, t) == DueKeys(rows, kind, t) - {key}
    ensures RunningKeys(Finish(rows, key, now), kind) == RunningKeys(Fail(rows, key, now), kind) == RunningKeys(rows, kind) - {key}
  {
    assert DueKeys(Finish(rows, key, now), kind, t) == DueKeys(rows, kind, t) - {key};
    assert DueKeys(Fail(rows, key, now), kind, t) == DueKeys(rows, kind, t) - {key};
    assert RunningKeys(Finish(rows, key, now), kind) == RunningKeys(rows, kind) - {key};
    assert RunningKeys(Fail(rows, key, now), kind) == RunningKeys(rows, kind) - {key};
  }

  /** A settled row comes back only armed afresh: enqueued, due at once, with its attempts counted from nothing. */
  lemma SettledIsRearmedByEnqueue(rows: Rows, key: Key, priority: int, now: int, staleSecs: int)
    requires key in rows && Terminal(rows[key])
    ensures Claim(rows, key, now) == rows && EnqueueIfAbsent(rows, key, priority, now) == rows
    ensures RecoverStale(rows, now, staleSecs)[key] == rows[key]
    ensures key in DueKeys(Enqueue(rows, key, priority, now), key.kind, now)
    ensures Enqueue(rows, key, priority, now)[key].attempts == 0
  {
  }

  /** Marking a row running takes it out of what is offered and takes one slot of its kind, whether it was there or not. */
  lemma RunningTakesSlot(rows: Rows, key: Key, now: int, kind: Kind, t: int)
    ensures DueKeys(EnsureRunning(rows, key, now), kind, t) == DueKeys(rows, kind, t) - {key}
    ensures RunningKeys(EnsureRunning(rows, key, now), kind)
         == if key.kind == kind then RunningKeys(rows, kind) + {key} else RunningKeys(rows, kind)
  {
    assert DueKeys(EnsureRunning(rows, key, now), kind, t) == DueKeys(rows, kind, t) - {key};
  }

  lemma {:induction false} DistinctCardinality<T>(s: seq<T>, elems: set<T>)
    requires forall i, j :: 0 <= i < j < |s| ==> s[i] != s[j]
    requires forall x :: x in elems <==> x in s
    ensures |elems| == |s|
  {
    if s == [] {
      assert elems == {};
    } else {
      var last := s[|s| - 1];
      assert s == s[..|s| - 1] + [last];
      assert last !in s[..|s| - 1];
      DistinctCardinality(s[..|s| - 1], elems - {last});
    }
  }

  lemma {:induction false} SubsetCardinality<T>(a: set<T>, b: set<T>)
    requires a <= b
    ensures |a| <= |b|
  {
    if a != {} {
      var x :| x in a;
      SubsetCardinality(a - {x}, b - {x});
    }
  }
}
