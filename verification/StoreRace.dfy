/**
  * Uploads, deletes and reconciling scans running side by side: music-api/src/store.rs, `put`,
  * `delete_object`, `prune_orphans` and `sweep_tmp`, cut into the steps other requests can
  * come between.
  */
module StoreRace {
  import opened Hashing
  import opened ObjectStore

  // ---------------------------------------------------------------- state

  /** `Found`: the key had a file when the upload began, so only its row is ensured. */
  datatype Phase = Found | Writing | Checked | Recorded

  /** An upload, with its temporary file; `swept` once that file has been cleared away. */
  datatype Upload = Upload(key: Digest, written: string, mtime: nat, phase: Phase, swept: bool)

  /** A scan under way: the rows it read at its start, and what it has decided to remove. */
  datatype Scan = Scan(began: nat, minAge: nat, known: map<Digest, Entry>, doomedFiles: set<Digest>, doomedRows: set<Digest>)

  datatype World = World(
    now: nat, files: map<Digest, File>, rows: map<Digest, Entry>, uploads: map<nat, Upload>, scans: map<nat, Scan>)

  datatype Event =
    | Tick(elapsed: nat)
    | BeginPut(u: nat, key: Digest)
    | EnsurePresent(u: nat)
    | Write(u: nat, chunk: string)
    | Check(u: nat)
    | Record(u: nat)
    | Publish(u: nat)
    | RenameFails(u: nat)
    | Abandon(u: nat)
    | SweepTmp(u: nat)
    | DeleteFile(key: Digest)
    | DeleteRow(key: Digest)
    | BeginScan(s: nat, minAge: nat)
    | DoomFile(s: nat, key: Digest)
    | UnlinkFile(s: nat, key: Digest)
    | DoomRow(s: nat, key: Digest)
    | UnlinkRow(s: nat, key: Digest)
    | EndScan(s: nat)

  /** Age after which a temporary file counts as abandoned. */
  const TMP_MAX_AGE: nat := 3600

  predicate InPhase(w: World, u: nat, phase: Phase) {
    u in w.uploads && w.uploads[u].phase == phase
  }

  predicate Enabled(w: World, e: Event) {
    match e
    case Tick(_) => true
    case BeginPut(u, _) => u !in w.uploads
    case EnsurePresent(u) => InPhase(w, u, Found)
    case Write(u, _) => InPhase(w, u, Writing)
    case Check(u) => InPhase(w, u, Writing) && Sha256(w.uploads[u].written) == w.uploads[u].key
    case Record(u) => InPhase(w, u, Checked)
    case Publish(u) => InPhase(w, u, Recorded) && !w.uploads[u].swept
    case RenameFails(u) => InPhase(w, u, Recorded)
    case Abandon(u) => u in w.uploads
    case SweepTmp(u) => u in w.uploads && w.uploads[u].phase != Found
                        && w.uploads[u].mtime <= w.now && w.now - w.uploads[u].mtime >= TMP_MAX_AGE * SECOND
    case DeleteFile(_) => true
    case DeleteRow(_) => true
    case BeginScan(s, _) => s !in w.scans
    case DoomFile(s, h) => s in w.scans && h in w.files && h !in w.scans[s].known
                           && FileIsOld(w.files[h], w.now, w.scans[s].minAge)
    case UnlinkFile(s, h) => s in w.scans && h in w.scans[s].doomedFiles
    case DoomRow(s, h) => s in w.scans && h in w.scans[s].known && h !in w.files
                          && RowIsOld(w.scans[s].known[h], w.scans[s].began / SECOND, w.scans[s].minAge)
    case UnlinkRow(s, h) => s in w.scans && h in w.scans[s].doomedRows
    case EndScan(s) => s in w.scans
  }

  /** Inserting a row, unless there is one: that one keeps its time. */
  function WithRow(rows: map<Digest, Entry>, h: Digest, size: nat, now: nat): map<Digest, Entry> {
    if h in rows then rows else rows[h := Entry(size, now / SECOND)]
  }

  function Step(w: World, e: Event): World
    requires Enabled(w, e)
  {
    match e
    case Tick(elapsed) => w.(now := w.now + elapsed)
    case BeginPut(u, h) =>
      w.(uploads := w.uploads[u := Upload(h, "", w.now, if h in w.files then Found else Writing, false)])
    case EnsurePresent(u) =>
      var h := w.uploads[u].key;
      w.(rows := WithRow(w.rows, h, if h in w.files then |w.files[h].content| else 0, w.now), uploads := w.uploads - {u})
    case Write(u, chunk) =>
      w.(uploads := w.uploads[u := w.uploads[u].(written := w.uploads[u].written + chunk, mtime := w.now)])
    case Check(u) => w.(uploads := w.uploads[u := w.uploads[u].(phase := Checked)])
    case Record(u) =>
      var up := w.uploads[u];
      w.(rows := WithRow(w.rows, up.key, |up.written|, w.now), uploads := w.uploads[u := up.(phase := Recorded)])
    case Publish(u) =>
      var up := w.uploads[u];
      w.(files := w.files[up.key := File(up.written, up.mtime)], uploads := w.uploads - {u})
    case RenameFails(u) => w.(rows := w.rows - {w.uploads[u].key}, uploads := w.uploads - {u})
    case Abandon(u) => w.(uploads := w.uploads - {u})
    case SweepTmp(u) => w.(uploads := w.uploads[u := w.uploads[u].(swept := true)])
    case DeleteFile(h) => w.(files := w.files - {h})
    case DeleteRow(h) => w.(rows := w.rows - {h})
    case BeginScan(s, minAge) => w.(scans := w.scans[s := Scan(w.now, minAge, w.rows, {}, {})])
    case DoomFile(s, h) => w.(scans := w.scans[s := w.scans[s].(doomedFiles := w.scans[s].doomedFiles + {h})])
    case UnlinkFile(s, h) =>
      w.(files := w.files - {h}, scans := w.scans[s := w.scans[s].(doomedFiles := w.scans[s].doomedFiles - {h})])
    case DoomRow(s, h) => w.(scans := w.scans[s := w.scans[s].(doomedRows := w.scans[s].doomedRows + {h})])
    case UnlinkRow(s, h) =>
      w.(rows := w.rows - {h}, scans := w.scans[s := w.scans[s].(doomedRows := w.scans[s].doomedRows - {h})])
    case EndScan(s) => w.(scans := w.scans - {s})
  }

  const EMPTY: World := World(0, map[], map[], map[], map[])

  // ---------------------------------------------------------------- integrity, whatever the timing

  ghost predicate Inv(w: World) {
    && (forall h :: h in w.files ==> Sha256(w.files[h].content) == h)
    && (forall u :: u in w.uploads ==> w.uploads[u].mtime <= w.now)
    && (forall u :: u in w.uploads && w.uploads[u].phase in {Checked, Recorded}
          ==> Sha256(w.uploads[u].written) == w.uploads[u].key)
    && (forall s :: s in w.scans ==> w.scans[s].began <= w.now && w.scans[s].doomedRows <= w.scans[s].known.Keys)
  }

  predicate OfScan(e: Event) {
    e.BeginScan? || e.DoomFile? || e.UnlinkFile? || e.DoomRow? || e.UnlinkRow? || e.EndScan?
  }

  lemma ScanKeepsInv(w: World, e: Event)
    requires Inv(w) && Enabled(w, e) && OfScan(e)
    ensures Inv(Step(w, e))
  {
  }

  lemma UploadKeepsInv(w: World, e: Event)
    requires Inv(w) && Enabled(w, e) && !OfScan(e)
    ensures Inv(Step(w, e))
  {
  }

  lemma StepKeepsInv(w: World, e: Event)
    requires Inv(w) && Enabled(w, e)
    ensures Inv(Step(w, e))
  {
    if OfScan(e) {
      ScanKeepsInv(w, e);
    } else {
      UploadKeepsInv(w, e);
    }
  }

  // ---------------------------------------------------------------- timing

  /**
    * `gap`: the longest time from an upload's last write to its publication. `span`: the
    * longest a scan runs. Both in nanoseconds. `minAge`: the shortest grace period a scan
    * may be given, in seconds.
    */
  datatype Config = Config(gap: nat, span: nat, minAge: nat)

  ghost predicate Timely(cfg: Config, w: World) {
    && (forall u :: u in w.uploads && w.uploads[u].phase in {Checked, Recorded} ==> w.now <= w.uploads[u].mtime + cfg.gap)
    && (forall s :: s in w.scans ==> w.now <= w.scans[s].began + cfg.span && w.scans[s].minAge >= cfg.minAge)
  }

  /** A grace period longer than a scan plus a publication, and than a publication plus a second. */
  predicate GraceSuffices(cfg: Config) {
    && cfg.gap + cfg.span < cfg.minAge * SECOND
    && cfg.gap + SECOND <= cfg.minAge * SECOND
  }

  /** The key is new: no file, no row, and no scan under way has seen either. */
  ghost predicate Fresh(w: World, h: Digest) {
    && h !in w.files && h !in w.rows
    && forall s :: s in w.scans ==> h !in w.scans[s].known && h !in w.scans[s].doomedFiles
  }

  /** Steps that take the object away on purpose, or give its upload `u` up. */
  predicate Undoes(w: World, e: Event, h: Digest, u: nat) {
    match e
    case DeleteFile(k) => k == h
    case DeleteRow(k) => k == h
    case RenameFails(v) => v in w.uploads && w.uploads[v].key == h
    case Abandon(v) => v == u && h !in w.files
    case _ => false
  }

  /** No scan has decided, or can still decide, to remove the file or the row of `h`. */
  ghost predicate Guarded(cfg: Config, w: World, h: Digest, u: nat) {
    && h in w.rows
    && (h in w.files || Awaited(cfg, w, h, u))
    && forall s :: s in w.scans ==> Harmless(cfg, w, h, w.scans[s])
  }

  /** Upload `u` has recorded `h`, and its row stays young until the upload has to be published. */
  ghost predicate Awaited(cfg: Config, w: World, h: Digest, u: nat)
    requires h in w.rows
  {
    && InPhase(w, u, Recorded) && w.uploads[u].key == h
    && (w.uploads[u].mtime + cfg.gap) / SECOND - w.rows[h].createdAt < cfg.minAge
  }

  /** A scan that has not decided against `h`, and will not find its file old, or its row old and without a file. */
  ghost predicate Harmless(cfg: Config, w: World, h: Digest, scan: Scan) {
    && h !in scan.doomedFiles && h !in scan.doomedRows
    && (h in w.files && h !in scan.known ==> scan.began + cfg.span < w.files[h].mtime + scan.minAge * SECOND)
    && (h !in w.files && h in scan.known ==> scan.began / SECOND - scan.known[h].createdAt < scan.minAge)
  }

  lemma RecordingGuards(cfg: Config, w: World, u: nat)
    requires GraceSuffices(cfg) && Inv(w) && Enabled(w, Record(u)) && Fresh(w, w.uploads[u].key)
    ensures Guarded(cfg, Step(w, Record(u)), w.uploads[u].key, u)
  {
    Seconds(w.now, w.now + cfg.gap, cfg.gap);
    WholeSeconds(w.uploads[u].mtime + cfg.gap, w.now + cfg.gap);
  }

  lemma WholeSeconds(a: nat, b: nat)
    requires a <= b
    ensures a / SECOND <= b / SECOND
  {
  }

  lemma Seconds(a: nat, b: nat, gap: nat)
    requires a <= b <= a + gap
    ensures a / SECOND <= b / SECOND
    ensures forall n: nat :: gap + SECOND <= n * SECOND ==> b / SECOND - a / SECOND < n
  {
    forall n: nat | gap + SECOND <= n * SECOND ensures b / SECOND - a / SECOND < n {
      assert b / SECOND * SECOND <= b && a < (a / SECOND + 1) * SECOND;
      assert (b / SECOND - a / SECOND - 1) * SECOND < (n - 1) * SECOND;
    }
  }

  /** A scan that begins now finds the row, and finds it young as long as the file is missing. */
  lemma BeginScanKeepsGuarded(cfg: Config, w: World, s: nat, minAge: nat, h: Digest, u: nat)
    requires Timely(cfg, w) && Guarded(cfg, w, h, u) && Enabled(w, BeginScan(s, minAge)) && minAge >= cfg.minAge
    ensures Guarded(cfg, Step(w, BeginScan(s, minAge)), h, u)
  {
    if h !in w.files {
      WholeSeconds(w.now, w.uploads[u].mtime + cfg.gap);
    }
    var w' := Step(w, BeginScan(s, minAge));
    forall t | t in w'.scans ensures Harmless(cfg, w', h, w'.scans[t]) {
      assert t != s ==> Harmless(cfg, w, h, w.scans[t]);
    }
  }

  /** Within its span, no scan can decide against `h`. */
  lemma DoomSparesGuarded(cfg: Config, w: World, e: Event, h: Digest, u: nat)
    requires Timely(cfg, w) && Guarded(cfg, w, h, u) && Enabled(w, e)
    requires e.DoomFile? || e.DoomRow?
    ensures e.key != h
    ensures Guarded(cfg, Step(w, e), h, u)
  {
    var scan := w.scans[e.s];
    assert Harmless(cfg, w, h, scan);
    var w' := Step(w, e);
    forall t | t in w'.scans ensures Harmless(cfg, w', h, w'.scans[t]) {
      assert Harmless(cfg, w, h, w.scans[t]);
    }
  }

  lemma UnlinkSparesGuarded(cfg: Config, w: World, e: Event, h: Digest, u: nat)
    requires Guarded(cfg, w, h, u) && Enabled(w, e)
    requires e.UnlinkFile? || e.UnlinkRow? || e.EndScan?
    ensures Guarded(cfg, Step(w, e), h, u)
    ensures h in w.files ==> h in Step(w, e).files
  {
    assert Harmless(cfg, w, h, w.scans[e.s]);
    var w' := Step(w, e);
    forall t | t in w'.scans ensures Harmless(cfg, w', h, w'.scans[t]) {
      assert Harmless(cfg, w, h, w.scans[t]);
    }
  }

  lemma OtherStepKeepsGuarded(cfg: Config, w: World, e: Event, h: Digest, u: nat)
    requires GraceSuffices(cfg) && Inv(w) && Timely(cfg, w) && Guarded(cfg, w, h, u) && Enabled(w, e)
    requires !OfScan(e)
    requires !Undoes(w, e, h, u)
    ensures Guarded(cfg, Step(w, e), h, u)
    ensures h in w.files ==> h in Step(w, e).files
  {
    var w' := Step(w, e);
    forall s | s in w'.scans ensures Harmless(cfg, w', h, w'.scans[s]) {
      assert Harmless(cfg, w, h, w.scans[s]);
      if e.Publish? && w.uploads[e.u].key == h {
        GraceCoversPublication(cfg, w, e.u, w.scans[s]);
      }
    }
  }

  /** A file published in time is young for every scan that began before. */
  lemma GraceCoversPublication(cfg: Config, w: World, u: nat, scan: Scan)
    requires GraceSuffices(cfg) && Timely(cfg, w) && InPhase(w, u, Recorded)
    requires scan.began <= w.now && scan.minAge >= cfg.minAge
    ensures scan.began + cfg.span < w.uploads[u].mtime + scan.minAge * SECOND
  {
    assert scan.minAge * SECOND >= cfg.minAge * SECOND;
  }

  // ---------------------------------------------------------------- runs

  ghost predicate ValidRun(cfg: Config, w: World, es: seq<Event>)
    decreases |es|
  {
    Timely(cfg, w)
    && (es == [] || (Enabled(w, es[0]) && ValidRun(cfg, Step(w, es[0]), es[1..])))
  }

  ghost function After(cfg: Config, w: World, es: seq<Event>): World
    requires ValidRun(cfg, w, es)
    decreases |es|
  {
    if es == [] then w else After(cfg, Step(w, es[0]), es[1..])
  }

  ghost predicate Undisturbed(cfg: Config, w: World, es: seq<Event>, h: Digest, u: nat)
    requires ValidRun(cfg, w, es)
    decreases |es|
  {
    es == [] || (!Undoes(w, es[0], h, u) && Undisturbed(cfg, Step(w, es[0]), es[1..], h, u))
  }

  lemma {:induction false} RunKeepsInv(cfg: Config, w: World, es: seq<Event>)
    requires ValidRun(cfg, w, es) && Inv(w)
    ensures Inv(After(cfg, w, es))
    decreases |es|
  {
    if es != [] {
      StepKeepsInv(w, es[0]);
      RunKeepsInv(cfg, Step(w, es[0]), es[1..]);
    }
  }

  lemma {:induction false} RunKeepsGuarded(cfg: Config, w: World, es: seq<Event>, h: Digest, u: nat)
    requires GraceSuffices(cfg) && ValidRun(cfg, w, es) && Inv(w)
    requires Guarded(cfg, w, h, u) && Undisturbed(cfg, w, es, h, u)
    ensures Guarded(cfg, After(cfg, w, es), h, u)
    ensures h in w.files ==> h in After(cfg, w, es).files
    decreases |es|
  {
    if es != [] {
      var e := es[0];
      StepKeepsInv(w, e);
      if e.BeginScan? {
        assert e.s in Step(w, e).scans && Step(w, e).scans[e.s].minAge == e.minAge;
        BeginScanKeepsGuarded(cfg, w, e.s, e.minAge, h, u);
      } else if e.DoomFile? || e.DoomRow? {
        DoomSparesGuarded(cfg, w, e, h, u);
      } else if OfScan(e) {
        UnlinkSparesGuarded(cfg, w, e, h, u);
      } else {
        OtherStepKeepsGuarded(cfg, w, e, h, u);
      }
      RunKeepsGuarded(cfg, Step(w, e), es[1..], h, u);
    }
  }

  lemma {:induction false} ReachableIsIntact(cfg: Config, es: seq<Event>)
    requires ValidRun(cfg, EMPTY, es)
    ensures forall h :: h in After(cfg, EMPTY, es).files ==> Sha256(After(cfg, EMPTY, es).files[h].content) == h
  {
    RunKeepsInv(cfg, EMPTY, es);
  }

  // ---------------------------------------------------------------- fresh uploads survive

  /**
    * A run that records upload `u` of a key that is new, publishes it, and goes on, without
    * anybody deleting that key.
    */
  ghost predicate PutRun(cfg: Config, before: seq<Event>, u: nat, middle: seq<Event>, after: seq<Event>) {
    && ValidRun(cfg, EMPTY, before)
    && var w := After(cfg, EMPTY, before);
       && Enabled(w, Record(u)) && Fresh(w, w.uploads[u].key)
       && var recorded := Step(w, Record(u));
          && ValidRun(cfg, recorded, middle) && Undisturbed(cfg, recorded, middle, w.uploads[u].key, u)
          && var ready := After(cfg, recorded, middle);
             && Enabled(ready, Publish(u)) && ready.uploads[u].key == w.uploads[u].key
             && ValidRun(cfg, Step(ready, Publish(u)), after)
             && Undisturbed(cfg, Step(ready, Publish(u)), after, w.uploads[u].key, u)
  }

  /** The object is whole when such a run ends. */
  ghost predicate Survives(cfg: Config, before: seq<Event>, u: nat, middle: seq<Event>, after: seq<Event>)
    requires PutRun(cfg, before, u, middle, after)
  {
    var w := After(cfg, EMPTY, before);
    var last := After(cfg, Step(After(cfg, Step(w, Record(u)), middle), Publish(u)), after);
    w.uploads[u].key in last.files && w.uploads[u].key in last.rows
  }

  lemma FreshPutSurvives(cfg: Config, before: seq<Event>, u: nat, middle: seq<Event>, after: seq<Event>)
    requires GraceSuffices(cfg) && PutRun(cfg, before, u, middle, after)
    ensures Survives(cfg, before, u, middle, after)
  {
    var w := After(cfg, EMPTY, before);
    var h := w.uploads[u].key;
    RunKeepsInv(cfg, EMPTY, before);
    RecordingGuards(cfg, w, u);
    var recorded := Step(w, Record(u));
    StepKeepsInv(w, Record(u));
    RunKeepsInv(cfg, recorded, middle);
    RunKeepsGuarded(cfg, recorded, middle, h, u);
    var ready := After(cfg, recorded, middle);
    TimelyAtEnd(cfg, recorded, middle);
    OtherStepKeepsGuarded(cfg, ready, Publish(u), h, u);
    StepKeepsInv(ready, Publish(u));
    RunKeepsGuarded(cfg, Step(ready, Publish(u)), after, h, u);
  }

  lemma {:induction false} TimelyAtEnd(cfg: Config, w: World, es: seq<Event>)
    requires ValidRun(cfg, w, es)
    ensures Timely(cfg, After(cfg, w, es))
    decreases |es|
  {
    if es != [] {
      TimelyAtEnd(cfg, Step(w, es[0]), es[1..]);
    }
  }
}
