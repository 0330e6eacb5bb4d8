/**
  * Which recorded objects survive the scans under way, whatever was there before the upload:
  * music-api/src/store.rs, `put` against `prune_orphans`.
  */
module StoreRaceSurvival {
  import opened Hashing
  import opened ObjectStore
  import opened StoreRace
  import opened StoreRaceLimits

  /** Every undisturbed timely run that has the file, or publishes it, ends with the object whole. */
  ghost predicate AlwaysSurvives(cfg: Config, w: World, h: Digest, u: nat) {
    forall es, w' :: Leads(cfg, w, es, w', h, u) && (h in w.files || Publish(u) in es) ==> h in w'.files && h in w'.rows
  }

  /** Such a run that loses the file or the row. */
  ghost predicate Loses(cfg: Config, w: World, es: seq<Event>, w': World, h: Digest, u: nat) {
    Leads(cfg, w, es, w', h, u) && (h in w.files || Publish(u) in es) && (h !in w'.files || h !in w'.rows)
  }

  // ---------------------------------------------------------------- guarded objects survive

  lemma {:induction false} GuardedSurvives(cfg: Config, w: World, es: seq<Event>, h: Digest, u: nat)
    requires GraceSuffices(cfg) && ValidRun(cfg, w, es) && Inv(w)
    requires Guarded(cfg, w, h, u) && Undisturbed(cfg, w, es, h, u)
    requires h in w.files || Publish(u) in es
    ensures h in After(cfg, w, es).files && h in After(cfg, w, es).rows
    decreases |es|
  {
    if h in w.files {
      RunKeepsGuarded(cfg, w, es, h, u);
    } else {
      var e := es[0];
      OneEventGuards(cfg, w, es, h, u);
      StepKeepsInv(w, e);
      assert es == [e] + es[1..];
      GuardedSurvives(cfg, Step(w, e), es[1..], h, u);
    }
  }

  lemma OneEventGuards(cfg: Config, w: World, es: seq<Event>, h: Digest, u: nat)
    requires GraceSuffices(cfg) && ValidRun(cfg, w, es) && Inv(w) && es != []
    requires Guarded(cfg, w, h, u) && Undisturbed(cfg, w, es, h, u) && h !in w.files
    ensures Guarded(cfg, Step(w, es[0]), h, u)
    ensures es[0] == Publish(u) ==> h in Step(w, es[0]).files
  {
    assert Undisturbed(cfg, w, [es[0]], h, u) && ValidRun(cfg, w, [es[0]]) by {
      assert [es[0]][1..] == [];
    }
    RunKeepsGuarded(cfg, w, [es[0]], h, u);
    assert After(cfg, w, [es[0]]) == Step(w, es[0]) by {
      assert [es[0]][1..] == [];
    }
  }

  // ---------------------------------------------------------------- clearing the field

  lemma SomeNumber(s: set<nat>)
    ensures s == {} || exists k :: k in s
  {
    if forall k :: k !in s {
      assert s == {};
    }
  }

  /** The other scans can end at any time. */
  lemma {:induction false} EndScans(cfg: Config, w: World, kept: map<nat, Scan>, h: Digest, u: nat) returns (es: seq<Event>)
    requires Timely(cfg, w) && kept.Keys <= w.scans.Keys && forall s :: s in kept ==> kept[s] == w.scans[s]
    ensures Leads(cfg, w, es, w.(scans := kept), h, u)
    decreases w.scans.Keys - kept.Keys
  {
    var others: set<nat> := w.scans.Keys - kept.Keys;
    if others == {} {
      assert w.scans.Keys == kept.Keys + others;
      assert w.scans == kept;
      es := [];
    } else {
      SomeNumber(others);
      var s :| s in others;
      OneStep(cfg, w, EndScan(s), h, u);
      var w' := Step(w, EndScan(s));
      assert w'.scans.Keys - kept.Keys < w.scans.Keys - kept.Keys;
      var rest := EndScans(cfg, w', kept, h, u);
      ThenLeads(cfg, w, [EndScan(s)], w', rest, w.(scans := kept), h, u);
      es := [EndScan(s)] + rest;
    }
  }

  /** And the other uploads be given up. */
  lemma {:induction false} AbandonUploads(cfg: Config, w: World, kept: map<nat, Upload>, h: Digest, u: nat) returns (es: seq<Event>)
    requires Timely(cfg, w) && kept.Keys <= w.uploads.Keys && forall v :: v in kept ==> kept[v] == w.uploads[v]
    requires h in w.files || (u in w.uploads ==> u in kept)
    ensures Leads(cfg, w, es, w.(uploads := kept), h, u)
    decreases w.uploads.Keys - kept.Keys
  {
    var others: set<nat> := w.uploads.Keys - kept.Keys;
    if others == {} {
      assert w.uploads.Keys == kept.Keys + others;
      assert w.uploads == kept;
      es := [];
    } else {
      SomeNumber(others);
      var v :| v in others;
      OneStep(cfg, w, Abandon(v), h, u);
      var w' := Step(w, Abandon(v));
      assert w'.uploads.Keys - kept.Keys < w.uploads.Keys - kept.Keys;
      var rest := AbandonUploads(cfg, w', kept, h, u);
      ThenLeads(cfg, w, [Abandon(v)], w', rest, w.(uploads := kept), h, u);
      es := [Abandon(v)] + rest;
    }
  }

  lemma ClearField(cfg: Config, w: World, uploads: map<nat, Upload>, scans: map<nat, Scan>, h: Digest, u: nat)
      returns (es: seq<Event>)
    requires Timely(cfg, w)
    requires uploads.Keys <= w.uploads.Keys && forall v :: v in uploads ==> uploads[v] == w.uploads[v]
    requires scans.Keys <= w.scans.Keys && forall s :: s in scans ==> scans[s] == w.scans[s]
    requires h in w.files || (u in w.uploads ==> u in uploads)
    ensures Leads(cfg, w, es, w.(uploads := uploads, scans := scans), h, u)
  {
    var first := EndScans(cfg, w, scans, h, u);
    var w' := w.(scans := scans);
    var second := AbandonUploads(cfg, w', uploads, h, u);
    ThenLeads(cfg, w, first, w', second, w'.(uploads := uploads), h, u);
    es := first + second;
  }

  // ---------------------------------------------------------------- every other object can be lost

  /** The upload that the row waits for can publish. */
  ghost predicate Ready(w: World, h: Digest, u: nat) {
    InPhase(w, u, Recorded) && w.uploads[u].key == h && !w.uploads[u].swept
  }

  /** The file is there, or its upload publishes it now. */
  lemma Published(cfg: Config, w: World, h: Digest, u: nat) returns (es: seq<Event>, w': World)
    requires Timely(cfg, w) && (h in w.files || Ready(w, h, u))
    ensures Leads(cfg, w, es, w', h, u) && (h in w.files || Publish(u) in es)
    ensures h in w'.files && w'.rows == w.rows && w'.scans == w.scans && Timely(cfg, w')
  {
    if h in w.files {
      es, w' := [], w;
    } else {
      OneStep(cfg, w, Publish(u), h, u);
      es, w' := [Publish(u)], Step(w, Publish(u));
    }
  }

  /** Publication, and then the removal that a scan has decided on. */
  lemma DoomedIsLost(cfg: Config, w: World, s: nat, h: Digest, u: nat) returns (es: seq<Event>, w': World)
    requires Timely(cfg, w) && (h in w.files || Ready(w, h, u))
    requires s in w.scans && (h in w.scans[s].doomedFiles || h in w.scans[s].doomedRows)
    ensures Loses(cfg, w, es, w', h, u)
  {
    var first, published := Published(cfg, w, h, u);
    var e := if h in w.scans[s].doomedFiles then UnlinkFile(s, h) else UnlinkRow(s, h);
    OneStep(cfg, published, e, h, u);
    w' := Step(published, e);
    ThenLeads(cfg, w, first, published, [e], w', h, u);
    es := first + [e];
  }

  /** A scan that saw the row old and finds no file decides against it before the publication. */
  lemma OldRowIsLost(cfg: Config, w: World, s: nat, h: Digest, u: nat) returns (es: seq<Event>, w': World)
    requires Timely(cfg, w) && h !in w.files && Ready(w, h, u)
    requires s in w.scans && h in w.scans[s].known
    requires w.scans[s].began / SECOND - w.scans[s].known[h].createdAt >= w.scans[s].minAge
    ensures Loses(cfg, w, es, w', h, u)
  {
    OneStep(cfg, w, DoomRow(s, h), h, u);
    var doomed := Step(w, DoomRow(s, h));
    var rest;
    rest, w' := DoomedIsLost(cfg, doomed, s, h, u);
    ThenLeads(cfg, w, [DoomRow(s, h)], doomed, rest, w', h, u);
    es := [DoomRow(s, h)] + rest;
  }

  /** A scan that knows no row waits until the file is old. */
  lemma OldFileIsLost(cfg: Config, w: World, s: nat, h: Digest, u: nat) returns (es: seq<Event>, w': World)
    requires Timely(cfg, w) && h in w.files && s in w.scans && h !in w.scans[s].known
    requires w.scans[s].began + cfg.span >= w.files[h].mtime + w.scans[s].minAge * SECOND
    ensures Loses(cfg, w, es, w', h, u)
  {
    var scan := w.scans[s];
    var first := ClearField(cfg, w, map[], map[s := scan], h, u);
    var alone := w.(uploads := map[], scans := map[s := scan]);
    var second;
    second, w' := WaitAndUnlink(cfg, alone, s, h, u);
    ThenLeads(cfg, w, first, alone, second, w', h, u);
    es := first + second;
  }

  lemma WaitAndUnlink(cfg: Config, w: World, s: nat, h: Digest, u: nat) returns (es: seq<Event>, w': World)
    requires Timely(cfg, w) && w.uploads == map[] && s in w.scans && w.scans == map[s := w.scans[s]]
    requires h in w.files && h !in w.scans[s].known
    requires w.scans[s].began + cfg.span >= w.files[h].mtime + w.scans[s].minAge * SECOND
    ensures Loses(cfg, w, es, w', h, u)
  {
    var due := w.files[h].mtime + w.scans[s].minAge * SECOND;
    var wait := if w.now < due then due - w.now else 0;
    var doomed := TwoSteps(cfg, w, Tick(wait), DoomFile(s, h), h, u);
    var rest;
    rest, w' := DoomedIsLost(cfg, doomed, s, h, u);
    ThenLeads(cfg, w, [Tick(wait), DoomFile(s, h)], doomed, rest, w', h, u);
    es := [Tick(wait), DoomFile(s, h)] + rest;
  }

  /** A scan that begins just before the publication finds the row old. */
  lemma OldRowCanBeFound(cfg: Config, w: World, h: Digest, u: nat) returns (es: seq<Event>, w': World)
    requires Timely(cfg, w) && h in w.rows && h !in w.files && Ready(w, h, u)
    requires (w.uploads[u].mtime + cfg.gap) / SECOND - w.rows[h].createdAt >= cfg.minAge
    ensures Loses(cfg, w, es, w', h, u)
  {
    var first := ClearField(cfg, w, map[u := w.uploads[u]], map[], h, u);
    var alone := w.(uploads := map[u := w.uploads[u]], scans := map[]);
    var second;
    second, w' := WaitAndScan(cfg, alone, h, u);
    ThenLeads(cfg, w, first, alone, second, w', h, u);
    es := first + second;
  }

  lemma WaitAndScan(cfg: Config, w: World, h: Digest, u: nat) returns (es: seq<Event>, w': World)
    requires Timely(cfg, w) && h in w.rows && h !in w.files && Ready(w, h, u)
    requires w.uploads == map[u := w.uploads[u]] && w.scans == map[]
    requires (w.uploads[u].mtime + cfg.gap) / SECOND - w.rows[h].createdAt >= cfg.minAge
    ensures Loses(cfg, w, es, w', h, u)
  {
    var wait := w.uploads[u].mtime + cfg.gap - w.now;
    var scanned := TwoSteps(cfg, w, Tick(wait), BeginScan(0, cfg.minAge), h, u);
    var rest;
    rest, w' := OldRowIsLost(cfg, scanned, 0, h, u);
    ThenLeads(cfg, w, [Tick(wait), BeginScan(0, cfg.minAge)], scanned, rest, w', h, u);
    es := [Tick(wait), BeginScan(0, cfg.minAge)] + rest;
  }

  lemma HarmfulScanLoses(cfg: Config, w: World, s: nat, h: Digest, u: nat) returns (es: seq<Event>, w': World)
    requires Timely(cfg, w) && h in w.rows && (h in w.files || Ready(w, h, u))
    requires s in w.scans && !Harmless(cfg, w, h, w.scans[s])
    ensures Loses(cfg, w, es, w', h, u)
  {
    if h in w.scans[s].doomedFiles || h in w.scans[s].doomedRows {
      es, w' := DoomedIsLost(cfg, w, s, h, u);
    } else if h in w.files {
      es, w' := OldFileIsLost(cfg, w, s, h, u);
    } else {
      es, w' := OldRowIsLost(cfg, w, s, h, u);
    }
  }

  // ---------------------------------------------------------------- the exact condition

  /**
    * Whatever the key's history, a row with its file, or with an upload about to publish it,
    * survives every undisturbed run exactly when every scan under way is harmless to it and the
    * row stays young until the file has to be there.
    */
  lemma SurvivesExactly(cfg: Config, w: World, h: Digest, u: nat)
    requires GraceSuffices(cfg) && Inv(w) && Timely(cfg, w) && h in w.rows && (h in w.files || Ready(w, h, u))
    ensures AlwaysSurvives(cfg, w, h, u) <==> Guarded(cfg, w, h, u)
  {
    if Guarded(cfg, w, h, u) {
      forall es, w' | Leads(cfg, w, es, w', h, u) && (h in w.files || Publish(u) in es)
        ensures h in w'.files && h in w'.rows
      {
        GuardedSurvives(cfg, w, es, h, u);
      }
    } else if s :| s in w.scans && !Harmless(cfg, w, h, w.scans[s]) {
      var es, w' := HarmfulScanLoses(cfg, w, s, h, u);
    } else {
      var es, w' := OldRowCanBeFound(cfg, w, h, u);
    }
  }

  /** An upload answered "present" keeps its object exactly if no scan under way can still take it for an orphan. */
  lemma PresentSurvivesExactly(cfg: Config, w: World, u: nat)
    requires GraceSuffices(cfg) && Inv(w) && Timely(cfg, w)
    requires Enabled(w, EnsurePresent(u)) && w.uploads[u].key in w.files
    ensures var h, w' := w.uploads[u].key, Step(w, EnsurePresent(u));
      AlwaysSurvives(cfg, w', h, u) <==> forall s :: s in w.scans ==> Harmless(cfg, w', h, w.scans[s])
  {
    var h, w' := w.uploads[u].key, Step(w, EnsurePresent(u));
    StepKeepsInv(w, EnsurePresent(u));
    SurvivesExactly(cfg, w', h, u);
  }

  /** An upload over a row without a file keeps its object exactly if besides that row is young enough to last. */
  lemma RecordedSurvivesExactly(cfg: Config, w: World, u: nat)
    requires GraceSuffices(cfg) && Inv(w) && Timely(cfg, w)
    requires Enabled(w, Record(u)) && !w.uploads[u].swept && w.uploads[u].key !in w.files
    ensures var h, w' := w.uploads[u].key, Step(w, Record(u));
      AlwaysSurvives(cfg, w', h, u)
      <==> && (w.uploads[u].mtime + cfg.gap) / SECOND - w'.rows[h].createdAt < cfg.minAge
           && forall s :: s in w.scans ==> Harmless(cfg, w', h, w.scans[s])
  {
    var h, w' := w.uploads[u].key, Step(w, Record(u));
    StepKeepsInv(w, Record(u));
    SurvivesExactly(cfg, w', h, u);
  }
}
