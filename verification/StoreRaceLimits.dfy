/**
  * How tight the timing condition of the store is, and which uploads it does not cover:
  * music-api/src/store.rs, `put` against `prune_orphans`.
  */
module StoreRaceLimits {
  import opened Hashing
  import opened ObjectStore
  import opened StoreRace

  /** A timely run from `w` to `w'` in which nobody deletes `h` or gives upload `u` of it up. */
  ghost predicate Leads(cfg: Config, w: World, es: seq<Event>, w': World, h: Digest, u: nat) {
    ValidRun(cfg, w, es) && Undisturbed(cfg, w, es, h, u) && After(cfg, w, es) == w'
  }

  lemma OneStep(cfg: Config, w: World, e: Event, h: Digest, u: nat)
    requires Timely(cfg, w) && Enabled(w, e) && Timely(cfg, Step(w, e)) && !Undoes(w, e, h, u)
    ensures Leads(cfg, w, [e], Step(w, e), h, u)
  {
    assert [e][1..] == [];
  }

  lemma {:induction false} ThenLeads(cfg: Config, w: World, a: seq<Event>, w': World, b: seq<Event>, w'': World, h: Digest, u: nat)
    requires Leads(cfg, w, a, w', h, u) && Leads(cfg, w', b, w'', h, u)
    ensures Leads(cfg, w, a + b, w'', h, u)
    decreases |a|
  {
    if a == [] {
      assert a + b == b;
    } else {
      assert (a + b)[1..] == a[1..] + b;
      ThenLeads(cfg, Step(w, a[0]), a[1..], w', b, w'', h, u);
    }
  }

  lemma TwoSteps(cfg: Config, w: World, d: Event, e: Event, h: Digest, u: nat) returns (w': World)
    requires Timely(cfg, w) && Enabled(w, d) && Timely(cfg, Step(w, d)) && !Undoes(w, d, h, u)
    requires Enabled(Step(w, d), e) && Timely(cfg, Step(Step(w, d), e)) && !Undoes(Step(w, d), e, h, u)
    ensures w' == Step(Step(w, d), e) && Leads(cfg, w, [d, e], w', h, u)
  {
    OneStep(cfg, w, d, h, u);
    OneStep(cfg, Step(w, d), e, h, u);
    w' := Step(Step(w, d), e);
    ThenLeads(cfg, w, [d], Step(w, d), [e], w', h, u);
  }

  const KEY: Digest := Sha256("")

  /** An upload of the empty text, last written at `m`. */
  function Empty(m: nat, phase: Phase): Upload {
    Upload(KEY, "", m, phase, false)
  }

  /** From the empty store to a checked upload, at any instant. */
  lemma ReachChecked(cfg: Config, m: nat) returns (es: seq<Event>)
    ensures Leads(cfg, EMPTY, es, World(m, map[], map[], map[0 := Empty(m, Checked)], map[]), KEY, 0)
  {
    var w1 := World(m, map[], map[], map[], map[]);
    OneStep(cfg, EMPTY, Tick(m), KEY, 0);
    var w2 := TwoSteps(cfg, w1, BeginPut(0, KEY), Check(0), KEY, 0);
    ThenLeads(cfg, EMPTY, [Tick(m)], w1, [BeginPut(0, KEY), Check(0)], w2, KEY, 0);
    es := [Tick(m)] + [BeginPut(0, KEY), Check(0)];
    assert w2.uploads == map[0 := Empty(m, Checked)];
  }

  // ---------------------------------------------------------------- a scan that outlives the grace of a file

  lemma ScanBeforeRecord(cfg: Config) returns (es: seq<Event>)
    ensures Leads(cfg, EMPTY, es,
                  World(cfg.gap, map[], map[], map[0 := Empty(0, Checked)], map[1 := Scan(cfg.gap, cfg.minAge, map[], {}, {})]), KEY, 0)
  {
    var w := World(0, map[], map[], map[0 := Empty(0, Checked)], map[]);
    var first := ReachChecked(cfg, 0);
    var w' := TwoSteps(cfg, w, Tick(cfg.gap), BeginScan(1, cfg.minAge), KEY, 0);
    ThenLeads(cfg, EMPTY, first, w, [Tick(cfg.gap), BeginScan(1, cfg.minAge)], w', KEY, 0);
    es := first + [Tick(cfg.gap), BeginScan(1, cfg.minAge)];
  }

  lemma UnlinkAfterwards(cfg: Config, w: World) returns (es: seq<Event>, last: World)
    requires cfg.gap + cfg.span >= cfg.minAge * SECOND
    requires w == World(cfg.gap, map[KEY := File("", 0)], map[KEY := Entry(0, cfg.gap / SECOND)], map[],
                        map[1 := Scan(cfg.gap, cfg.minAge, map[], {}, {})])
    ensures Leads(cfg, w, es, last, KEY, 0) && KEY !in last.files
  {
    var w' := TwoSteps(cfg, w, Tick(cfg.span), DoomFile(1, KEY), KEY, 0);
    OneStep(cfg, w', UnlinkFile(1, KEY), KEY, 0);
    last := Step(w', UnlinkFile(1, KEY));
    ThenLeads(cfg, w, [Tick(cfg.span), DoomFile(1, KEY)], w', [UnlinkFile(1, KEY)], last, KEY, 0);
    es := [Tick(cfg.span), DoomFile(1, KEY)] + [UnlinkFile(1, KEY)];
  }

  lemma FileGraceTooShort(cfg: Config) returns (before: seq<Event>, middle: seq<Event>, after: seq<Event>)
    requires cfg.gap + cfg.span >= cfg.minAge * SECOND
    ensures PutRun(cfg, before, 0, middle, after) && !Survives(cfg, before, 0, middle, after)
  {
    var scans := map[1 := Scan(cfg.gap, cfg.minAge, map[], {}, {})];
    before := ScanBeforeRecord(cfg);
    middle := [];
    var w := World(cfg.gap, map[], map[], map[0 := Empty(0, Checked)], scans);
    var rows := map[KEY := Entry(0, cfg.gap / SECOND)];
    var recorded := World(cfg.gap, map[], rows, map[0 := Empty(0, Recorded)], scans);
    var published := World(cfg.gap, map[KEY := File("", 0)], rows, map[], scans);
    assert recorded == Step(w, Record(0));
    assert published == Step(recorded, Publish(0));
    var last;
    after, last := UnlinkAfterwards(cfg, published);
  }

  // ---------------------------------------------------------------- whole seconds on the row side

  lemma DoomRowMeanwhile(cfg: Config, w: World) returns (es: seq<Event>, last: World)
    requires cfg.gap + SECOND > cfg.minAge * SECOND
    requires w == World(SECOND - 1, map[], map[KEY := Entry(0, 0)], map[0 := Empty(SECOND - 1, Recorded)], map[])
    ensures Leads(cfg, w, es, last, KEY, 0)
    ensures last == w.(now := w.now + cfg.gap,
                       scans := map[1 := Scan(w.now + cfg.gap, cfg.minAge, w.rows, {}, {KEY})])
  {
    var w' := TwoSteps(cfg, w, Tick(cfg.gap), BeginScan(1, cfg.minAge), KEY, 0);
    last := DoomOldRow(cfg, w');
    ThenLeads(cfg, w, [Tick(cfg.gap), BeginScan(1, cfg.minAge)], w', [DoomRow(1, KEY)], last, KEY, 0);
    es := [Tick(cfg.gap), BeginScan(1, cfg.minAge)] + [DoomRow(1, KEY)];
  }

  lemma DoomOldRow(cfg: Config, w: World) returns (w': World)
    requires Timely(cfg, w) && w.now >= cfg.minAge * SECOND
    requires w.files == map[] && w.rows == map[KEY := Entry(0, 0)]
    requires w.scans == map[1 := Scan(w.now, cfg.minAge, w.rows, {}, {})]
    ensures Leads(cfg, w, [DoomRow(1, KEY)], w', KEY, 0)
    ensures w' == w.(scans := map[1 := Scan(w.now, cfg.minAge, w.rows, {}, {KEY})])
  {
    OneStep(cfg, w, DoomRow(1, KEY), KEY, 0);
    w' := Step(w, DoomRow(1, KEY));
    var scan := Scan(w.now, cfg.minAge, w.rows, {}, {KEY});
    assert {} + {KEY} == {KEY};
    assert w'.scans[1] == scan;
    assert w'.scans == map[1 := scan];
  }

  /**
    * A row written at the end of a second looks up to a second older than it is: the grace
    * period has to exceed the publication gap by a whole second.
    */
  lemma RowGraceTooShort(cfg: Config) returns (before: seq<Event>, middle: seq<Event>, after: seq<Event>)
    requires cfg.gap + SECOND > cfg.minAge * SECOND
    ensures PutRun(cfg, before, 0, middle, after) && !Survives(cfg, before, 0, middle, after)
  {
    var m := SECOND - 1;
    before := ReachChecked(cfg, m);
    var w := World(m, map[], map[], map[0 := Empty(m, Checked)], map[]);
    var recorded := World(m, map[], map[KEY := Entry(0, 0)], map[0 := Empty(m, Recorded)], map[]);
    assert recorded == Step(w, Record(0));
    var ready;
    middle, ready := DoomRowMeanwhile(cfg, recorded);
    after := UnlinkPublished(cfg, ready);
  }

  lemma UnlinkPublished(cfg: Config, w: World) returns (after: seq<Event>)
    requires Timely(cfg, w) && 0 in w.uploads && w.uploads[0] == Empty(w.uploads[0].mtime, Recorded)
    requires w.files == map[] && 1 in w.scans && KEY in w.scans[1].doomedRows
    requires Timely(cfg, Step(w, Publish(0)))
    ensures var published := Step(w, Publish(0));
            var last := Step(published, UnlinkRow(1, KEY));
            Leads(cfg, published, after, last, KEY, 0) && KEY !in last.rows
  {
    OneStep(cfg, Step(w, Publish(0)), UnlinkRow(1, KEY), KEY, 0);
    after := [UnlinkRow(1, KEY)];
  }

  // ---------------------------------------------------------------- the exact condition

  /** Every upload of a new key survives every undisturbed run exactly when the grace period suffices. */
  lemma GraceSufficesExactly(cfg: Config)
    ensures GraceSuffices(cfg)
       <==> forall before, u, middle, after ::
              PutRun(cfg, before, u, middle, after) ==> Survives(cfg, before, u, middle, after)
  {
    if GraceSuffices(cfg) {
      forall before, u, middle, after | PutRun(cfg, before, u, middle, after)
        ensures Survives(cfg, before, u, middle, after)
      {
        FreshPutSurvives(cfg, before, u, middle, after);
      }
    } else if cfg.gap + cfg.span >= cfg.minAge * SECOND {
      var before, middle, after := FileGraceTooShort(cfg);
    } else {
      var before, middle, after := RowGraceTooShort(cfg);
    }
  }

  // ---------------------------------------------------------------- uploads the condition does not cover

  lemma {:induction false} ThenRuns(cfg: Config, w: World, a: seq<Event>, b: seq<Event>)
    requires ValidRun(cfg, w, a) && ValidRun(cfg, After(cfg, w, a), b)
    ensures ValidRun(cfg, w, a + b) && After(cfg, w, a + b) == After(cfg, After(cfg, w, a), b)
    decreases |a|
  {
    if a == [] {
      assert a + b == b;
    } else {
      assert (a + b)[1..] == a[1..] + b;
      ThenRuns(cfg, Step(w, a[0]), a[1..], b);
    }
  }

  /** From the empty store: an upload at instant zero, one half of it deleted, and the other left to grow old. */
  lemma ReachOldHalf(cfg: Config, half: Event) returns (before: seq<Event>, w: World)
    requires half == DeleteRow(KEY) || half == DeleteFile(KEY)
    ensures ValidRun(cfg, EMPTY, before) && After(cfg, EMPTY, before) == w
    ensures w == World(cfg.minAge * SECOND, if half.DeleteFile? then map[] else map[KEY := File("", 0)],
                       if half.DeleteRow? then map[] else map[KEY := Entry(0, 0)], map[], map[])
  {
    var first := ReachChecked(cfg, 0);
    var checked := World(0, map[], map[], map[0 := Empty(0, Checked)], map[]);
    var whole := TwoSteps(cfg, checked, Record(0), Publish(0), KEY, 0);
    ThenLeads(cfg, EMPTY, first, checked, [Record(0), Publish(0)], whole, KEY, 0);
    w := HalfGrowsOld(cfg, whole, half);
    ThenRuns(cfg, EMPTY, first + [Record(0), Publish(0)], [half, Tick(cfg.minAge * SECOND)]);
    before := first + [Record(0), Publish(0)] + [half, Tick(cfg.minAge * SECOND)];
  }

  lemma HalfGrowsOld(cfg: Config, w: World, half: Event) returns (w': World)
    requires half == DeleteRow(KEY) || half == DeleteFile(KEY)
    requires w == World(0, map[KEY := File("", 0)], map[KEY := Entry(0, 0)], map[], map[])
    ensures var es := [half, Tick(cfg.minAge * SECOND)]; ValidRun(cfg, w, es) && After(cfg, w, es) == w'
    ensures w' == World(cfg.minAge * SECOND, if half.DeleteFile? then map[] else map[KEY := File("", 0)],
                        if half.DeleteRow? then map[] else map[KEY := Entry(0, 0)], map[], map[])
  {
    var tick := Tick(cfg.minAge * SECOND);
    assert w.files - {KEY} == map[] && w.rows - {KEY} == map[];
    OneRun(cfg, w, half);
    OneRun(cfg, Step(w, half), tick);
    ThenRuns(cfg, w, [half], [tick]);
    assert [half] + [tick] == [half, tick];
    w' := Step(Step(w, half), tick);
  }

  lemma OneRun(cfg: Config, w: World, e: Event)
    requires Timely(cfg, w) && Enabled(w, e) && Timely(cfg, Step(w, e))
    ensures ValidRun(cfg, w, [e]) && After(cfg, w, [e]) == Step(w, e)
  {
    assert [e][1..] == [];
  }

  /**
    * An upload that finds the file already there is answered at once. If that file is an old
    * one without a row, a scan under way removes it all the same, however long the grace period.
    */
  lemma PresentCanBeUndone(cfg: Config) returns (before: seq<Event>, es: seq<Event>, last: World)
    ensures ValidRun(cfg, EMPTY, before)
    ensures Leads(cfg, After(cfg, EMPTY, before), es, last, KEY, 0) && EnsurePresent(0) in es
    ensures KEY !in last.files
  {
    var w;
    before, w := ReachOldHalf(cfg, DeleteRow(KEY));
    es, last := PresentUndone(cfg, w);
  }

  lemma PresentUndone(cfg: Config, w: World) returns (es: seq<Event>, last: World)
    requires w == World(cfg.minAge * SECOND, map[KEY := File("", 0)], map[], map[], map[])
    ensures Leads(cfg, w, es, last, KEY, 0) && EnsurePresent(0) in es
    ensures KEY !in last.files
  {
    var w2 := TwoSteps(cfg, w, BeginScan(1, cfg.minAge), DoomFile(1, KEY), KEY, 0);
    var rest;
    rest, last := PresentThenUnlinked(cfg, w2);
    ThenLeads(cfg, w, [BeginScan(1, cfg.minAge), DoomFile(1, KEY)], w2, rest, last, KEY, 0);
    es := [BeginScan(1, cfg.minAge), DoomFile(1, KEY)] + rest;
  }

  lemma PresentThenUnlinked(cfg: Config, w: World) returns (es: seq<Event>, last: World)
    requires Timely(cfg, w) && KEY in w.files && w.uploads == map[] && 1 in w.scans && KEY in w.scans[1].doomedFiles
    ensures Leads(cfg, w, es, last, KEY, 0) && EnsurePresent(0) in es && KEY !in last.files
  {
    var w' := FoundAndEnsured(cfg, w);
    OneStep(cfg, w', UnlinkFile(1, KEY), KEY, 0);
    last := Step(w', UnlinkFile(1, KEY));
    ThenLeads(cfg, w, [BeginPut(0, KEY), EnsurePresent(0)], w', [UnlinkFile(1, KEY)], last, KEY, 0);
    es := [BeginPut(0, KEY), EnsurePresent(0)] + [UnlinkFile(1, KEY)];
    assert es[1] == EnsurePresent(0);
  }

  lemma FoundAndEnsured(cfg: Config, w: World) returns (w': World)
    requires Timely(cfg, w) && KEY in w.files && w.uploads == map[] && 1 in w.scans && KEY in w.scans[1].doomedFiles
    ensures Leads(cfg, w, [BeginPut(0, KEY), EnsurePresent(0)], w', KEY, 0)
    ensures Timely(cfg, w') && 1 in w'.scans && KEY in w'.scans[1].doomedFiles
  {
    w' := TwoSteps(cfg, w, BeginPut(0, KEY), EnsurePresent(0), KEY, 0);
  }

  /**
    * An upload over an old row without a file keeps that row's time, so a scan under way takes
    * the row from under the file just published, however long the grace period.
    */
  lemma OldRowCanBeUndone(cfg: Config) returns (before: seq<Event>, es: seq<Event>, last: World)
    ensures ValidRun(cfg, EMPTY, before)
    ensures Leads(cfg, After(cfg, EMPTY, before), es, last, KEY, 0) && Publish(0) in es
    ensures KEY in last.files && KEY !in last.rows
  {
    var w;
    before, w := ReachOldHalf(cfg, DeleteFile(KEY));
    es, last := OldRowUndone(cfg, w);
  }

  lemma OldRowUndone(cfg: Config, w: World) returns (es: seq<Event>, last: World)
    requires w == World(cfg.minAge * SECOND, map[], map[KEY := Entry(0, 0)], map[], map[])
    ensures Leads(cfg, w, es, last, KEY, 0) && Publish(0) in es
    ensures KEY in last.files && KEY !in last.rows
  {
    assert cfg.minAge * SECOND / SECOND == cfg.minAge;
    var w2 := TwoSteps(cfg, w, BeginScan(1, cfg.minAge), DoomRow(1, KEY), KEY, 0);
    var put, w6 := PutOverRow(cfg, w2);
    OneStep(cfg, w6, UnlinkRow(1, KEY), KEY, 0);
    last := Step(w6, UnlinkRow(1, KEY));
    ThenLeads(cfg, w2, put, w6, [UnlinkRow(1, KEY)], last, KEY, 0);
    ThenLeads(cfg, w, [BeginScan(1, cfg.minAge), DoomRow(1, KEY)], w2, put + [UnlinkRow(1, KEY)], last, KEY, 0);
    es := [BeginScan(1, cfg.minAge), DoomRow(1, KEY)] + (put + [UnlinkRow(1, KEY)]);
    assert Publish(0) in put;
  }

  lemma PutOverRow(cfg: Config, w: World) returns (es: seq<Event>, w'': World)
    requires Timely(cfg, w) && KEY in w.rows && w.files == map[] && w.uploads == map[]
    requires 1 in w.scans && KEY in w.scans[1].doomedRows
    ensures Leads(cfg, w, es, w'', KEY, 0) && Publish(0) in es
    ensures Timely(cfg, w'') && KEY in w''.files && 1 in w''.scans && KEY in w''.scans[1].doomedRows
  {
    var w' := TwoSteps(cfg, w, BeginPut(0, KEY), Check(0), KEY, 0);
    w'' := TwoSteps(cfg, w', Record(0), Publish(0), KEY, 0);
    ThenLeads(cfg, w, [BeginPut(0, KEY), Check(0)], w', [Record(0), Publish(0)], w'', KEY, 0);
    es := [BeginPut(0, KEY), Check(0)] + [Record(0), Publish(0)];
    assert es[3] == Publish(0);
  }
}
