/** What a second backfill does: music-api/src/vault.rs, the promise that it is safe to repeat. */
module Backfill {
  import opened Wrappers
  import opened LoadDate
  import opened Satellites
  import opened Vault

  /** The satellite loads among some commands, with the stamps the clock gives them. */
  function LoadsOf(cs: seq<Command>, clock: nat -> string, n: nat): seq<Load> {
    if cs == [] then []
    else if cs[0].LoadRow? then [Load(cs[0].key, cs[0].cols, clock(n))] + LoadsOf(cs[1..], clock, n + 1)
    else LoadsOf(cs[1..], clock, n + 1)
  }

  lemma {:induction false} RowsOfExecution(v: Tables, cs: seq<Command>, clock: nat -> string, n: nat)
    ensures ExecutedAll(v, cs, clock, n).rows == LoadedAll(v.rows, LoadsOf(cs, clock, n))
    decreases |cs|
  {
    if cs != [] {
      RowsOfExecution(Executed(v, cs[0], clock(n)), cs[1..], clock, n + 1);
      if cs[0].LoadRow? {
        assert LoadsOf(cs, clock, n)[1..] == LoadsOf(cs[1..], clock, n + 1);
      }
    }
  }

  predicate SameGate(c: Command, d: Command) {
    c.LoadRow? && d.LoadRow? && c.key == d.key
  }

  /** Read from `n` on, the clock is past a key's rows at each of its loads, and moves on between two of them. */
  ghost predicate ClockFor(rows: seq<Row>, cs: seq<Command>, clock: nat -> string, n: nat) {
    && (forall i :: 0 <= i < |cs| && cs[i].LoadRow? ==> AllBefore(rows, cs[i].key, clock(n + i)))
    && (forall i, j :: 0 <= i < j < |cs| && SameGate(cs[i], cs[j]) ==> Before(clock(n + i), clock(n + j)))
  }

  lemma {:induction false} LoadsTick(cs: seq<Command>, clock: nat -> string, n: nat, i: nat) returns (k: nat)
    requires i < |LoadsOf(cs, clock, n)|
    ensures n <= k < n + |cs| && LoadsOf(cs, clock, n)[i].stamp == clock(k)
    ensures cs[k - n].LoadRow? && cs[k - n].key == LoadsOf(cs, clock, n)[i].key
  {
    var rest := LoadsOf(cs[1..], clock, n + 1);
    if cs[0].LoadRow? {
      if i == 0 {
        k := n;
      } else {
        k := LoadsTick(cs[1..], clock, n + 1, i - 1);
      }
    } else {
      k := LoadsTick(cs[1..], clock, n + 1, i);
    }
  }

  lemma {:induction false} LoadsTickInOrder(rows: seq<Row>, cs: seq<Command>, clock: nat -> string, n: nat)
    requires ClockFor(rows, cs, clock, n)
    ensures Ticking(rows, LoadsOf(cs, clock, n))
  {
    var loads := LoadsOf(cs, clock, n);
    forall i | 0 <= i < |loads| ensures AllBefore(rows, loads[i].key, loads[i].stamp) {
      var k := LoadsTick(cs, clock, n, i);
      assert AllBefore(rows, cs[k - n].key, clock(n + (k - n)));
    }
    if cs != [] {
      ClockGoesOn(rows, cs, clock, n);
      LoadsTickInOrder(rows, cs[1..], clock, n + 1);
      forall i, j | 0 <= i < j < |loads| && loads[i].key == loads[j].key ensures Before(loads[i].stamp, loads[j].stamp) {
        if cs[0].LoadRow? && i == 0 {
          var k := LoadsTick(cs[1..], clock, n + 1, j - 1);
          assert SameGate(cs[0], cs[k - n]) && clock(n + 0) == clock(n) && clock(n + (k - n)) == clock(k);
        }
      }
    }
  }

  lemma ClockGoesOn(rows: seq<Row>, cs: seq<Command>, clock: nat -> string, n: nat)
    requires ClockFor(rows, cs, clock, n) && cs != []
    ensures ClockFor(rows, cs[1..], clock, n + 1)
  {
    forall i | 0 <= i < |cs[1..]| && cs[1..][i].LoadRow? ensures AllBefore(rows, cs[1..][i].key, clock(n + 1 + i)) {
      assert cs[1..][i] == cs[i + 1] && n + 1 + i == n + (i + 1);
    }
    forall i, j | 0 <= i < j < |cs[1..]| && SameGate(cs[1..][i], cs[1..][j])
      ensures Before(clock(n + 1 + i), clock(n + 1 + j))
    {
      assert SameGate(cs[i + 1], cs[j + 1]) && n + 1 + i == n + (i + 1) && n + 1 + j == n + (j + 1);
    }
  }

  lemma {:induction false} LoadsInTwo(a: seq<Command>, b: seq<Command>, ab: seq<Command>, clock: nat -> string, n: nat, m: nat)
    requires ab == a + b && m == n + |a|
    ensures LoadsOf(ab, clock, n) == LoadsOf(a, clock, n) + LoadsOf(b, clock, m)
  {
    if a == [] {
      assert ab == b;
    } else {
      assert ab[0] == a[0] && ab[1..] == a[1..] + b;
      LoadsInTwo(a[1..], b, ab[1..], clock, n + 1, m);
    }
  }

  lemma {:induction false} SameCommandsSameLoads(cs: seq<Command>, clock: nat -> string, n: nat, m: nat)
    ensures SameLoads(LoadsOf(cs, clock, n), LoadsOf(cs, clock, m))
  {
    if cs != [] {
      SameCommandsSameLoads(cs[1..], clock, n + 1, m + 1);
    }
  }

  // ---------------------------------------------------------------- hubs and links

  lemma {:induction false} HubsAreIn(v: Tables, cs: seq<Command>, clock: nat -> string, n: nat)
    ensures var w := ExecutedAll(v, cs, clock, n);
      && (forall h :: h in v.hubs ==> h in w.hubs) && (forall l :: l in v.links ==> l in w.links)
      && (forall c <- cs :: (c.AddHub? ==> c.hub in w.hubs) && (c.AddLink? ==> c.link in w.links))
    decreases |cs|
  {
    if cs != [] {
      HubsAreIn(Executed(v, cs[0], clock(n)), cs[1..], clock, n + 1);
    }
  }

  lemma {:induction false} KnownHubsStay(v: Tables, cs: seq<Command>, clock: nat -> string, n: nat)
    requires forall c <- cs :: (c.AddHub? ==> c.hub in v.hubs) && (c.AddLink? ==> c.link in v.links)
    ensures ExecutedAll(v, cs, clock, n).hubs == v.hubs
    ensures ExecutedAll(v, cs, clock, n).links == v.links
    decreases |cs|
  {
    if cs != [] {
      KnownHubsStay(Executed(v, cs[0], clock(n)), cs[1..], clock, n + 1);
    }
  }

  // ---------------------------------------------------------------- running it twice

  /** No two commands load different values under one gate key. */
  ghost predicate Consistent(cs: seq<Command>) {
    forall a, b :: a in cs && b in cs && a.LoadRow? && b.LoadRow? && a.key == b.key
      ==> HashDiff(a.cols) == HashDiff(b.cols)
  }

  lemma {:induction false} LoadIsCommand(cs: seq<Command>, clock: nat -> string, n: nat, i: nat)
    requires i < |LoadsOf(cs, clock, n)|
    ensures LoadRow(LoadsOf(cs, clock, n)[i].key, LoadsOf(cs, clock, n)[i].cols) in cs
  {
    if !(cs[0].LoadRow? && i == 0) {
      LoadIsCommand(cs[1..], clock, n + 1, if cs[0].LoadRow? then i - 1 else i);
    }
  }

  lemma {:induction false} CommandIsLoad(cs: seq<Command>, clock: nat -> string, n: nat, c: Command) returns (i: nat)
    requires c in cs && c.LoadRow?
    ensures i < |LoadsOf(cs, clock, n)|
    ensures LoadsOf(cs, clock, n)[i].key == c.key && LoadsOf(cs, clock, n)[i].cols == c.cols
  {
    if cs[0] == c {
      i := 0;
    } else {
      i := CommandIsLoad(cs[1..], clock, n + 1, c);
      i := if cs[0].LoadRow? then i + 1 else i;
    }
  }

  lemma ConsistentIsAgreement(cs: seq<Command>, clock: nat -> string, n: nat)
    ensures Consistent(cs) <==> forall key :: AgreesOn(LoadsOf(cs, clock, n), key)
  {
    var loads := LoadsOf(cs, clock, n);
    if Consistent(cs) {
      forall i | 0 <= i < |loads| ensures LoadRow(loads[i].key, loads[i].cols) in cs {
        LoadIsCommand(cs, clock, n, i);
      }
      forall key ensures AgreesOn(loads, key) {
        ConsistentAgreesOn(cs, loads, key);
      }
    } else {
      var a, b :| a in cs && b in cs && a.LoadRow? && b.LoadRow? && a.key == b.key
                  && HashDiff(a.cols) != HashDiff(b.cols);
      var i := CommandIsLoad(cs, clock, n, a);
      var j := CommandIsLoad(cs, clock, n, b);
      assert !AgreesOn(loads, a.key);
    }
  }

  lemma ConsistentAgreesOn(cs: seq<Command>, loads: seq<Load>, key: Key)
    requires Consistent(cs)
    requires forall i :: 0 <= i < |loads| ==> LoadRow(loads[i].key, loads[i].cols) in cs
    ensures AgreesOn(loads, key)
  {
    forall i, j | 0 <= i < |loads| && 0 <= j < |loads| && loads[i].key == loads[j].key == key
      ensures HashDiff(loads[i].cols) == HashDiff(loads[j].cols)
    {
      assert LoadRow(loads[i].key, loads[i].cols) in cs && LoadRow(loads[j].key, loads[j].cols) in cs;
    }
  }

  /**
    * On a clock that moves on, running the same commands again changes nothing at all exactly
    * when they are consistent.
    */
  lemma SecondRunChangesNothing(v: Tables, cs: seq<Command>, clock: nat -> string)
    requires Sorted(v.rows) && ClockFor(v.rows, cs + cs, clock, 0)
    ensures var once := ExecutedAll(v, cs, clock, 0);
      ExecutedAll(once, cs, clock, |cs|) == once <==> Consistent(cs)
  {
    var once := ExecutedAll(v, cs, clock, 0);
    SecondRunOfRows(v, cs, clock);
    HubsAreIn(v, cs, clock, 0);
    KnownHubsStay(once, cs, clock, |cs|);
  }

  lemma SecondRunOfRows(v: Tables, cs: seq<Command>, clock: nat -> string)
    requires Sorted(v.rows) && ClockFor(v.rows, cs + cs, clock, 0)
    ensures var once := ExecutedAll(v, cs, clock, 0);
      ExecutedAll(once, cs, clock, |cs|).rows == once.rows <==> Consistent(cs)
  {
    var once := ExecutedAll(v, cs, clock, 0);
    RowsOfExecution(v, cs, clock, 0);
    RowsOfExecution(once, cs, clock, |cs|);
    LoadsTickTwice(v.rows, cs, cs + cs, clock, LoadsOf(cs, clock, 0) + LoadsOf(cs, clock, |cs|));
    SameCommandsSameLoads(cs, clock, 0, |cs|);
    SecondPassAddsNothing(v.rows, LoadsOf(cs, clock, 0), LoadsOf(cs, clock, |cs|));
    ConsistentIsAgreement(cs, clock, 0);
  }

  lemma LoadsTickTwice(rows: seq<Row>, cs: seq<Command>, twice: seq<Command>, clock: nat -> string, loads: seq<Load>)
    requires ClockFor(rows, twice, clock, 0) && twice == cs + cs
    requires loads == LoadsOf(cs, clock, 0) + LoadsOf(cs, clock, |cs|)
    ensures Ticking(rows, loads)
  {
    LoadsTickInOrder(rows, twice, clock, 0);
    LoadsOfTwice(cs, twice, clock, loads);
  }

  lemma LoadsOfTwice(cs: seq<Command>, twice: seq<Command>, clock: nat -> string, loads: seq<Load>)
    requires twice == cs + cs && loads == LoadsOf(cs, clock, 0) + LoadsOf(cs, clock, |cs|)
    ensures LoadsOf(twice, clock, 0) == loads
  {
    LoadsInTwo(cs, cs, twice, clock, 0, |cs|);
  }

  // ---------------------------------------------------------------- normalised keys

  lemma {:induction false} CommandsComeFrom<T>(table: seq<Source<T>>, i: nat, j: nat,
                                               each: Source<T> -> seq<Command>, c: Command) returns (k: nat)
    requires i <= j <= |table| && c in CommandsOf(table, i, j, each)
    ensures i <= k < j && c in each(table[k])
  {
    if c in each(table[j - 1]) {
      k := j - 1;
    } else {
      k := CommandsComeFrom(table, i, j - 1, each, c);
    }
  }

  lemma OnlyTrackLoadsLoad(s: Source<Track>, name: string -> string, c: Command)
    requires c in TrackCommands(s, name) && c.LoadRow?
    ensures c in TrackLoads(NormalIsrc(s.isrc), s.row)
  {
    var n := NormalIsrc(s.isrc);
    assert c !in ArtistCommands(n, s.row, name) && c !in AlbumCommands(n, s.row, name);
  }

  /** One row never loads two values under one key, and its loads carry its own normalised ISRC. */
  lemma OneRowIsConsistent(s: Source<Track>, name: string -> string, a: Command, b: Command)
    requires a in TrackCommands(s, name) && b in TrackCommands(s, name)
    requires a.LoadRow? && b.LoadRow?
    ensures a.key.hub == NormalIsrc(s.isrc) && a.key.table in {TrackMeta, TrackDownload}
    ensures a.key == b.key ==> a.cols == b.cols
  {
    OnlyTrackLoadsLoad(s, name, a);
    OnlyTrackLoadsLoad(s, name, b);
  }

  lemma OneMetadataRowIsConsistent(s: Source<Metadata>, tidy: string -> string, a: Command, b: Command)
    requires a in MetadataCommands(s, tidy) && b in MetadataCommands(s, tidy)
    requires a.LoadRow? && b.LoadRow?
    ensures a.key.hub == NormalIsrc(s.isrc) && a.key.table == TrackAnalysis
    ensures a.cols == b.cols
  {
  }

  /** The stored keys are normalised, except the composite ones, which are no ISRCs and are passed over. */
  predicate Normalised<T(==)>(table: seq<Source<T>>) {
    forall s <- table :: IsComposite(s.isrc) || NormalIsrc(s.isrc) == s.isrc
  }

  /** Rows whose stored keys are normalised or composite are consistent, whatever they hold. */
  lemma NormalisedTablesAreConsistent(tracks: seq<Source<Track>>, metadata: seq<Source<Metadata>>,
                                      name: string -> string, tidy: string -> string)
    requires ByIsrc(tracks) && ByIsrc(metadata)
    requires Normalised(tracks) && Normalised(metadata)
    ensures Consistent(BackfillCommands(tracks, metadata, name, tidy))
  {
    var cs := BackfillCommands(tracks, metadata, name, tidy);
    forall a, b | a in cs && b in cs && a.LoadRow? && b.LoadRow? && a.key == b.key
      ensures HashDiff(a.cols) == HashDiff(b.cols)
    {
      var i := BackfillSource(tracks, metadata, name, tidy, a);
      var j := BackfillSource(tracks, metadata, name, tidy, b);
      if a.key.table == TrackAnalysis {
        SameIsrcSameRow(metadata, i, j);
        OneMetadataRowIsConsistent(metadata[i], tidy, a, b);
      } else {
        SameIsrcSameRow(tracks, i, j);
        OneRowIsConsistent(tracks[i], name, a, b);
      }
    }
  }

  lemma SameIsrcSameRow<T>(table: seq<Source<T>>, i: nat, j: nat)
    requires ByIsrc(table) && i < |table| && j < |table| && table[i].isrc == table[j].isrc
    ensures i == j
  {
    if i < j {
      BeforeIsStrict(table[i].isrc, table[j].isrc);
    } else if j < i {
      BeforeIsStrict(table[j].isrc, table[i].isrc);
    }
  }

  lemma BackfillSource(tracks: seq<Source<Track>>, metadata: seq<Source<Metadata>>,
                       name: string -> string, tidy: string -> string, c: Command) returns (i: nat)
    requires ByIsrc(tracks) && ByIsrc(metadata)
    requires Normalised(tracks) && Normalised(metadata)
    requires c in BackfillCommands(tracks, metadata, name, tidy) && c.LoadRow?
    ensures if c.key.table == TrackAnalysis
            then i < |metadata| && c in MetadataCommands(metadata[i], tidy) && metadata[i].isrc == c.key.hub
            else i < |tracks| && c in TrackCommands(tracks[i], name) && tracks[i].isrc == c.key.hub
  {
    if c in CommandsOf(tracks, FirstSeen(tracks), |tracks|, ByTrack(name)) {
      i := CommandsComeFrom(tracks, FirstSeen(tracks), |tracks|, ByTrack(name), c);
      assert tracks[i] in tracks;
      OneRowIsConsistent(tracks[i], name, c, c);
    } else {
      i := CommandsComeFrom(metadata, FirstSeen(metadata), |metadata|, ByMetadata(tidy), c);
      assert metadata[i] in metadata;
      OneMetadataRowIsConsistent(metadata[i], tidy, c, c);
    }
  }

  /** The promise of the backfill: over normalised tables, a second run adds and changes nothing. */
  lemma BackfillIsIdempotent(v: Tables, tracks: seq<Source<Track>>, metadata: seq<Source<Metadata>>,
                             name: string -> string, tidy: string -> string, clock: nat -> string)
    requires ByIsrc(tracks) && ByIsrc(metadata)
    requires Normalised(tracks) && Normalised(metadata)
    requires Sorted(v.rows)
    requires var cs := BackfillCommands(tracks, metadata, name, tidy); ClockFor(v.rows, cs + cs, clock, 0)
    ensures var cs := BackfillCommands(tracks, metadata, name, tidy);
      var once := ExecutedAll(v, cs, clock, 0);
      ExecutedAll(once, cs, clock, |cs|) == once
  {
    NormalisedTablesAreConsistent(tracks, metadata, name, tidy);
    SecondRunChangesNothing(v, BackfillCommands(tracks, metadata, name, tidy), clock);
  }

  // ---------------------------------------------------------------- the real clock

  /** The stamps of a real clock, before the year 10000, that has moved on between two loads of one key. */
  ghost predicate ReadsTimes(cs: seq<Command>, clock: nat -> string, times: seq<nat>) {
    && |times| == |cs|
    && (forall i :: 0 <= i < |times| ==> times[i] < HORIZON && clock(i) == LoadDateAt(times[i]))
    && (forall i, j :: 0 <= i < j < |cs| && SameGate(cs[i], cs[j]) ==> times[i] < times[j])
  }

  lemma TimesGiveClock(cs: seq<Command>, clock: nat -> string, times: seq<nat>)
    requires ReadsTimes(cs, clock, times)
    ensures ClockFor([], cs, clock, 0)
  {
    forall i, j | 0 <= i < j < |cs| && SameGate(cs[i], cs[j]) ensures Before(clock(0 + i), clock(0 + j)) {
      StampsFollowTime(times[i], times[j]);
      assert clock(0 + i) == LoadDateAt(times[i]) && clock(0 + j) == LoadDateAt(times[j]);
    }
  }

  /** An empty vault, filled twice with real stamps over normalised tables: the second run changes nothing. */
  lemma FirstBackfillIsFinal(tracks: seq<Source<Track>>, metadata: seq<Source<Metadata>>,
                             name: string -> string, tidy: string -> string, clock: nat -> string, times: seq<nat>)
    requires ByIsrc(tracks) && ByIsrc(metadata) && Normalised(tracks) && Normalised(metadata)
    requires var cs := BackfillCommands(tracks, metadata, name, tidy); ReadsTimes(cs + cs, clock, times)
    ensures var cs := BackfillCommands(tracks, metadata, name, tidy);
      var once := ExecutedAll(Tables(map[], map[], []), cs, clock, 0);
      ExecutedAll(once, cs, clock, |cs|) == once
  {
    var cs := BackfillCommands(tracks, metadata, name, tidy);
    TimesGiveClock(cs + cs, clock, times);
    BackfillIsIdempotent(Tables(map[], map[], []), tracks, metadata, name, tidy, clock);
  }

  // ---------------------------------------------------------------- hubs and links keep their first stamp

  /** Every hub and link of `v` is in `w`, with the stamp it had. */
  ghost predicate KeepsStamps(v: Tables, w: Tables) {
    && (forall h :: h in v.hubs ==> h in w.hubs && w.hubs[h] == v.hubs[h])
    && (forall l :: l in v.links ==> l in w.links && w.links[l] == v.links[l])
  }

  lemma CommandKeepsStamps(v: Tables, c: Command, stamp: string)
    ensures KeepsStamps(v, Executed(v, c, stamp))
  {
  }

  /** Whatever is loaded afterwards, a hub or a link keeps the stamp of the load that inserted it. */
  lemma {:induction false} FirstStampStays(v: Tables, cs: seq<Command>, clock: nat -> string, n: nat)
    ensures KeepsStamps(v, ExecutedAll(v, cs, clock, n))
    decreases |cs|
  {
    if cs != [] {
      var w := Executed(v, cs[0], clock(n));
      CommandKeepsStamps(v, cs[0], clock(n));
      FirstStampStays(w, cs[1..], clock, n + 1);
      assert ExecutedAll(v, cs, clock, n) == ExecutedAll(w, cs[1..], clock, n + 1);
    }
  }

  /** And there are no others: every hub and link of the outcome was there before or is one of those loaded. */
  lemma {:induction false} NothingElseInserted(v: Tables, cs: seq<Command>, clock: nat -> string, n: nat)
    ensures var w := ExecutedAll(v, cs, clock, n);
      && (forall h :: h in w.hubs ==> h in v.hubs || AddHub(h) in cs)
      && (forall l :: l in w.links ==> l in v.links || AddLink(l) in cs)
    decreases |cs|
  {
    if cs != [] {
      NothingElseInserted(Executed(v, cs[0], clock(n)), cs[1..], clock, n + 1);
      assert cs[0] in cs && forall c <- cs[1..] :: c in cs;
    }
  }

  // ---------------------------------------------------------------- two loaders, one table

  /** The columns of the loader without, and of the loader with, a duration. */
  function ShortColumns(title: Option<string>, artist: Option<string>, album: Option<string>): Columns {
    [title, artist, album]
  }

  function FullColumns(title: Option<string>, artist: Option<string>, album: Option<string>, duration: Option<string>): Columns {
    ShortColumns(title, artist, album) + [duration]
  }

  lemma {:induction false} PreimageInTwo(a: Columns, b: Columns)
    ensures Preimage(a + b) == Preimage(a) + Preimage(b)
  {
    if a == [] {
      assert a + b == b;
    } else {
      assert (a + b)[1..] == a[1..] + b;
      PreimageInTwo(a[1..], b);
    }
  }

  /** One column more makes a longer text, whatever the columns hold. */
  lemma LoadersNeverAgree(short: Columns, duration: Option<string>)
    ensures HashDiff(short) != HashDiff(short + [duration])
  {
    PreimageInTwo(short, [duration]);
    assert |Preimage([duration])| > 0;
  }

  /** The loads of one track's unchanged facts by the two loaders in turn, starting with either. */
  function Turns(key: Key, short: Columns, duration: Option<string>, full: bool, stamps: seq<string>): seq<Load>
    decreases |stamps|
  {
    if stamps == [] then []
    else [Load(key, if full then short + [duration] else short, stamps[0])] + Turns(key, short, duration, !full, stamps[1..])
  }

  lemma {:induction false} TurnsAre(key: Key, short: Columns, duration: Option<string>, full: bool, stamps: seq<string>)
    ensures |Turns(key, short, duration, full, stamps)| == |stamps|
    ensures forall i :: 0 <= i < |stamps| ==> Turns(key, short, duration, full, stamps)[i].stamp == stamps[i]
    decreases |stamps|
  {
    if stamps != [] {
      TurnsAre(key, short, duration, !full, stamps[1..]);
    }
  }

  /**
    * Both loaders write `sat_track_meta`, hashing three columns and four. Their digests never
    * agree, so loading one track's unchanged facts by turns appends a row every single time.
    */
  lemma {:induction false} LoadersByTurnsAlwaysAppend(rows: seq<Row>, key: Key, title: Option<string>, artist: Option<string>,
                                                      album: Option<string>, duration: Option<string>,
                                                      full: bool, stamps: seq<string>)
    requires Sorted(rows)
    requires Ticking(rows, Turns(key, ShortColumns(title, artist, album), duration, full, stamps))
    requires LastOf(rows, key).Some? ==>
      LastOf(rows, key).value.diff == HashDiff(if full then ShortColumns(title, artist, album)
                                               else FullColumns(title, artist, album, duration))
    ensures |LoadedAll(rows, Turns(key, ShortColumns(title, artist, album), duration, full, stamps))| == |rows| + |stamps|
    decreases |stamps|
  {
    var short := ShortColumns(title, artist, album);
    if stamps != [] {
      var loads := Turns(key, short, duration, full, stamps);
      TurnsAre(key, short, duration, full, stamps);
      var next := Loaded(rows, loads[0].key, loads[0].cols, loads[0].stamp);
      LoadersNeverAgree(short, duration);
      LoadAppendsOnChange(rows, loads[0].key, loads[0].cols, loads[0].stamp);
      TickingGoesOn(rows, loads);
      assert loads[1..] == Turns(key, short, duration, !full, stamps[1..]);
      LoadersByTurnsAlwaysAppend(next, key, title, artist, album, duration, !full, stamps[1..]);
    }
  }
}
