/**
  * What stands in a vault that has been filled from the operational tables:
  * music-api/src/vault.rs, `backfill`, told from the tables alone.
  */
module VaultContents {
  import opened Wrappers
  import opened LoadDate
  import opened Satellites
  import opened Splitting
  import opened Vault
  import opened Backfill

  // ---------------------------------------------------------------- what the tables say

  /** Rows the walk visits and does not pass over. */
  predicate Visible<T>(s: Source<T>) {
    s.isrc != "" && ':' !in s.isrc
  }

  /** The formats a track is there in, best first. */
  function Formats(t: Track): string {
    if t.flac then
      if t.mp3320 then (if t.mp3128 then "flac,320,128" else "flac,320") else if t.mp3128 then "flac,128" else "flac"
    else
      if t.mp3320 then (if t.mp3128 then "320,128" else "320") else if t.mp3128 then "128" else ""
  }

  /** Title, artist and album; state, source format and formats. */
  ghost predicate TrackSays(tracks: seq<Source<Track>>, key: Key, cols: Columns) {
    && key.part == ""
    && exists s <- tracks :: Visible(s) && s.isrc == key.hub && RowSays(s.row, key.table, cols)
  }

  predicate RowSays(t: Track, table: Table, cols: Columns) {
    || (table == TrackMeta && cols == [t.title, t.artist, t.album])
    || (table == TrackDownload && cols == [Some(t.state), t.sourceFormat, Some(Formats(t))])
  }

  /** Tempo, key and camelot, of a row that has one of them, under the analyzer it names, or "hub". */
  ghost predicate MetadataSays(metadata: seq<Source<Metadata>>, tidy: string -> string, key: Key, cols: Columns) {
    && key.table == TrackAnalysis
    && exists s <- metadata :: Visible(s) && s.isrc == key.hub && AnalysisSays(s.row, tidy, key.part, cols)
  }

  predicate AnalysisSays(m: Metadata, tidy: string -> string, analyzer: string, cols: Columns) {
    && (m.bpm.Some? || m.musicalKey.Some? || m.camelot.Some?)
    && cols == [m.bpm, m.musicalKey, m.camelot, None]
    && match m.analyzer
       case None => analyzer == "hub"
       case Some(a) => analyzer == (if tidy(a) == "" then "hub" else tidy(a))
  }

  ghost predicate Says(tracks: seq<Source<Track>>, metadata: seq<Source<Metadata>>, tidy: string -> string,
                       key: Key, cols: Columns)
  {
    TrackSays(tracks, key, cols) || MetadataSays(metadata, tidy, key, cols)
  }

  /** A track's artist or album, if its normalised name is not blank. */
  ghost predicate HasName(text: Option<string>, name: string -> string, n: string) {
    text.Some? && name(text.value) == n && n != ""
  }

  ghost predicate SaysHub(tracks: seq<Source<Track>>, metadata: seq<Source<Metadata>>, name: string -> string, h: Hub) {
    match h
    case TrackHub(isrc) =>
      (exists s <- tracks :: Visible(s) && s.isrc == isrc) || (exists s <- metadata :: Visible(s) && s.isrc == isrc)
    case ArtistHub(n) => exists s <- tracks :: Visible(s) && HasName(s.row.artist, name, n)
    case AlbumHub(n) => exists s <- tracks :: Visible(s) && HasName(s.row.album, name, n)
  }

  ghost predicate SaysLink(tracks: seq<Source<Track>>, name: string -> string, l: Link) {
    match l
    case TrackArtist(isrc, n) => exists s <- tracks :: Visible(s) && s.isrc == isrc && HasName(s.row.artist, name, n)
    case TrackAlbum(isrc, n) => exists s <- tracks :: Visible(s) && s.isrc == isrc && HasName(s.row.album, name, n)
  }

  // ---------------------------------------------------------------- normalised keys

  predicate IsKeyChar(c: char) {
    'A' <= c <= 'Z' || '0' <= c <= '9'
  }

  /** The keys that stay as they are are those of capital letters and digits, and every result is one. */
  lemma {:induction false} NormalisedExactly(raw: string)
    ensures forall c <- NormalIsrc(raw) :: IsKeyChar(c)
    ensures NormalIsrc(raw) == raw <==> forall c <- raw :: IsKeyChar(c)
  {
    if raw != "" {
      NormalisedExactly(raw[1..]);
      NormalIsNoLonger(raw[1..]);
      assert raw == [raw[0]] + raw[1..];
      assert IsKeyChar(raw[0]) <==> IsAlphanumeric(raw[0]) && Upper(raw[0]) == raw[0];
      if NormalIsrc(raw) == raw {
        assert NormalIsrc(raw)[1..] == raw[1..];
      }
    }
  }

  lemma {:induction false} NormalIsNoLonger(raw: string)
    ensures |NormalIsrc(raw)| <= |raw|
  {
    if raw != "" {
      NormalIsNoLonger(raw[1..]);
    }
  }

  /** Small letters count as capitals, and all but letters and digits is left out. */
  lemma OneCharacter(c: char)
    ensures IsKeyChar(c) ==> NormalIsrc([c]) == [c]
    ensures 'a' <= c <= 'z' ==> NormalIsrc([c]) == [c - 'a' + 'A']
    ensures !IsKeyChar(c) && !('a' <= c <= 'z') ==> NormalIsrc([c]) == ""
  {
    assert [c][1..] == "";
  }

  /** Every character counts for itself. */
  lemma {:induction false} NormalisedTogether(raw: string, c: char, rest: string)
    ensures NormalIsrc(raw + ([c] + rest)) == NormalIsrc(raw) + (NormalIsrc([c]) + NormalIsrc(rest))
  {
    if raw == "" {
      assert raw + ([c] + rest) == [c] + rest && ([c] + rest)[1..] == rest && [c][1..] == "";
    } else {
      assert (raw + ([c] + rest))[1..] == raw[1..] + ([c] + rest);
      NormalisedTogether(raw[1..], c, rest);
      var first := if IsAlphanumeric(raw[0]) then [Upper(raw[0])] else "";
      InThree(first, NormalIsrc(raw[1..]), NormalIsrc([c]) + NormalIsrc(rest));
    }
  }

  lemma InThree(a: string, b: string, c: string)
    ensures a + (b + c) == a + b + c
  {
  }

  // ---------------------------------------------------------------- the commands of a table

  lemma {:induction false} CommandsAre<T>(table: seq<Source<T>>, i: nat, j: nat, each: Source<T> -> seq<Command>, c: Command)
    requires i <= j <= |table|
    ensures c in CommandsOf(table, i, j, each) <==> exists k :: i <= k < j && c in each(table[k])
  {
    if i < j {
      CommandsAre(table, i, j - 1, each, c);
      if c in each(table[j - 1]) {
        assert exists k :: i <= k < j && c in each(table[k]);
      }
    }
  }

  /** The rows from the first one seen on are those with a key. */
  lemma SeenHaveKeys<T>(table: seq<Source<T>>, k: nat)
    requires ByIsrc(table) && k < |table|
    ensures k >= FirstSeen(table) <==> table[k].isrc != ""
  {
    if k > 0 {
      assert Before(table[0].isrc, table[k].isrc);
    }
  }

  lemma CommandsOfTable<T>(table: seq<Source<T>>, each: Source<T> -> seq<Command>, c: Command)
    requires ByIsrc(table)
    ensures c in CommandsOf(table, FirstSeen(table), |table|, each)
       <==> exists s <- table :: s.isrc != "" && c in each(s)
  {
    CommandsAre(table, FirstSeen(table), |table|, each, c);
    if k :| FirstSeen(table) <= k < |table| && c in each(table[k]) {
      SeenHaveKeys(table, k);
      assert table[k] in table;
    }
    if s :| s in table && s.isrc != "" && c in each(s) {
      var k :| 0 <= k < |table| && table[k] == s;
      SeenHaveKeys(table, k);
    }
  }

  lemma JoinedFew(x: string, y: string, z: string)
    ensures Joined([], ",") == "" && Joined([x], ",") == x
    ensures Joined([x, y], ",") == x + ("," + y)
    ensures Joined([x, y, z], ",") == x + ("," + (y + ("," + z)))
  {
    assert [x, y][1..] == [y] && [x, y, z][1..] == [y, z] && [y, z][1..] == [z];
    assert Joined([y, z], ",") == y + ("," + z);
  }

  lemma FormatsAreJoined(t: Track)
    ensures JoinFormats(t) == Formats(t)
  {
    JoinedFew("flac", "320", "128");
    JoinedFew("flac", "128", "");
    JoinedFew("320", "128", "");
    JoinedFew("128", "", "");
    var parts := (if t.flac then ["flac"] else []) + (if t.mp3320 then ["320"] else []) + (if t.mp3128 then ["128"] else []);
    if t.flac && t.mp3320 && t.mp3128 {
      assert parts == ["flac", "320", "128"];
    } else if t.flac && t.mp3320 {
      assert parts == ["flac", "320"];
    } else if t.flac && t.mp3128 {
      assert parts == ["flac", "128"];
    } else if t.mp3320 && t.mp3128 {
      assert parts == ["320", "128"];
    }
  }

  // ---------------------------------------------------------------- the commands of a row

  lemma LoadsOfTrackRow(s: Source<Track>, name: string -> string, key: Key, cols: Columns)
    requires NormalIsrc(s.isrc) == s.isrc && ':' !in s.isrc
    ensures LoadRow(key, cols) in TrackCommands(s, name)
       <==> key.part == "" && s.isrc == key.hub && RowSays(s.row, key.table, cols)
  {
    FormatsAreJoined(s.row);
    var c := LoadRow(key, cols);
    assert c !in ArtistCommands(s.isrc, s.row, name) && c !in AlbumCommands(s.isrc, s.row, name);
    assert c in TrackCommands(s, name) <==> c in TrackLoads(s.isrc, s.row);
    var loads := TrackLoads(s.isrc, s.row);
    assert c in loads <==> c == loads[0] || c == loads[1];
  }

  lemma HubsOfTrackRow(s: Source<Track>, name: string -> string, h: Hub)
    requires NormalIsrc(s.isrc) == s.isrc && ':' !in s.isrc
    ensures AddHub(h) in TrackCommands(s, name)
       <==> match h
            case TrackHub(isrc) => isrc == s.isrc
            case ArtistHub(n) => HasName(s.row.artist, name, n)
            case AlbumHub(n) => HasName(s.row.album, name, n)
  {
  }

  lemma LinksOfTrackRow(s: Source<Track>, name: string -> string, l: Link)
    requires NormalIsrc(s.isrc) == s.isrc && ':' !in s.isrc
    ensures AddLink(l) in TrackCommands(s, name)
       <==> match l
            case TrackArtist(isrc, n) => s.isrc == isrc && HasName(s.row.artist, name, n)
            case TrackAlbum(isrc, n) => s.isrc == isrc && HasName(s.row.album, name, n)
  {
  }

  lemma CommandsOfMetadataRow(s: Source<Metadata>, tidy: string -> string, c: Command)
    requires NormalIsrc(s.isrc) == s.isrc && ':' !in s.isrc
    ensures c in MetadataCommands(s, tidy)
       <==> match c
            case AddHub(h) => h == TrackHub(s.isrc)
            case AddLink(_) => false
            case LoadRow(key, cols) => key.table == TrackAnalysis && s.isrc == key.hub && AnalysisSays(s.row, tidy, key.part, cols)
  {
  }

  // ---------------------------------------------------------------- the commands of both tables

  lemma LoadsAreSaid(tracks: seq<Source<Track>>, metadata: seq<Source<Metadata>>,
                     name: string -> string, tidy: string -> string, key: Key, cols: Columns)
    requires ByIsrc(tracks) && ByIsrc(metadata) && Normalised(tracks) && Normalised(metadata)
    ensures LoadRow(key, cols) in BackfillCommands(tracks, metadata, name, tidy) <==> Says(tracks, metadata, tidy, key, cols)
  {
    var c := LoadRow(key, cols);
    CommandsOfTable(tracks, ByTrack(name), c);
    CommandsOfTable(metadata, ByMetadata(tidy), c);
    forall s | s in tracks && ':' !in s.isrc
      ensures c in TrackCommands(s, name) <==> key.part == "" && s.isrc == key.hub && RowSays(s.row, key.table, cols)
    {
      LoadsOfTrackRow(s, name, key, cols);
    }
    forall s | s in metadata && ':' !in s.isrc
      ensures c in MetadataCommands(s, tidy)
         <==> key.table == TrackAnalysis && s.isrc == key.hub && AnalysisSays(s.row, tidy, key.part, cols)
    {
      CommandsOfMetadataRow(s, tidy, c);
    }
  }

  lemma HubsAreSaid(tracks: seq<Source<Track>>, metadata: seq<Source<Metadata>>,
                    name: string -> string, tidy: string -> string, h: Hub)
    requires ByIsrc(tracks) && ByIsrc(metadata) && Normalised(tracks) && Normalised(metadata)
    ensures AddHub(h) in BackfillCommands(tracks, metadata, name, tidy) <==> SaysHub(tracks, metadata, name, h)
  {
    var c := AddHub(h);
    CommandsOfTable(tracks, ByTrack(name), c);
    CommandsOfTable(metadata, ByMetadata(tidy), c);
    forall s | s in tracks && ':' !in s.isrc
      ensures c in TrackCommands(s, name)
         <==> match h
              case TrackHub(isrc) => isrc == s.isrc
              case ArtistHub(n) => HasName(s.row.artist, name, n)
              case AlbumHub(n) => HasName(s.row.album, name, n)
    {
      HubsOfTrackRow(s, name, h);
    }
    forall s | s in metadata && ':' !in s.isrc ensures c in MetadataCommands(s, tidy) <==> h == TrackHub(s.isrc) {
      CommandsOfMetadataRow(s, tidy, c);
    }
  }

  lemma LinksAreSaid(tracks: seq<Source<Track>>, metadata: seq<Source<Metadata>>,
                     name: string -> string, tidy: string -> string, l: Link)
    requires ByIsrc(tracks) && ByIsrc(metadata) && Normalised(tracks) && Normalised(metadata)
    ensures AddLink(l) in BackfillCommands(tracks, metadata, name, tidy) <==> SaysLink(tracks, name, l)
  {
    var c := AddLink(l);
    CommandsOfTable(tracks, ByTrack(name), c);
    CommandsOfTable(metadata, ByMetadata(tidy), c);
    forall s | s in tracks && ':' !in s.isrc
      ensures c in TrackCommands(s, name)
         <==> match l
              case TrackArtist(isrc, n) => s.isrc == isrc && HasName(s.row.artist, name, n)
              case TrackAlbum(isrc, n) => s.isrc == isrc && HasName(s.row.album, name, n)
    {
      LinksOfTrackRow(s, name, l);
    }
    forall s | s in metadata && ':' !in s.isrc ensures c !in MetadataCommands(s, tidy) {
      CommandsOfMetadataRow(s, tidy, c);
    }
  }

  /** The tables say one thing under a key. */
  lemma SaysOneThing(tracks: seq<Source<Track>>, metadata: seq<Source<Metadata>>, tidy: string -> string,
                     key: Key, cols: Columns, cols': Columns)
    requires ByIsrc(tracks) && ByIsrc(metadata)
    requires Says(tracks, metadata, tidy, key, cols) && Says(tracks, metadata, tidy, key, cols')
    ensures cols == cols'
  {
    forall i: nat, j: nat | i < |tracks| && j < |tracks| && tracks[i].isrc == tracks[j].isrc ensures i == j {
      SameIsrcSameRow(tracks, i, j);
    }
    forall i: nat, j: nat | i < |metadata| && j < |metadata| && metadata[i].isrc == metadata[j].isrc ensures i == j {
      SameIsrcSameRow(metadata, i, j);
    }
  }

  // ---------------------------------------------------------------- the rows of an execution

  /** One row a key, each loaded by one of the commands, at the reading of that command. */
  ghost predicate Stands(rows: seq<Row>, cs: seq<Command>, clock: nat -> string) {
    && (forall i, j :: 0 <= i < j < |rows| ==> rows[i].key != rows[j].key)
    && (forall r <- rows :: LoadedAt(r, cs, clock))
  }

  ghost predicate LoadedAt(r: Row, cs: seq<Command>, clock: nat -> string) {
    && r.diff == HashDiff(r.cols)
    && exists i :: 0 <= i < |cs| && cs[i] == LoadRow(r.key, r.cols) && r.loadDate == clock(i)
  }

  ghost predicate HasRow(rows: seq<Row>, key: Key, cols: Columns) {
    exists r <- rows :: r.key == key && r.cols == cols
  }

  /** No two commands load different columns under one key. */
  ghost predicate Agreed(cs: seq<Command>) {
    forall a, b :: a in cs && b in cs && a.LoadRow? && b.LoadRow? && a.key == b.key ==> a.cols == b.cols
  }

  lemma {:induction false} LatestIsTheRow(rows: seq<Row>, k: nat)
    requires forall i, j :: 0 <= i < j < |rows| ==> rows[i].key != rows[j].key
    requires k < |rows|
    ensures Latest(rows, rows[k].key) == Some(rows[k])
  {
    var n := |rows| - 1;
    if k < n {
      LatestIsTheRow(rows[..n], k);
    } else {
      NoneWithoutRow(rows[..n], rows[k].key);
    }
  }

  lemma {:induction false} NoneWithoutRow(rows: seq<Row>, key: Key)
    requires forall r <- rows :: r.key != key
    ensures Latest(rows, key) == None
  {
    LatestIsARow(rows, key);
  }

  lemma LoadStands(rows: seq<Row>, cs: seq<Command>, clock: nat -> string, n: nat)
    requires Agreed(cs) && Stands(rows, cs, clock) && n < |cs| && cs[n].LoadRow?
    ensures var after := Loaded(rows, cs[n].key, cs[n].cols, clock(n));
      rows <= after && Stands(after, cs, clock) && HasRow(after, cs[n].key, cs[n].cols)
  {
    var key, cols := cs[n].key, cs[n].cols;
    if k :| 0 <= k < |rows| && rows[k].key == key {
      LatestIsTheRow(rows, k);
      assert LoadedAt(rows[k], cs, clock);
      assert cs[n] in cs && LoadRow(key, rows[k].cols) in cs;
      assert Loaded(rows, key, cols, clock(n)) == rows;
    } else {
      NoneWithoutRow(rows, key);
      var row := Row(key, clock(n), HashDiff(cols), cols);
      assert Loaded(rows, key, cols, clock(n)) == rows + [row];
      assert LoadedAt(row, cs, clock);
      assert row in rows + [row];
    }
  }

  lemma {:induction false} ExecutionStands(v: Tables, cs: seq<Command>, clock: nat -> string, n: nat)
    requires Agreed(cs) && Stands(v.rows, cs, clock) && n <= |cs|
    ensures var rows := ExecutedAll(v, cs[n..], clock, n).rows;
      && v.rows <= rows && Stands(rows, cs, clock)
      && forall c <- cs[n..] :: c.LoadRow? ==> HasRow(rows, c.key, c.cols)
    decreases |cs| - n
  {
    if n < |cs| {
      assert cs[n..][0] == cs[n] && cs[n..][1..] == cs[n + 1..];
      if cs[n].LoadRow? {
        LoadStands(v.rows, cs, clock, n);
      }
      ExecutionStands(Executed(v, cs[n], clock(n)), cs, clock, n + 1);
      assert forall c <- cs[n..] :: c == cs[n] || c in cs[n + 1..];
    }
  }

  // ---------------------------------------------------------------- what is counted

  /** What the backfill counts: the rows it does not pass over. */
  lemma {:induction false} CountableAre<T>(table: seq<Source<T>>, i: nat, j: nat)
    requires i <= j <= |table|
    ensures Countable(table, i, j) == |set k | i <= k < j && ':' !in table[k].isrc|
  {
    if i < j {
      CountableAre(table, i, j - 1);
      var before := set k | i <= k < j - 1 && ':' !in table[k].isrc;
      assert (set k | i <= k < j && ':' !in table[k].isrc) == if ':' in table[j - 1].isrc then before else before + {j - 1};
    }
  }

  /** Full pages, and one more for what is left. */
  lemma {:induction false} PagesAre(n: nat, size: int)
    requires size >= 1
    ensures (Pages(n, size) - 1) * size < n <= Pages(n, size) * size || n == Pages(n, size) == 0
    decreases n
  {
    if n > 0 {
      PagesAre(n - Min(n, size), size);
      var rest := Pages(n - Min(n, size), size);
      assert Pages(n, size) * size == size + rest * size;
      assert (rest - 1) * size == rest * size - size;
    }
  }

  // ---------------------------------------------------------------- the vault that was filled

  /** An empty vault after one backfill. */
  ghost function Filled(tracks: seq<Source<Track>>, metadata: seq<Source<Metadata>>,
                        name: string -> string, tidy: string -> string, clock: nat -> string): Tables
  {
    ExecutedAll(Tables(map[], map[], []), BackfillCommands(tracks, metadata, name, tidy), clock, 0)
  }

  lemma BackfillAgrees(tracks: seq<Source<Track>>, metadata: seq<Source<Metadata>>,
                       name: string -> string, tidy: string -> string)
    requires ByIsrc(tracks) && ByIsrc(metadata) && Normalised(tracks) && Normalised(metadata)
    ensures Agreed(BackfillCommands(tracks, metadata, name, tidy))
  {
    var cs := BackfillCommands(tracks, metadata, name, tidy);
    forall a, b | a in cs && b in cs && a.LoadRow? && b.LoadRow? && a.key == b.key ensures a.cols == b.cols {
      LoadsAreSaid(tracks, metadata, name, tidy, a.key, a.cols);
      LoadsAreSaid(tracks, metadata, name, tidy, b.key, b.cols);
      SaysOneThing(tracks, metadata, tidy, a.key, a.cols, b.cols);
    }
  }

  /**
    * The satellite rows of a vault filled from normalised tables, on any clock: what the tables
    * say, once a key, and nothing else.
    */
  lemma RowsSayWhatTablesSay(tracks: seq<Source<Track>>, metadata: seq<Source<Metadata>>,
                             name: string -> string, tidy: string -> string, clock: nat -> string)
    requires ByIsrc(tracks) && ByIsrc(metadata) && Normalised(tracks) && Normalised(metadata)
    ensures var rows := Filled(tracks, metadata, name, tidy, clock).rows;
      && (forall key, cols :: HasRow(rows, key, cols) <==> Says(tracks, metadata, tidy, key, cols))
      && (forall key, cols :: Says(tracks, metadata, tidy, key, cols)
            ==> Latest(rows, key).Some? && Latest(rows, key).value.cols == cols)
      && (forall i, j :: 0 <= i < j < |rows| ==> rows[i].key != rows[j].key)
      && (forall r <- rows :: r.diff == HashDiff(r.cols))
  {
    var cs := BackfillCommands(tracks, metadata, name, tidy);
    var rows := Filled(tracks, metadata, name, tidy, clock).rows;
    BackfillAgrees(tracks, metadata, name, tidy);
    assert cs[0..] == cs;
    ExecutionStands(Tables(map[], map[], []), cs, clock, 0);
    forall key, cols ensures HasRow(rows, key, cols) <==> Says(tracks, metadata, tidy, key, cols) {
      LoadsAreSaid(tracks, metadata, name, tidy, key, cols);
      if r :| r in rows && r.key == key && r.cols == cols {
        assert LoadedAt(r, cs, clock);
      }
    }
    forall key, cols | Says(tracks, metadata, tidy, key, cols)
      ensures Latest(rows, key).Some? && Latest(rows, key).value.cols == cols
    {
      var k :| 0 <= k < |rows| && rows[k].key == key && rows[k].cols == cols by { assert HasRow(rows, key, cols); }
      LatestIsTheRow(rows, k);
    }
    forall r | r in rows ensures r.diff == HashDiff(r.cols) {
      assert LoadedAt(r, cs, clock);
    }
  }

  /** Its hubs and links, likewise. */
  lemma HubsAreWhatTablesSay(tracks: seq<Source<Track>>, metadata: seq<Source<Metadata>>,
                             name: string -> string, tidy: string -> string, clock: nat -> string)
    requires ByIsrc(tracks) && ByIsrc(metadata) && Normalised(tracks) && Normalised(metadata)
    ensures var w := Filled(tracks, metadata, name, tidy, clock);
      && (forall h :: h in w.hubs <==> SaysHub(tracks, metadata, name, h))
      && (forall l :: l in w.links <==> SaysLink(tracks, name, l))
  {
    var cs := BackfillCommands(tracks, metadata, name, tidy);
    HubsAreIn(Tables(map[], map[], []), cs, clock, 0);
    NothingElseInserted(Tables(map[], map[], []), cs, clock, 0);
    forall h ensures AddHub(h) in cs <==> SaysHub(tracks, metadata, name, h) {
      HubsAreSaid(tracks, metadata, name, tidy, h);
    }
    forall l ensures AddLink(l) in cs <==> SaysLink(tracks, name, l) {
      LinksAreSaid(tracks, metadata, name, tidy, l);
    }
  }
}
