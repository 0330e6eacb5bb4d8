/**
  * Filling the vault from the operational tables: music-api/src/vault.rs, `backfill` and the
  * loaders it calls. Stamps come from a clock: `clock(i)` is the stamp of the i-th load.
  */
module Vault {
  import opened Wrappers
  import opened LoadDate
  import opened Satellites
  import opened Splitting

  // ---------------------------------------------------------------- tables and loads

  datatype Hub = TrackHub(isrc: string) | ArtistHub(name: string) | AlbumHub(title: string)

  datatype Link = TrackArtist(track: string, artist: string) | TrackAlbum(track: string, album: string)

  /** Hubs and links keep the stamp of the load that inserted them. */
  datatype Tables = Tables(hubs: map<Hub, string>, links: map<Link, string>, rows: seq<Row>)

  datatype Command = AddHub(hub: Hub) | AddLink(link: Link) | LoadRow(key: Key, cols: Columns)

  function Executed(v: Tables, c: Command, stamp: string): Tables {
    match c
    case AddHub(h) => if h in v.hubs then v else v.(hubs := v.hubs[h := stamp])
    case AddLink(l) => if l in v.links then v else v.(links := v.links[l := stamp])
    case LoadRow(key, cols) => v.(rows := Loaded(v.rows, key, cols, stamp))
  }

  function ExecutedAll(v: Tables, cs: seq<Command>, clock: nat -> string, n: nat): Tables
    decreases |cs|
  {
    if cs == [] then v else ExecutedAll(Executed(v, cs[0], clock(n)), cs[1..], clock, n + 1)
  }

  // ---------------------------------------------------------------- the operational rows

  /** A row of a table whose primary key is its ISRC. */
  datatype Source<T> = Source(isrc: string, row: T)

  datatype Track = Track(
    title: Option<string>, artist: Option<string>, album: Option<string>,
    state: string, sourceFormat: Option<string>, flac: bool, mp3320: bool, mp3128: bool)

  datatype Metadata = Metadata(
    bpm: Option<string>, musicalKey: Option<string>, camelot: Option<string>, analyzer: Option<string>)

  function Upper(c: char): char {
    if 'a' <= c <= 'z' then c - 'a' + 'A' else c
  }

  predicate IsAlphanumeric(c: char) {
    'a' <= c <= 'z' || 'A' <= c <= 'Z' || '0' <= c <= '9'
  }

  function NormalIsrc(raw: string): string {
    if raw == "" then ""
    else (if IsAlphanumeric(raw[0]) then [Upper(raw[0])] else "") + NormalIsrc(raw[1..])
  }

  function JoinFormats(t: Track): string {
    var a := if t.flac then ["flac"] else [];
    var b := if t.mp3320 then ["320"] else [];
    var c := if t.mp3128 then ["128"] else [];
    Joined(a + b + c, ",")
  }

  /** Composite `<source>:<id>` keys are no ISRCs and are passed over. */
  predicate IsComposite(isrc: string) {
    ':' in isrc
  }

  /** `name` is the artist and album key of a text, empty for a blank one. */
  function TrackCommands(s: Source<Track>, name: string -> string): seq<Command> {
    if IsComposite(s.isrc) then []
    else
      var n, t := NormalIsrc(s.isrc), s.row;
      [AddHub(TrackHub(n))] + ArtistCommands(n, t, name) + AlbumCommands(n, t, name) + TrackLoads(n, t)
  }

  function ArtistCommands(n: string, t: Track, name: string -> string): seq<Command> {
    if t.artist.Some? && name(t.artist.value) != ""
    then [AddHub(ArtistHub(name(t.artist.value))), AddLink(TrackArtist(n, name(t.artist.value)))] else []
  }

  function AlbumCommands(n: string, t: Track, name: string -> string): seq<Command> {
    if t.album.Some? && name(t.album.value) != ""
    then [AddHub(AlbumHub(name(t.album.value))), AddLink(TrackAlbum(n, name(t.album.value)))] else []
  }

  function TrackLoads(n: string, t: Track): seq<Command> {
    [LoadRow(Key(TrackMeta, n, ""), [t.title, t.artist, t.album]),
     LoadRow(Key(TrackDownload, n, ""), [Some(t.state), t.sourceFormat, Some(JoinFormats(t))])]
  }

  /** `tidy` trims an analyzer's name and lowers its case. */
  function Analyzer(m: Metadata, tidy: string -> string): string {
    if m.analyzer.Some? && tidy(m.analyzer.value) != "" then tidy(m.analyzer.value) else "hub"
  }

  function MetadataCommands(s: Source<Metadata>, tidy: string -> string): seq<Command> {
    if IsComposite(s.isrc) then []
    else
      var n, m := NormalIsrc(s.isrc), s.row;
      [AddHub(TrackHub(n))]
      + if m.bpm.Some? || m.musicalKey.Some? || m.camelot.Some?
        then [LoadRow(Key(TrackAnalysis, n, Analyzer(m, tidy)), [m.bpm, m.musicalKey, m.camelot, None])] else []
  }

  /** The commands of the table rows from `i` up to `j`. */
  function CommandsOf<T>(table: seq<Source<T>>, i: nat, j: nat, each: Source<T> -> seq<Command>): seq<Command>
    requires i <= j <= |table|
  {
    if i == j then [] else CommandsOf(table, i, j - 1, each) + each(table[j - 1])
  }

  /** How many of those rows count as loaded. */
  function Countable<T>(table: seq<Source<T>>, i: nat, j: nat): nat
    requires i <= j <= |table|
  {
    if i == j then 0 else Countable(table, i, j - 1) + if IsComposite(table[j - 1].isrc) then 0 else 1
  }

  // ---------------------------------------------------------------- pages

  /** The table in the order of its primary key. */
  predicate ByIsrc<T>(rows: seq<Source<T>>) {
    forall i, j :: 0 <= i < j < |rows| ==> Before(rows[i].isrc, rows[j].isrc)
  }

  /** The rows behind a cursor. */
  function Beyond<T>(rows: seq<Source<T>>, last: string): seq<Source<T>> {
    if rows == [] then []
    else (if Before(last, rows[0].isrc) then [rows[0]] else []) + Beyond(rows[1..], last)
  }

  /** What one query returns: the first `batch` rows behind the cursor. */
  function Page<T>(rows: seq<Source<T>>, last: string, batch: nat): seq<Source<T>> {
    var left := Beyond(rows, last);
    if |left| <= batch then left else left[..batch]
  }

  lemma {:induction false} BeyondSplits<T>(rows: seq<Source<T>>, last: string, k: nat)
    requires k <= |rows|
    requires forall i :: 0 <= i < k ==> !Before(last, rows[i].isrc)
    requires forall i :: k <= i < |rows| ==> Before(last, rows[i].isrc)
    ensures Beyond(rows, last) == rows[k..]
  {
    if rows != [] {
      BeyondSplits(rows[1..], last, if k == 0 then 0 else k - 1);
      assert k > 0 ==> rows[1..][k - 1..] == rows[k..];
    }
  }

  /** The first row a walk can see: the cursor starts as the empty text, and so passes an empty key. */
  function FirstSeen<T>(table: seq<Source<T>>): (k: nat)
    ensures k <= |table|
  {
    if table != [] && table[0].isrc == "" then 1 else 0
  }

  /** The cursor stands just before row `k`. */
  ghost predicate AtRow<T>(table: seq<Source<T>>, last: string, k: nat) {
    && k <= |table|
    && (forall i :: 0 <= i < k ==> !Before(last, table[i].isrc))
    && (forall i :: k <= i < |table| ==> Before(last, table[i].isrc))
  }

  lemma StartAtFirstSeen<T>(table: seq<Source<T>>)
    requires ByIsrc(table)
    ensures AtRow(table, "", FirstSeen(table))
  {
    forall i | FirstSeen(table) <= i < |table| ensures Before("", table[i].isrc) {
      if i > 0 {
        assert Before(table[0].isrc, table[i].isrc);
      }
    }
  }

  /** The query at row `k` returns the next `size` rows, and its last key moves the cursor past them. */
  lemma PageAt<T>(table: seq<Source<T>>, last: string, size: nat, k: nat)
    requires ByIsrc(table) && AtRow(table, last, k) && size >= 1
    ensures var page := Page(table, last, size);
      && |page| == Min(size, |table| - k)
      && page == table[k..k + |page|]
      && (page != [] ==> AtRow(table, page[|page| - 1].isrc, k + |page|))
  {
    BeyondSplits(table, last, k);
    var page := Page(table, last, size);
    assert Beyond(table, last) == table[k..];
    assert |page| == Min(size, |table| - k);
    assert page == table[k..][..|page|] == table[k..k + |page|];
    if page != [] {
      assert page[|page| - 1] == table[k + |page| - 1];
      PastRow(table, k + |page| - 1);
    }
  }

  /** The key of a row, as a cursor, stands just behind that row. */
  lemma PastRow<T>(table: seq<Source<T>>, n: nat)
    requires ByIsrc(table) && n < |table|
    ensures AtRow(table, table[n].isrc, n + 1)
  {
    var last := table[n].isrc;
    forall i | 0 <= i <= n ensures !Before(last, table[i].isrc) {
      if i < n {
        BeforeIsStrict(table[i].isrc, last);
      } else if Before(last, last) {
        BeforeIsStrict(last, last);
      }
    }
    forall i | n + 1 <= i < |table| ensures Before(last, table[i].isrc) {
      assert Before(table[n].isrc, table[i].isrc);
    }
  }

  /** How many pages of `size` rows it takes to read `n` rows. */
  function Pages(n: nat, size: int): nat
    requires size >= 1
  {
    if n == 0 then 0 else 1 + Pages(n - Min(n, size), size)
  }

  /** Every command of one pass, tracks first, then metadata; pages play no part. */
  function BackfillCommands(tracks: seq<Source<Track>>, metadata: seq<Source<Metadata>>,
                            name: string -> string, tidy: string -> string): seq<Command>
  {
    CommandsOf(tracks, FirstSeen(tracks), |tracks|, ByTrack(name))
    + CommandsOf(metadata, FirstSeen(metadata), |metadata|, ByMetadata(tidy))
  }

  function ByTrack(name: string -> string): Source<Track> -> seq<Command> {
    s => TrackCommands(s, name)
  }

  function ByMetadata(tidy: string -> string): Source<Metadata> -> seq<Command> {
    s => MetadataCommands(s, tidy)
  }

  lemma {:induction false} ExecutedInTwo(v: Tables, a: seq<Command>, b: seq<Command>, clock: nat -> string, n: nat)
    ensures ExecutedAll(v, a + b, clock, n) == ExecutedAll(ExecutedAll(v, a, clock, n), b, clock, n + |a|)
    decreases |a|
  {
    if a == [] {
      assert a + b == b;
    } else {
      assert (a + b)[1..] == a[1..] + b;
      ExecutedInTwo(Executed(v, a[0], clock(n)), a[1..], b, clock, n + 1);
    }
  }

  lemma TracksThenMetadata(v: Tables, tracks: seq<Source<Track>>, metadata: seq<Source<Metadata>>,
                           name: string -> string, tidy: string -> string, clock: nat -> string)
    ensures var a := CommandsOf(tracks, FirstSeen(tracks), |tracks|, ByTrack(name));
      var b := CommandsOf(metadata, FirstSeen(metadata), |metadata|, ByMetadata(tidy));
      ExecutedAll(v, BackfillCommands(tracks, metadata, name, tidy), clock, 0)
      == ExecutedAll(ExecutedAll(v, a, clock, 0), b, clock, |a|)
  {
    ExecutedInTwo(v, CommandsOf(tracks, FirstSeen(tracks), |tracks|, ByTrack(name)),
                  CommandsOf(metadata, FirstSeen(metadata), |metadata|, ByMetadata(tidy)), clock, 0);
  }

  lemma ExecutedLast(v: Tables, a: seq<Command>, c: Command, clock: nat -> string, n: nat)
    ensures ExecutedAll(v, a + [c], clock, n) == Executed(ExecutedAll(v, a, clock, n), c, clock(n + |a|))
  {
    ExecutedInTwo(v, a, [c], clock, n);
  }

  // ---------------------------------------------------------------- the loaders and the backfill

  datatype BackfillStats = BackfillStats(tracks: nat, analyses: nat, batches: nat)

  class Store {
    var hubs: map<Hub, string>
    var links: map<Link, string>
    var rows: seq<Row>

    constructor ()
      ensures State() == Tables(map[], map[], [])
    {
      hubs, links, rows := map[], map[], [];
    }

    function State(): Tables
      reads this
    {
      Tables(hubs, links, rows)
    }

    method LoadHub(h: Hub, stamp: string)
      modifies this
      ensures State() == Executed(old(State()), AddHub(h), stamp)
    {
      if h !in hubs {
        hubs := hubs[h := stamp];
      }
    }

    method LoadLink(l: Link, stamp: string)
      modifies this
      ensures State() == Executed(old(State()), AddLink(l), stamp)
    {
      if l !in links {
        links := links[l := stamp];
      }
    }

    /** The gate of every satellite loader. The answer says that the digest was new. */
    method LoadSatellite(key: Key, cols: Columns, stamp: string) returns (written: bool)
      modifies this
      ensures State() == Executed(old(State()), LoadRow(key, cols), stamp)
      ensures written <==> Changes(old(rows), key, cols)
    {
      var newest: Option<Row> := None;
      var taken := false;
      for i := 0 to |rows|
        invariant rows == old(rows) && hubs == old(hubs) && links == old(links)
        invariant newest == Latest(rows[..i], key)
        invariant taken == Taken(rows[..i], key, stamp)
      {
        assert rows[..i + 1][..i] == rows[..i];
        if rows[i].key == key {
          taken := taken || rows[i].loadDate == stamp;
          if newest.None? || !Before(rows[i].loadDate, newest.value.loadDate) {
            newest := Some(rows[i]);
          }
        }
      }
      assert rows[..|rows|] == rows;
      if newest.Some? && newest.value.diff == HashDiff(cols) {
        return false;
      }
      if !taken {
        rows := rows + [Row(key, stamp, HashDiff(cols), cols)];
      }
      return true;
    }

    method Execute(c: Command, stamp: string)
      modifies this
      ensures State() == Executed(old(State()), c, stamp)
    {
      match c
      case AddHub(h) => LoadHub(h, stamp);
      case AddLink(l) => LoadLink(l, stamp);
      case LoadRow(key, cols) => var _ := LoadSatellite(key, cols, stamp);
    }

    method ExecuteAll(cs: seq<Command>, clock: nat -> string, n: nat)
      modifies this
      ensures State() == ExecutedAll(old(State()), cs, clock, n)
    {
      for i := 0 to |cs|
        invariant State() == ExecutedAll(old(State()), cs[..i], clock, n)
      {
        assert cs[..i + 1] == cs[..i] + [cs[i]];
        ExecutedLast(old(State()), cs[..i], cs[i], clock, n);
        Execute(cs[i], clock(n + i));
      }
      assert cs[..|cs|] == cs;
    }

    /**
      * Whatever the batch size, the vault ends up as if every visible row had been handled
      * once, in key order, with no pages at all.
      */
    method Backfill(tracks: seq<Source<Track>>, metadata: seq<Source<Metadata>>, batch: int,
                    name: string -> string, tidy: string -> string, clock: nat -> string)
      returns (stats: BackfillStats)
      requires ByIsrc(tracks) && ByIsrc(metadata)
      modifies this
      ensures State() == ExecutedAll(old(State()), BackfillCommands(tracks, metadata, name, tidy), clock, 0)
      ensures stats.tracks == Countable(tracks, FirstSeen(tracks), |tracks|)
      ensures stats.analyses == Countable(metadata, FirstSeen(metadata), |metadata|)
      ensures stats.batches == Pages(|tracks| - FirstSeen(tracks), Max(batch, 1))
                               + Pages(|metadata| - FirstSeen(metadata), Max(batch, 1))
    {
      var size := Max(batch, 1);
      ghost var v := State();
      var tracksSeen, pages, n := Walk(tracks, size, ByTrack(name), clock, 0);
      ghost var between := State();
      var metadataSeen, more, n' := Walk(metadata, size, ByMetadata(tidy), clock, n);
      stats := BackfillStats(tracksSeen, metadataSeen, pages + more);
      BothWalked(v, between, State(), tracks, metadata, name, tidy, clock, n, n', tracksSeen, metadataSeen);
    }

    /** Page after page behind a moving cursor, until a query comes back empty. */
    method Walk<T>(table: seq<Source<T>>, size: int, each: Source<T> -> seq<Command>, clock: nat -> string, n: nat)
      returns (counted: nat, pages: nat, n': nat)
      requires ByIsrc(table) && size >= 1
      modifies this
      ensures Walked(table, each, clock, old(State()), n, State(), n', counted)
      ensures pages == Pages(|table| - FirstSeen(table), size)
    {
      ghost var first := FirstSeen(table);
      ghost var k := first;
      var last := "";
      StartAtFirstSeen(table);
      WalkStarts(State(), n, table, first, each, clock);
      counted, pages, n' := 0, 0, n;
      while true
        invariant first <= k <= |table| && AtRow(table, last, k)
        invariant UpTo(old(State()), n, table, first, k, each, clock, State(), n', counted)
        invariant pages + Pages(|table| - k, size) == Pages(|table| - first, size)
        decreases |table| - k
      {
        var page := Query(table, last, size, k);
        if page == [] {
          break;
        }
        PagesStep(|table| - k, size);
        counted, n' := LoadPage(page, counted, each, clock, n', old(State()), n, table, first, k);
        last, pages, k := page[|page| - 1].isrc, pages + 1, k + |page|;
      }
    }

    /** One query: the next rows, after which the cursor moves past them. */
    method Query<T>(table: seq<Source<T>>, last: string, size: nat, ghost k: nat) returns (page: seq<Source<T>>)
      requires ByIsrc(table) && AtRow(table, last, k) && size >= 1
      ensures |page| == Min(size, |table| - k) && page == table[k..k + |page|]
      ensures page != [] ==> AtRow(table, page[|page| - 1].isrc, k + |page|)
    {
      page := Page(table, last, size);
      PageAt(table, last, size, k);
    }

    /** One page, row by row: the transaction of one batch. */
    method LoadPage<T>(page: seq<Source<T>>, counted: nat, each: Source<T> -> seq<Command>, clock: nat -> string, n: nat,
                       ghost v0: Tables, ghost n0: nat, ghost table: seq<Source<T>>, ghost first: nat, ghost k: nat)
      returns (counted': nat, n': nat)
      requires k + |page| <= |table| && page == table[k..k + |page|]
      requires UpTo(v0, n0, table, first, k, each, clock, State(), n, counted)
      modifies this
      ensures UpTo(v0, n0, table, first, k + |page|, each, clock, State(), n', counted')
    {
      counted', n' := counted, n;
      for i := 0 to |page|
        invariant UpTo(v0, n0, table, first, k + i, each, clock, State(), n', counted')
      {
        counted', n' := LoadSource(page[i], counted', each, clock, n', v0, n0, table, first, k + i);
      }
    }

    method LoadSource<T>(s: Source<T>, counted: nat, each: Source<T> -> seq<Command>, clock: nat -> string, n: nat,
                         ghost v0: Tables, ghost n0: nat, ghost table: seq<Source<T>>, ghost first: nat, ghost k: nat)
      returns (counted': nat, n': nat)
      requires k < |table| && s == table[k] && UpTo(v0, n0, table, first, k, each, clock, State(), n, counted)
      modifies this
      ensures UpTo(v0, n0, table, first, k + 1, each, clock, State(), n', counted')
    {
      UpToNext(v0, n0, table, first, k, each, clock, State(), n, counted);
      ExecuteAll(each(s), clock, n);
      n' := n + |each(s)|;
      counted' := counted + if IsComposite(s.isrc) then 0 else 1;
    }
  }

  /** From `v`, and reading `n` of the clock, every visible row has been handled once, in order. */
  ghost predicate Walked<T>(table: seq<Source<T>>, each: Source<T> -> seq<Command>, clock: nat -> string,
                            v: Tables, n: nat, v': Tables, n': nat, counted: nat)
  {
    UpTo(v, n, table, FirstSeen(table), |table|, each, clock, v', n', counted)
  }

  lemma BothWalked(v: Tables, between: Tables, v': Tables, tracks: seq<Source<Track>>, metadata: seq<Source<Metadata>>,
                   name: string -> string, tidy: string -> string, clock: nat -> string,
                   n: nat, n': nat, tracksSeen: nat, metadataSeen: nat)
    requires Walked(tracks, ByTrack(name), clock, v, 0, between, n, tracksSeen)
    requires Walked(metadata, ByMetadata(tidy), clock, between, n, v', n', metadataSeen)
    ensures v' == ExecutedAll(v, BackfillCommands(tracks, metadata, name, tidy), clock, 0)
    ensures tracksSeen == Countable(tracks, FirstSeen(tracks), |tracks|)
    ensures metadataSeen == Countable(metadata, FirstSeen(metadata), |metadata|)
  {
    TracksThenMetadata(v, tracks, metadata, name, tidy, clock);
  }

  lemma WalkStarts<T>(v: Tables, n: nat, table: seq<Source<T>>, first: nat,
                      each: Source<T> -> seq<Command>, clock: nat -> string)
    requires first <= |table|
    ensures UpTo(v, n, table, first, first, each, clock, v, n, 0)
  {
  }

  lemma PagesStep(n: nat, size: int)
    requires size >= 1 && n > 0
    ensures Pages(n, size) == 1 + Pages(n - Min(n, size), size)
  {
  }

  lemma UpToNext<T>(v0: Tables, n0: nat, table: seq<Source<T>>, first: nat, k: nat,
                    each: Source<T> -> seq<Command>, clock: nat -> string, v: Tables, n: nat, counted: nat)
    requires k < |table| && UpTo(v0, n0, table, first, k, each, clock, v, n, counted)
    ensures UpTo(v0, n0, table, first, k + 1, each, clock, ExecutedAll(v, each(table[k]), clock, n), n + |each(table[k])|,
                 counted + if IsComposite(table[k].isrc) then 0 else 1)
  {
    ExecutedInTwo(v0, CommandsOf(table, first, k, each), each(table[k]), clock, n0);
  }

  /** From `v0`, and reading `n0` of the clock, the rows `first` to `k` have been handled once each. */
  ghost predicate UpTo<T>(v0: Tables, n0: nat, table: seq<Source<T>>, first: nat, k: nat,
                          each: Source<T> -> seq<Command>, clock: nat -> string, v: Tables, n: nat, counted: nat)
  {
    first <= k <= |table| && (v, n, counted) == Progress(v0, n0, table, first, k, each, clock)
  }

  /** The vault, the next reading of the clock, and the rows counted. */
  ghost function Progress<T>(v0: Tables, n0: nat, table: seq<Source<T>>, first: nat, k: nat,
                             each: Source<T> -> seq<Command>, clock: nat -> string): (Tables, nat, nat)
    requires first <= k <= |table|
  {
    var cs := CommandsOf(table, first, k, each);
    (ExecutedAll(v0, cs, clock, n0), n0 + |cs|, Countable(table, first, k))
  }
}
