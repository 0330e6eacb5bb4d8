/**
  * The vault's insert-only satellites: music-api/src/vault.rs, `hash_diff`, `link_key`,
  * `latest_diff` and the gate every `load_*` function applies. All satellite tables are one
  * sequence of rows here, told apart by the table in a row's gate key.
  */
module Satellites {
  import opened Wrappers
  import opened Hashing
  import opened LoadDate

  // ---------------------------------------------------------------- what is hashed

  const UNIT: char := '\U{1F}'
  const NUL: char := '\U{0}'

  /** A satellite's descriptive columns, as text; None is a missing value. */
  type Columns = seq<Option<string>>

  function Column(c: Option<string>): string {
    if c.Some? then c.value else [NUL]
  }

  /** The text fed to the hash: every column, each closed by a unit separator. */
  function Preimage(cols: Columns): string {
    if cols == [] then "" else Column(cols[0]) + ([UNIT] + Preimage(cols[1..]))
  }

  function HashDiff(cols: Columns): Digest {
    Sha256(Preimage(cols))
  }

  /** A column that cannot be mistaken for another one. */
  predicate Plain(c: Option<string>) {
    c.Some? ==> UNIT !in c.value && c.value != [NUL]
  }

  predicate AllPlain(cols: Columns) {
    forall c <- cols :: Plain(c)
  }

  /** What stands before the first separator, and what follows it. */
  function Head(text: string): string {
    if text == "" || text[0] == UNIT then "" else [text[0]] + Head(text[1..])
  }

  function Tail(text: string): string {
    if text == "" then "" else if text[0] == UNIT then text[1..] else Tail(text[1..])
  }

  lemma {:induction false} TailIsShorter(text: string)
    requires text != ""
    ensures |Tail(text)| < |text|
  {
    if text[0] != UNIT && text[1..] != "" {
      TailIsShorter(text[1..]);
    }
  }

  function Decoded(text: string): Columns
    decreases |text|
  {
    if text == "" then []
    else
      TailIsShorter(text);
      [if Head(text) == [NUL] then None else Some(Head(text))] + Decoded(Tail(text))
  }

  lemma {:induction false} HeadAndTail(v: string, rest: string)
    requires UNIT !in v
    ensures Head(v + ([UNIT] + rest)) == v
    ensures Tail(v + ([UNIT] + rest)) == rest
  {
    var text := v + ([UNIT] + rest);
    if v == "" {
      assert text == [UNIT] + rest;
    } else {
      assert text[1..] == v[1..] + ([UNIT] + rest);
      HeadAndTail(v[1..], rest);
    }
  }

  lemma {:induction false} PreimageDecodes(cols: Columns)
    requires AllPlain(cols)
    ensures Decoded(Preimage(cols)) == cols
  {
    if cols != [] {
      PreimageDecodes(cols[1..]);
      assert Plain(cols[0]);
      HeadAndTail(Column(cols[0]), Preimage(cols[1..]));
    }
  }

  lemma {:induction false} HeadRejoins(text: string)
    requires text != "" && text[|text| - 1] == UNIT
    ensures text == Head(text) + ([UNIT] + Tail(text))
    ensures Tail(text) != "" ==> Tail(text)[|Tail(text)| - 1] == UNIT
    ensures UNIT !in Head(text)
  {
    if text[0] != UNIT {
      HeadRejoins(text[1..]);
      assert text == [text[0]] + text[1..];
    }
  }

  lemma {:induction false} DecodedIsPlain(text: string)
    requires text != "" ==> text[|text| - 1] == UNIT
    ensures AllPlain(Decoded(text))
    ensures Preimage(Decoded(text)) == text
    decreases |text|
  {
    if text != "" {
      TailIsShorter(text);
      HeadRejoins(text);
      DecodedIsPlain(Tail(text));
    }
  }

  /** Plain columns, however many, hash alike only when they are the same columns. */
  lemma PlainColumnsHashApart(a: Columns, b: Columns)
    requires AllPlain(a) && AllPlain(b)
    ensures HashDiff(a) == HashDiff(b) <==> a == b
  {
    PreimageDecodes(a);
    PreimageDecodes(b);
  }

  lemma {:induction false} PreimageIsClosed(cols: Columns)
    requires cols != []
    ensures Preimage(cols) != "" && Preimage(cols)[|Preimage(cols)| - 1] == UNIT
  {
    if |cols| > 1 {
      PreimageIsClosed(cols[1..]);
    }
  }

  /** A value collides with other plain columns exactly when it holds a separator or is one NUL. */
  lemma CollidesExactlyWhenNotPlain(v: string)
    ensures (exists cols: Columns :: AllPlain(cols) && cols != [Some(v)] && HashDiff(cols) == HashDiff([Some(v)]))
       <==> UNIT in v || v == [NUL]
  {
    var one := [Some(v)];
    if Plain(Some(v)) {
      forall cols: Columns | AllPlain(cols) && HashDiff(cols) == HashDiff(one) ensures cols == one {
        PlainColumnsHashApart(cols, one);
      }
    } else {
      PreimageIsClosed(one);
      DecodedIsPlain(Preimage(one));
      var cols := Decoded(Preimage(one));
      assert one[0] == Some(v);
      assert AllPlain(cols) && cols != one && HashDiff(cols) == HashDiff(one);
    }
  }

  /** Link keys hash the hub keys with a separator between them, none at the end. */
  function LinkText(parts: seq<string>): string {
    if parts == [] then "" else if |parts| == 1 then parts[0]
    else parts[0] + ([UNIT] + LinkText(parts[1..]))
  }

  function Given(parts: seq<string>): Columns {
    if parts == [] then [] else [Some(parts[0])] + Given(parts[1..])
  }

  lemma {:induction false} LinkIsClosedPreimage(parts: seq<string>)
    requires parts != []
    ensures LinkText(parts) + [UNIT] == Preimage(Given(parts))
  {
    if |parts| > 1 {
      LinkIsClosedPreimage(parts[1..]);
      assert LinkText(parts) + [UNIT] == parts[0] + ([UNIT] + (LinkText(parts[1..]) + [UNIT]));
    }
  }

  /** What is hashed, in bytes: each column, or a zero for a missing one, and a 0x1F behind it. */
  lemma {:induction false} PreimageOneMore(cols: Columns, c: Option<string>)
    ensures Preimage([]) == ""
    ensures Preimage(cols + [c]) == Preimage(cols) + (if c.Some? then c.value + "\U{1F}" else "\U{0}\U{1F}")
    decreases |cols|
  {
    if cols == [] {
      assert cols + [c] == [c] && [c][1..] == [];
      assert Preimage([c]) == Column(c) + ([UNIT] + Preimage([]));
    } else {
      assert (cols + [c])[1..] == cols[1..] + [c];
      PreimageOneMore(cols[1..], c);
    }
  }

  /** And for a link: the keys, with a 0x1F between them. */
  lemma {:induction false} LinkTextOneMore(parts: seq<string>, p: string)
    ensures LinkText([p]) == p
    ensures parts != [] ==> LinkText(parts + [p]) == LinkText(parts) + "\U{1F}" + p
    decreases |parts|
  {
    if |parts| > 1 {
      assert (parts + [p])[1..] == parts[1..] + [p];
      LinkTextOneMore(parts[1..], p);
    } else if |parts| == 1 {
      assert (parts + [p])[1..] == [p];
    }
  }

  predicate IsKeyText(p: string) {
    UNIT !in p && p != [NUL]
  }

  lemma {:induction false} GivenIsPlain(parts: seq<string>)
    requires forall i :: 0 <= i < |parts| ==> IsKeyText(parts[i])
    ensures AllPlain(Given(parts))
  {
    if parts != [] {
      GivenIsPlain(parts[1..]);
    }
  }

  lemma {:induction false} GivenIsInjective(a: seq<string>, b: seq<string>)
    requires Given(a) == Given(b)
    ensures a == b
  {
    if a != [] && b != [] {
      assert Given(a)[0] == Given(b)[0] && Given(a)[1..] == Given(a[1..]) && Given(b)[1..] == Given(b[1..]);
      GivenIsInjective(a[1..], b[1..]);
      assert a == [a[0]] + a[1..] && b == [b[0]] + b[1..];
    }
  }

  /** Hub keys are hexadecimal, so free of separators: order and boundaries of a link's keys count. */
  lemma LinkKeysAreApart(a: seq<string>, b: seq<string>)
    requires a != [] && b != []
    requires forall i :: 0 <= i < |a| ==> IsKeyText(a[i])
    requires forall i :: 0 <= i < |b| ==> IsKeyText(b[i])
    ensures Sha256(LinkText(a)) == Sha256(LinkText(b)) <==> a == b
  {
    if LinkText(a) == LinkText(b) {
      LinkIsClosedPreimage(a);
      LinkIsClosedPreimage(b);
      GivenIsPlain(a);
      GivenIsPlain(b);
      PreimageDecodes(Given(a));
      PreimageDecodes(Given(b));
      GivenIsInjective(a, b);
    }
  }

  // ---------------------------------------------------------------- rows and the gate

  datatype Table = TrackMeta | TrackAnalysis | TrackDownload | ArtistExtId | ArtistMeta | AlbumExtId | AlbumMeta

  /** What a load is compared under: the hub key and, for some tables, analyzer or service. */
  datatype Key = Key(table: Table, hub: string, part: string)

  datatype Row = Row(key: Key, loadDate: string, diff: Digest, cols: Columns)

  /** The row with the greatest stamp among a key's rows, as `ORDER BY load_date DESC LIMIT 1`. */
  function Latest(rows: seq<Row>, key: Key): Option<Row> {
    if rows == [] then None
    else
      var row, rest := rows[|rows| - 1], Latest(rows[..|rows| - 1], key);
      if row.key == key && (rest.None? || !Before(row.loadDate, rest.value.loadDate)) then Some(row) else rest
  }

  predicate Taken(rows: seq<Row>, key: Key, loadDate: string) {
    exists r <- rows :: r.key == key && r.loadDate == loadDate
  }

  /** One load: skip if the newest row has the same digest, else insert unless the primary key is taken. */
  function Loaded(rows: seq<Row>, key: Key, cols: Columns, stamp: string): seq<Row> {
    var newest := Latest(rows, key);
    if newest.Some? && newest.value.diff == HashDiff(cols) then rows
    else if Taken(rows, key, stamp) then rows
    else rows + [Row(key, stamp, HashDiff(cols), cols)]
  }

  predicate Changes(rows: seq<Row>, key: Key, cols: Columns) {
    Latest(rows, key).None? || Latest(rows, key).value.diff != HashDiff(cols)
  }

  /**
    * A loader answers that it wrote a row whenever the digest is new. That is wrong exactly when
    * the clock has not moved since the key's row of the same stamp: then the row is dropped.
    */
  lemma AnswerWrongExactlyOnTakenStamp(rows: seq<Row>, key: Key, cols: Columns, stamp: string)
    ensures (Changes(rows, key, cols) <==> |Loaded(rows, key, cols, stamp)| == |rows| + 1)
       <==> !(Changes(rows, key, cols) && Taken(rows, key, stamp))
  {
  }

  // ---------------------------------------------------------------- runs of loads

  datatype Load = Load(key: Key, cols: Columns, stamp: string)

  function LoadedAll(rows: seq<Row>, loads: seq<Load>): seq<Row>
    decreases |loads|
  {
    if loads == [] then rows
    else LoadedAll(Loaded(rows, loads[0].key, loads[0].cols, loads[0].stamp), loads[1..])
  }

  /** Each key's rows stand in the order of their stamps. */
  predicate Sorted(rows: seq<Row>) {
    forall i, j :: 0 <= i < j < |rows| && rows[i].key == rows[j].key ==> Before(rows[i].loadDate, rows[j].loadDate)
  }

  predicate AllBefore(rows: seq<Row>, key: Key, stamp: string) {
    forall i :: 0 <= i < |rows| && rows[i].key == key ==> Before(rows[i].loadDate, stamp)
  }

  /** Every load is stamped later than its key's rows there already and than that key's loads before it. */
  predicate Ticking(rows: seq<Row>, loads: seq<Load>) {
    && (forall i :: 0 <= i < |loads| ==> AllBefore(rows, loads[i].key, loads[i].stamp))
    && (forall i, j :: 0 <= i < j < |loads| && loads[i].key == loads[j].key ==> Before(loads[i].stamp, loads[j].stamp))
  }

  /** The stamps of a real clock, before the year 10000, that has moved on between two loads of one key. */
  ghost predicate TimedBy(loads: seq<Load>, times: seq<nat>) {
    && |times| == |loads|
    && (forall i :: 0 <= i < |times| ==> times[i] < HORIZON && loads[i].stamp == LoadDateAt(times[i]))
    && (forall i, j :: 0 <= i < j < |times| && loads[i].key == loads[j].key ==> times[i] < times[j])
  }

  lemma ClockTicks(loads: seq<Load>, times: seq<nat>)
    requires TimedBy(loads, times)
    ensures Ticking([], loads)
  {
    forall i, j | 0 <= i < j < |loads| && loads[i].key == loads[j].key ensures Before(loads[i].stamp, loads[j].stamp) {
      StampsFollowTime(times[i], times[j]);
    }
  }

  /** The last row written for a key. */
  function LastOf(rows: seq<Row>, key: Key): Option<Row> {
    if rows == [] then None
    else if rows[|rows| - 1].key == key then Some(rows[|rows| - 1])
    else LastOf(rows[..|rows| - 1], key)
  }

  lemma {:induction false} LatestIsARow(rows: seq<Row>, key: Key)
    ensures Latest(rows, key).Some? ==> Latest(rows, key).value in rows && Latest(rows, key).value.key == key
  {
    if rows != [] {
      LatestIsARow(rows[..|rows| - 1], key);
    }
  }

  /** With stamps in order, the greatest stamp is the last row's. */
  lemma {:induction false} LatestIsLast(rows: seq<Row>, key: Key)
    requires Sorted(rows)
    ensures Latest(rows, key) == LastOf(rows, key)
  {
    if rows != [] {
      var n := |rows| - 1;
      LatestIsLast(rows[..n], key);
      LatestIsARow(rows[..n], key);
      var rest := Latest(rows[..n], key);
      if rest.Some? && rows[n].key == key {
        var j :| 0 <= j < n && rows[j] == rest.value;
        BeforeIsStrict(rest.value.loadDate, rows[n].loadDate);
      }
    }
  }

  /** A load on a ticking clock: it appends exactly when the key's last row has another digest. */
  lemma LoadAppendsOnChange(rows: seq<Row>, key: Key, cols: Columns, stamp: string)
    requires Sorted(rows) && AllBefore(rows, key, stamp)
    ensures Loaded(rows, key, cols, stamp)
         == if LastOf(rows, key).Some? && LastOf(rows, key).value.diff == HashDiff(cols) then rows
            else rows + [Row(key, stamp, HashDiff(cols), cols)]
    ensures Sorted(Loaded(rows, key, cols, stamp))
  {
    LatestIsLast(rows, key);
    forall i | 0 <= i < |rows| && rows[i].key == key ensures rows[i].loadDate != stamp {
      BeforeIsStrict(rows[i].loadDate, stamp);
    }
  }

  // ---------------------------------------------------------------- what a run leaves behind

  /** The digests stored for one key, in order of writing. */
  function Stored(rows: seq<Row>, key: Key): seq<Digest> {
    if rows == [] then []
    else Stored(rows[..|rows| - 1], key) + if rows[|rows| - 1].key == key then [rows[|rows| - 1].diff] else []
  }

  /** The digests loaded for one key, in order of loading. */
  function Offered(loads: seq<Load>, key: Key): seq<Digest> {
    if loads == [] then []
    else OfferedBy(loads[0], key) + Offered(loads[1..], key)
  }

  function OfferedBy(load: Load, key: Key): seq<Digest> {
    if load.key == key then [HashDiff(load.cols)] else []
  }

  /** A list and one more element, unless that repeats the last one. */
  function Kept<T(==)>(kept: seq<T>, d: T): seq<T> {
    if kept != [] && kept[|kept| - 1] == d then kept else kept + [d]
  }

  /** A list continued by another, leaving out every element that repeats the one before it. */
  function Squeezed<T(==)>(kept: seq<T>, more: seq<T>): seq<T>
    decreases |more|
  {
    if more == [] then kept else Squeezed(Kept(kept, more[0]), more[1..])
  }

  lemma {:induction false} LastOfIsStoredLast(rows: seq<Row>, key: Key)
    ensures LastOf(rows, key).None? <==> Stored(rows, key) == []
    ensures Stored(rows, key) != [] ==> LastOf(rows, key).value.diff == Stored(rows, key)[|Stored(rows, key)| - 1]
  {
    if rows != [] {
      LastOfIsStoredLast(rows[..|rows| - 1], key);
    }
  }

  lemma StoredOfAppend(rows: seq<Row>, row: Row, key: Key)
    ensures Stored(rows + [row], key) == Stored(rows, key) + if row.key == key then [row.diff] else []
  {
    assert (rows + [row])[..|rows|] == rows;
  }

  lemma SqueezeOne<T>(kept: seq<T>, d: T)
    ensures Squeezed(kept, [d]) == Kept(kept, d)
    ensures Squeezed(kept, []) == kept
  {
    assert [d][1..] == [];
  }

  lemma StoredAfterLoad(rows: seq<Row>, load: Load, key: Key)
    requires Sorted(rows) && AllBefore(rows, load.key, load.stamp)
    ensures Stored(Loaded(rows, load.key, load.cols, load.stamp), key)
         == Squeezed(Stored(rows, key), OfferedBy(load, key))
  {
    LoadAppendsOnChange(rows, load.key, load.cols, load.stamp);
    LastOfIsStoredLast(rows, load.key);
    StoredOfAppend(rows, Row(load.key, load.stamp, HashDiff(load.cols), load.cols), key);
    SqueezeOne(Stored(rows, key), HashDiff(load.cols));
  }

  lemma {:induction false} SqueezeInTwo<T>(kept: seq<T>, more: seq<T>, last: seq<T>)
    ensures Squeezed(kept, more + last) == Squeezed(Squeezed(kept, more), last)
    decreases |more|
  {
    if more == [] {
      assert more + last == last;
    } else {
      assert (more + last)[1..] == more[1..] + last;
      SqueezeInTwo(Kept(kept, more[0]), more[1..], last);
    }
  }

  lemma TickingGoesOn(rows: seq<Row>, loads: seq<Load>)
    requires Sorted(rows) && Ticking(rows, loads) && loads != []
    ensures var next := Loaded(rows, loads[0].key, loads[0].cols, loads[0].stamp);
      Sorted(next) && Ticking(next, loads[1..]) && rows <= next
  {
    LoadAppendsOnChange(rows, loads[0].key, loads[0].cols, loads[0].stamp);
  }

  /**
    * Over any run whose clock moves on between loads of one key, a key's stored rows are its loads with immediate
    * repetitions left out: nothing is lost, rewritten or reordered, and nothing is stored twice.
    */
  lemma {:induction false} RunStoresEachChange(rows: seq<Row>, loads: seq<Load>, key: Key)
    requires Sorted(rows) && Ticking(rows, loads)
    ensures rows <= LoadedAll(rows, loads)
    ensures Stored(LoadedAll(rows, loads), key) == Squeezed(Stored(rows, key), Offered(loads, key))
    decreases |loads|
  {
    if loads != [] {
      var next := Loaded(rows, loads[0].key, loads[0].cols, loads[0].stamp);
      TickingGoesOn(rows, loads);
      RunStoresEachChange(next, loads[1..], key);
      StoredAfterLoad(rows, loads[0], key);
      SqueezeInTwo(Stored(rows, key), OfferedBy(loads[0], key), Offered(loads[1..], key));
    }
  }

  // ---------------------------------------------------------------- a clock that may stand still

  /** The stamp is not earlier than any of the key's rows. */
  predicate NotBehind(rows: seq<Row>, key: Key, stamp: string) {
    forall i :: 0 <= i < |rows| && rows[i].key == key ==> !Before(stamp, rows[i].loadDate)
  }

  /** For each key the clock never goes back. */
  predicate NeverBack(rows: seq<Row>, loads: seq<Load>) {
    && (forall i :: 0 <= i < |loads| ==> NotBehind(rows, loads[i].key, loads[i].stamp))
    && (forall i, j :: 0 <= i < j < |loads| && loads[i].key == loads[j].key ==> !Before(loads[j].stamp, loads[i].stamp))
  }

  /** A load that changes its key's value at a stamp the key's newest row already has. */
  predicate Drops(rows: seq<Row>, load: Load) {
    Changes(rows, load.key, load.cols) && Taken(rows, load.key, load.stamp)
  }

  function LoadedBy(rows: seq<Row>, load: Load): seq<Row> {
    Loaded(rows, load.key, load.cols, load.stamp)
  }

  lemma FreeStampIsLater(rows: seq<Row>, key: Key, stamp: string)
    requires NotBehind(rows, key, stamp) && !Taken(rows, key, stamp)
    ensures AllBefore(rows, key, stamp)
  {
    forall i | 0 <= i < |rows| && rows[i].key == key ensures Before(rows[i].loadDate, stamp) {
      assert rows[i] in rows;
      BeforeIsTotal(rows[i].loadDate, stamp);
    }
  }

  lemma LoadKeepsSorted(rows: seq<Row>, load: Load)
    requires Sorted(rows) && NotBehind(rows, load.key, load.stamp)
    ensures Sorted(LoadedBy(rows, load))
  {
    if LoadedBy(rows, load) != rows {
      FreeStampIsLater(rows, load.key, load.stamp);
    }
  }

  lemma NeverBackGoesOn(rows: seq<Row>, loads: seq<Load>)
    requires Sorted(rows) && NeverBack(rows, loads) && loads != []
    ensures Sorted(LoadedBy(rows, loads[0])) && NeverBack(LoadedBy(rows, loads[0]), loads[1..])
  {
    var next := LoadedBy(rows, loads[0]);
    LoadKeepsSorted(rows, loads[0]);
    forall i | 0 <= i < |loads[1..]| ensures NotBehind(next, loads[1..][i].key, loads[1..][i].stamp) {
      assert NotBehind(rows, loads[i + 1].key, loads[i + 1].stamp);
    }
  }

  /** One load: a key's rows are then what they should be, for every key, exactly if it is not dropped. */
  lemma StoresUnlessDropped(rows: seq<Row>, load: Load, key: Key)
    requires Sorted(rows) && NotBehind(rows, load.key, load.stamp)
    ensures Drops(rows, load) ==> LoadedBy(rows, load) == rows
    ensures Stored(LoadedBy(rows, load), key) == Squeezed(Stored(rows, key), OfferedBy(load, key))
       <==> !(load.key == key && Drops(rows, load))
  {
    LatestIsLast(rows, load.key);
    LastOfIsStoredLast(rows, load.key);
    StoredOfAppend(rows, Row(load.key, load.stamp, HashDiff(load.cols), load.cols), key);
    if Drops(rows, load) && load.key == key {
      DroppedIsMissing(Stored(rows, key), HashDiff(load.cols));
    }
  }

  lemma DroppedIsMissing<T>(kept: seq<T>, d: T)
    requires kept == [] || kept[|kept| - 1] != d
    ensures Squeezed(kept, [d]) == kept + [d] != kept
  {
    SqueezeOne(kept, d);
  }

  lemma {:induction false} LoadedOneMore(rows: seq<Row>, loads: seq<Load>, load: Load)
    ensures LoadedAll(rows, loads + [load]) == LoadedBy(LoadedAll(rows, loads), load)
    decreases |loads|
  {
    if loads == [] {
      assert loads + [load] == [load] && [load][1..] == [];
    } else {
      assert (loads + [load])[1..] == loads[1..] + [load];
      LoadedOneMore(LoadedBy(rows, loads[0]), loads[1..], load);
    }
  }

  lemma {:induction false} OfferedOneMore(loads: seq<Load>, load: Load, key: Key)
    ensures Offered(loads + [load], key) == Offered(loads, key) + OfferedBy(load, key)
    decreases |loads|
  {
    if loads == [] {
      assert loads + [load] == [load] && [load][1..] == [];
    } else {
      assert (loads + [load])[1..] == loads[1..] + [load];
      OfferedOneMore(loads[1..], load, key);
    }
  }

  /** What is there after the first `n` loads. */
  function RowsAt(rows: seq<Row>, loads: seq<Load>, n: nat): seq<Row>
    requires n <= |loads|
  {
    LoadedAll(rows, loads[..n])
  }

  lemma {:induction false} SortedAt(rows: seq<Row>, loads: seq<Load>, n: nat)
    requires Sorted(rows) && NeverBack(rows, loads) && n <= |loads|
    ensures Sorted(RowsAt(rows, loads, n))
    ensures n < |loads| ==> NotBehind(RowsAt(rows, loads, n), loads[n].key, loads[n].stamp)
    decreases n
  {
    if n > 0 {
      var next := LoadedBy(rows, loads[0]);
      NeverBackGoesOn(rows, loads);
      SortedAt(next, loads[1..], n - 1);
      assert loads[..n][1..] == loads[1..][..n - 1];
      assert RowsAt(rows, loads, n) == RowsAt(next, loads[1..], n - 1);
    }
  }

  /** After the first `n` loads the key's rows are its loads with immediate repetitions left out. */
  ghost predicate StoresAt(rows: seq<Row>, loads: seq<Load>, n: nat, key: Key)
    requires n <= |loads|
  {
    Stored(RowsAt(rows, loads, n), key) == Squeezed(Stored(rows, key), Offered(loads[..n], key))
  }

  ghost predicate DropsAt(rows: seq<Row>, loads: seq<Load>, n: nat)
    requires n < |loads|
  {
    Drops(RowsAt(rows, loads, n), loads[n])
  }

  lemma StoresNext(rows: seq<Row>, loads: seq<Load>, n: nat, key: Key)
    requires Sorted(rows) && NeverBack(rows, loads) && n < |loads| && StoresAt(rows, loads, n, key)
    ensures StoresAt(rows, loads, n + 1, key) <==> !(loads[n].key == key && DropsAt(rows, loads, n))
  {
    var before, load := loads[..n], loads[n];
    assert loads[..n + 1] == before + [load];
    SortedAt(rows, loads, n);
    LoadedOneMore(rows, before, load);
    OfferedOneMore(before, load, key);
    SqueezeInTwo(Stored(rows, key), Offered(before, key), OfferedBy(load, key));
    StoresUnlessDropped(RowsAt(rows, loads, n), load, key);
  }

  lemma {:induction false} StoresUntil(rows: seq<Row>, loads: seq<Load>, n: nat, key: Key)
    requires Sorted(rows) && NeverBack(rows, loads) && n <= |loads|
    requires forall m: nat :: m < |loads| ==> !DropsAt(rows, loads, m)
    ensures StoresAt(rows, loads, n, key)
    decreases n
  {
    if n > 0 {
      StoresUntil(rows, loads, n - 1, key);
      StoresNext(rows, loads, n - 1, key);
    }
  }

  /**
    * Over any run whose clock never goes back for a key: each key's rows are at every point its
    * loads so far with immediate repetitions left out, exactly if no load changes a value at a
    * stamp taken already. Those are the loads whose answer "written" is wrong.
    */
  lemma RunStoresEachChangeExactly(rows: seq<Row>, loads: seq<Load>)
    requires Sorted(rows) && NeverBack(rows, loads)
    ensures (forall n: nat, key :: n <= |loads| ==> StoresAt(rows, loads, n, key))
       <==> (forall n: nat :: n < |loads| ==> !DropsAt(rows, loads, n))
  {
    if forall n: nat :: n < |loads| ==> !DropsAt(rows, loads, n) {
      forall n: nat, key | n <= |loads| ensures StoresAt(rows, loads, n, key) {
        StoresUntil(rows, loads, n, key);
      }
    }
    if forall n: nat, key :: n <= |loads| ==> StoresAt(rows, loads, n, key) {
      forall n: nat | n < |loads| ensures !DropsAt(rows, loads, n) {
        assert StoresAt(rows, loads, n, loads[n].key) && StoresAt(rows, loads, n + 1, loads[n].key);
        StoresNext(rows, loads, n, loads[n].key);
      }
    }
  }

  /** Exactly such a load is answered "written" and writes nothing, whatever the clock. */
  lemma AnswersWronglyExactly(rows: seq<Row>, loads: seq<Load>, n: nat)
    requires n < |loads|
    ensures Changes(RowsAt(rows, loads, n), loads[n].key, loads[n].cols) && RowsAt(rows, loads, n + 1) == RowsAt(rows, loads, n)
       <==> DropsAt(rows, loads, n)
  {
    assert loads[..n + 1] == loads[..n] + [loads[n]];
    LoadedOneMore(rows, loads[..n], loads[n]);
  }

  // ---------------------------------------------------------------- neighbours differ

  predicate NoRepeats<T(==)>(s: seq<T>) {
    forall i :: 0 < i < |s| ==> s[i - 1] != s[i]
  }

  lemma {:induction false} SqueezedHasNoRepeats<T>(kept: seq<T>, more: seq<T>)
    requires NoRepeats(kept)
    ensures NoRepeats(Squeezed(kept, more))
    decreases |more|
  {
    if more != [] {
      SqueezedHasNoRepeats(Kept(kept, more[0]), more[1..]);
    }
  }

  lemma {:induction false} SqueezedEndsWith<T>(kept: seq<T>, more: seq<T>)
    requires more != []
    ensures Squeezed(kept, more) != []
    ensures Squeezed(kept, more)[|Squeezed(kept, more)| - 1] == more[|more| - 1]
    decreases |more|
  {
    if |more| > 1 {
      SqueezedEndsWith(Kept(kept, more[0]), more[1..]);
    }
  }

  /** With real stamps, from an empty table: every change of a key is stored, once and in order. */
  lemma RealClockStoresEachChange(loads: seq<Load>, times: seq<nat>, key: Key)
    requires TimedBy(loads, times)
    ensures Stored(LoadedAll([], loads), key) == Squeezed([], Offered(loads, key))
  {
    ClockTicks(loads, times);
    RunStoresEachChange([], loads, key);
  }

  /** A clock that stands still between two loads: both are answered "written", and one row is there. */
  lemma StandingClockDropsARow(key: Key, cols: Columns, cols': Columns, stamp: string)
    requires HashDiff(cols) != HashDiff(cols')
    ensures var first := Loaded([], key, cols, stamp);
      && Changes([], key, cols) && Changes(first, key, cols')
      && LoadedAll([], [Load(key, cols, stamp), Load(key, cols', stamp)]) == first && |first| == 1
  {
    var row := Row(key, stamp, HashDiff(cols), cols);
    var loads := [Load(key, cols, stamp), Load(key, cols', stamp)];
    assert Loaded([], key, cols, stamp) == [row];
    assert [row][..0] == [];
    assert Latest([row], key) == Some(row);
    assert Taken([row], key, stamp);
    assert Loaded([row], key, cols', stamp) == [row];
    var last := loads[1..];
    assert last == [Load(key, cols', stamp)] && last[1..] == [];
    assert LoadedAll([row], last) == LoadedAll(Loaded([row], key, cols', stamp), last[1..]);
    assert LoadedAll([], loads) == LoadedAll([row], last);
  }

  /** From an empty table: neighbouring rows differ, and the last row is the last load. */
  lemma StoredRowsDiffer(loads: seq<Load>, key: Key)
    requires Ticking([], loads)
    ensures NoRepeats(Stored(LoadedAll([], loads), key))
    ensures var stored, offered := Stored(LoadedAll([], loads), key), Offered(loads, key);
      offered != [] ==> stored != [] && stored[|stored| - 1] == offered[|offered| - 1]
  {
    RunStoresEachChange([], loads, key);
    SqueezedHasNoRepeats([], Offered(loads, key));
    if Offered(loads, key) != [] {
      SqueezedEndsWith([], Offered(loads, key));
    }
  }

  // ---------------------------------------------------------------- loading again

  predicate AllSame<T(==)>(s: seq<T>) {
    forall d <- s :: d == s[0]
  }

  lemma {:induction false} SqueezeGrows<T>(kept: seq<T>, more: seq<T>)
    ensures kept <= Squeezed(kept, more)
    ensures Squeezed(kept, more) == kept <==> more == [] || (kept != [] && forall d <- more :: d == kept[|kept| - 1])
    decreases |more|
  {
    if more != [] {
      SqueezeGrows(Kept(kept, more[0]), more[1..]);
      assert more == [more[0]] + more[1..];
      if kept == [] || more[0] != kept[|kept| - 1] {
        assert |Squeezed(kept, more)| > |kept|;
        assert more[0] in more;
      } else {
        assert forall d <- more :: d == more[0] || d in more[1..];
        assert forall d <- more[1..] :: d in more;
      }
    }
  }

  /** Squeezing the same list in twice adds nothing the second time exactly when it is constant. */
  lemma SqueezeTwice<T>(kept: seq<T>, more: seq<T>)
    ensures Squeezed(Squeezed(kept, more), more) == Squeezed(kept, more) <==> AllSame(more)
  {
    SqueezeGrows(Squeezed(kept, more), more);
    if more != [] {
      SqueezedEndsWith(kept, more);
      assert more[0] in more && more[|more| - 1] in more;
    }
  }

  /** The same values under the same keys, in the same order; stamps may differ. */
  predicate SameLoads(a: seq<Load>, b: seq<Load>) {
    |a| == |b| && forall i :: 0 <= i < |a| ==> a[i].key == b[i].key && a[i].cols == b[i].cols
  }

  lemma {:induction false} SameLoadsOfferTheSame(a: seq<Load>, b: seq<Load>, key: Key)
    requires SameLoads(a, b)
    ensures Offered(a, key) == Offered(b, key)
  {
    if a != [] {
      SameLoadsOfferTheSame(a[1..], b[1..], key);
    }
  }

  /** A later row shows in what is stored for its key. */
  lemma {:induction false} StoredTellsGrowth(rows: seq<Row>, more: seq<Row>, key: Key)
    ensures |Stored(rows + more, key)| >= |Stored(rows, key)|
    ensures more != [] && more[0].key == key ==> |Stored(rows + more, key)| > |Stored(rows, key)|
    decreases |more|
  {
    if more == [] {
      assert rows + more == rows;
    } else {
      assert rows + more == (rows + [more[0]]) + more[1..];
      StoredTellsGrowth(rows + [more[0]], more[1..], key);
      StoredOfAppend(rows, more[0], key);
    }
  }

  lemma {:induction false} OfferedAre(loads: seq<Load>, key: Key, d: Digest)
    ensures d in Offered(loads, key) <==> exists i :: 0 <= i < |loads| && loads[i].key == key && HashDiff(loads[i].cols) == d
  {
    if loads != [] {
      OfferedAre(loads[1..], key, d);
      if i :| 0 <= i < |loads| && loads[i].key == key && HashDiff(loads[i].cols) == d {
        assert i > 0 ==> loads[1..][i - 1] == loads[i];
      }
      if d in Offered(loads[1..], key) {
        var i :| 0 <= i < |loads[1..]| && loads[1..][i].key == key && HashDiff(loads[1..][i].cols) == d;
        assert loads[i + 1].key == key;
      }
    }
  }

  ghost predicate AgreesOn(loads: seq<Load>, key: Key) {
    forall i, j :: 0 <= i < |loads| && 0 <= j < |loads| && loads[i].key == loads[j].key == key
      ==> HashDiff(loads[i].cols) == HashDiff(loads[j].cols)
  }

  lemma AgreesOnIsAllSame(loads: seq<Load>, key: Key)
    ensures AgreesOn(loads, key) <==> AllSame(Offered(loads, key))
  {
    var offered := Offered(loads, key);
    if AgreesOn(loads, key) {
      forall d | d in offered ensures d == offered[0] {
        OfferedAre(loads, key, d);
        OfferedAre(loads, key, offered[0]);
      }
    }
    if AllSame(offered) {
      forall i, j | 0 <= i < |loads| && 0 <= j < |loads| && loads[i].key == loads[j].key == key
        ensures HashDiff(loads[i].cols) == HashDiff(loads[j].cols)
      {
        OfferedAre(loads, key, HashDiff(loads[i].cols));
        OfferedAre(loads, key, HashDiff(loads[j].cols));
      }
    }
  }

  lemma {:induction false} LoadedInTwo(rows: seq<Row>, a: seq<Load>, b: seq<Load>)
    requires Sorted(rows) && Ticking(rows, a + b)
    ensures Sorted(LoadedAll(rows, a)) && Ticking(LoadedAll(rows, a), b)
    ensures LoadedAll(rows, a + b) == LoadedAll(LoadedAll(rows, a), b)
    decreases |a|
  {
    if a == [] {
      assert a + b == b;
    } else {
      assert (a + b)[0] == a[0] && (a + b)[1..] == a[1..] + b;
      TickingGoesOn(rows, a + b);
      LoadedInTwo(Loaded(rows, a[0].key, a[0].cols, a[0].stamp), a[1..], b);
    }
  }

  lemma SecondPassPerKey(rows: seq<Row>, first: seq<Load>, second: seq<Load>, key: Key)
    requires Sorted(rows) && Ticking(rows, first) && SameLoads(first, second)
    requires Sorted(LoadedAll(rows, first)) && Ticking(LoadedAll(rows, first), second)
    ensures Stored(LoadedAll(LoadedAll(rows, first), second), key) == Stored(LoadedAll(rows, first), key)
       <==> AgreesOn(first, key)
  {
    RunStoresEachChange(rows, first, key);
    RunStoresEachChange(LoadedAll(rows, first), second, key);
    SameLoadsOfferTheSame(first, second, key);
    SqueezeTwice(Stored(rows, key), Offered(first, key));
    AgreesOnIsAllSame(first, key);
  }

  lemma TickingFirst(rows: seq<Row>, first: seq<Load>, second: seq<Load>)
    requires Ticking(rows, first + second)
    ensures Ticking(rows, first)
  {
    assert forall i :: 0 <= i < |first| ==> (first + second)[i] == first[i];
  }

  /** Loading everything a second time, later, writes no row exactly when no two loads disagree. */
  lemma SecondPassAddsNothing(rows: seq<Row>, first: seq<Load>, second: seq<Load>)
    requires Sorted(rows) && Ticking(rows, first + second) && SameLoads(first, second)
    ensures LoadedAll(LoadedAll(rows, first), second) == LoadedAll(rows, first)
       <==> forall key :: AgreesOn(first, key)
  {
    var once := LoadedAll(rows, first);
    var twice := LoadedAll(once, second);
    TickingFirst(rows, first, second);
    LoadedInTwo(rows, first, second);
    if twice == once {
      forall key ensures AgreesOn(first, key) {
        SecondPassPerKey(rows, first, second, key);
      }
    } else {
      var key := GrownKey(once, second);
      SecondPassPerKey(rows, first, second, key);
    }
  }

  lemma GrownKey(once: seq<Row>, second: seq<Load>) returns (key: Key)
    requires Sorted(once) && Ticking(once, second) && LoadedAll(once, second) != once
    ensures Stored(LoadedAll(once, second), key) != Stored(once, key)
  {
    RunStoresEachChange(once, second, Key(TrackMeta, "", ""));
    var more := LoadedAll(once, second)[|once|..];
    assert LoadedAll(once, second) == once + more;
    key := more[0].key;
    StoredTellsGrowth(once, more, key);
  }
}
