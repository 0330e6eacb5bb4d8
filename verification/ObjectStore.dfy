/**
  * The content-addressed store, one call at a time: music-api/src/store.rs, `put`,
  * `delete_object` and `prune_orphans`. An object is a file under its digest and a row.
  */
module ObjectStore {
  import opened Hashing

  /** Clock readings count nanoseconds; rows keep whole seconds. */
  const SECOND: nat := 1_000_000_000

  datatype File = File(content: string, mtime: nat)

  datatype Entry = Entry(size: int, createdAt: int)

  datatype Objects = Objects(files: map<Digest, File>, rows: map<Digest, Entry>)

  /** A file at a key holds the bytes the key was computed from. */
  predicate Intact(o: Objects) {
    forall h :: h in o.files ==> Sha256(o.files[h].content) == h
  }

  // ---------------------------------------------------------------- half objects

  const U64: nat := 0x1_0000_0000_0000_0000

  /** The unsigned grace period as the signed number the row side compares with. */
  function AsI64(n: nat): int
    requires n < U64
  {
    if n < U64 / 2 then n else n - U64
  }

  /** A file stamped later than now counts as young. */
  predicate FileIsOld(f: File, now: nat, minAge: nat) {
    f.mtime <= now && now - f.mtime >= minAge * SECOND
  }

  predicate RowIsOld(r: Entry, nowSecs: nat, grace: int) {
    nowSecs - r.createdAt >= grace
  }

  /** The bytes a row says its object has, none for a negative size. */
  function RowBytes(r: Entry): nat {
    if r.size > 0 then r.size else 0
  }

  function OrphanFiles(o: Objects, now: nat, minAge: nat): set<Digest> {
    OrphanFileSizes(o, now, minAge).Keys
  }

  function OrphanRows(o: Objects, now: nat, minAge: nat): set<Digest>
    requires minAge < U64
  {
    OrphanRowSizes(o, now, minAge).Keys
  }

  /** What reconciling has to leave: everything but the old half-objects. */
  function Pruned(o: Objects, now: nat, minAge: nat): Objects
    requires minAge < U64
  {
    Objects(o.files - OrphanFiles(o, now, minAge), o.rows - OrphanRows(o, now, minAge))
  }

  ghost function Sum(sizes: map<Digest, nat>): nat {
    if sizes == map[] then 0
    else
      var h :| h in sizes;
      sizes[h] + Sum(sizes - {h})
  }

  lemma {:induction false} SumTakesAny(sizes: map<Digest, nat>, h: Digest)
    requires h in sizes
    ensures Sum(sizes) == sizes[h] + Sum(sizes - {h})
  {
    var k :| k in sizes && Sum(sizes) == sizes[k] + Sum(sizes - {k});
    if k != h {
      SumTakesAny(sizes - {k}, h);
      SumTakesAny(sizes - {h}, k);
      assert sizes - {k} - {h} == sizes - {h} - {k};
    }
  }

  /** The old half-objects with the bytes each would free. */
  function OrphanFileSizes(o: Objects, now: nat, minAge: nat): map<Digest, nat> {
    map h | h in o.files && h !in o.rows && FileIsOld(o.files[h], now, minAge) :: |o.files[h].content|
  }

  function OrphanRowSizes(o: Objects, now: nat, minAge: nat): map<Digest, nat>
    requires minAge < U64
  {
    map h | h in o.rows && h !in o.files && RowIsOld(o.rows[h], now / SECOND, AsI64(minAge)) :: RowBytes(o.rows[h])
  }

  /** How far a sweep over a table has come: the `orphans` no longer in `left` are dealt with and counted. */
  ghost predicate Swept<T>(table: map<Digest, T>, orphans: map<Digest, nat>, left: set<Digest>,
                           dry: bool, table': map<Digest, T>, removed: nat, freed: nat)
  {
    && left <= table.Keys
    && table' == (if dry then table else table - (orphans.Keys - left))
    && removed == |orphans.Keys - left|
    && freed == Sum(orphans - left)
  }

  lemma SweepStarts<T>(table: map<Digest, T>, orphans: map<Digest, nat>, dry: bool)
    requires orphans.Keys <= table.Keys
    ensures Swept(table, orphans, table.Keys, dry, table, 0, 0)
  {
    assert orphans.Keys - table.Keys == {};
    assert orphans - table.Keys == map[];
  }

  lemma SweepOne<T>(table: map<Digest, T>, orphans: map<Digest, nat>, left: set<Digest>,
                    dry: bool, table': map<Digest, T>, removed: nat, freed: nat, h: Digest)
    requires Swept(table, orphans, left, dry, table', removed, freed) && h in left
    ensures h in table' && table'[h] == table[h]
    ensures h !in orphans ==> Swept(table, orphans, left - {h}, dry, table', removed, freed)
    ensures h in orphans ==> Swept(table, orphans, left - {h}, dry, if dry then table' else table' - {h},
                                   removed + 1, freed + orphans[h])
  {
    OneLessLeft(orphans, left, h);
    RemoveOneMore(table, orphans.Keys - left, h);
  }

  lemma OneLessLeft(orphans: map<Digest, nat>, left: set<Digest>, h: Digest)
    requires h in left
    ensures orphans.Keys - (left - {h}) == orphans.Keys - left + if h in orphans then {h} else {}
    ensures Sum(orphans - (left - {h})) == Sum(orphans - left) + if h in orphans then orphans[h] else 0
  {
    var less := left - {h};
    if h in orphans {
      SumTakesAny(orphans - less, h);
      assert orphans - less - {h} == orphans - left;
    } else {
      assert orphans - less == orphans - left;
    }
  }

  lemma RemoveOneMore<T>(m: map<Digest, T>, gone: set<Digest>, h: Digest)
    ensures m - gone - {h} == m - (gone + {h})
  {
  }

  lemma SweepEnds<T>(table: map<Digest, T>, orphans: map<Digest, nat>,
                     dry: bool, table': map<Digest, T>, removed: nat, freed: nat)
    requires Swept(table, orphans, {}, dry, table', removed, freed)
    ensures table' == (if dry then table else table - orphans.Keys)
    ensures removed == |orphans| && freed == Sum(orphans)
  {
    var none: set<Digest> := {};
    assert orphans - none == orphans;
    assert orphans.Keys - none == orphans.Keys;
    SizeOfKeys(orphans);
  }

  lemma {:induction false} SizeOfKeys(m: map<Digest, nat>)
    ensures |m.Keys| == |m|
    decreases |m|
  {
    if m != map[] {
      var h :| h in m;
      SizeOfKeys(m - {h});
      assert (m - {h}).Keys == m.Keys - {h};
    }
  }

  // ---------------------------------------------------------------- the store

  datatype Answer = Created | Present | BadRequest | TooLarge

  class Store {
    var files: map<Digest, File>
    var rows: map<Digest, Entry>

    constructor ()
      ensures State() == Objects(map[], map[])
    {
      files, rows := map[], map[];
    }

    function State(): Objects
      reads this
    {
      Objects(files, rows)
    }

    /** The row is ensured, but an existing one keeps the time it was made. */
    method EnsureRow(key: Digest, size: nat, now: nat)
      modifies this`rows
      ensures rows == if key in old(rows) then old(rows) else old(rows)[key := Entry(size, now / SECOND)]
    {
      if key !in rows {
        rows := rows[key := Entry(size, now / SECOND)];
      }
    }

    /** An upload nobody interferes with: all or nothing, never under a wrong key, never rewriting. */
    method Put(key: Digest, body: string, maxBytes: nat, now: nat) returns (answer: Answer)
      modifies this
      ensures Intact(old(State())) ==> Intact(State())
      ensures answer == Present <==> key in old(files)
      ensures answer == TooLarge <==> key !in old(files) && |body| > maxBytes
      ensures answer == Created <==> key !in old(files) && |body| <= maxBytes && Sha256(body) == key
      ensures files == if answer == Created then old(files)[key := File(body, now)] else old(files)
      ensures answer == Created || answer == Present ==> key in files && key in rows
      ensures rows == if key in old(rows) || answer == BadRequest || answer == TooLarge then old(rows)
                      else old(rows)[key := Entry(|files[key].content|, now / SECOND)]
    {
      if key in files {
        EnsureRow(key, |files[key].content|, now);
        return Present;
      }
      if |body| > maxBytes {
        return TooLarge;
      }
      if Sha256(body) != key {
        return BadRequest;
      }
      EnsureRow(key, |body|, now);
      files := files[key := File(body, now)];
      return Created;
    }

    method DeleteObject(key: Digest) returns (removed: bool)
      modifies this
      ensures State() == Objects(old(files) - {key}, old(rows) - {key})
      ensures removed <==> key in old(files) || key in old(rows)
    {
      removed := key in files || key in rows;
      files := files - {key};
      rows := rows - {key};
    }

    /**
      * Reconciling removes exactly the old half-objects, and counts them and their bytes; a dry
      * run counts the same and touches nothing. Directory and row order do not matter.
      */
    method PruneOrphans(dry: bool, minAge: nat, now: nat) returns (filesRemoved: nat, rowsRemoved: nat, freed: nat)
      requires minAge < U64
      modifies this
      ensures State() == if dry then old(State()) else Pruned(old(State()), now, minAge)
      ensures filesRemoved == |OrphanFileSizes(old(State()), now, minAge)|
      ensures rowsRemoved == |OrphanRowSizes(old(State()), now, minAge)|
      ensures freed == Sum(OrphanFileSizes(old(State()), now, minAge)) + Sum(OrphanRowSizes(old(State()), now, minAge))
    {
      ghost var orphanFiles := OrphanFileSizes(State(), now, minAge);
      ghost var orphanRows := OrphanRowSizes(State(), now, minAge);
      var bytes;
      filesRemoved, bytes := PruneFiles(dry, rows, minAge, now, orphanFiles);
      rowsRemoved, freed := PruneRows(dry, files, AsI64(minAge), now / SECOND, orphanRows);
      freed := freed + bytes;
    }

    /** Part (a): object files without a row. */
    method PruneFiles(dry: bool, known: map<Digest, Entry>, minAge: nat, now: nat, ghost orphans: map<Digest, nat>)
      returns (removed: nat, freed: nat)
      requires orphans.Keys <= files.Keys
      requires forall h :: h in files ==> (h in orphans <==> h !in known && FileIsOld(files[h], now, minAge))
      requires forall h :: h in orphans ==> orphans[h] == |files[h].content|
      modifies this`files
      ensures files == if dry then old(files) else old(files) - orphans.Keys
      ensures removed == |orphans| && freed == Sum(orphans)
    {
      var left := files.Keys;
      removed, freed := 0, 0;
      SweepStarts(files, orphans, dry);
      while left != {}
        invariant Swept(old(files), orphans, left, dry, files, removed, freed)
        decreases |left|
      {
        var h :| h in left;
        SweepOne(old(files), orphans, left, dry, files, removed, freed, h);
        left := left - {h};
        if h !in known && FileIsOld(files[h], now, minAge) {
          removed, freed := removed + 1, freed + |files[h].content|;
          if !dry {
            files := files - {h};
          }
        }
      }
      SweepEnds(old(files), orphans, dry, files, removed, freed);
    }

    /** Part (b): rows without a file. */
    method PruneRows(dry: bool, present: map<Digest, File>, grace: int, nowSecs: nat, ghost orphans: map<Digest, nat>)
      returns (removed: nat, freed: nat)
      requires orphans.Keys <= rows.Keys
      requires forall h :: h in rows ==> (h in orphans <==> h !in present && RowIsOld(rows[h], nowSecs, grace))
      requires forall h :: h in orphans ==> orphans[h] == RowBytes(rows[h])
      modifies this`rows
      ensures rows == if dry then old(rows) else old(rows) - orphans.Keys
      ensures removed == |orphans| && freed == Sum(orphans)
    {
      var left := rows.Keys;
      removed, freed := 0, 0;
      SweepStarts(rows, orphans, dry);
      while left != {}
        invariant Swept(old(rows), orphans, left, dry, rows, removed, freed)
        decreases |left|
      {
        var h :| h in left;
        SweepOne(old(rows), orphans, left, dry, rows, removed, freed, h);
        left := left - {h};
        if h !in present && RowIsOld(rows[h], nowSecs, grace) {
          removed, freed := removed + 1, freed + RowBytes(rows[h]);
          if !dry {
            rows := rows - {h};
          }
        }
      }
      SweepEnds(old(rows), orphans, dry, rows, removed, freed);
    }
  }

  // ---------------------------------------------------------------- what reconciling leaves

  /** Repeating it at the same instant finds nothing, so a dry run after it counts nothing. */
  lemma PrunedHasNoOldOrphans(o: Objects, now: nat, minAge: nat)
    requires minAge < U64
    ensures OrphanFiles(Pruned(o, now, minAge), now, minAge) == {}
    ensures OrphanRows(Pruned(o, now, minAge), now, minAge) == {}
    ensures Pruned(Pruned(o, now, minAge), now, minAge) == Pruned(o, now, minAge)
  {
    var p := Pruned(o, now, minAge);
    assert OrphanFiles(p, now, minAge) == {};
    assert OrphanRows(p, now, minAge) == {};
  }

  /** A whole object survives; so does a young file, and, below 2^63 seconds of grace, a young row. */
  lemma PrunedKeepsTheRest(o: Objects, now: nat, minAge: nat, h: Digest)
    requires minAge < U64
    ensures h in o.files && h in o.rows ==> h in Pruned(o, now, minAge).files && h in Pruned(o, now, minAge).rows
    ensures h in o.files && (now < o.files[h].mtime || now - o.files[h].mtime < minAge * SECOND)
            ==> h in Pruned(o, now, minAge).files
    ensures minAge < U64 / 2 && h in o.rows && now / SECOND - o.rows[h].createdAt < minAge
            ==> h in Pruned(o, now, minAge).rows
    ensures Intact(o) ==> Intact(Pruned(o, now, minAge))
  {
  }

  /** The age, in seconds, that a row needs to be pruned: beyond 2^63 the grace period turns negative. */
  function RowGrace(minAge: nat): int {
    if minAge < 0x8000_0000_0000_0000 then minAge else minAge - 0x1_0000_0000_0000_0000
  }

  /** A file stays exactly with a row or while it is young, a row with a file or while young. */
  lemma PrunedExactly(o: Objects, now: nat, minAge: nat)
    requires minAge < 0x1_0000_0000_0000_0000
    ensures var p := Pruned(o, now, minAge);
      && (forall h <- o.files :: h in p.files <==>
            (h in o.rows || now < o.files[h].mtime || now - o.files[h].mtime < minAge * 1_000_000_000))
      && (forall h <- o.rows :: h in p.rows <==>
            (h in o.files || now / 1_000_000_000 - o.rows[h].createdAt < RowGrace(minAge)))
      && p.files.Keys <= o.files.Keys && p.rows.Keys <= o.rows.Keys
      && (forall h <- p.files :: p.files[h] == o.files[h])
      && (forall h <- p.rows :: p.rows[h] == o.rows[h])
  {
  }

  /** What is counted is what goes; a file frees its bytes, a row the size it states, if that is positive. */
  lemma CountedExactly(o: Objects, now: nat, minAge: nat)
    requires minAge < 0x1_0000_0000_0000_0000
    ensures var p := Pruned(o, now, minAge);
      && OrphanFiles(o, now, minAge) == o.files.Keys - p.files.Keys
      && OrphanRows(o, now, minAge) == o.rows.Keys - p.rows.Keys
      && (forall h <- OrphanFiles(o, now, minAge) :: OrphanFileSizes(o, now, minAge)[h] == |o.files[h].content|)
      && (forall h <- OrphanRows(o, now, minAge) ::
            OrphanRowSizes(o, now, minAge)[h] == (if o.rows[h].size < 0 then 0 else o.rows[h].size))
      && |OrphanFileSizes(o, now, minAge)| == |o.files.Keys - p.files.Keys|
      && |OrphanRowSizes(o, now, minAge)| == |o.rows.Keys - p.rows.Keys|
  {
    var p := Pruned(o, now, minAge);
    SizeOfKeys(OrphanFileSizes(o, now, minAge));
    SizeOfKeys(OrphanRowSizes(o, now, minAge));
    assert OrphanFiles(o, now, minAge) == o.files.Keys - p.files.Keys;
    assert OrphanRows(o, now, minAge) == o.rows.Keys - p.rows.Keys;
  }

  /** Once no half-object is young, what is left is whole: files and rows have the same keys. */
  lemma PrunedIsWhole(o: Objects, now: nat, minAge: nat)
    requires minAge < U64
    requires forall h :: h in o.files ==> FileIsOld(o.files[h], now, minAge)
    requires forall h :: h in o.rows ==> RowIsOld(o.rows[h], now / SECOND, AsI64(minAge))
    ensures Pruned(o, now, minAge).files.Keys == o.files.Keys * o.rows.Keys == Pruned(o, now, minAge).rows.Keys
  {
  }

  /** No row younger than the grace period is ever pruned. */
  ghost predicate ProtectsYoungRows(minAge: nat)
    requires minAge < U64
  {
    forall o: Objects, now: nat, h: Digest ::
      h in o.rows && now / SECOND - o.rows[h].createdAt < minAge ==> h !in OrphanRows(o, now, minAge)
  }

  /** Young files are protected by every grace period; young rows exactly by those that keep their value when cast to a signed number. */
  lemma GraceProtectsRowsExactly(minAge: nat)
    requires minAge < U64
    ensures ProtectsYoungRows(minAge) <==> minAge < U64 / 2
    ensures forall o: Objects, now: nat, h: Digest ::
      h in o.files && FileIsYoung(o.files[h], now, minAge) ==> h !in OrphanFiles(o, now, minAge)
  {
    if minAge >= U64 / 2 {
      var h := Sha256("");
      var o := Objects(map[], map[h := Entry(0, 0)]);
      assert h in OrphanRows(o, 0, minAge);
    }
  }

  predicate FileIsYoung(f: File, now: nat, minAge: nat) {
    now < f.mtime || now - f.mtime < minAge * SECOND
  }
}
