/**
  * Picking one value per field from several analyzers: music-api/src/vault.rs,
  * `resolve_tracks` and `resolve_one`. An analysis row's columns are bpm, key, camelot, energy.
  */
module Resolver {
  import opened Wrappers
  import opened Ranking
  import opened LoadDate
  import opened Satellites

  // ---------------------------------------------------------------- the newest row per analyzer

  ghost predicate NewestFirst(found: seq<Row>) {
    forall i, j :: 0 <= i < j < |found| ==> !Before(found[i].loadDate, found[j].loadDate)
  }

  /** One row for each analyzer among `found`, none of that analyzer newer. */
  ghost predicate NewestOf(m: map<string, Row>, found: seq<Row>) {
    && (forall a :: a in m ==> m[a] in found && m[a].key.part == a)
    && (forall r <- found :: r.key.part in m && !Before(m[r.key.part].loadDate, r.loadDate))
  }

  method GroupNewest(found: seq<Row>) returns (m: map<string, Row>)
    requires NewestFirst(found)
    ensures NewestOf(m, found)
  {
    m := map[];
    for i := 0 to |found|
      invariant NewestOf(m, found[..i])
    {
      assert found[..i + 1] == found[..i] + [found[i]];
      var a := found[i].key.part;
      if a !in m {
        NotBeforeSelf(found[i].loadDate);
        m := m[a := found[i]];
      } else {
        var k :| 0 <= k < i && found[..i][k] == m[a];
      }
    }
    assert found[..|found|] == found;
  }

  lemma NotBeforeSelf(a: string)
    ensures !Before(a, a)
  {
    if Before(a, a) {
      BeforeIsStrict(a, a);
    }
  }

  /** Where a key has no two rows of one stamp, that row is the one the load gate compares with. */
  lemma NewestIsLatest(rows: seq<Row>, m: map<string, Row>, found: seq<Row>, hub: string, a: string)
    requires forall r :: r in found <==> r in rows && r.key.table == TrackAnalysis && r.key.hub == hub
    requires forall r, r' :: r in rows && r' in rows && r.key == r'.key && r.loadDate == r'.loadDate ==> r == r'
    requires NewestOf(m, found)
    ensures a in m <==> Latest(rows, Key(TrackAnalysis, hub, a)).Some?
    ensures a in m ==> Latest(rows, Key(TrackAnalysis, hub, a)) == Some(m[a])
  {
    var key := Key(TrackAnalysis, hub, a);
    LatestIsGreatest(rows, key);
    LatestIsARow(rows, key);
    if Latest(rows, key).Some? {
      var r := Latest(rows, key).value;
      BeforeIsTotal(m[a].loadDate, r.loadDate);
      assert m[a] in rows && m[a].key == key;
    }
  }

  lemma {:induction false} LatestIsGreatest(rows: seq<Row>, key: Key)
    ensures Latest(rows, key).Some? ==> Latest(rows, key).value.key == key
    ensures forall r <- rows :: r.key == key ==>
      Latest(rows, key).Some? && !Before(Latest(rows, key).value.loadDate, r.loadDate)
  {
    if rows != [] {
      var n := |rows| - 1;
      LatestIsGreatest(rows[..n], key);
      assert rows == rows[..n] + [rows[n]];
      NotBeforeSelf(rows[n].loadDate);
      var rest := Latest(rows[..n], key);
      forall r | r in rows && r.key == key
        ensures Latest(rows, key).Some? && !Before(Latest(rows, key).value.loadDate, r.loadDate)
      {
        if r in rows[..n] && rows[n].key == key && !Before(rows[n].loadDate, rest.value.loadDate) {
          NotBeforeAfter(rest.value.loadDate, rows[n].loadDate, r.loadDate);
        } else if r == rows[n] && rest.Some? && Before(r.loadDate, rest.value.loadDate) {
          BeforeIsStrict(r.loadDate, rest.value.loadDate);
        }
      }
    }
  }

  lemma NotBeforeAfter(a: string, b: string, c: string)
    requires !Before(b, a) && !Before(a, c)
    ensures !Before(b, c)
  {
    BeforeIsTotal(a, b);
    if Before(b, c) && Before(a, b) {
      BeforeIsTransitive(a, b, c);
    }
  }

  // ---------------------------------------------------------------- precedence

  /** Newest first, then by analyzer name: the order of rows no precedence names. */
  predicate Newer(a: Row, b: Row) {
    Before(b.loadDate, a.loadDate) || (a.loadDate == b.loadDate && Before(a.key.part, b.key.part))
  }

  predicate Has(r: Row, field: nat) {
    field < |r.cols| && r.cols[field].Some?
  }

  ghost predicate ByAnalyzer(m: map<string, Row>) {
    forall a :: a in m ==> m[a].key.part == a
  }

  /**
    * The pick for a field: the first analyzer of the precedence list that has a value; if none
    * of the list has, the newest of the others that has; none only if nobody has.
    */
  ghost predicate IsPick(m: map<string, Row>, precedence: seq<string>, field: nat, pick: Option<Row>) {
    if pick.None? then forall a :: a in m ==> !Has(m[a], field)
    else
      var r := pick.value;
      && r.key.part in m && m[r.key.part] == r && Has(r, field)
      && ((exists k :: IsFirstNamed(m, precedence, field, r, k))
          || (r.key.part !in precedence
              && (forall p <- precedence :: p in m ==> !Has(m[p], field))
              && (forall a :: a in m && a != r.key.part && Has(m[a], field) ==> Newer(r, m[a]))))
  }

  ghost predicate IsFirstNamed(m: map<string, Row>, precedence: seq<string>, field: nat, r: Row, k: int) {
    0 <= k < |precedence| && precedence[k] == r.key.part
    && forall j :: 0 <= j < k && precedence[j] in m ==> !Has(m[precedence[j]], field)
  }

  // ---------------------------------------------------------------- asking the rows in order

  function FirstWith(ordered: seq<Row>, field: nat): Option<Row> {
    if ordered == [] then None
    else if Has(ordered[0], field) then Some(ordered[0])
    else FirstWith(ordered[1..], field)
  }

  lemma {:induction false} FirstInTwo(a: seq<Row>, b: seq<Row>, field: nat)
    ensures FirstWith(a + b, field) == if FirstWith(a, field).Some? then FirstWith(a, field) else FirstWith(b, field)
  {
    if a == [] {
      assert a + b == b;
    } else {
      assert (a + b)[1..] == a[1..] + b;
      FirstInTwo(a[1..], b, field);
    }
  }

  /** The rows of the analyzers that the precedence list names, in its order. */
  function Named(m: map<string, Row>, precedence: seq<string>): seq<Row> {
    if precedence == [] then []
    else (if precedence[0] in m then [m[precedence[0]]] else []) + Named(m, precedence[1..])
  }

  lemma {:induction false} NamedInTwo(m: map<string, Row>, a: seq<string>, b: seq<string>)
    ensures Named(m, a + b) == Named(m, a) + Named(m, b)
  {
    if a == [] {
      assert a + b == b;
    } else {
      assert (a + b)[1..] == a[1..] + b;
      NamedInTwo(m, a[1..], b);
    }
  }

  lemma {:induction false} FirstNamed(m: map<string, Row>, precedence: seq<string>, field: nat) returns (k: nat)
    requires ByAnalyzer(m)
    ensures var pick := FirstWith(Named(m, precedence), field);
      if pick.None? then forall p <- precedence :: p in m ==> !Has(m[p], field)
      else pick.value.key.part in m && m[pick.value.key.part] == pick.value && Has(pick.value, field)
           && IsFirstNamed(m, precedence, field, pick.value, k)
  {
    k := 0;
    if precedence != [] {
      var j := FirstNamed(m, precedence[1..], field);
      assert precedence == [precedence[0]] + precedence[1..];
      if precedence[0] in m {
        assert Named(m, precedence)[1..] == Named(m, precedence[1..]);
        k := if Has(m[precedence[0]], field) then 0 else j + 1;
      } else {
        assert Named(m, precedence) == Named(m, precedence[1..]);
        k := j + 1;
      }
    }
  }

  /** Newest first among analyzers, then by name; total, whatever the rows. */
  ghost function NewerIn(m: map<string, Row>): (string, string) -> bool {
    (a, b) => NameAhead(m, a, b)
  }

  function DateOf(m: map<string, Row>, a: string): string {
    if a in m then m[a].loadDate else ""
  }

  predicate NameAhead(m: map<string, Row>, a: string, b: string) {
    Before(DateOf(m, b), DateOf(m, a)) || (DateOf(m, a) == DateOf(m, b) && Before(a, b))
  }

  lemma NamesAreOrdered(m: map<string, Row>)
    ensures StrictTotal(NewerIn(m))
  {
    var ahead := NewerIn(m);
    forall a ensures !ahead(a, a) {
      NotBeforeSelf(a);
      NotBeforeSelf(DateOf(m, a));
    }
    forall a, b ensures ahead(a, b) || ahead(b, a) || a == b {
      BeforeIsTotal(a, b);
      BeforeIsTotal(DateOf(m, a), DateOf(m, b));
    }
    forall a, b, c | ahead(a, b) && ahead(b, c) ensures ahead(a, c) {
      AheadIsTransitive(m, a, b, c);
    }
  }

  lemma AheadIsTransitive(m: map<string, Row>, a: string, b: string, c: string)
    requires NameAhead(m, a, b) && NameAhead(m, b, c)
    ensures NameAhead(m, a, c)
  {
    var x, y, z := DateOf(m, a), DateOf(m, b), DateOf(m, c);
    if Before(y, x) && Before(z, y) {
      BeforeIsTransitive(z, y, x);
    } else if x == y == z {
      BeforeIsTransitive(a, b, c);
    }
  }

  function RowsOf(m: map<string, Row>, names: seq<string>): seq<Row>
    requires forall a <- names :: a in m
  {
    seq(|names|, i requires 0 <= i < |names| => m[names[i]])
  }

  lemma {:induction false} FirstOfRest(m: map<string, Row>, names: seq<string>, field: nat)
    requires ByAnalyzer(m) && (forall a <- names :: a in m) && InOrder(names, NewerIn(m))
    ensures var pick := FirstWith(RowsOf(m, names), field);
      if pick.None? then forall a <- names :: !Has(m[a], field)
      else pick.value.key.part in names && m[pick.value.key.part] == pick.value && Has(pick.value, field)
           && forall a <- names :: a != pick.value.key.part && Has(m[a], field) ==> Newer(pick.value, m[a])
  {
    if names != [] {
      assert names == [names[0]] + names[1..];
      assert RowsOf(m, names)[1..] == RowsOf(m, names[1..]);
      FirstOfRest(m, names[1..], field);
      forall a | a in names[1..] ensures NameAhead(m, names[0], a) {
        var i :| 0 <= i < |names[1..]| && names[1..][i] == a;
        assert NewerIn(m)(names[0], names[i + 1]);
      }
    }
  }

  /** Asking the named rows, then the others, newest first, gives the pick by precedence. */
  lemma AskingPicks(m: map<string, Row>, precedence: seq<string>, rest: seq<string>, field: nat)
    requires ByAnalyzer(m) && InOrder(rest, NewerIn(m))
    requires forall a :: a in rest <==> a in m && a !in precedence
    ensures IsPick(m, precedence, field, FirstWith(Named(m, precedence) + RowsOf(m, rest), field))
  {
    FirstInTwo(Named(m, precedence), RowsOf(m, rest), field);
    var k := FirstNamed(m, precedence, field);
    FirstOfRest(m, rest, field);
  }

  /** There is one pick: the definition leaves no choice. */
  lemma PickIsUnique(m: map<string, Row>, precedence: seq<string>, field: nat, a: Option<Row>, b: Option<Row>)
    requires ByAnalyzer(m) && IsPick(m, precedence, field, a) && IsPick(m, precedence, field, b)
    ensures a == b
  {
    if a.Some? && b.Some? && a.value.key.part != b.value.key.part {
      var x, y := a.value, b.value;
      if Newer(x, y) && Newer(y, x) {
        BeforeIsTotal(x.loadDate, y.loadDate);
        NotBothNewer(x, y);
      }
    }
  }

  lemma NotBothNewer(x: Row, y: Row)
    requires x.key.part != y.key.part
    ensures !(Newer(x, y) && Newer(y, x))
  {
    if Before(x.loadDate, y.loadDate) { BeforeIsStrict(x.loadDate, y.loadDate); }
    if Before(y.loadDate, x.loadDate) { BeforeIsStrict(y.loadDate, x.loadDate); }
    if Before(x.key.part, y.key.part) { BeforeIsStrict(x.key.part, y.key.part); }
  }

  // ---------------------------------------------------------------- resolving

  datatype Resolved = Resolved(
    isrc: string, bpm: Option<string>, musicalKey: Option<string>, camelot: Option<string>, energy: Option<string>,
    source: Option<string>, updatedAt: Option<string>)

  function ValueOf(pick: Option<Row>, field: nat): Option<string>
    requires pick.Some? ==> Has(pick.value, field)
  {
    if pick.Some? then pick.value.cols[field] else None
  }

  ghost predicate IsGreatestDate(m: map<string, Row>, date: Option<string>) {
    if date.None? then m == map[]
    else (exists a :: a in m && m[a].loadDate == date.value) && forall a :: a in m ==> !Before(date.value, m[a].loadDate)
  }

  /** Each field is the pick's, the source is that of the first field that has one, the date the greatest. */
  ghost predicate Resolves(m: map<string, Row>, precedence: seq<string>, r: Resolved, picks: seq<Option<Row>>) {
    && |picks| == 4
    && (forall f :: 0 <= f < 4 ==> IsPick(m, precedence, f, picks[f]))
    && r.bpm == ValueOf(picks[0], 0) && r.musicalKey == ValueOf(picks[1], 1)
    && r.camelot == ValueOf(picks[2], 2) && r.energy == ValueOf(picks[3], 3)
    && (r.source.None? <==> forall f :: 0 <= f < 4 ==> picks[f].None?)
    && (r.source.Some? ==> exists f :: 0 <= f < 4 && picks[f].Some? && picks[f].value.key.part == r.source.value
                                       && forall g :: 0 <= g < f ==> picks[g].None?)
    && IsGreatestDate(m, r.updatedAt)
  }

  // ---------------------------------------------------------------- what an answer says

  /** Analyzer `a` has a value in column `col`. */
  predicate Tells(m: map<string, Row>, a: string, col: nat) {
    a in m && col < |m[a].cols| && m[a].cols[col].Some?
  }

  /** It is the first of the list that has one, or nobody of the list has and it is the newest, or first by name, of the others. */
  ghost predicate ComesFirst(m: map<string, Row>, precedence: seq<string>, col: nat, a: string)
    requires a in m
  {
    || (exists k :: 0 <= k < |precedence| && precedence[k] == a && forall j :: 0 <= j < k ==> !Tells(m, precedence[j], col))
    || (&& a !in precedence
        && (forall p <- precedence :: !Tells(m, p, col))
        && (forall b :: b != a && Tells(m, b, col) ==>
              || Before(m[b].loadDate, m[a].loadDate)
              || (m[b].loadDate == m[a].loadDate && Before(a, b))))
  }

  /** The value is that of column `col` in the row of analyzer `by`; none of either if nobody has one. */
  ghost predicate FieldBy(m: map<string, Row>, precedence: seq<string>, col: nat, value: Option<string>, teller: Option<string>) {
    match teller
    case None => value.None? && forall a :: !Tells(m, a, col)
    case Some(a) => Tells(m, a, col) && value == m[a].cols[col] && ComesFirst(m, precedence, col, a)
  }

  /**
    * Tempo, key, camelot and energy are columns 0 to 3, each of the analyzer that comes first for
    * it; the source is the analyzer of the first of the four that has a value, and the date the
    * greatest of all rows.
    */
  ghost predicate AnswersBy(m: map<string, Row>, precedence: seq<string>, r: Resolved, tempo: Option<string>,
                            key: Option<string>, camelot: Option<string>, energy: Option<string>)
  {
    && FieldBy(m, precedence, 0, r.bpm, tempo)
    && FieldBy(m, precedence, 1, r.musicalKey, key)
    && FieldBy(m, precedence, 2, r.camelot, camelot)
    && FieldBy(m, precedence, 3, r.energy, energy)
    && r.source == (if tempo.Some? then tempo else if key.Some? then key else if camelot.Some? then camelot else energy)
    && (r.updatedAt.None? <==> m == map[])
    && (r.updatedAt.Some? ==>
          && (exists a :: a in m && m[a].loadDate == r.updatedAt.value)
          && forall a :: a in m ==> !Before(r.updatedAt.value, m[a].loadDate))
  }

  ghost predicate Answers(m: map<string, Row>, precedence: seq<string>, r: Resolved) {
    exists tempo, key, camelot, energy :: AnswersBy(m, precedence, r, tempo, key, camelot, energy)
  }

  lemma PickIsField(m: map<string, Row>, precedence: seq<string>, col: nat, pick: Option<Row>)
    requires ByAnalyzer(m) && IsPick(m, precedence, col, pick)
    ensures FieldBy(m, precedence, col, if pick.Some? then pick.value.cols[col] else None,
                    if pick.Some? then Some(pick.value.key.part) else None)
  {
    if pick.Some? {
      var r := pick.value;
      if k :| IsFirstNamed(m, precedence, col, r, k) {
        assert precedence[k] == r.key.part && forall j :: 0 <= j < k ==> !Tells(m, precedence[j], col);
      } else {
        assert forall a :: a in m ==> m[a].key.part == a;
        forall b | b != r.key.part && Tells(m, b, col)
          ensures Before(m[b].loadDate, r.loadDate) || (m[b].loadDate == r.loadDate && Before(r.key.part, b))
        {
          assert Newer(r, m[b]);
        }
      }
    }
  }

  lemma ResolvedAnswers(m: map<string, Row>, precedence: seq<string>, r: Resolved, picks: seq<Option<Row>>)
    requires ByAnalyzer(m) && Resolves(m, precedence, r, picks)
    ensures Answers(m, precedence, r)
  {
    PickIsField(m, precedence, 0, picks[0]);
    PickIsField(m, precedence, 1, picks[1]);
    PickIsField(m, precedence, 2, picks[2]);
    PickIsField(m, precedence, 3, picks[3]);
    var tempo := By(picks[0]);
    var key := By(picks[1]);
    var camelot := By(picks[2]);
    var energy := By(picks[3]);
    SourceIsTeller(m, precedence, r, picks);
    assert AnswersBy(m, precedence, r, tempo, key, camelot, energy);
  }

  function By(pick: Option<Row>): Option<string> {
    if pick.Some? then Some(pick.value.key.part) else None
  }

  lemma SourceIsTeller(m: map<string, Row>, precedence: seq<string>, r: Resolved, picks: seq<Option<Row>>)
    requires Resolves(m, precedence, r, picks)
    ensures r.source == if picks[0].Some? then By(picks[0]) else if picks[1].Some? then By(picks[1])
                        else if picks[2].Some? then By(picks[2]) else By(picks[3])
  {
    if r.source.Some? {
      var f :| 0 <= f < 4 && picks[f].Some? && picks[f].value.key.part == r.source.value
               && forall g :: 0 <= g < f ==> picks[g].None?;
    }
  }

  // ---------------------------------------------------------------- asking, step by step

  method Rest(m: map<string, Row>, precedence: seq<string>) returns (rest: seq<string>)
    ensures InOrder(rest, NewerIn(m)) && forall a :: a in rest <==> a in m && a !in precedence
  {
    rest := [];
    var left := m.Keys;
    NamesAreOrdered(m);
    while left != {}
      invariant left <= m.Keys && InOrder(rest, NewerIn(m))
      invariant forall a :: a in rest <==> a in m && a !in left && a !in precedence
    {
      var a :| a in left;
      left := left - {a};
      if a !in precedence {
        InsertedKeepsOrder(rest, a, NewerIn(m));
        rest := InsertedName(m, rest, a);
      }
    }
  }

  /** `Inserted` by `NewerIn`, in a form that runs. */
  function InsertedName(m: map<string, Row>, s: seq<string>, a: string): (r: seq<string>)
    ensures r == Inserted(s, a, NewerIn(m))
  {
    if s == [] then [a] else if NameAhead(m, a, s[0]) then [a] + s else [s[0]] + InsertedName(m, s[1..], a)
  }

  /** The rows in the order they are asked: by precedence, then the rest, newest first. */
  method Asked(m: map<string, Row>, precedence: seq<string>) returns (ordered: seq<Row>, ghost rest: seq<string>)
    requires ByAnalyzer(m)
    ensures InOrder(rest, NewerIn(m)) && forall a :: a in rest <==> a in m && a !in precedence
    ensures ordered == Named(m, precedence) + RowsOf(m, rest)
  {
    ordered := [];
    for i := 0 to |precedence|
      invariant ordered == Named(m, precedence[..i])
    {
      assert precedence[..i + 1] == precedence[..i] + [precedence[i]];
      NamedInTwo(m, precedence[..i], [precedence[i]]);
      if precedence[i] in m {
        ordered := ordered + [m[precedence[i]]];
      }
    }
    assert precedence[..|precedence|] == precedence;
    var others := Rest(m, precedence);
    rest := others;
    ordered := ordered + RowsOf(m, others);
  }

  lemma AskingPicksAll(m: map<string, Row>, precedence: seq<string>, ordered: seq<Row>, rest: seq<string>)
    requires ByAnalyzer(m) && InOrder(rest, NewerIn(m)) && forall a :: a in rest <==> a in m && a !in precedence
    requires ordered == Named(m, precedence) + RowsOf(m, rest)
    ensures forall f: nat :: f < 4 ==> IsPick(m, precedence, f, FirstWith(ordered, f))
    ensures forall f: nat :: FirstWith(ordered, f).Some? ==> Has(FirstWith(ordered, f).value, f)
  {
    forall f: nat ensures IsPick(m, precedence, f, FirstWith(ordered, f)) {
      AskingPicks(m, precedence, rest, f);
    }
  }

  method ResolveOne(isrc: string, m: map<string, Row>, precedence: seq<string>)
    returns (r: Resolved, ghost picks: seq<Option<Row>>)
    requires ByAnalyzer(m)
    ensures r.isrc == isrc && Resolves(m, precedence, r, picks) && Answers(m, precedence, r)
  {
    var ordered, rest := Asked(m, precedence);
    AskingPicksAll(m, precedence, ordered, rest);
    var date := GreatestDate(m, ordered, precedence, rest);
    r, picks := Answer(isrc, m, precedence, ordered, date);
    ResolvedAnswers(m, precedence, r, picks);
  }

  method Answer(isrc: string, ghost m: map<string, Row>, ghost precedence: seq<string>, ordered: seq<Row>, date: Option<string>)
    returns (r: Resolved, ghost picks: seq<Option<Row>>)
    requires forall f: nat :: f < 4 ==> IsPick(m, precedence, f, FirstWith(ordered, f))
    requires forall f: nat :: FirstWith(ordered, f).Some? ==> Has(FirstWith(ordered, f).value, f)
    requires IsGreatestDate(m, date)
    ensures r.isrc == isrc && Resolves(m, precedence, r, picks)
  {
    var bpm := FirstWith(ordered, 0);
    var key := FirstWith(ordered, 1);
    var camelot := FirstWith(ordered, 2);
    var energy := FirstWith(ordered, 3);
    r := FromPicks(isrc, bpm, key, camelot, energy, date);
    picks := [bpm, key, camelot, energy];
    PicksResolve(m, precedence, isrc, picks, date);
  }

  function FromPicks(isrc: string, bpm: Option<Row>, key: Option<Row>, camelot: Option<Row>, energy: Option<Row>,
                     date: Option<string>): Resolved
    requires bpm.Some? ==> Has(bpm.value, 0)
    requires key.Some? ==> Has(key.value, 1)
    requires camelot.Some? ==> Has(camelot.value, 2)
    requires energy.Some? ==> Has(energy.value, 3)
  {
    var teller := if bpm.Some? then bpm else if key.Some? then key else if camelot.Some? then camelot else energy;
    Resolved(isrc, ValueOf(bpm, 0), ValueOf(key, 1), ValueOf(camelot, 2), ValueOf(energy, 3),
             if teller.Some? then Some(teller.value.key.part) else None, date)
  }

  lemma PicksResolve(m: map<string, Row>, precedence: seq<string>, isrc: string, picks: seq<Option<Row>>, date: Option<string>)
    requires |picks| == 4 && forall f: nat :: f < 4 && picks[f].Some? ==> Has(picks[f].value, f)
    requires forall f: nat :: f < 4 ==> IsPick(m, precedence, f, picks[f])
    requires IsGreatestDate(m, date)
    ensures Resolves(m, precedence, FromPicks(isrc, picks[0], picks[1], picks[2], picks[3], date), picks)
  {
    SourceIsFirstPick(isrc, picks, date);
  }

  lemma SourceIsFirstPick(isrc: string, picks: seq<Option<Row>>, date: Option<string>)
    requires |picks| == 4 && forall f: nat :: f < 4 && picks[f].Some? ==> Has(picks[f].value, f)
    ensures var r := FromPicks(isrc, picks[0], picks[1], picks[2], picks[3], date);
      && (r.source.None? <==> forall f :: 0 <= f < 4 ==> picks[f].None?)
      && (r.source.Some? ==> exists f :: 0 <= f < 4 && picks[f].Some? && picks[f].value.key.part == r.source.value
                                         && forall g :: 0 <= g < f ==> picks[g].None?)
  {
  }

  method GreatestDate(m: map<string, Row>, ordered: seq<Row>, ghost precedence: seq<string>, ghost rest: seq<string>)
    returns (date: Option<string>)
    requires ByAnalyzer(m) && forall a :: a in rest <==> a in m && a !in precedence
    requires ordered == Named(m, precedence) + RowsOf(m, rest)
    ensures IsGreatestDate(m, date)
  {
    date := None;
    for i := 0 to |ordered|
      invariant date.None? ==> i == 0
      invariant date.Some? ==> exists j :: 0 <= j < i && ordered[j].loadDate == date.value
      invariant date.Some? ==> forall j :: 0 <= j < i ==> !Before(date.value, ordered[j].loadDate)
    {
      NotBeforeSelf(ordered[i].loadDate);
      if date.None? || !Before(ordered[i].loadDate, date.value) {
        if date.Some? {
          forall j | 0 <= j < i ensures !Before(ordered[i].loadDate, ordered[j].loadDate) {
            NotBeforeAfter(date.value, ordered[i].loadDate, ordered[j].loadDate);
          }
        }
        date := Some(ordered[i].loadDate);
      } else {
        BeforeIsStrict(ordered[i].loadDate, date.value);
      }
    }
    OrderedAreRows(m, precedence, rest);
  }

  /** Every analyzer's row is asked, and nothing else. */
  lemma OrderedAreRows(m: map<string, Row>, precedence: seq<string>, rest: seq<string>)
    requires ByAnalyzer(m) && forall a :: a in rest <==> a in m && a !in precedence
    ensures var ordered := Named(m, precedence) + RowsOf(m, rest);
      forall r :: r in ordered <==> r.key.part in m && m[r.key.part] == r
  {
    var ordered := Named(m, precedence) + RowsOf(m, rest);
    forall r ensures r in ordered <==> r.key.part in m && m[r.key.part] == r {
      NamedAreRows(m, precedence, r);
      assert r in RowsOf(m, rest) <==> r.key.part in rest && m[r.key.part] == r by {
        if r.key.part in rest && m[r.key.part] == r {
          var i :| 0 <= i < |rest| && rest[i] == r.key.part;
          assert RowsOf(m, rest)[i] == r;
        }
      }
    }
  }

  lemma {:induction false} NamedAreRows(m: map<string, Row>, precedence: seq<string>, r: Row)
    requires ByAnalyzer(m)
    ensures r in Named(m, precedence) <==> r.key.part in precedence && r.key.part in m && m[r.key.part] == r
  {
    if precedence != [] {
      NamedAreRows(m, precedence[1..], r);
      assert precedence == [precedence[0]] + precedence[1..];
    }
  }

  /** The answer is the one that the newest rows of the analyzers give. */
  ghost predicate ResolvesRows(found: seq<Row>, precedence: seq<string>, r: Resolved) {
    exists m: map<string, Row> :: NewestOf(m, found) && Answers(m, precedence, r)
  }

  /** The asked ISRCs that the vault knows, in the order asked, as often as asked. */
  function Known(isrcs: seq<string>, hubs: set<string>): seq<string> {
    if isrcs == [] then []
    else Known(isrcs[..|isrcs| - 1], hubs) + if isrcs[|isrcs| - 1] in hubs then [isrcs[|isrcs| - 1]] else []
  }

  /** `found` holds, for each track hub, its analysis rows, newest first. */
  method ResolveTracks(isrcs: seq<string>, found: map<string, seq<Row>>, precedence: seq<string>) returns (out: seq<Resolved>)
    requires forall h :: h in found ==> NewestFirst(found[h])
    ensures |out| == |Known(isrcs, found.Keys)|
    ensures forall i :: 0 <= i < |out| ==>
      && out[i].isrc == Known(isrcs, found.Keys)[i]
      && out[i].isrc in found && ResolvesRows(found[out[i].isrc], precedence, out[i])
  {
    out := [];
    for k := 0 to |isrcs|
      invariant |out| == |Known(isrcs[..k], found.Keys)|
      invariant forall i :: 0 <= i < |out| ==>
        && out[i].isrc == Known(isrcs[..k], found.Keys)[i]
        && out[i].isrc in found && ResolvesRows(found[out[i].isrc], precedence, out[i])
    {
      assert isrcs[..k + 1][..k] == isrcs[..k];
      if isrcs[k] in found {
        var m := GroupNewest(found[isrcs[k]]);
        var r, picks := ResolveOne(isrcs[k], m, precedence);
        assert ResolvesRows(found[isrcs[k]], precedence, r);
        out := out + [r];
      }
    }
    assert isrcs[..|isrcs|] == isrcs;
  }
}
