/**
  * Resolving a backpack to scored tracks: music-hub/src/backpacks.rs, `resolve`,
  * `resolve_with_limit` and `fold_sources`. What a tag, playlist or lens holds comes from
  * queries; here it is a parameter, `tracksOf`.
  */
module Backpacks {
  import opened Wrappers
  import opened Ranking

  datatype Source = Tag(tagId: int) | Playlist(playlistId: int) | Lens(lens: string) | Track(trackId: int)

  datatype Item = Item(
    kind: string, tag: Option<int>, playlist: Option<int>, lensKey: Option<string>, track: Option<int>, position: int)

  datatype Contribution = Contribution(source: Source, position: int, tracks: seq<int>)

  datatype ResolvedTrack = ResolvedTrack(track: int, score: nat, sources: seq<Source>)

  function KindRank(s: Source): nat {
    match s
    case Tag(_) => 0
    case Playlist(_) => 1
    case Lens(_) => 2
    case Track(_) => 3
  }

  // ---------------------------------------------------------------- from items to contributions

  /** What an item points at; None for an item whose column is missing or whose kind is unknown. */
  function SourceOf(item: Item): Option<Source> {
    if item.kind == "tag" then (if item.tag.Some? then Some(Tag(item.tag.value)) else None)
    else if item.kind == "playlist" then (if item.playlist.Some? then Some(Playlist(item.playlist.value)) else None)
    else if item.kind == "lens" then Some(Lens(if item.lensKey.Some? then item.lensKey.value else ""))
    else if item.kind == "track" then (if item.track.Some? then Some(Track(item.track.value)) else None)
    else None
  }

  ghost predicate DistinctSources(cs: seq<Contribution>) {
    forall i, j :: 0 <= i < j < |cs| ==> cs[i].source != cs[j].source
  }

  /** Each source stands in the list once, where an item first names it. */
  ghost predicate Gathers(cs: seq<Contribution>, items: seq<Item>, tracksOf: Source -> seq<int>) {
    && DistinctSources(cs)
    && (forall c <- cs :: c.tracks == tracksOf(c.source) && FirstNamed(items, c.source, c.position))
    && (forall item <- items :: SourceOf(item).Some? ==> exists c <- cs :: c.source == SourceOf(item).value)
  }

  ghost predicate FirstNamed(items: seq<Item>, s: Source, position: int) {
    exists k :: 0 <= k < |items| && SourceOf(items[k]) == Some(s) && items[k].position == position
                && forall j :: 0 <= j < k ==> SourceOf(items[j]) != Some(s)
  }

  /** The items' contributions, in order, leaving out every source named before. */
  function Gathered(items: seq<Item>, tracksOf: Source -> seq<int>): seq<Contribution> {
    if items == [] then []
    else
      var cs, last := Gathered(items[..|items| - 1], tracksOf), items[|items| - 1];
      if SourceOf(last).None? || Names(cs, SourceOf(last).value) then cs
      else cs + [Contribution(SourceOf(last).value, last.position, tracksOf(SourceOf(last).value))]
  }

  predicate Names(cs: seq<Contribution>, s: Source) {
    exists c <- cs :: c.source == s
  }

  lemma {:induction false} GatheredGathers(items: seq<Item>, tracksOf: Source -> seq<int>)
    ensures Gathers(Gathered(items, tracksOf), items, tracksOf)
  {
    if items != [] {
      var n := |items| - 1;
      GatheredGathers(items[..n], tracksOf);
      GathersOneMore(Gathered(items[..n], tracksOf), items, tracksOf);
    }
  }

  lemma GathersOneMore(cs: seq<Contribution>, items: seq<Item>, tracksOf: Source -> seq<int>)
    requires items != [] && Gathers(cs, items[..|items| - 1], tracksOf)
    ensures var last := items[|items| - 1];
      var source := SourceOf(last);
      if source.None? || Names(cs, source.value) then Gathers(cs, items, tracksOf)
      else Gathers(cs + [Contribution(source.value, last.position, tracksOf(source.value))], items, tracksOf)
  {
    var n := |items| - 1;
    StillFirstNamed(items, n);
    assert items[..n + 1] == items;
    assert items == items[..n] + [items[n]];
    var source := SourceOf(items[n]);
    if source.Some? && !Names(cs, source.value) {
      assert FirstNamed(items, source.value, items[n].position);
    }
  }

  method Contributions(items: seq<Item>, tracksOf: Source -> seq<int>) returns (cs: seq<Contribution>)
    ensures cs == Gathered(items, tracksOf)
    ensures Gathers(cs, items, tracksOf)
  {
    cs := [];
    var seen: set<Source> := {};
    for i := 0 to |items|
      invariant cs == Gathered(items[..i], tracksOf)
      invariant forall s :: s in seen <==> Names(cs, s)
    {
      var source := SourceOf(items[i]);
      assert items[..i + 1][..i] == items[..i];
      if source.Some? && source.value !in seen {
        seen := seen + {source.value};
        cs := cs + [Contribution(source.value, items[i].position, tracksOf(source.value))];
      }
    }
    assert items[..|items|] == items;
    GatheredGathers(items, tracksOf);
  }

  lemma StillFirstNamed(items: seq<Item>, i: nat)
    requires i < |items|
    ensures forall s, p :: FirstNamed(items[..i], s, p) ==> FirstNamed(items[..i + 1], s, p)
  {
    forall s, p | FirstNamed(items[..i], s, p) ensures FirstNamed(items[..i + 1], s, p) {
      var k :| 0 <= k < i && SourceOf(items[..i][k]) == Some(s) && items[..i][k].position == p
               && forall j :: 0 <= j < k ==> SourceOf(items[..i][j]) != Some(s);
      assert items[..i + 1][k] == items[..i][k];
      assert forall j :: 0 <= j < k ==> items[..i + 1][j] == items[..i][j];
    }
  }

  // ---------------------------------------------------------------- scores and positions

  /** The sources that hold a track. */
  ghost function Holders(cs: seq<Contribution>, t: int): set<Source> {
    set c | c in cs && t in c.tracks :: c.source
  }

  ghost function Contributed(cs: seq<Contribution>): set<int> {
    set c, t | c in cs && t in c.tracks :: t
  }

  /** The least position among the sources that hold a track. */
  ghost predicate IsFirst(cs: seq<Contribution>, t: int, position: int) {
    && (exists c <- cs :: t in c.tracks && c.position == position)
    && (forall c <- cs :: t in c.tracks ==> position <= c.position)
  }

  datatype Placed = Placed(position: int, rank: nat, source: Source)

  datatype Acc = Acc(score: nat, first: int, sources: seq<Placed>)

  function Counted(a: Option<Acc>, c: Contribution): Acc {
    var p := Placed(c.position, KindRank(c.source), c.source);
    if a.None? then Acc(1, c.position, [p])
    else Acc(a.value.score + 1, Min(a.value.first, c.position), a.value.sources + [p])
  }

  /** A track's entry after the given contributions; none if they do not hold it. */
  function Tally(cs: seq<Contribution>, t: int): Option<Acc> {
    if cs == [] then None
    else
      var before, c := Tally(cs[..|cs| - 1], t), cs[|cs| - 1];
      if t in c.tracks then Some(Counted(before, c)) else before
  }

  /** The placed sources that hold a track, in the order of the contributions. */
  function PlacedFor(cs: seq<Contribution>, t: int): seq<Placed> {
    if cs == [] then []
    else
      var c := cs[|cs| - 1];
      PlacedFor(cs[..|cs| - 1], t) + if t in c.tracks then [Placed(c.position, KindRank(c.source), c.source)] else []
  }

  lemma {:induction false} TallyCounts(cs: seq<Contribution>, t: int)
    requires DistinctSources(cs)
    ensures (if Tally(cs, t).Some? then Tally(cs, t).value.score else 0) == |Holders(cs, t)|
  {
    if cs != [] {
      TallyCounts(cs[..|cs| - 1], t);
      HoldersStep(cs, t);
    }
  }

  lemma {:induction false} TallyPlaces(cs: seq<Contribution>, t: int)
    ensures Tally(cs, t).Some? <==> t in Contributed(cs)
    ensures (if Tally(cs, t).Some? then Tally(cs, t).value.sources else []) == PlacedFor(cs, t)
  {
    if cs != [] {
      TallyPlaces(cs[..|cs| - 1], t);
      ContributedStep(cs, t);
    }
  }

  lemma ContributedStep(cs: seq<Contribution>, t: int)
    requires cs != []
    ensures t in Contributed(cs) <==> t in Contributed(cs[..|cs| - 1]) || t in cs[|cs| - 1].tracks
  {
    assert cs == cs[..|cs| - 1] + [cs[|cs| - 1]];
  }

  lemma {:induction false} TallyFirst(cs: seq<Contribution>, t: int)
    requires Tally(cs, t).Some?
    ensures IsFirst(cs, t, Tally(cs, t).value.first)
  {
    var n := |cs| - 1;
    assert cs == cs[..n] + [cs[n]];
    if Tally(cs[..n], t).Some? {
      TallyFirst(cs[..n], t);
    } else {
      TallyPlaces(cs[..n], t);
    }
  }

  lemma HoldersStep(cs: seq<Contribution>, t: int)
    requires DistinctSources(cs) && cs != []
    ensures var n := |cs| - 1;
      |Holders(cs, t)| == |Holders(cs[..n], t)| + if t in cs[n].tracks then 1 else 0
  {
    var n := |cs| - 1;
    assert cs == cs[..n] + [cs[n]];
    if t in cs[n].tracks {
      assert Holders(cs, t) == Holders(cs[..n], t) + {cs[n].source};
    } else {
      assert Holders(cs, t) == Holders(cs[..n], t);
    }
  }

  ghost function Score(cs: seq<Contribution>, t: int): nat {
    |Holders(cs, t)|
  }

  ghost function First(cs: seq<Contribution>, t: int): (position: int)
    ensures t in Contributed(cs) ==> IsFirst(cs, t, position)
  {
    if t in Contributed(cs) then
      TallyPlaces(cs, t);
      TallyFirst(cs, t);
      var position :| IsFirst(cs, t, position);
      position
    else 0
  }

  // ---------------------------------------------------------------- the order of tracks

  /** More sources first, then the earlier first position, then the smaller id. */
  predicate Precedes(score: nat, first: int, t: int, score': nat, first': int, t': int) {
    || score > score'
    || (score == score' && first < first')
    || (score == score' && first == first' && t < t')
  }

  ghost function Ahead(cs: seq<Contribution>): (int, int) -> bool {
    (a, b) => Precedes(Score(cs, a), First(cs, a), a, Score(cs, b), First(cs, b), b)
  }

  lemma AheadIsTotal(cs: seq<Contribution>)
    ensures StrictTotal(Ahead(cs))
  {
  }

  // ---------------------------------------------------------------- the order of a track's sources

  predicate SourceBefore(a: Placed, b: Placed) {
    a.position < b.position || (a.position == b.position && a.rank < b.rank)
  }

  /** A stable sort by position, then kind. */
  function Arranged(s: seq<Placed>): seq<Placed> {
    if s == [] then [] else Inserted(Arranged(s[..|s| - 1]), s[|s| - 1], SourceBefore)
  }

  function SourcesIn(s: seq<Placed>): seq<Source> {
    seq(|s|, i requires 0 <= i < |s| => s[i].source)
  }

  ghost predicate NoneBefore(s: seq<Placed>) {
    forall i, j :: 0 <= i < j < |s| ==> !SourceBefore(s[j], s[i])
  }

  lemma {:induction false} InsertedElements(s: seq<Placed>, x: Placed)
    ensures multiset(Inserted(s, x, SourceBefore)) == multiset(s) + multiset{x}
  {
    if s != [] {
      assert s == [s[0]] + s[1..];
      if SourceBefore(x, s[0]) {
        assert multiset([x] + s) == multiset{x} + multiset(s);
      } else {
        InsertedElements(s[1..], x);
        var r := Inserted(s[1..], x, SourceBefore);
        assert multiset([s[0]] + r) == multiset{s[0]} + multiset(r);
      }
    }
  }

  lemma {:induction false} InsertedSource(s: seq<Placed>, x: Placed)
    requires NoneBefore(s)
    ensures NoneBefore(Inserted(s, x, SourceBefore))
  {
    if s != [] && !SourceBefore(x, s[0]) {
      var r := Inserted(s[1..], x, SourceBefore);
      InsertedSource(s[1..], x);
      InsertedElements(s[1..], x);
      forall j | 0 <= j < |r| ensures !SourceBefore(r[j], s[0]) {
        ElementOf(r, j, s[1..], x);
      }
    }
  }

  lemma ElementOf(r: seq<Placed>, j: nat, s: seq<Placed>, x: Placed)
    requires j < |r| && multiset(r) == multiset(s) + multiset{x}
    ensures r[j] == x || exists i :: 0 <= i < |s| && s[i] == r[j]
  {
    assert r[j] in multiset(r);
    if r[j] != x {
      assert r[j] in multiset(s);
    }
  }

  /** A track's sources come out by position and kind, none lost and none made up. */
  lemma {:induction false} ArrangedIsSorted(s: seq<Placed>)
    ensures NoneBefore(Arranged(s))
    ensures multiset(Arranged(s)) == multiset(s)
  {
    if s != [] {
      ArrangedIsSorted(s[..|s| - 1]);
      InsertedSource(Arranged(s[..|s| - 1]), s[|s| - 1]);
      InsertedElements(Arranged(s[..|s| - 1]), s[|s| - 1]);
      assert s == s[..|s| - 1] + [s[|s| - 1]];
    }
  }

  // ---------------------------------------------------------------- folding

  function Tracks(out: seq<ResolvedTrack>): seq<int> {
    seq(|out|, i requires 0 <= i < |out| => out[i].track)
  }

  ghost predicate Describes(r: ResolvedTrack, cs: seq<Contribution>) {
    && r.score == Score(cs, r.track)
    && r.sources == SourcesIn(Arranged(PlacedFor(cs, r.track)))
  }

  /** The first `limit` contributed tracks by the order, each with its score and sources. */
  ghost predicate IsResolution(cs: seq<Contribution>, out: seq<ResolvedTrack>, limit: nat) {
    && |out| == Min(limit, |Contributed(cs)|)
    && IsTop(Contributed(cs), Ahead(cs), Tracks(out))
    && forall i :: 0 <= i < |out| ==> Describes(out[i], cs)
  }

  function Entry(m: map<int, Acc>, t: int): Option<Acc> {
    if t in m then Some(m[t]) else None
  }

  /** One contribution: every track of it counted once, however often it is listed. */
  method CountOne(m: map<int, Acc>, ghost cs: seq<Contribution>, c: Contribution) returns (m': map<int, Acc>)
    requires forall t :: Entry(m, t) == Tally(cs, t)
    ensures forall t :: Entry(m', t) == Tally(cs + [c], t)
  {
    m' := m;
    var counted: set<int> := {};
    for j := 0 to |c.tracks|
      invariant counted == Elements(c.tracks[..j])
      invariant forall t :: Entry(m', t) == if t in counted then Some(Counted(Tally(cs, t), c)) else Tally(cs, t)
    {
      var t := c.tracks[j];
      if t !in counted {
        m' := m'[t := Counted(Entry(m', t), c)];
      }
      counted := counted + {t};
    }
    assert (cs + [c])[..|cs|] == cs;
    assert c.tracks[..|c.tracks|] == c.tracks;
  }

  method FoldSources(cs: seq<Contribution>, limit: nat) returns (out: seq<ResolvedTrack>)
    requires DistinctSources(cs)
    ensures IsResolution(cs, out, limit)
  {
    var byTrack: map<int, Acc> := map[];
    for i := 0 to |cs|
      invariant forall t :: Entry(byTrack, t) == Tally(cs[..i], t)
    {
      assert cs[..i + 1] == cs[..i] + [cs[i]];
      byTrack := CountOne(byTrack, cs[..i], cs[i]);
    }
    assert cs[..|cs|] == cs;
    var ordered := SortTracks(byTrack, cs);
    out := [];
    for i := 0 to |ordered|
      invariant |out| == i && forall k :: 0 <= k < i ==> out[k].track == ordered[k] && Describes(out[k], cs)
    {
      var t := ordered[i];
      TallyCounts(cs, t);
      TallyPlaces(cs, t);
      assert Entry(byTrack, t) == Tally(cs, t);
      out := out + [ResolvedTrack(t, byTrack[t].score, SourcesIn(Arranged(byTrack[t].sources)))];
    }
    assert Tracks(out) == ordered;
    AheadIsTotal(cs);
    if limit < |out| {
      TopOfPrefix(Contributed(cs), Ahead(cs), ordered, limit);
      out := out[..limit];
      assert Tracks(out) == ordered[..limit];
    }
  }

  function ScoreIn(m: map<int, Acc>, t: int): nat {
    if t in m then m[t].score else 0
  }

  function FirstIn(m: map<int, Acc>, t: int): int {
    if t in m then m[t].first else 0
  }

  function ByEntry(m: map<int, Acc>): (int, int) -> bool {
    (a, b) => Precedes(ScoreIn(m, a), FirstIn(m, a), a, ScoreIn(m, b), FirstIn(m, b), b)
  }

  lemma EntriesOrderAlike(m: map<int, Acc>, cs: seq<Contribution>)
    requires DistinctSources(cs) && forall t :: Entry(m, t) == Tally(cs, t)
    ensures forall t :: t in m <==> t in Contributed(cs)
    ensures forall a, b :: ByEntry(m)(a, b) <==> Ahead(cs)(a, b)
  {
    forall t
      ensures t in m <==> t in Contributed(cs)
      ensures ScoreIn(m, t) == Score(cs, t) && FirstIn(m, t) == First(cs, t)
    {
      assert Entry(m, t) == Tally(cs, t);
      TallyCounts(cs, t);
      TallyPlaces(cs, t);
      if t in m {
        TallyFirst(cs, t);
      }
    }
  }

  /** The entries' tracks, sorted: a total order, so how they were listed before does not matter. */
  method SortTracks(byTrack: map<int, Acc>, ghost cs: seq<Contribution>) returns (ordered: seq<int>)
    requires DistinctSources(cs) && forall t :: Entry(byTrack, t) == Tally(cs, t)
    ensures |ordered| == |Contributed(cs)| && IsTop(Contributed(cs), Ahead(cs), ordered)
    ensures forall t <- ordered :: t in byTrack
  {
    ordered := SortKeys(byTrack);
    EntriesOrderAlike(byTrack, cs);
    var keys: set<int> := byTrack.Keys;
    assert forall t :: t in keys <==> t in Contributed(cs);
    assert keys == Contributed(cs);
  }

  lemma SomeElement(s: set<int>)
    ensures s == {} || exists t :: t in s
  {
    if forall t :: t !in s {
      assert s == {};
    }
  }

  method SortKeys(byTrack: map<int, Acc>) returns (ordered: seq<int>)
    ensures |ordered| == |byTrack.Keys| && InOrder(ordered, ByEntry(byTrack))
    ensures forall t :: t in ordered <==> t in byTrack
  {
    ordered := [];
    var left: set<int> := byTrack.Keys;
    while left != {}
      invariant left <= byTrack.Keys && |ordered| == |byTrack.Keys - left|
      invariant InOrder(ordered, ByEntry(byTrack))
      invariant forall t :: t in ordered <==> t in byTrack.Keys - left
    {
      SomeElement(left);
      var t :| t in left;
      InsertedKeepsOrder(ordered, t, ByEntry(byTrack));
      assert byTrack.Keys - (left - {t}) == byTrack.Keys - left + {t};
      ordered := Inserted(ordered, t, ByEntry(byTrack));
      left := left - {t};
    }
    assert byTrack.Keys - {} == byTrack.Keys;
  }

  // ---------------------------------------------------------------- resolving

  const I64_MAX: nat := 0x7fff_ffff_ffff_ffff

  function Clamped(limit: int): nat {
    if limit < 1 then 1 else if limit > 500 then 500 else limit
  }

  /** A backpack's contributions; none for an unknown backpack. */
  function ContributionsOf(items: Option<seq<Item>>, tracksOf: Source -> seq<int>): seq<Contribution> {
    if items.None? then [] else Gathered(items.value, tracksOf)
  }

  method ResolveWithLimit(items: Option<seq<Item>>, tracksOf: Source -> seq<int>, limit: nat)
    returns (out: seq<ResolvedTrack>)
    ensures IsResolution(ContributionsOf(items, tracksOf), out, limit)
  {
    if items.None? {
      assert Contributed([]) == {};
      return [];
    }
    var contributions := Contributions(items.value, tracksOf);
    out := FoldSources(contributions, limit);
  }

  method Resolve(items: Option<seq<Item>>, tracksOf: Source -> seq<int>, limit: int) returns (out: seq<ResolvedTrack>)
    ensures IsResolution(ContributionsOf(items, tracksOf), out, Clamped(limit)) && |out| <= 500
    ensures limit <= 1 ==> |out| <= 1
    ensures 1 <= limit <= 500 ==> |out| == Min(limit, |Contributed(ContributionsOf(items, tracksOf))|)
  {
    out := ResolveWithLimit(items, tracksOf, Clamped(limit));
  }

  method ResolveUnbounded(items: Option<seq<Item>>, tracksOf: Source -> seq<int>) returns (out: seq<ResolvedTrack>)
    ensures IsResolution(ContributionsOf(items, tracksOf), out, I64_MAX)
  {
    out := ResolveWithLimit(items, tracksOf, I64_MAX);
  }

  // ---------------------------------------------------------------- what a resolution looks like

  /** Scores never rise along the list; equal scores come by least position, and equal positions by id. */
  lemma ResolutionIsRanked(cs: seq<Contribution>, out: seq<ResolvedTrack>, limit: nat, i: nat, j: nat, p: int, q: int)
    requires IsResolution(cs, out, limit) && i < j < |out|
    requires IsFirst(cs, out[i].track, p) && IsFirst(cs, out[j].track, q)
    ensures out[i].score == |Holders(cs, out[i].track)| && out[j].score == |Holders(cs, out[j].track)|
    ensures out[i].score >= out[j].score
    ensures out[i].score == out[j].score ==> p <= q
    ensures out[i].score == out[j].score && p == q ==> out[i].track < out[j].track
  {
    assert Tracks(out)[i] == out[i].track && Tracks(out)[j] == out[j].track;
    assert Ahead(cs)(Tracks(out)[i], Tracks(out)[j]);
    FirstIsLeast(cs, out[i].track, p);
    FirstIsLeast(cs, out[j].track, q);
  }

  lemma FirstIsLeast(cs: seq<Contribution>, t: int, p: int)
    requires IsFirst(cs, t, p)
    ensures t in Contributed(cs) && First(cs, t) == p
  {
    var c :| c in cs && t in c.tracks && c.position == p;
    assert t in Contributed(cs);
    assert IsFirst(cs, t, First(cs, t));
  }

  /** A contributed track is left out only of a full list, and has no higher score than any taken; ties lose by position, then id. */
  lemma LeftOutIsNoBetter(cs: seq<Contribution>, out: seq<ResolvedTrack>, limit: nat, i: nat, t: int, p: int, q: int)
    requires IsResolution(cs, out, limit) && i < |out|
    requires t in Contributed(cs) && t !in Tracks(out)
    requires IsFirst(cs, out[i].track, p) && IsFirst(cs, t, q)
    ensures |out| == limit
    ensures out[i].score >= |Holders(cs, t)|
    ensures out[i].score == |Holders(cs, t)| ==> p <= q
    ensures out[i].score == |Holders(cs, t)| && p == q ==> out[i].track < t
  {
    AheadIsTotal(cs);
    TopLeavesOut(Contributed(cs), Ahead(cs), Tracks(out), t);
    assert Describes(out[i], cs);
    assert Tracks(out)[i] == out[i].track && Tracks(out)[i] in Tracks(out);
    var u := out[i].track;
    assert Ahead(cs)(u, t);
    FirstIsLeast(cs, u, p);
    FirstIsLeast(cs, t, q);
    assert Precedes(Score(cs, u), First(cs, u), u, Score(cs, t), First(cs, t), t);
  }

  /** Tags come before playlists, playlists before lenses, lenses before single tracks. */
  lemma KindsInOrder(t: int, p: int, l: string, i: int)
    ensures KindRank(Tag(t)) < KindRank(Playlist(p)) < KindRank(Lens(l)) < KindRank(Track(i))
    ensures KindRank(Tag(t)) == KindRank(Tag(p)) && KindRank(Playlist(t)) == KindRank(Playlist(p))
    ensures KindRank(Track(t)) == KindRank(Track(p)) && KindRank(Lens(l)) == KindRank(Lens(""))
  {
  }

  /** An item's kind says which of its columns counts; a tag, playlist or track needs its number, a lens does not need its key. */
  lemma ItemsByKind(item: Item)
    ensures item.kind == "tag" ==> SourceOf(item) == match item.tag case Some(n) => Some(Tag(n)) case None => None
    ensures item.kind == "playlist" ==> SourceOf(item) == match item.playlist case Some(n) => Some(Playlist(n)) case None => None
    ensures item.kind == "track" ==> SourceOf(item) == match item.track case Some(n) => Some(Track(n)) case None => None
    ensures item.kind == "lens" ==> SourceOf(item) == match item.lensKey case Some(k) => Some(Lens(k)) case None => Some(Lens(""))
    ensures item.kind !in {"tag", "playlist", "track", "lens"} ==> SourceOf(item) == None
  {
  }

  lemma {:induction false} PlacedAre(cs: seq<Contribution>, t: int, x: Placed)
    ensures x in PlacedFor(cs, t)
       <==> exists c <- cs :: t in c.tracks && x == Placed(c.position, KindRank(c.source), c.source)
  {
    if cs != [] {
      var n := |cs| - 1;
      PlacedAre(cs[..n], t, x);
      assert cs == cs[..n] + [cs[n]];
    }
  }

  /** A result's sources are those that hold its track, by position and then kind. */
  lemma SourcesAreHolders(cs: seq<Contribution>, out: seq<ResolvedTrack>, limit: nat, i: nat, a: nat, b: nat)
    requires IsResolution(cs, out, limit) && i < |out| && a < b < |out[i].sources|
    ensures exists x, y :: x in cs && y in cs && x.source == out[i].sources[a] && y.source == out[i].sources[b]
                && out[i].track in x.tracks && out[i].track in y.tracks
                && (x.position < y.position || (x.position == y.position && KindRank(x.source) <= KindRank(y.source)))
  {
    var t := out[i].track;
    var placed, arranged := PlacedFor(cs, t), Arranged(PlacedFor(cs, t));
    ArrangedIsSorted(placed);
    var p, q := arranged[a], arranged[b];
    assert p in multiset(arranged) && q in multiset(arranged);
    assert !SourceBefore(q, p);
    PlacedAre(cs, t, p);
    PlacedAre(cs, t, q);
    var x :| x in cs && t in x.tracks && p == Placed(x.position, KindRank(x.source), x.source);
    var y :| y in cs && t in y.tracks && q == Placed(y.position, KindRank(y.source), y.source);
  }

  lemma SourcesAreAll(cs: seq<Contribution>, out: seq<ResolvedTrack>, limit: nat, i: nat, s: Source)
    requires IsResolution(cs, out, limit) && i < |out|
    ensures s in out[i].sources <==> s in Holders(cs, out[i].track)
    ensures |out[i].sources| == |PlacedFor(cs, out[i].track)|
  {
    var t := out[i].track;
    var placed, arranged := PlacedFor(cs, t), Arranged(PlacedFor(cs, t));
    ArrangedIsSorted(placed);
    assert |placed| == |multiset(placed)| == |multiset(arranged)| == |arranged|;
    if s in out[i].sources {
      var k :| 0 <= k < |arranged| && SourcesIn(arranged)[k] == s;
      assert arranged[k] in multiset(arranged);
      PlacedAre(cs, t, arranged[k]);
    }
    if s in Holders(cs, t) {
      var c :| c in cs && t in c.tracks && c.source == s;
      var x := Placed(c.position, KindRank(c.source), c.source);
      PlacedAre(cs, t, x);
      assert x in multiset(placed) && x in multiset(arranged);
      var k :| 0 <= k < |arranged| && arranged[k] == x;
      assert SourcesIn(arranged)[k] == s;
    }
  }

  // ---------------------------------------------------------------- what the limit and the order change

  /** A smaller limit gives the beginning of what a larger one gives, sources and all. */
  lemma SmallerLimitIsPrefix(cs: seq<Contribution>, short: seq<ResolvedTrack>, long: seq<ResolvedTrack>, k: nat, n: nat)
    requires IsResolution(cs, short, k) && IsResolution(cs, long, n) && k <= n
    ensures short == long[..Min(k, |long|)]
  {
    AheadIsTotal(cs);
    TopIsPrefix(Contributed(cs), Ahead(cs), Tracks(short), Tracks(long));
    forall i | 0 <= i < |short| ensures short[i] == long[i] {
      assert Tracks(short)[i] == Tracks(long)[i];
    }
  }

  /** Tracks and scores do not depend on the order in which the contributions come. */
  lemma ContributionOrderDoesNotMatter(cs: seq<Contribution>, cs': seq<Contribution>,
                                       out: seq<ResolvedTrack>, out': seq<ResolvedTrack>, limit: nat)
    requires forall c :: c in cs <==> c in cs'
    requires IsResolution(cs, out, limit) && IsResolution(cs', out', limit)
    ensures |out| == |out'|
    ensures forall i :: 0 <= i < |out| ==> out[i].track == out'[i].track && out[i].score == out'[i].score
  {
    assert Contributed(cs) == Contributed(cs');
    forall t ensures Score(cs, t) == Score(cs', t) && First(cs, t) == First(cs', t) {
      assert Holders(cs, t) == Holders(cs', t);
    }
    AheadIsTotal(cs);
    assert forall a, b :: Ahead(cs)(a, b) <==> Ahead(cs')(a, b);
    TopIsPrefix(Contributed(cs), Ahead(cs), Tracks(out), Tracks(out'));
    forall i | 0 <= i < |out| ensures out[i].track == out'[i].track {
      assert Tracks(out)[i] == Tracks(out')[i];
    }
  }

  /** The score of a track is the number of different sources, among the items, that hold it. */
  lemma ScoreCountsSources(items: seq<Item>, tracksOf: Source -> seq<int>, cs: seq<Contribution>, t: int)
    requires Gathers(cs, items, tracksOf)
    ensures Holders(cs, t) == set item | item in items && SourceOf(item).Some? && t in tracksOf(SourceOf(item).value)
                                    :: SourceOf(item).value
  {
    var named := set item | item in items && SourceOf(item).Some? && t in tracksOf(SourceOf(item).value)
                         :: SourceOf(item).value;
    forall s | s in Holders(cs, t) ensures s in named {
      var c :| c in cs && t in c.tracks && c.source == s;
      var k :| 0 <= k < |items| && SourceOf(items[k]) == Some(c.source);
      assert items[k] in items;
    }
    forall s | s in named ensures s in Holders(cs, t) {
      var item :| item in items && SourceOf(item) == Some(s) && t in tracksOf(s);
      var c :| c in cs && c.source == s;
    }
  }

  /** Items come ordered by position, so a source's first mention is its least position. */
  lemma FirstMentionIsLeast(items: seq<Item>, s: Source, position: int)
    requires forall i, j :: 0 <= i < j < |items| ==> items[i].position <= items[j].position
    requires FirstNamed(items, s, position)
    ensures forall item <- items :: SourceOf(item) == Some(s) ==> position <= item.position
  {
    var k :| 0 <= k < |items| && SourceOf(items[k]) == Some(s) && items[k].position == position
             && forall j :: 0 <= j < k ==> SourceOf(items[j]) != Some(s);
    forall i | 0 <= i < |items| && SourceOf(items[i]) == Some(s) ensures position <= items[i].position {
    }
  }
}
