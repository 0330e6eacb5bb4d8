/** Splitting a track's artist line into names: music-hub/src/artists.rs. */
module Artists {
  import opened Ascii
  import opened Splitting

  // ---------------------------------------------------------------- white space

  /** Unicode's White_Space property. */
  predicate IsSpace(c: char) {
    || '\U{9}' <= c <= '\U{D}' || c == ' ' || c == '\U{85}' || c == '\U{A0}' || c == '\U{1680}'
    || '\U{2000}' <= c <= '\U{200A}' || c == '\U{2028}' || c == '\U{2029}' || c == '\U{202F}'
    || c == '\U{205F}' || c == '\U{3000}'
  }

  function TrimStart(s: string): string {
    if s != "" && IsSpace(s[0]) then TrimStart(s[1..]) else s
  }

  function TrimEnd(s: string): string {
    if s != "" && IsSpace(s[|s| - 1]) then TrimEnd(s[..|s| - 1]) else s
  }

  function Trim(s: string): string {
    TrimEnd(TrimStart(s))
  }

  predicate Trimmed(s: string) {
    s == "" || (!IsSpace(s[0]) && !IsSpace(s[|s| - 1]))
  }

  /** Trimming keeps a stretch of the text and cuts white space only. */
  lemma {:induction false} TrimStartKeeps(s: string) returns (i: nat)
    ensures i <= |s| && TrimStart(s) == s[i..] && (s[i..] != "" ==> !IsSpace(s[i]))
    ensures forall k :: 0 <= k < i ==> IsSpace(s[k])
  {
    i := 0;
    if s != "" && IsSpace(s[0]) {
      var j := TrimStartKeeps(s[1..]);
      i := j + 1;
    }
  }

  lemma {:induction false} TrimEndKeeps(s: string) returns (j: nat)
    ensures j <= |s| && TrimEnd(s) == s[..j] && (j > 0 ==> !IsSpace(s[j - 1]))
    ensures forall k :: j <= k < |s| ==> IsSpace(s[k])
  {
    j := |s|;
    if s != "" && IsSpace(s[|s| - 1]) {
      j := TrimEndKeeps(s[..|s| - 1]);
    }
  }

  lemma TrimKeeps(s: string) returns (i: nat, j: nat)
    ensures i <= j <= |s| && Trim(s) == s[i..j] && Trimmed(Trim(s))
    ensures forall k :: 0 <= k < i || j <= k < |s| ==> IsSpace(s[k])
  {
    i := TrimStartKeeps(s);
    var k := TrimEndKeeps(s[i..]);
    j := i + k;
    assert s[i..][..k] == s[i..j];
    forall m | j <= m < |s| ensures IsSpace(s[m]) {
      assert s[i..][m - i] == s[m];
    }
  }

  lemma TrimmedStays(s: string)
    requires Trimmed(s)
    ensures Trim(s) == s
  {
  }

  // ---------------------------------------------------------------- replacing a marker

  predicate OccursAt(s: string, needle: string, i: nat) {
    i + |needle| <= |s| && Alike(s[i..i + |needle|], needle)
  }

  ghost predicate Lacks(s: string, needle: string) {
    forall i: nat :: !OccursAt(s, needle, i)
  }

  /** From the left, every occurrence that does not overlap one before it is replaced. */
  function Replaced(hay: string, needle: string, with: string): string
    requires needle != ""
    decreases |hay|
  {
    if hay == "" then ""
    else if OccursAt(hay, needle, 0) then with + Replaced(hay[|needle|..], needle, with)
    else [hay[0]] + Replaced(hay[1..], needle, with)
  }

  method ReplaceCi(hay: string, needle: string, with: string) returns (out: string)
    ensures needle == "" ==> out == hay
    ensures needle != "" ==> out == Replaced(hay, needle, with)
  {
    if needle == "" || |needle| > |hay| {
      if needle != "" {
        TooShort(hay, needle, with);
      }
      return hay;
    }
    out := "";
    var i := 0;
    while i < |hay|
      invariant ReplacedUpTo(hay, needle, with, out, i)
    {
      ReplacedNext(hay, needle, with, out, i);
      if i + |needle| <= |hay| && Alike(hay[i..i + |needle|], needle) {
        out := out + with;
        i := i + |needle|;
      } else {
        out := out + [hay[i]];
        i := i + 1;
      }
    }
  }

  /** `out` is what the first `i` characters become; the rest is still to do. */
  ghost predicate ReplacedUpTo(hay: string, needle: string, with: string, out: string, i: nat)
    requires needle != ""
  {
    i <= |hay| && Replaced(hay, needle, with) == out + Replaced(hay[i..], needle, with)
  }

  lemma ReplacedNext(hay: string, needle: string, with: string, out: string, i: nat)
    requires needle != "" && i < |hay| && ReplacedUpTo(hay, needle, with, out, i)
    ensures if i + |needle| <= |hay| && Alike(hay[i..i + |needle|], needle)
            then ReplacedUpTo(hay, needle, with, out + with, i + |needle|)
            else ReplacedUpTo(hay, needle, with, out + [hay[i]], i + 1)
  {
    ReplacedFrom(hay, needle, with, i);
    if i + |needle| <= |hay| && Alike(hay[i..i + |needle|], needle) {
      Regroup(out, with, Replaced(hay[i + |needle|..], needle, with));
    } else {
      Regroup(out, [hay[i]], Replaced(hay[i + 1..], needle, with));
    }
  }

  lemma Regroup(a: string, b: string, c: string)
    ensures a + (b + c) == a + b + c
  {
  }

  lemma ReplacedFrom(hay: string, needle: string, with: string, i: nat)
    requires needle != "" && i < |hay|
    ensures Replaced(hay[i..], needle, with)
         == if i + |needle| <= |hay| && Alike(hay[i..i + |needle|], needle)
            then with + Replaced(hay[i + |needle|..], needle, with)
            else [hay[i]] + Replaced(hay[i + 1..], needle, with)
  {
    OccursShifted(hay, needle, 0, i);
    if i + |needle| <= |hay| {
      assert hay[i..][|needle|..] == hay[i + |needle|..];
    }
    assert hay[i..][1..] == hay[i + 1..];
  }

  lemma {:induction false} TooShort(hay: string, needle: string, with: string)
    requires |needle| > |hay|
    ensures Replaced(hay, needle, with) == hay
  {
    if hay != "" {
      TooShort(hay[1..], needle, with);
    }
  }

  lemma OccursShifted(s: string, needle: string, i: nat, k: nat)
    requires k <= |s|
    ensures OccursAt(s[k..], needle, i) <==> OccursAt(s, needle, k + i)
  {
    if k + i + |needle| <= |s| {
      assert s[k..][i..i + |needle|] == s[k + i..k + i + |needle|];
    }
  }

  lemma LacksSuffix(s: string, needle: string, k: nat)
    requires Lacks(s, needle) && k <= |s|
    ensures Lacks(s[k..], needle)
  {
    forall i: nat ensures !OccursAt(s[k..], needle, i) {
      OccursShifted(s, needle, i, k);
    }
  }

  lemma StretchOfStretch(s: string, i: nat, j: nat, a: nat, b: nat)
    requires i <= j <= |s| && a <= b <= j - i
    ensures s[i..j][a..b] == s[i + a..i + b]
  {
    assert forall m :: 0 <= m < b - a ==> s[i..j][a..b][m] == s[i + a..i + b][m];
  }

  lemma InStretch(s: string, i: nat, j: nat, k: nat)
    requires i <= k < j <= |s|
    ensures s[k] in s[i..j]
  {
    assert s[i..j][k - i] == s[k];
  }

  lemma LacksStretch(s: string, needle: string, i: nat, j: nat)
    requires Lacks(s, needle) && i <= j <= |s|
    ensures Lacks(s[i..j], needle)
  {
    forall k: nat ensures !OccursAt(s[i..j], needle, k) {
      assert !OccursAt(s, needle, i + k);
      if k + |needle| <= j - i {
        StretchOfStretch(s, i, j, k, k + |needle|);
      }
    }
  }

  /** Without an occurrence there is nothing to do. */
  lemma {:induction false} LackingStays(hay: string, needle: string, with: string)
    requires needle != "" && Lacks(hay, needle)
    ensures Replaced(hay, needle, with) == hay
  {
    if hay != "" {
      assert !OccursAt(hay, needle, 0);
      LacksSuffix(hay, needle, 1);
      LackingStays(hay[1..], needle, with);
    }
  }

  const MARK: char := ';'

  /** Before the first mark in the result, the result is the text itself. */
  lemma {:induction false} UnmarkedPrefixStays(hay: string, needle: string, k: nat)
    requires needle != "" && k <= |Replaced(hay, needle, [MARK])|
    requires MARK !in Replaced(hay, needle, [MARK])[..k]
    ensures k <= |hay| && Replaced(hay, needle, [MARK])[..k] == hay[..k]
    decreases |hay|
  {
    var r := Replaced(hay, needle, [MARK]);
    if k > 0 {
      assert r[..k][0] == r[0];
      if !OccursAt(hay, needle, 0) {
        var rest := Replaced(hay[1..], needle, [MARK]);
        assert r[..k] == [hay[0]] + rest[..k - 1];
        UnmarkedPrefixStays(hay[1..], needle, k - 1);
        assert hay[..k] == [hay[0]] + hay[1..][..k - 1];
      }
    }
  }

  /** An occurrence of a text without the mark is untouched text: it was there before. */
  lemma {:induction false} OccurrenceWasThere(hay: string, needle: string, other: string, i: nat) returns (j: nat)
    requires needle != "" && other != "" && MARK !in other
    requires OccursAt(Replaced(hay, needle, [MARK]), other, i)
    ensures OccursAt(hay, other, j)
    ensures other == needle ==> false
    decreases |hay|
  {
    var r := Replaced(hay, needle, [MARK]);
    NoMarkInside(r, other, i);
    if OccursAt(hay, needle, 0) {
      var rest := Replaced(hay[|needle|..], needle, [MARK]);
      assert r == [MARK] + rest && r[1..] == rest;
      assert i > 0;
      OccursShifted(r, other, i - 1, 1);
      var k := OccurrenceWasThere(hay[|needle|..], needle, other, i - 1);
      OccursShifted(hay, other, k, |needle|);
      j := |needle| + k;
    } else {
      var rest := Replaced(hay[1..], needle, [MARK]);
      assert r[1..] == rest;
      if i > 0 {
        OccursShifted(r, other, i - 1, 1);
        var k := OccurrenceWasThere(hay[1..], needle, other, i - 1);
        OccursShifted(hay, other, k, 1);
        j := 1 + k;
      } else {
        UnmarkedPrefixStays(hay, needle, |other|);
        j := 0;
      }
    }
  }

  lemma NoMarkInside(s: string, other: string, i: nat)
    requires OccursAt(s, other, i) && MARK !in other
    ensures MARK !in s[i..i + |other|]
    ensures other != "" ==> s[i] != MARK
  {
    var t := s[i..i + |other|];
    assert other != "" ==> t[0] == s[i];
    forall k | 0 <= k < |t| ensures t[k] != MARK {
      assert Lower(t[k]) == Lower(other[k]);
    }
  }

  /** Replacing by the mark leaves no occurrence, and makes none of any other text without it. */
  lemma ReplacedLacks(hay: string, needle: string, other: string)
    requires needle != "" && other != "" && MARK !in needle && MARK !in other
    requires other == needle || Lacks(hay, other)
    ensures Lacks(Replaced(hay, needle, [MARK]), other)
  {
    forall i: nat ensures !OccursAt(Replaced(hay, needle, [MARK]), other, i) {
      if OccursAt(Replaced(hay, needle, [MARK]), other, i) {
        var j := OccurrenceWasThere(hay, needle, other, i);
      }
    }
  }

  // ---------------------------------------------------------------- splitting

  const SEPS: set<char> := {';', ',', '&'}

  const MARKERS: seq<string> := [" feat. ", " feat ", " ft. ", " ft ", " featuring "]

  predicate IsMarker(m: string) {
    m != "" && MARK !in m
  }

  predicate AreMarkers(ms: seq<string>) {
    forall i :: 0 <= i < |ms| ==> IsMarker(ms[i])
  }

  lemma MarkersAreMarkers()
    ensures AreMarkers(MARKERS)
  {
  }

  function Unmarked(s: string, ms: seq<string>): string
    requires AreMarkers(ms)
    decreases |ms|
  {
    if ms == [] then s else Unmarked(Replaced(s, ms[0], [MARK]), ms[1..])
  }

  /** The trimmed names, without blanks and without those seen before in any case. */
  function FirstSeen(parts: seq<string>): seq<string> {
    if parts == [] then []
    else
      var before, name := FirstSeen(parts[..|parts| - 1]), Trim(parts[|parts| - 1]);
      if name == "" || Seen(before, name) then before else before + [name]
  }

  predicate Seen(names: seq<string>, name: string) {
    exists e <- names :: Alike(e, name)
  }

  function Split(raw: string, ms: seq<string>): seq<string>
    requires AreMarkers(ms)
  {
    FirstSeen(Pieces(Unmarked(raw, ms), SEPS))
  }

  method SplitArtists(raw: string) returns (out: seq<string>)
    ensures AreMarkers(MARKERS) && out == Split(raw, MARKERS)
  {
    MarkersAreMarkers();
    out := SplitAt(raw, MARKERS);
  }

  method SplitAt(raw: string, markers: seq<string>) returns (out: seq<string>)
    requires AreMarkers(markers)
    ensures out == Split(raw, markers)
  {
    var s := raw;
    for i := 0 to |markers|
      invariant Unmarked(raw, markers) == Unmarked(s, markers[i..])
    {
      assert markers[i..][1..] == markers[i + 1..];
      assert IsMarker(markers[i]);
      s := ReplaceCi(s, markers[i], [MARK]);
    }
    var parts := Pieces(s, SEPS);
    out := [];
    for i := 0 to |parts|
      invariant out == FirstSeen(parts[..i])
    {
      assert parts[..i + 1][..i] == parts[..i];
      var name := Trim(parts[i]);
      if name == "" {
        continue;
      }
      if exists e <- out :: Alike(e, name) {
        continue;
      }
      out := out + [name];
    }
    assert parts[..|parts|] == parts;
  }

  // ---------------------------------------------------------------- normal form

  ghost predicate IsName(name: string, ms: seq<string>) {
    Trimmed(name) && name != "" && FreeOf(name, SEPS) && forall m <- ms :: Lacks(name, m)
  }

  ghost predicate NormalForm(names: seq<string>, ms: seq<string>) {
    && (forall i :: 0 <= i < |names| ==> IsName(names[i], ms))
    && (forall i, j :: 0 <= i < j < |names| ==> !Alike(names[i], names[j]))
  }

  lemma {:induction false} UnmarkedLacks(s: string, ms: seq<string>, m: string)
    requires AreMarkers(ms) && IsMarker(m)
    requires m in ms || Lacks(s, m)
    ensures Lacks(Unmarked(s, ms), m)
    decreases |ms|
  {
    if ms != [] {
      var s' := Replaced(s, ms[0], [MARK]);
      if m == ms[0] || Lacks(s, m) {
        ReplacedLacks(s, ms[0], m);
      }
      UnmarkedLacks(s', ms[1..], m);
    }
  }

  lemma {:induction false} FirstSeenIsNormal(s: string, parts: seq<string>, ms: seq<string>)
    requires forall m <- ms :: Lacks(s, m)
    requires forall p <- parts :: HasPiece(s, SEPS, p)
    ensures NormalForm(FirstSeen(parts), ms)
  {
    if parts != [] {
      var n := |parts| - 1;
      FirstSeenIsNormal(s, parts[..n], ms);
      assert HasPiece(s, SEPS, parts[n]);
      PieceTrimsToName(s, parts[n], ms);
    }
  }

  lemma PieceTrimsToName(s: string, p: string, ms: seq<string>)
    requires HasPiece(s, SEPS, p) && forall m <- ms :: Lacks(s, m)
    ensures Trim(p) != "" ==> IsName(Trim(p), ms)
  {
    var at: nat :| PieceAt(s, SEPS, p, at);
    var i, j := TrimKeeps(p);
    StretchOfStretch(s, at, at + |p|, i, j);
    forall m | m in ms ensures Lacks(Trim(p), m) {
      LacksStretch(s, m, at + i, at + j);
    }
  }

  /** Every list of names comes out in normal form. */
  lemma SplitIsNormal(raw: string, ms: seq<string>)
    requires AreMarkers(ms)
    ensures NormalForm(Split(raw, ms), ms)
  {
    var s := Unmarked(raw, ms);
    forall m | m in ms ensures Lacks(s, m) {
      UnmarkedLacks(raw, ms, m);
    }
    forall p | p in Pieces(s, SEPS) ensures HasPiece(s, SEPS, p) {
      PiecesAreTheStretches(s, SEPS, p);
    }
    FirstSeenIsNormal(s, Pieces(s, SEPS), ms);
  }

  /** Nothing is lost: every piece that is not blank is named, but for case; and nothing is made up. */
  lemma {:induction false} FirstSeenIsComplete(parts: seq<string>)
    ensures forall p <- parts :: Trim(p) == "" || Seen(FirstSeen(parts), Trim(p))
    ensures forall e <- FirstSeen(parts) :: exists p <- parts :: e == Trim(p)
  {
    if parts != [] {
      var n := |parts| - 1;
      FirstSeenIsComplete(parts[..n]);
      assert parts == parts[..n] + [parts[n]];
      var before, name := FirstSeen(parts[..n]), Trim(parts[n]);
      assert Alike(name, name);
      forall p | p in parts ensures Trim(p) == "" || Seen(FirstSeen(parts), Trim(p)) {
        if p in parts[..n] && Trim(p) != "" {
          var e :| e in before && Alike(e, Trim(p));
          assert e in FirstSeen(parts);
        }
      }
    }
  }

  // ---------------------------------------------------------------- splitting the joined names

  lemma {:induction false} JoinedLacks(names: seq<string>, m: string)
    requires m != "" && MARK !in m && forall name <- names :: Lacks(name, m)
    ensures Lacks(Joined(names, [MARK]), m)
  {
    if |names| == 1 {
      assert names[0] in names;
    } else if names != [] {
      JoinedLacks(names[1..], m);
      var a, rest := names[0], Joined(names[1..], [MARK]);
      var s := a + ([MARK] + rest);
      forall i: nat ensures !OccursAt(s, m, i) {
        if i + |m| <= |a| {
          assert s[i..i + |m|] == a[i..i + |m|];
          assert a in names && !OccursAt(a, m, i);
        } else if i > |a| {
          assert s[|a| + 1..] == rest;
          OccursShifted(s, m, i - |a| - 1, |a| + 1);
        } else if OccursAt(s, m, i) {
          InStretch(s, i, i + |m|, |a|);
          NoMarkInside(s, m, i);
        }
      }
    }
  }

  lemma {:induction false} NothingToUnmark(s: string, ms: seq<string>)
    requires AreMarkers(ms) && forall m <- ms :: Lacks(s, m)
    ensures Unmarked(s, ms) == s
    decreases |ms|
  {
    if ms != [] {
      assert IsMarker(ms[0]) && ms[0] in ms;
      LackingStays(s, ms[0], [MARK]);
      NothingToUnmark(s, ms[1..]);
    }
  }

  lemma {:induction false} NormalIsFirstSeen(names: seq<string>, ms: seq<string>)
    requires NormalForm(names, ms)
    ensures FirstSeen(names) == names
  {
    if names != [] {
      var n := |names| - 1;
      NormalIsFirstSeen(names[..n], ms);
      assert IsName(names[n], ms);
      TrimmedStays(names[n]);
      NotSeenBefore(names, n);
      assert names == names[..n] + [names[n]];
    }
  }

  lemma NotSeenBefore(names: seq<string>, n: nat)
    requires n < |names| && forall i :: 0 <= i < n ==> !Alike(names[i], names[n])
    ensures !Seen(names[..n], names[n])
  {
  }

  /** Joining names in normal form with semicolons and splitting again gives the same names. */
  lemma JoinedSplitsBack(names: seq<string>, ms: seq<string>)
    requires AreMarkers(ms) && NormalForm(names, ms)
    ensures Split(Joined(names, [MARK]), ms) == names
  {
    var s := Joined(names, [MARK]);
    assert forall name <- names :: IsName(name, ms);
    forall m | m in ms ensures Lacks(s, m) {
      JoinedLacks(names, m);
    }
    NothingToUnmark(s, ms);
    if names == [] {
      assert Trim("") == "";
      assert FirstSeen([""]) == [];
    } else {
      PiecesOfJoined(names, MARK, SEPS);
      NormalIsFirstSeen(names, ms);
    }
  }

  /** Splitting is idempotent through the stored, semicolon-joined form. */
  lemma SplitTwice(raw: string)
    ensures AreMarkers(MARKERS)
    ensures NormalForm(Split(raw, MARKERS), MARKERS)
    ensures Split(Joined(Split(raw, MARKERS), [MARK]), MARKERS) == Split(raw, MARKERS)
  {
    MarkersAreMarkers();
    SplitTwiceAt(raw, MARKERS);
  }

  lemma SplitTwiceAt(raw: string, ms: seq<string>)
    requires AreMarkers(ms)
    ensures NormalForm(Split(raw, ms), ms)
    ensures Split(Joined(Split(raw, ms), [MARK]), ms) == Split(raw, ms)
  {
    SplitIsNormal(raw, ms);
    JoinedSplitsBack(Split(raw, ms), ms);
  }
}
