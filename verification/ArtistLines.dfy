/**
  * What becomes of an artist line, told from the line: music-hub/src/artists.rs, with its five
  * markers and three separators written out.
  */
module ArtistLines {
  import opened Ascii
  import opened Splitting
  import opened Artists

  // ---------------------------------------------------------------- where a marker is replaced

  /** Position `i` lies in one of the stretches of length `len` that start at `at`. */
  predicate Covered(at: seq<nat>, len: nat, i: nat) {
    exists k :: 0 <= k < |at| && at[k] <= i < at[k] + len
  }

  predicate Apart(at: seq<nat>, len: nat) {
    forall k, l :: 0 <= k < l < |at| ==> at[k] + len <= at[l]
  }

  predicate AreOccurrences(hay: string, needle: string, at: seq<nat>, end: nat) {
    forall k :: 0 <= k < |at| ==> OccursAt(hay, needle, at[k]) && at[k] + |needle| <= end
  }

  /** The chosen occurrences: apart, in order, and every other one begins inside one of them. */
  ghost predicate Chosen(hay: string, needle: string, at: seq<nat>, end: nat) {
    && AreOccurrences(hay, needle, at, end)
    && Apart(at, |needle|)
    && (forall i: nat {:trigger Covered(at, |needle|, i)} :: i < end && OccursAt(hay, needle, i) ==> Covered(at, |needle|, i))
  }

  /** The text up to `end`, with `with` for each of the stretches of length `len` that start at `at`. */
  ghost function Patched(hay: string, at: seq<nat>, len: nat, with: string, end: nat): string {
    if end > |hay| then hay
    else if at == [] then hay[..end]
    else
      var last := at[|at| - 1];
      if last + len > end then hay
      else Patched(hay, at[..|at| - 1], len, with, last) + with + hay[last + len..end]
  }

  lemma PatchedOne(hay: string, at: seq<nat>, len: nat, with: string, end: nat)
    requires end + len <= |hay|
    ensures Patched(hay, at + [end], len, with, end + len) == Patched(hay, at, len, with, end) + with
  {
    assert (at + [end])[..|at|] == at;
    assert hay[end + len..end + len] == "";
  }

  lemma PatchedNone(hay: string, at: seq<nat>, len: nat, with: string, end: nat)
    requires end < |hay| && (at != [] ==> at[|at| - 1] + len <= end)
    ensures Patched(hay, at, len, with, end + 1) == Patched(hay, at, len, with, end) + [hay[end]]
  {
    if at == [] {
      assert hay[..end + 1] == hay[..end] + [hay[end]];
    } else {
      var last := at[|at| - 1];
      assert hay[last + len..end + 1] == hay[last + len..end] + [hay[end]];
    }
  }

  lemma CoveredStays(at: seq<nat>, p: nat, len: nat, i: nat)
    ensures Covered(at + [p], len, i) <==> Covered(at, len, i) || p <= i < p + len
  {
    var at' := at + [p];
    if Covered(at, len, i) {
      var k :| 0 <= k < |at| && at[k] <= i < at[k] + len;
      assert at'[k] <= i;
    }
    if p <= i < p + len {
      assert at'[|at|] <= i;
    }
  }

  lemma ChosenOne(hay: string, needle: string, at: seq<nat>, end: nat)
    requires needle != "" && Chosen(hay, needle, at, end) && OccursAt(hay, needle, end)
    ensures Chosen(hay, needle, at + [end], end + |needle|)
  {
    forall i: nat | i < end + |needle| && OccursAt(hay, needle, i) ensures Covered(at + [end], |needle|, i) {
      CoveredStays(at, end, |needle|, i);
    }
  }

  lemma ChosenNone(hay: string, needle: string, at: seq<nat>, end: nat)
    requires Chosen(hay, needle, at, end) && !OccursAt(hay, needle, end)
    ensures Chosen(hay, needle, at, end + 1)
  {
    forall i: nat | i < end + 1 && OccursAt(hay, needle, i) ensures Covered(at, |needle|, i) {
    }
  }

  /** `at` and `out` tell what has become of the first `i` characters. */
  ghost predicate DoneUpTo(hay: string, needle: string, with: string, at: seq<nat>, out: string, i: nat)
    requires needle != ""
  {
    Chosen(hay, needle, at, i) && out == Patched(hay, at, |needle|, with, i) && ReplacedUpTo(hay, needle, with, out, i)
  }

  lemma DoneOne(hay: string, needle: string, with: string, at: seq<nat>, out: string, i: nat)
    requires needle != "" && i < |hay| && DoneUpTo(hay, needle, with, at, out, i) && OccursAt(hay, needle, i)
    ensures DoneUpTo(hay, needle, with, at + [i], out + with, i + |needle|)
  {
    ReplacedNext(hay, needle, with, out, i);
    PatchedOne(hay, at, |needle|, with, i);
    ChosenOne(hay, needle, at, i);
  }

  lemma DoneNone(hay: string, needle: string, with: string, at: seq<nat>, out: string, i: nat)
    requires needle != "" && i < |hay| && DoneUpTo(hay, needle, with, at, out, i) && !OccursAt(hay, needle, i)
    ensures DoneUpTo(hay, needle, with, at, out + [hay[i]], i + 1)
  {
    ReplacedNext(hay, needle, with, out, i);
    PatchedNone(hay, at, |needle|, with, i);
    ChosenNone(hay, needle, at, i);
  }

  lemma {:induction false} DoneFrom(hay: string, needle: string, with: string, at: seq<nat>, out: string, i: nat)
    returns (at': seq<nat>, out': string)
    requires needle != "" && i <= |hay| && DoneUpTo(hay, needle, with, at, out, i)
    ensures DoneUpTo(hay, needle, with, at', out', |hay|)
    decreases |hay| - i
  {
    if i == |hay| {
      at', out' := at, out;
    } else if OccursAt(hay, needle, i) {
      DoneOne(hay, needle, with, at, out, i);
      at', out' := DoneFrom(hay, needle, with, at + [i], out + with, i + |needle|);
    } else {
      DoneNone(hay, needle, with, at, out, i);
      at', out' := DoneFrom(hay, needle, with, at, out + [hay[i]], i + 1);
    }
  }

  /** Every chosen occurrence is replaced, and nothing else is touched. */
  lemma ReplacedExactly(hay: string, needle: string, with: string) returns (at: seq<nat>)
    requires needle != ""
    ensures Chosen(hay, needle, at, |hay|)
    ensures Replaced(hay, needle, with) == Patched(hay, at, |needle|, with, |hay|)
  {
    DoneAtStart(hay, needle, with);
    var out;
    at, out := DoneFrom(hay, needle, with, [], "", 0);
    assert hay[|hay|..] == "";
  }

  lemma DoneAtStart(hay: string, needle: string, with: string)
    requires needle != ""
    ensures DoneUpTo(hay, needle, with, [], "", 0)
  {
    assert hay[0..] == hay && hay[..0] == "";
  }

  /** The choice is the only one. */
  lemma {:induction false} ChosenIsUnique(hay: string, needle: string, at: seq<nat>, at': seq<nat>, end: nat)
    requires needle != "" && Chosen(hay, needle, at, end) && Chosen(hay, needle, at', end)
    ensures at == at'
  {
    ChosenAgree(hay, needle, at, at', end, |at|);
    ChosenAgree(hay, needle, at', at, end, |at'|);
  }

  lemma {:induction false} ChosenAgree(hay: string, needle: string, at: seq<nat>, at': seq<nat>, end: nat, n: nat)
    requires needle != "" && Chosen(hay, needle, at, end) && Chosen(hay, needle, at', end) && n <= |at|
    ensures n <= |at'| && forall k :: 0 <= k < n ==> at[k] == at'[k]
  {
    if n > 0 {
      var m := n - 1;
      ChosenAgree(hay, needle, at, at', end, m);
      NextAtMost(hay, needle, at, at', end, m);
      NextAtMost(hay, needle, at', at, end, m);
    }
  }

  /** Of two choices that agree so far, neither goes on later than the other. */
  lemma NextAtMost(hay: string, needle: string, at: seq<nat>, at': seq<nat>, end: nat, m: nat)
    requires needle != "" && Chosen(hay, needle, at, end) && Chosen(hay, needle, at', end)
    requires m < |at| && m <= |at'| && forall k :: 0 <= k < m ==> at[k] == at'[k]
    ensures m < |at'| && at'[m] <= at[m]
  {
    assert Covered(at', |needle|, at[m]);
    var k :| 0 <= k < |at'| && at'[k] <= at[m] < at'[k] + |needle|;
    if k < m {
      assert false;
    }
  }

  // ---------------------------------------------------------------- which names are kept

  /** The names stand at the positions `at`, in order, each the first of its spelling and not blank. */
  ghost predicate FirstOnes(parts: seq<string>, names: seq<string>, at: seq<nat>) {
    && |at| == |names|
    && (forall k, l :: 0 <= k < l < |at| ==> at[k] < at[l])
    && (forall k :: 0 <= k < |at| ==> Names(parts, names[k], at[k]))
  }

  ghost predicate Names(parts: seq<string>, name: string, j: nat) {
    j < |parts| && name == Trim(parts[j]) && IsFirst(parts, j)
  }

  /** Not blank, and not the same but for case as a part before it. */
  ghost predicate IsFirst(parts: seq<string>, j: nat)
    requires j < |parts|
  {
    Trim(parts[j]) != "" && forall i :: 0 <= i < j ==> !Alike(Trim(parts[i]), Trim(parts[j]))
  }

  /** Exactly the parts that are the first of their spelling are kept, in their order. */
  lemma {:induction false} FirstSeenExactly(parts: seq<string>) returns (at: seq<nat>)
    ensures FirstOnes(parts, FirstSeen(parts), at)
    ensures forall j: nat :: j < |parts| ==> (j in at <==> IsFirst(parts, j))
  {
    at := [];
    if parts != [] {
      var n := |parts| - 1;
      at := FirstSeenExactly(parts[..n]);
      LastIsFirst(parts);
      FirstOnesOfMore(parts, FirstSeen(parts[..n]), at);
      at := if IsFirst(parts, n) then at + [n] else at;
    }
  }

  lemma FirstInPrefix(parts: seq<string>, n: nat, j: nat)
    requires j < n <= |parts|
    ensures IsFirst(parts[..n], j) <==> IsFirst(parts, j)
  {
  }

  lemma FirstOnesOfMore(parts: seq<string>, names: seq<string>, at: seq<nat>)
    requires parts != [] && FirstOnes(parts[..|parts| - 1], names, at)
    requires forall j: nat :: j < |parts| - 1 ==> (j in at <==> IsFirst(parts[..|parts| - 1], j))
    ensures var n := |parts| - 1;
      && (IsFirst(parts, n) ==> FirstOnes(parts, names + [Trim(parts[n])], at + [n]))
      && (!IsFirst(parts, n) ==> FirstOnes(parts, names, at))
      && (forall j: nat :: j < n ==> (j in at <==> IsFirst(parts, j)))
      && n !in at
  {
    var n := |parts| - 1;
    forall j: nat | j < n ensures j in at <==> IsFirst(parts, j) {
      FirstInPrefix(parts, n, j);
    }
    forall k | 0 <= k < |at| ensures Names(parts, names[k], at[k]) && at[k] < n {
      assert Names(parts[..n], names[k], at[k]);
      FirstInPrefix(parts, n, at[k]);
    }
  }

  lemma LastIsFirst(parts: seq<string>)
    requires parts != []
    ensures var n := |parts| - 1;
      IsFirst(parts, n) <==> Trim(parts[n]) != "" && !Seen(FirstSeen(parts[..n]), Trim(parts[n]))
  {
    var n := |parts| - 1;
    var before, name := parts[..n], Trim(parts[n]);
    FirstSeenIsComplete(before);
    if name != "" && Seen(FirstSeen(before), name) {
      var e :| e in FirstSeen(before) && Alike(e, name);
      var p :| p in before && e == Trim(p);
      var i :| 0 <= i < n && parts[i] == p;
    }
    if i :| 0 <= i < n && Alike(Trim(parts[i]), name) && name != "" {
      assert parts[i] in before && Trim(parts[i]) != "";
      var e :| e in FirstSeen(before) && Alike(e, Trim(parts[i]));
      AlikeChains(e, Trim(parts[i]), name);
    }
  }

  lemma AlikeChains(a: string, b: string, c: string)
    requires Alike(a, b) && Alike(b, c)
    ensures Alike(a, c)
  {
  }

  // ---------------------------------------------------------------- markers and separators, written out

  /** None of the five markers, in any case, and none of the three separators. */
  ghost predicate IsPlain(s: string) {
    && Lacks(s, " feat. ") && Lacks(s, " feat ") && Lacks(s, " ft. ") && Lacks(s, " ft ") && Lacks(s, " featuring ")
    && ';' !in s && ',' !in s && '&' !in s
  }

  /** What holds no separator and none of these markers keeps none when a separator comes between. */
  lemma LacksAcross(left: string, sep: char, right: string, m: string)
    requires Lacks(left, m) && Lacks(right, m) && m != "" && forall c <- m :: Lower(c) != Lower(sep)
    ensures Lacks(left + ([sep] + right), m)
  {
    var s := left + ([sep] + right);
    forall i: nat ensures !OccursAt(s, m, i) {
      if i + |m| <= |left| {
        assert s[i..i + |m|] == left[i..i + |m|];
        assert !OccursAt(left, m, i);
      } else if i > |left| {
        assert s[|left| + 1..] == right;
        OccursShifted(s, m, i - |left| - 1, |left| + 1);
      } else if i + |m| <= |s| {
        NotAcross(s, m, i, |left|);
      }
    }
  }

  lemma NotAcross(s: string, m: string, i: nat, k: nat)
    requires i <= k < i + |m| <= |s| && forall c <- m :: Lower(c) != Lower(s[k])
    ensures !OccursAt(s, m, i)
  {
    assert s[i..i + |m|][k - i] == s[k];
    assert m[k - i] in m;
  }

  /** No name holds a marker or a separator. */
  lemma NamesArePlain(raw: string)
    ensures AreMarkers(MARKERS)
    ensures forall name <- Split(raw, MARKERS) :: IsPlain(name) && name != "" && Trimmed(name)
  {
    MarkersAreMarkers();
    SplitIsNormal(raw, MARKERS);
    FiveMarkers();
    forall name | name in Split(raw, MARKERS) ensures IsPlain(name) && name != "" && Trimmed(name) {
      assert IsName(name, MARKERS);
    }
  }

  lemma FiveMarkers()
    ensures forall m :: m in MARKERS <==> m == " feat. " || m == " feat " || m == " ft. " || m == " ft " || m == " featuring "
  {
    assert MARKERS[0] == " feat. " && MARKERS[1] == " feat " && MARKERS[2] == " ft. " && MARKERS[3] == " ft "
           && MARKERS[4] == " featuring ";
  }

  /** And nothing else divides a line: one without them is one name. */
  lemma PlainLineIsOneName(raw: string)
    requires IsPlain(raw)
    ensures AreMarkers(MARKERS)
    ensures Split(raw, MARKERS) == if Trim(raw) == "" then [] else [Trim(raw)]
  {
    MarkersAreMarkers();
    FiveMarkers();
    NothingToUnmark(raw, MARKERS);
    OnePiece(raw, SEPS);
    OnePart(raw);
  }

  lemma OnePart(part: string)
    ensures FirstSeen([part]) == if Trim(part) == "" then [] else [Trim(part)]
  {
    assert [part][..0] == [] && FirstSeen([]) == [];
    assert !Seen([], Trim(part));
  }

  /** A separator divides what is free of markers around it. */
  lemma SeparatorDivides(left: string, sep: char, right: string)
    requires sep == ';' || sep == ',' || sep == '&'
    requires IsPlain(left) && IsPlain(right) && Trim(left) != "" && Trim(right) != ""
    ensures AreMarkers(MARKERS)
    ensures Split(left + ([sep] + right), MARKERS)
         == if Alike(Trim(left), Trim(right)) then [Trim(left)] else [Trim(left), Trim(right)]
  {
    MarkersAreMarkers();
    FiveMarkers();
    forall m | m in MARKERS ensures Lacks(left + ([sep] + right), m) {
      LacksAcross(left, sep, right, m);
    }
    NothingToUnmark(left + ([sep] + right), MARKERS);
    PieceThenRest(left, sep, right, SEPS);
    OnePiece(right, SEPS);
    TwoParts(left, right);
  }

  lemma TwoParts(left: string, right: string)
    requires Trim(left) != "" && Trim(right) != ""
    ensures FirstSeen([left] + [right])
         == if Alike(Trim(left), Trim(right)) then [Trim(left)] else [Trim(left), Trim(right)]
  {
    assert ([left] + [right])[..1] == [left];
    OnePart(left);
  }

  /** The markers are replaced in this order. */
  lemma MarkersInTurn(raw: string)
    ensures AreMarkers(MARKERS)
    ensures var a := Replaced(raw, " feat. ", ";");
      var b := Replaced(a, " feat ", ";");
      var c := Replaced(b, " ft. ", ";");
      var d := Replaced(c, " ft ", ";");
      Split(raw, MARKERS) == FirstSeen(Pieces(Replaced(d, " featuring ", ";"), {';', ',', '&'}))
  {
    MarkersAreMarkers();
    var a := Replaced(raw, " feat. ", ";");
    var b := Replaced(a, " feat ", ";");
    var c := Replaced(b, " ft. ", ";");
    var d := Replaced(c, " ft ", ";");
    var m := MARKERS;
    assert m[1..] == [" feat ", " ft. ", " ft ", " featuring "];
    assert m[1..][1..] == [" ft. ", " ft ", " featuring "];
    assert m[1..][1..][1..] == [" ft ", " featuring "];
    assert m[1..][1..][1..][1..] == [" featuring "];
    assert m[1..][1..][1..][1..][1..] == [];
    assert Unmarked(raw, m) == Unmarked(a, m[1..]);
    assert Unmarked(a, m[1..]) == Unmarked(b, m[1..][1..]);
    assert Unmarked(b, m[1..][1..]) == Unmarked(c, m[1..][1..][1..]);
    assert Unmarked(c, m[1..][1..][1..]) == Unmarked(d, m[1..][1..][1..][1..]);
    assert Unmarked(d, m[1..][1..][1..][1..]) == Replaced(d, " featuring ", ";");
  }
}
