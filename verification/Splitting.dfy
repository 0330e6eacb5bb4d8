/** Taking text apart at separator characters, and putting it together again. */
module Splitting {
  /** The stretches between separators, empty ones included: never no stretch at all. */
  function Pieces(s: string, seps: set<char>): (r: seq<string>)
    ensures r != []
  {
    if s == "" then [""]
    else
      var rest := Pieces(s[1..], seps);
      if s[0] in seps then [""] + rest else [[s[0]] + rest[0]] + rest[1..]
  }

  predicate FreeOf(t: string, seps: set<char>) {
    forall c <- t :: c !in seps
  }

  /** `t` stands in `s` from `at` to a separator or the end, and holds no separator. */
  predicate PieceAt(s: string, seps: set<char>, t: string, at: nat) {
    && at + |t| <= |s| && s[at..at + |t|] == t && FreeOf(t, seps)
    && (at == 0 || s[at - 1] in seps)
    && (at + |t| == |s| || s[at + |t|] in seps)
  }

  ghost predicate HasPiece(s: string, seps: set<char>, t: string) {
    exists at: nat :: PieceAt(s, seps, t, at)
  }

  lemma PieceShifts(s: string, seps: set<char>, t: string, at: nat)
    requires s != ""
    ensures PieceAt(s, seps, t, at + 1) <==> PieceAt(s[1..], seps, t, at) && (at > 0 || s[0] in seps)
  {
    if at + 1 + |t| <= |s| {
      assert s[at + 1..at + 1 + |t|] == s[1..][at..at + |t|];
    }
  }

  lemma {:induction false} FirstPiece(s: string, seps: set<char>, t: string)
    ensures PieceAt(s, seps, t, 0) <==> t == Pieces(s, seps)[0]
  {
    if s == "" {
      assert t == "" ==> s[0..0] == t;
    } else if s[0] in seps {
      if t != "" && |t| <= |s| && s[0..|t|] == t {
        assert t[0] in seps;
      }
    } else {
      var rest := s[1..];
      FirstPiece(rest, seps, Pieces(rest, seps)[0]);
      if t != "" && PieceAt(s, seps, t, 0) {
        assert rest[0..|t| - 1] == t[1..] by { assert s[0..|t|][1..] == rest[0..|t| - 1]; }
        assert PieceAt(rest, seps, t[1..], 0);
        FirstPiece(rest, seps, t[1..]);
        assert t == [t[0]] + t[1..];
      }
      var u := Pieces(rest, seps)[0];
      assert s[0..|u| + 1] == [s[0]] + rest[0..|u|];
      assert PieceAt(s, seps, [s[0]] + u, 0);
    }
  }

  lemma {:induction false} LaterPieces(s: string, seps: set<char>, t: string)
    ensures t in Pieces(s, seps)[1..] <==> exists at: nat :: at > 0 && PieceAt(s, seps, t, at)
  {
    if s != "" {
      var rest := s[1..];
      LaterPieces(rest, seps, t);
      FirstPiece(rest, seps, t);
      if at: nat :| at > 0 && PieceAt(s, seps, t, at) {
        PieceShifts(s, seps, t, at - 1);
      }
      if t in Pieces(s, seps)[1..] {
        if s[0] in seps && t == Pieces(rest, seps)[0] {
          PieceShifts(s, seps, t, 0);
          assert PieceAt(s, seps, t, 1);
        } else {
          var at: nat :| at > 0 && PieceAt(rest, seps, t, at);
          PieceShifts(s, seps, t, at);
          assert PieceAt(s, seps, t, at + 1);
        }
      }
    }
  }

  /** Splitting yields exactly the separator-free stretches between separators. */
  lemma PiecesAreTheStretches(s: string, seps: set<char>, t: string)
    ensures t in Pieces(s, seps) <==> HasPiece(s, seps, t)
  {
    FirstPiece(s, seps, t);
    LaterPieces(s, seps, t);
    assert Pieces(s, seps) == [Pieces(s, seps)[0]] + Pieces(s, seps)[1..];
  }

  lemma {:induction false} OnePiece(s: string, seps: set<char>)
    requires FreeOf(s, seps)
    ensures Pieces(s, seps) == [s]
  {
    if s != "" {
      OnePiece(s[1..], seps);
      assert s == [s[0]] + s[1..];
    }
  }

  lemma {:induction false} PieceThenRest(t: string, sep: char, rest: string, seps: set<char>)
    requires FreeOf(t, seps) && sep in seps
    ensures Pieces(t + ([sep] + rest), seps) == [t] + Pieces(rest, seps)
  {
    var s := t + ([sep] + rest);
    if t == "" {
      assert s == [sep] + rest;
    } else {
      assert s[1..] == t[1..] + ([sep] + rest);
      PieceThenRest(t[1..], sep, rest, seps);
      assert t == [t[0]] + t[1..];
    }
  }

  function Joined(parts: seq<string>, sep: string): string {
    if parts == [] then "" else if |parts| == 1 then parts[0] else parts[0] + (sep + Joined(parts[1..], sep))
  }

  /** Splitting undoes joining, for parts that hold no separator. */
  lemma {:induction false} PiecesOfJoined(parts: seq<string>, sep: char, seps: set<char>)
    requires parts != [] && sep in seps && forall p <- parts :: FreeOf(p, seps)
    ensures Pieces(Joined(parts, [sep]), seps) == parts
  {
    if |parts| == 1 {
      OnePiece(parts[0], seps);
    } else {
      PiecesOfJoined(parts[1..], sep, seps);
      PieceThenRest(parts[0], sep, Joined(parts[1..], [sep]), seps);
    }
  }
}
