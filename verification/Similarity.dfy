/** When two normalised tag names count as related: music-hub/src/clusters.rs, `similar`. */
module Similarity {
  import opened Wrappers
  import opened EditDistance
  import opened Splitting

  // ---------------------------------------------------------------- lengths in UTF-8 bytes

  function Utf8Width(c: char): nat {
    if c < '\U{80}' then 1 else if c < '\U{800}' then 2 else if c < '\U{10000}' then 3 else 4
  }

  /** A name's length as the program counts it: the bytes of its UTF-8 encoding. */
  function Bytes(s: string): nat {
    if s == "" then 0 else Utf8Width(s[0]) + Bytes(s[1..])
  }

  lemma {:induction false} BytesOfConcat(s: string, t: string)
    ensures Bytes(s + t) == Bytes(s) + Bytes(t)
  {
    if s == "" {
      assert s + t == t;
    } else {
      assert (s + t)[1..] == s[1..] + t;
      BytesOfConcat(s[1..], t);
    }
  }

  lemma PrefixIsShorter(s: string, t: string)
    requires s <= t
    ensures Bytes(s) <= Bytes(t)
    ensures Bytes(s) == Bytes(t) ==> s == t
  {
    assert t == s + t[|s|..];
    BytesOfConcat(s, t[|s|..]);
  }

  // ---------------------------------------------------------------- tokens

  const SPACE: set<char> := {' '}

  // ---------------------------------------------------------------- the rules

  ghost predicate ShareToken(a: string, b: string) {
    exists t: string :: Bytes(t) >= 3 && HasPiece(a, SPACE, t) && HasPiece(b, SPACE, t)
  }

  ghost predicate Similar(a: string, b: string) {
    && a != "" && b != ""
    && (|| a == b
        || ShareToken(a, b)
        || (Bytes(a) >= 4 && a <= b)
        || (Bytes(b) >= 4 && b <= a)
        || (-1 <= Bytes(a) - Bytes(b) <= 1 && Bytes(a) >= 4 && WithinOneEdit(a, b)))
  }

  /** The decision procedure: token loops, prefix rule by byte lengths, then one edit. */
  method AreSimilar(a: string, b: string) returns (r: bool)
    ensures r <==> Similar(a, b)
  {
    if a == "" || b == "" {
      return false;
    }
    if a == b {
      return true;
    }
    var ta, tb := Pieces(a, SPACE), Pieces(b, SPACE);
    for i := 0 to |ta|
      invariant forall t <- ta[..i] :: t in tb ==> Bytes(t) < 3
    {
      for j := 0 to |tb|
        invariant ta[i] in tb[..j] ==> Bytes(ta[i]) < 3
      {
        if ta[i] == tb[j] && Bytes(ta[i]) >= 3 {
          PiecesAreTheStretches(a, SPACE, ta[i]);
          PiecesAreTheStretches(b, SPACE, ta[i]);
          return true;
        }
      }
      assert tb[..|tb|] == tb;
    }
    NoSharedToken(a, b);
    var short, long := a, b;
    if Bytes(a) > Bytes(b) {
      short, long := b, a;
    }
    PrefixRule(a, b);
    if Bytes(short) >= 4 && short <= long {
      return true;
    }
    if -1 <= Bytes(a) - Bytes(b) <= 1 && Bytes(a) >= 4 {
      var d := Levenshtein(a, b);
      DistanceAtMostOne(a, b);
      return d <= 1;
    }
    return false;
  }

  lemma NoSharedToken(a: string, b: string)
    requires forall t <- Pieces(a, SPACE) :: t in Pieces(b, SPACE) ==> Bytes(t) < 3
    ensures !ShareToken(a, b)
  {
    forall t: string | HasPiece(a, SPACE, t) && HasPiece(b, SPACE, t) ensures Bytes(t) < 3 {
      PiecesAreTheStretches(a, SPACE, t);
      PiecesAreTheStretches(b, SPACE, t);
    }
  }

  /** The shorter name is the only one that can be a prefix of the other. */
  lemma PrefixRule(a: string, b: string)
    requires a != b
    ensures a <= b ==> Bytes(a) < Bytes(b)
    ensures b <= a ==> Bytes(b) < Bytes(a)
  {
    if a <= b { PrefixIsShorter(a, b); }
    if b <= a { PrefixIsShorter(b, a); }
  }

  // ---------------------------------------------------------------- asymmetry

  lemma OneEditIsSymmetric(a: string, b: string)
    ensures WithinOneEdit(a, b) <==> WithinOneEdit(b, a)
  {
    DistanceAtMostOne(a, b);
    DistanceAtMostOne(b, a);
    DistanceIsSymmetric(a, b);
  }

  /**
    * The relation is not symmetric, and fails to be in one place only: the edit rule looks at
    * the length of its first argument alone, so a four-byte name is similar to a three-byte
    * one an edit away, but not the other way round.
    */
  lemma OneSidedExactlyAtFourAndThree(a: string, b: string)
    ensures Similar(a, b) && !Similar(b, a)
       <==> Bytes(a) == 4 && Bytes(b) == 3 && WithinOneEdit(a, b) && !ShareToken(a, b)
  {
    OneEditIsSymmetric(a, b);
    if a != b {
      PrefixRule(a, b);
    }
  }

  lemma OneSidedExample()
    ensures Similar("abcd", "abc") && !Similar("abc", "abcd")
  {
    assert "abcd"[1..] == "bcd" && "bcd"[1..] == "cd" && "cd"[1..] == "d" && "d"[1..] == "";
    assert "abc"[1..] == "bc" && "bc"[1..] == "c" && "c"[1..] == "";
    assert Edited("abcd", Delete(3)) == "abc";
    OnePiece("abcd", SPACE);
    OnePiece("abc", SPACE);
    NoSharedToken("abcd", "abc");
    OneSidedExactlyAtFourAndThree("abcd", "abc");
  }

  // ---------------------------------------------------------------- the rules, told from the characters

  /** The bytes of a character are as few as UTF-8 has room for: 7, 11, 16 and 21 bits. */
  lemma WidthIsLeast(c: char)
    ensures Utf8Width(c) == 1 <==> c as int < 0x80
    ensures Utf8Width(c) <= 2 <==> c as int < 0x800
    ensures Utf8Width(c) <= 3 <==> c as int < 0x1_0000
    ensures 1 <= Utf8Width(c) <= 4
  {
  }

  /** ASCII names are as long as they look. */
  lemma {:induction false} BytesOfAscii(s: string)
    ensures |s| <= Bytes(s) <= 4 * |s|
    ensures Bytes(s) == |s| <==> forall c <- s :: c as int < 0x80
  {
    if s != "" {
      BytesOfAscii(s[1..]);
      WidthIsLeast(s[0]);
      assert forall c <- s :: c == s[0] || c in s[1..];
      assert forall c <- s[1..] :: c in s;
      assert s[0] in s;
    }
  }

  /** `t` is one of the words of `s`, with spaces or the ends of the text around it. */
  ghost predicate IsWord(s: string, t: string) {
    ' ' !in t && exists before, after :: StandsBetween(s, before, t, after)
  }

  predicate StandsBetween(s: string, before: string, t: string, after: string) {
    && s == before + t + after
    && (before == "" || before[|before| - 1] == ' ')
    && (after == "" || after[0] == ' ')
  }

  lemma WordIsPiece(s: string, t: string)
    ensures IsWord(s, t) <==> HasPiece(s, SPACE, t)
  {
    if IsWord(s, t) {
      var before, after :| StandsBetween(s, before, t, after);
      BetweenIsPiece(s, before, t, after);
    }
    if at: nat :| PieceAt(s, SPACE, t, at) {
      PieceIsBetween(s, t, at);
    }
  }

  lemma BetweenIsPiece(s: string, before: string, t: string, after: string)
    requires ' ' !in t && StandsBetween(s, before, t, after)
    ensures PieceAt(s, SPACE, t, |before|)
  {
    assert s[|before|..|before| + |t|] == t;
    assert after != "" ==> s[|before| + |t|] == after[0];
    assert before != "" ==> s[|before| - 1] == before[|before| - 1];
  }

  lemma PieceIsBetween(s: string, t: string, at: nat)
    requires PieceAt(s, SPACE, t, at)
    ensures IsWord(s, t)
  {
    var before, after := s[..at], s[at + |t|..];
    assert s == before + t + after;
    assert before != "" ==> before[|before| - 1] == s[at - 1];
    assert after != "" ==> after[0] == s[at + |t|];
    assert ' ' in SPACE;
    assert StandsBetween(s, before, t, after);
  }

  /** The two are alike but for one place, where one of them, or both, may have a character more. */
  ghost predicate OneApart(a: string, b: string) {
    exists before, x, y, after :: |x| <= 1 && |y| <= 1 && a == before + x + after && b == before + y + after
  }

  lemma OneApartIsOneEdit(a: string, b: string)
    ensures OneApart(a, b) <==> WithinOneEdit(a, b)
  {
    if OneApart(a, b) {
      var before, x, y, after :| |x| <= 1 && |y| <= 1 && a == before + x + after && b == before + y + after;
      MiddleIsEdit(before, x, y, after);
    }
    if a == b {
      assert a == a + "" + "" && |""| <= 1;
      assert OneApart(a, b);
    } else if e: Edit :| Fits(e, a) && Edited(a, e) == b {
      EditIsMiddle(a, e);
    }
  }

  lemma MiddleIsEdit(before: string, x: string, y: string, after: string)
    requires |x| <= 1 && |y| <= 1
    ensures WithinOneEdit(before + x + after, before + y + after)
  {
    var a, b := before + x + after, before + y + after;
    if x == y {
      assert a == b;
    } else if x == "" {
      assert y == [y[0]] && a == before + after;
      assert Edited(a, Insert(|before|, y[0])) == b;
    } else if y == "" {
      assert b == before + after;
      assert Edited(a, Delete(|before|)) == b;
    } else {
      assert y == [y[0]];
      assert Edited(a, Replace(|before|, y[0])) == b;
    }
  }

  lemma EditIsMiddle(a: string, e: Edit)
    requires Fits(e, a)
    ensures OneApart(a, Edited(a, e))
  {
    var before, x, y, after := a[..e.at], "", "", a[e.at..];
    if !e.Insert? {
      x, after := [a[e.at]], a[e.at + 1..];
    }
    if !e.Delete? {
      y := [e.what];
    }
    assert |x| <= 1 && |y| <= 1 && a == before + x + after && Edited(a, e) == before + y + after;
  }

  /**
    * Two names are similar exactly when neither is empty and they are equal, or have a word of
    * three bytes in common, or one is the beginning of the other and has four, or the first has
    * four, the second at most one byte more or less, and they differ in one place.
    */
  lemma SimilarExactly(a: string, b: string)
    ensures Similar(a, b)
       <==> && a != "" && b != ""
            && (|| a == b
                || (exists t :: Bytes(t) >= 3 && IsWord(a, t) && IsWord(b, t))
                || (Bytes(a) >= 4 && exists rest :: b == a + rest)
                || (Bytes(b) >= 4 && exists rest :: a == b + rest)
                || (Bytes(a) >= 4 && Bytes(b) in {Bytes(a) - 1, Bytes(a), Bytes(a) + 1} && OneApart(a, b)))
  {
    forall t ensures IsWord(a, t) <==> HasPiece(a, SPACE, t) {
      WordIsPiece(a, t);
    }
    forall t ensures IsWord(b, t) <==> HasPiece(b, SPACE, t) {
      WordIsPiece(b, t);
    }
    OneApartIsOneEdit(a, b);
    assert a <= b ==> b == a + b[|a|..];
    assert b <= a ==> a == b + a[|b|..];
  }
}
