/**
  * The edit distance of music-hub/src/clusters.rs: a two-row array algorithm, the recursion
  * it computes, and what that number means: the least number of single-character insertions,
  * deletions and replacements that turn one word into the other.
  */
module EditDistance {
  import opened Wrappers

  datatype Edit =
    | Insert(at: nat, what: char)
    | Delete(at: nat)
    | Replace(at: nat, what: char)

  predicate Fits(e: Edit, w: string) {
    match e
    case Insert(at, _) => at <= |w|
    case Delete(at) => at < |w|
    case Replace(at, _) => at < |w|
  }

  function Edited(w: string, e: Edit): string
    requires Fits(e, w)
  {
    match e
    case Insert(at, c) => w[..at] + [c] + w[at..]
    case Delete(at) => w[..at] + w[at + 1..]
    case Replace(at, c) => w[..at] + [c] + w[at + 1..]
  }

  /** `script` turns `a` into `b`, one edit after the other. */
  predicate Rewrites(a: string, script: seq<Edit>, b: string)
    decreases |script|
  {
    if script == [] then a == b
    else Fits(script[0], a) && Rewrites(Edited(a, script[0]), script[1..], b)
  }

  ghost predicate Editable(a: string, b: string, n: nat) {
    exists script: seq<Edit> :: |script| <= n && Rewrites(a, script, b)
  }

  ghost predicate WithinOneEdit(a: string, b: string) {
    a == b || exists e: Edit :: Fits(e, a) && Edited(a, e) == b
  }

  function Cost(c: char, d: char): nat {
    if c == d then 0 else 1
  }

  /** A table cell from the one above, the one to the left, and the one before both. */
  function Cell(up: nat, left: nat, before: nat, c: char, d: char): nat {
    Min(Min(up + 1, left + 1), before + Cost(c, d))
  }

  /** The recursion behind the table: the distance of the first `i` characters of `a` to the first `j` of `b`. */
  function Prefixes(a: string, b: string, i: nat, j: nat): nat
    requires i <= |a| && j <= |b|
    decreases i + j
  {
    if i == 0 then j
    else if j == 0 then i
    else Cell(Prefixes(a, b, i - 1, j), Prefixes(a, b, i, j - 1), Prefixes(a, b, i - 1, j - 1), a[i - 1], b[j - 1])
  }

  function Distance(a: string, b: string): nat {
    Prefixes(a, b, |a|, |b|)
  }

  // ---------------------------------------------------------------- the table

  /** The first `k + 1` cells of the row under `prev`. */
  function Under(prev: seq<nat>, c: char, b: string, k: nat): (row: seq<nat>)
    requires k <= |b| && |prev| == |b| + 1
    ensures |row| == k + 1
  {
    if k == 0 then [prev[0] + 1]
    else
      var row := Under(prev, c, b, k - 1);
      row + [Cell(prev[k], row[k - 1], prev[k - 1], c, b[k - 1])]
  }

  function Row(a: string, b: string, i: nat): (row: seq<nat>)
    requires i <= |a|
    ensures |row| == |b| + 1
  {
    if i == 0 then seq(|b| + 1, j => j) else Under(Row(a, b, i - 1), a[i - 1], b, |b|)
  }

  function At(a: string, b: string, i: nat, j: nat): nat
    requires i <= |a| && j <= |b|
  {
    Row(a, b, i)[j]
  }

  lemma {:induction false} UnderAt(prev: seq<nat>, c: char, b: string, k: nat, j: nat)
    requires j <= k <= |b| && |prev| == |b| + 1
    ensures var row := Under(prev, c, b, k);
      row[j] == if j == 0 then prev[0] + 1 else Cell(prev[j], row[j - 1], prev[j - 1], c, b[j - 1])
  {
    if j < k {
      UnderAt(prev, c, b, k - 1, j);
    }
  }

  lemma CellAt(a: string, b: string, i: nat, j: nat)
    requires i <= |a| && j <= |b|
    ensures At(a, b, i, j)
         == if i == 0 then j
            else if j == 0 then At(a, b, i - 1, 0) + 1
            else Cell(At(a, b, i - 1, j), At(a, b, i, j - 1), At(a, b, i - 1, j - 1), a[i - 1], b[j - 1])
  {
    if i > 0 {
      UnderAt(Row(a, b, i - 1), a[i - 1], b, |b|, j);
    }
  }

  lemma {:induction false} EdgeAt(a: string, b: string, i: nat)
    requires i <= |a|
    ensures At(a, b, i, 0) == i
  {
    CellAt(a, b, i, 0);
    if i > 0 {
      EdgeAt(a, b, i - 1);
    }
  }

  /** The table's cells are the recursion's values. */
  lemma {:induction false} TableIsRecursion(a: string, b: string, i: nat, j: nat)
    requires i <= |a| && j <= |b|
    ensures At(a, b, i, j) == Prefixes(a, b, i, j)
    decreases i + j
  {
    CellAt(a, b, i, j);
    EdgeAt(a, b, i);
    if i > 0 && j > 0 {
      TableIsRecursion(a, b, i - 1, j);
      TableIsRecursion(a, b, i, j - 1);
      TableIsRecursion(a, b, i - 1, j - 1);
    }
  }

  // ---------------------------------------------------------------- the algorithm

  method Levenshtein(a: string, b: string) returns (d: nat)
    ensures d == Distance(a, b)
    ensures forall n: nat :: d <= n <==> Editable(a, b, n)
  {
    var prev := new nat[|b| + 1](j => j);
    var cur := new nat[|b| + 1](_ => 0);
    for i := 0 to |a|
      invariant prev != cur && prev.Length == cur.Length == |b| + 1
      invariant fresh(prev) && fresh(cur)
      invariant prev[..] == Row(a, b, i)
    {
      cur[0] := i + 1;
      EdgeAt(a, b, i);
      for j := 0 to |b|
        invariant prev != cur && prev.Length == cur.Length == |b| + 1
        invariant prev[..] == Row(a, b, i)
        invariant cur[..j + 1] == Under(Row(a, b, i), a[i], b, j)
      {
        ghost var row := cur[..j + 1];
        cur[j + 1] := Cell(prev[j + 1], cur[j], prev[j], a[i], b[j]);
        assert cur[..j + 2] == row + [cur[j + 1]];
      }
      assert cur[..] == cur[..|b| + 1];
      prev, cur := cur, prev;
    }
    d := prev[|b|];
    TableIsRecursion(a, b, |a|, |b|);
    ghost var r := d;
    forall n: nat ensures r <= n <==> Editable(a, b, n) {
      DistanceIsLeastScript(a, b, n);
    }
  }

  // ---------------------------------------------------------------- a shortest script exists

  lemma {:induction false} RewritesThen(a: string, s: seq<Edit>, b: string, e: Edit)
    requires Rewrites(a, s, b) && Fits(e, b)
    ensures Rewrites(a, s + [e], Edited(b, e))
    decreases |s|
  {
    if s != [] {
      assert (s + [e])[1..] == s[1..] + [e];
      RewritesThen(Edited(a, s[0]), s[1..], b, e);
    }
  }

  lemma {:induction false} RewritesBeforeLast(a: string, s: seq<Edit>, b: string, last: char)
    requires Rewrites(a, s, b)
    ensures Rewrites(a + [last], s, b + [last])
    decreases |s|
  {
    if s != [] {
      assert Edited(a + [last], s[0]) == Edited(a, s[0]) + [last];
      RewritesBeforeLast(Edited(a, s[0]), s[1..], b, last);
    }
  }

  /** A script as short as the distance; edits of a prefix leave the common last character alone. */
  lemma {:induction false} ShortScript(a: string, b: string, i: nat, j: nat) returns (s: seq<Edit>)
    requires i <= |a| && j <= |b|
    ensures Rewrites(a[..i], s, b[..j])
    ensures |s| == At(a, b, i, j)
    decreases i + j
  {
    if i == 0 && j == 0 {
      s := [];
      CellAt(a, b, 0, 0);
    } else {
      LastEdit(a, b, i, j);
      if j > 0 && At(a, b, i, j) == At(a, b, i, j - 1) + 1 {
        var t := ShortScript(a, b, i, j - 1);
        s := InsertLast(a[..i], t, b, j);
      } else if i > 0 && At(a, b, i, j) == At(a, b, i - 1, j) + 1 {
        var t := ShortScript(a, b, i - 1, j);
        s := DeleteLast(a, i, t, b[..j]);
      } else {
        var t := ShortScript(a, b, i - 1, j - 1);
        s := ReplaceLast(a, i, t, b, j);
      }
    }
  }

  lemma LastEdit(a: string, b: string, i: nat, j: nat)
    requires i <= |a| && j <= |b| && i + j > 0
    ensures || (j > 0 && At(a, b, i, j) == At(a, b, i, j - 1) + 1)
            || (i > 0 && At(a, b, i, j) == At(a, b, i - 1, j) + 1)
            || (i > 0 && j > 0 && At(a, b, i, j) == At(a, b, i - 1, j - 1) + Cost(a[i - 1], b[j - 1]))
  {
    CellAt(a, b, i, j);
    if i == 0 {
      CellAt(a, b, i, j - 1);
    }
  }

  lemma InsertLast(a: string, s: seq<Edit>, b: string, j: nat) returns (s': seq<Edit>)
    requires 0 < j <= |b| && Rewrites(a, s, b[..j - 1])
    ensures Rewrites(a, s', b[..j]) && |s'| == |s| + 1
  {
    var e := Insert(j - 1, b[j - 1]);
    RewritesThen(a, s, b[..j - 1], e);
    assert Edited(b[..j - 1], e) == b[..j];
    s' := s + [e];
  }

  lemma DeleteLast(a: string, i: nat, s: seq<Edit>, b: string) returns (s': seq<Edit>)
    requires 0 < i <= |a| && Rewrites(a[..i - 1], s, b)
    ensures Rewrites(a[..i], s', b) && |s'| == |s| + 1
  {
    s' := [Delete(i - 1)] + s;
    assert Edited(a[..i], s'[0]) == a[..i - 1] && s'[1..] == s;
  }

  lemma ReplaceLast(a: string, i: nat, s: seq<Edit>, b: string, j: nat) returns (s': seq<Edit>)
    requires 0 < i <= |a| && 0 < j <= |b| && Rewrites(a[..i - 1], s, b[..j - 1])
    ensures Rewrites(a[..i], s', b[..j]) && |s'| == |s| + Cost(a[i - 1], b[j - 1])
  {
    var x, y := a[i - 1], b[j - 1];
    RewritesBeforeLast(a[..i - 1], s, b[..j - 1], x);
    assert a[..i - 1] + [x] == a[..i] && b[..j - 1] + [y] == b[..j];
    s' := if x == y then s else s + [Replace(j - 1, y)];
    if x != y {
      ThenReplaceLast(a[..i], s, b[..j - 1], x, y);
    }
  }

  lemma ThenReplaceLast(a: string, s: seq<Edit>, b: string, x: char, y: char)
    requires Rewrites(a, s, b + [x])
    ensures Rewrites(a, s + [Replace(|b|, y)], b + [y])
  {
    assert Edited(b + [x], Replace(|b|, y)) == b + [y];
    RewritesThen(a, s, b + [x], Replace(|b|, y));
  }

  // ---------------------------------------------------------------- no script is shorter

  lemma {:induction false} SameRows(a: string, z: string, c: string, i: nat)
    requires i <= |a| && i <= |z| && forall k :: 0 <= k < i ==> a[k] == z[k]
    ensures Row(a, c, i) == Row(z, c, i)
  {
    if i > 0 {
      SameRows(a, z, c, i - 1);
    }
  }

  /**
    * Two words that are alike before `at`, and alike again when `x` characters of the left
    * word and `y` of the right one are passed over there.
    */
  ghost predicate InStep(a: string, z: string, at: nat, x: nat, y: nat) {
    && x <= 1 && y <= 1 && at + x <= |a| && |a| - x == |z| - y
    && (forall k :: 0 <= k < at ==> a[k] == z[k])
    && (forall k :: at + x <= k < |a| ==> a[k] == z[k - x + y])
  }

  lemma InsertInStep(a: string, at: nat, c: char)
    requires at <= |a|
    ensures InStep(a, Edited(a, Insert(at, c)), at, 0, 1)
  {
  }

  lemma DeleteInStep(a: string, at: nat)
    requires at < |a|
    ensures InStep(a, Edited(a, Delete(at)), at, 1, 0)
  {
  }

  lemma ReplaceInStep(a: string, at: nat, c: char)
    requires at < |a|
    ensures InStep(a, Edited(a, Replace(at, c)), at, 1, 1)
  {
  }

  lemma CellIsMonotone(up: nat, left: nat, before: nat, up': nat, left': nat, before': nat, c: char, d: char)
    requires up <= up' + 1 && left <= left' + 1 && before <= before' + 1
    ensures Cell(up, left, before, c, d) <= Cell(up', left', before', c, d) + 1
  {
  }

  lemma CellIsNear(up: nat, left: nat, before: nat, c: char, d: char)
    ensures Cell(up, left, before, c, d) <= up + 1
    ensures Cell(up, left, before, c, d) <= left + 1
    ensures Cell(up, left, before, c, d) <= before + 1
  {
  }

  /** A cell is at most one more than each of its neighbours. */
  lemma NearAt(a: string, c: string, i: nat, j: nat)
    requires i <= |a| && 0 < j <= |c|
    ensures At(a, c, i, j) <= At(a, c, i, j - 1) + 1
    ensures i > 0 ==> At(a, c, i, j) <= At(a, c, i - 1, j) + 1
    ensures i > 0 ==> At(a, c, i, j) <= At(a, c, i - 1, j - 1) + 1
  {
    CellAt(a, c, i, j);
    CellAt(a, c, i, j - 1);
    if i > 0 {
      CellIsNear(At(a, c, i - 1, j), At(a, c, i, j - 1), At(a, c, i - 1, j - 1), a[i - 1], c[j - 1]);
    }
  }

  /** Where the words part. */
  lemma InStepHere(a: string, z: string, c: string, at: nat, x: nat, y: nat, j: nat)
    requires InStep(a, z, at, x, y) && 0 < j <= |c|
    requires At(a, c, at + x, j - 1) <= At(z, c, at + y, j - 1) + 1
    ensures At(a, c, at + x, j) <= At(z, c, at + y, j) + 1
  {
    SameRows(a, z, c, at);
    NearAt(a, c, at + x, j);
    NearAt(a, c, at, j);
    if y == 1 {
      CellAt(z, c, at + 1, j);
      CellIsOneOf(At(z, c, at, j), At(z, c, at + 1, j - 1), At(z, c, at, j - 1), z[at], c[j - 1]);
    }
  }

  lemma CellIsOneOf(up: nat, left: nat, before: nat, c: char, d: char)
    ensures var v := Cell(up, left, before, c, d); v == up + 1 || v == left + 1 || v >= before
  {
  }

  /** The distances of such words differ by at most one. */
  lemma {:induction false} InStepHelpsByOne(a: string, z: string, c: string, at: nat, x: nat, y: nat, i: nat, j: nat)
    requires InStep(a, z, at, x, y) && at <= i <= |a| - x && j <= |c|
    ensures At(a, c, i + x, j) <= At(z, c, i + y, j) + 1
    decreases i + j
  {
    if j == 0 {
      EdgeAt(a, c, i + x);
      EdgeAt(z, c, i + y);
    } else {
      InStepHelpsByOne(a, z, c, at, x, y, i, j - 1);
      if i == at {
        InStepHere(a, z, c, at, x, y, j);
      } else {
        InStepHelpsByOne(a, z, c, at, x, y, i - 1, j);
        InStepHelpsByOne(a, z, c, at, x, y, i - 1, j - 1);
        InStepBehind(a, z, c, i + x, i + y, j);
      }
    }
  }

  /** Behind the edited place, where the last characters are the same. */
  lemma InStepBehind(a: string, z: string, c: string, i: nat, k: nat, j: nat)
    requires 0 < i <= |a| && 0 < k <= |z| && 0 < j <= |c| && a[i - 1] == z[k - 1]
    requires At(a, c, i, j - 1) <= At(z, c, k, j - 1) + 1
    requires At(a, c, i - 1, j) <= At(z, c, k - 1, j) + 1
    requires At(a, c, i - 1, j - 1) <= At(z, c, k - 1, j - 1) + 1
    ensures At(a, c, i, j) <= At(z, c, k, j) + 1
  {
    CellAt(a, c, i, j);
    CellAt(z, c, k, j);
    CellIsMonotone(At(a, c, i - 1, j), At(a, c, i, j - 1), At(a, c, i - 1, j - 1),
                   At(z, c, k - 1, j), At(z, c, k, j - 1), At(z, c, k - 1, j - 1), a[i - 1], c[j - 1]);
  }

  lemma InStepEnds(a: string, z: string, c: string, at: nat, x: nat, y: nat)
    requires InStep(a, z, at, x, y)
    ensures At(a, c, |a|, |c|) <= At(z, c, |z|, |c|) + 1
  {
    InStepHelpsByOne(a, z, c, at, x, y, |a| - x, |c|);
  }

  /** One edit of the left word lowers the distance by at most one. */
  lemma OneEditHelpsByOne(a: string, e: Edit, c: string)
    requires Fits(e, a)
    ensures At(a, c, |a|, |c|) <= At(Edited(a, e), c, |Edited(a, e)|, |c|) + 1
  {
    match e
    case Insert(at, d) =>
      InsertInStep(a, at, d);
      InStepEnds(a, Edited(a, e), c, at, 0, 1);
    case Delete(at) =>
      DeleteInStep(a, at);
      InStepEnds(a, Edited(a, e), c, at, 1, 0);
    case Replace(at, d) =>
      ReplaceInStep(a, at, d);
      InStepEnds(a, Edited(a, e), c, at, 1, 1);
  }

  lemma {:induction false} AtSelf(a: string, i: nat)
    requires i <= |a|
    ensures At(a, a, i, i) == 0
  {
    CellAt(a, a, i, i);
    if i > 0 {
      AtSelf(a, i - 1);
    }
  }

  lemma {:induction false} NoShorterScript(a: string, s: seq<Edit>, b: string)
    requires Rewrites(a, s, b)
    ensures At(a, b, |a|, |b|) <= |s|
    decreases |s|
  {
    if s == [] {
      AtSelf(a, |a|);
    } else {
      NoShorterScript(Edited(a, s[0]), s[1..], b);
      OneEditHelpsByOne(a, s[0], b);
    }
  }

  // ---------------------------------------------------------------- what the number means

  /** The distance is at most `n` exactly when `n` single-character edits suffice. */
  lemma DistanceIsLeastScript(a: string, b: string, n: nat)
    ensures Distance(a, b) <= n <==> Editable(a, b, n)
  {
    TableIsRecursion(a, b, |a|, |b|);
    if Distance(a, b) <= n {
      var s := ShortScript(a, b, |a|, |b|);
      assert a[..|a|] == a && b[..|b|] == b;
    }
    if s: seq<Edit> :| |s| <= n && Rewrites(a, s, b) {
      NoShorterScript(a, s, b);
    }
  }

  lemma OneEditIsAScript(a: string, b: string)
    ensures Editable(a, b, 1) <==> WithinOneEdit(a, b)
  {
    if s: seq<Edit> :| |s| <= 1 && Rewrites(a, s, b) {
      if |s| == 1 {
        OneEditScript(a, s[0], b);
        assert s == [s[0]];
      }
    }
    if a == b {
      assert Rewrites(a, [], b);
    } else if e: Edit :| Fits(e, a) && Edited(a, e) == b {
      OneEditScript(a, e, b);
      assert Rewrites(a, [e], b);
    }
  }

  lemma OneEditScript(a: string, e: Edit, b: string)
    ensures Rewrites(a, [e], b) <==> Fits(e, a) && Edited(a, e) == b
  {
    assert [e][1..] == [];
  }

  /** The test the clustering makes: a distance of at most one. */
  lemma DistanceAtMostOne(a: string, b: string)
    ensures Distance(a, b) <= 1 <==> WithinOneEdit(a, b)
  {
    DistanceIsLeastScript(a, b, 1);
    OneEditIsAScript(a, b);
  }

  lemma {:induction false} TableIsSymmetric(a: string, b: string, i: nat, j: nat)
    requires i <= |a| && j <= |b|
    ensures At(a, b, i, j) == At(b, a, j, i)
    decreases i + j
  {
    CellAt(a, b, i, j);
    CellAt(b, a, j, i);
    EdgeAt(a, b, i);
    EdgeAt(b, a, j);
    if i > 0 && j > 0 {
      TableIsSymmetric(a, b, i - 1, j);
      TableIsSymmetric(a, b, i, j - 1);
      TableIsSymmetric(a, b, i - 1, j - 1);
    }
  }

  lemma DistanceIsSymmetric(a: string, b: string)
    ensures Distance(a, b) == Distance(b, a)
  {
    TableIsRecursion(a, b, |a|, |b|);
    TableIsRecursion(b, a, |b|, |a|);
    TableIsSymmetric(a, b, |a|, |b|);
  }
}
