/** Picking the first few of a set by a strict total order. */
module Ranking {
  ghost predicate StrictTotal<T(!new)>(ahead: (T, T) -> bool) {
    && (forall a :: !ahead(a, a))
    && (forall a, b :: ahead(a, b) || ahead(b, a) || a == b)
    && (forall a, b, c :: ahead(a, b) && ahead(b, c) ==> ahead(a, c))
  }

  ghost predicate InOrder<T>(s: seq<T>, ahead: (T, T) -> bool) {
    forall i, j :: 0 <= i < j < |s| ==> ahead(s[i], s[j])
  }

  function Elements<T>(s: seq<T>): set<T> {
    set x | x in s
  }

  /** `top` lists, in order, elements of `all` that come ahead of every element it leaves out. */
  ghost predicate IsTop<T(!new)>(all: set<T>, ahead: (T, T) -> bool, top: seq<T>) {
    && InOrder(top, ahead)
    && (forall x <- top :: x in all)
    && (forall x, y :: x in top && y in all && y !in top ==> ahead(x, y))
  }

  /** There is only one such list of each length, and a shorter one is a prefix of a longer one. */
  lemma {:induction false} TopIsPrefix<T(!new)>(all: set<T>, ahead: (T, T) -> bool, short: seq<T>, long: seq<T>)
    requires StrictTotal(ahead) && IsTop(all, ahead, short) && IsTop(all, ahead, long)
    requires |short| <= |long|
    ensures short <= long
  {
    if short != [] {
      var n := |short| - 1;
      TopOfPrefix(all, ahead, short, n);
      TopIsPrefix(all, ahead, short[..n], long);
      var x, y := short[n], long[n];
      if x != y {
        NotEarlier(all, ahead, short, long, n);
        NotEarlier(all, ahead, long, short, n);
      }
      assert short == short[..n] + [x];
    }
  }

  lemma TopOfPrefix<T(!new)>(all: set<T>, ahead: (T, T) -> bool, top: seq<T>, n: nat)
    requires StrictTotal(ahead) && IsTop(all, ahead, top) && n < |top|
    ensures IsTop(all, ahead, top[..n])
  {
    forall x, y | x in top[..n] && y in all && y !in top[..n] ensures ahead(x, y) {
      if y in top {
        var i :| 0 <= i < n && top[i] == x;
        var j :| n <= j < |top| && top[j] == y;
      }
    }
  }

  lemma NotEarlier<T(!new)>(all: set<T>, ahead: (T, T) -> bool, a: seq<T>, b: seq<T>, n: nat)
    requires StrictTotal(ahead) && IsTop(all, ahead, a) && IsTop(all, ahead, b)
    requires n < |a| && n < |b| && a[..n] == b[..n] && a[n] != b[n]
    ensures ahead(a[n], b[n])
  {
    assert forall k :: 0 <= k < n ==> a[k] == a[..n][k] == b[k];
    if b[n] in a {
      var j :| 0 <= j < |a| && a[j] == b[n];
    }
  }

  lemma {:induction false} CountOfDistinct<T>(s: seq<T>)
    requires forall i, j :: 0 <= i < j < |s| ==> s[i] != s[j]
    ensures |Elements(s)| == |s|
  {
    if s != [] {
      var n := |s| - 1;
      CountOfDistinct(s[..n]);
      assert s == s[..n] + [s[n]];
      assert Elements(s) == Elements(s[..n]) + {s[n]} && s[n] !in Elements(s[..n]);
    }
  }

  lemma {:induction false} CountOfSubset<T>(a: set<T>, b: set<T>)
    requires a <= b
    ensures |a| <= |b|
  {
    if x :| x in a {
      CountOfSubset(a - {x}, b - {x});
    }
  }

  /** A list that leaves something out is shorter than the set. */
  lemma TopLeavesOut<T(!new)>(all: set<T>, ahead: (T, T) -> bool, top: seq<T>, y: T)
    requires StrictTotal(ahead) && IsTop(all, ahead, top) && y in all && y !in top
    ensures |top| < |all|
  {
    forall i, j | 0 <= i < j < |top| ensures top[i] != top[j] {
      assert ahead(top[i], top[j]);
    }
    CountOfDistinct(top);
    CountOfSubset(Elements(top) + {y}, all);
  }

  // ---------------------------------------------------------------- sorting by insertion

  function Inserted<T>(s: seq<T>, x: T, ahead: (T, T) -> bool): seq<T> {
    if s == [] then [x]
    else if ahead(x, s[0]) then [x] + s
    else [s[0]] + Inserted(s[1..], x, ahead)
  }

  lemma {:induction false} InsertedHas<T>(s: seq<T>, x: T, ahead: (T, T) -> bool, y: T)
    ensures y in Inserted(s, x, ahead) <==> y == x || y in s
    ensures |Inserted(s, x, ahead)| == |s| + 1
  {
    if s != [] && !ahead(x, s[0]) {
      InsertedHas(s[1..], x, ahead, y);
      assert y in s <==> y == s[0] || y in s[1..];
    }
  }

  lemma FirstIsAhead<T>(s: seq<T>, first: T, ahead: (T, T) -> bool)
    requires InOrder(s, ahead) && forall y <- s :: ahead(first, y)
    ensures InOrder([first] + s, ahead)
  {
  }

  lemma {:induction false} InsertedKeepsOrder<T(!new)>(s: seq<T>, x: T, ahead: (T, T) -> bool)
    requires StrictTotal(ahead) && InOrder(s, ahead) && x !in s
    ensures InOrder(Inserted(s, x, ahead), ahead)
    ensures forall y :: y in Inserted(s, x, ahead) <==> y == x || y in s
    ensures |Inserted(s, x, ahead)| == |s| + 1
  {
    forall y ensures y in Inserted(s, x, ahead) <==> y == x || y in s {
      InsertedHas(s, x, ahead, y);
    }
    InsertedHas(s, x, ahead, x);
    if s != [] {
      forall y | y in s[1..] ensures ahead(s[0], y) {
        var i :| 0 <= i < |s[1..]| && s[1..][i] == y;
        assert s[i + 1] == y;
      }
      if ahead(x, s[0]) {
        assert forall y <- s :: y == s[0] || y in s[1..];
        FirstIsAhead(s, x, ahead);
      } else {
        InsertedKeepsOrder(s[1..], x, ahead);
        FirstIsAhead(Inserted(s[1..], x, ahead), s[0], ahead);
      }
    }
  }
}
