/**
  * When the order of the names decides the clusters: music-hub/src/clusters.rs, `cluster` over a
  * relation that is not symmetric.
  */
module ClusterOrder {
  import opened Similarity
  import opened Clusters

  ghost predicate OneSided(a: string, b: string) {
    Similar(a, b) != Similar(b, a)
  }

  /** `to` places each of `names` somewhere in `names'`, no two in one place. */
  ghost predicate Places(names: seq<string>, names': seq<string>, to: seq<nat>) {
    && |to| == |names|
    && (forall i :: 0 <= i < |to| ==> to[i] < |names'| && names'[to[i]] == names[i])
    && (forall i, j :: 0 <= i < |to| && 0 <= j < |to| && i != j ==> to[i] != to[j])
  }

  /** `names'` lists the same names in another order; `to` and `from` say where each one goes and comes from. */
  ghost predicate Rearranges(names: seq<string>, names': seq<string>, to: seq<nat>, from: seq<nat>) {
    && Places(names, names', to) && Places(names', names, from)
    && (forall k :: 0 <= k < |to| ==> from[to[k]] == k)
    && (forall k :: 0 <= k < |from| ==> to[from[k]] == k)
  }

  // ---------------------------------------------------------------- links that hold in every order

  ghost predicate Mutual(a: string, b: string) {
    Similar(a, b) && Similar(b, a)
  }

  ghost predicate IsMutualPath(names: seq<string>, path: seq<nat>) {
    && path != []
    && (forall k :: 0 <= k < |path| ==> path[k] < |names|)
    && (forall k :: 0 < k < |path| ==> path[k - 1] != path[k] && Mutual(names[path[k - 1]], names[path[k]]))
  }

  /** A chain of names similar both ways leads from one to the other. */
  ghost predicate MutuallyConnected(names: seq<string>, i: nat, j: nat) {
    exists path: seq<nat> :: IsMutualPath(names, path) && path[0] == i && path[|path| - 1] == j
  }

  lemma MutualIsConnected(names: seq<string>, i: nat, j: nat)
    requires MutuallyConnected(names, i, j)
    ensures Connected(names, i, j)
  {
    var path: seq<nat> :| IsMutualPath(names, path) && path[0] == i && path[|path| - 1] == j;
    forall k | 0 < k < |path| ensures Linked(names, path[k - 1], path[k]) {
      assert Mutual(names[path[k - 1]], names[path[k]]);
    }
    assert IsPath(names, path);
  }

  lemma MutualJoins(names: seq<string>, i: nat, j: nat, k: nat)
    requires MutuallyConnected(names, i, j) && MutuallyConnected(names, j, k)
    ensures MutuallyConnected(names, i, k)
  {
    var p: seq<nat> :| IsMutualPath(names, p) && p[0] == i && p[|p| - 1] == j;
    var q: seq<nat> :| IsMutualPath(names, q) && q[0] == j && q[|q| - 1] == k;
    var r := p + q[1..];
    assert IsMutualPath(names, r) && r[0] == i && r[|r| - 1] == k;
  }

  lemma MutualTurns(names: seq<string>, i: nat, j: nat)
    requires MutuallyConnected(names, i, j)
    ensures MutuallyConnected(names, j, i)
  {
    var p: seq<nat> :| IsMutualPath(names, p) && p[0] == i && p[|p| - 1] == j;
    var r := Reversed(p);
    forall k | 0 < k < |r| ensures r[k - 1] != r[k] && Mutual(names[r[k - 1]], names[r[k]]) {
      assert Mutual(names[p[|p| - 1 - k]], names[p[|p| - k]]);
    }
    assert IsMutualPath(names, r) && r[0] == j && r[|r| - 1] == i;
  }

  lemma PlacedStaysMutual(names: seq<string>, names': seq<string>, to: seq<nat>, i: nat, j: nat)
    requires Places(names, names', to) && i < |names| && j < |names|
    requires MutuallyConnected(names, i, j)
    ensures MutuallyConnected(names', to[i], to[j])
  {
    var p: seq<nat> :| IsMutualPath(names, p) && p[0] == i && p[|p| - 1] == j;
    var q := Moved(p, to);
    forall k | 0 < k < |q| ensures q[k - 1] != q[k] && Mutual(names'[q[k - 1]], names'[q[k]]) {
      assert Mutual(names[p[k - 1]], names[p[k]]);
    }
    assert IsMutualPath(names', q) && q[0] == to[i] && q[|q| - 1] == to[j];
  }

  function Moved(p: seq<nat>, to: seq<nat>): (q: seq<nat>)
    requires forall k :: 0 <= k < |p| ==> p[k] < |to|
    ensures |q| == |p| && forall k :: 0 <= k < |p| ==> q[k] == to[p[k]]
  {
    seq(|p|, k requires 0 <= k < |p| => to[p[k]])
  }

  /** Connectedness by links similar both ways does not depend on the order of the names. */
  lemma MutualIgnoresOrder(names: seq<string>, names': seq<string>, to: seq<nat>, from: seq<nat>, i: nat, j: nat)
    requires Rearranges(names, names', to, from) && i < |names| && j < |names|
    ensures MutuallyConnected(names, i, j) <==> MutuallyConnected(names', to[i], to[j])
  {
    if MutuallyConnected(names, i, j) {
      PlacedStaysMutual(names, names', to, i, j);
    }
    if MutuallyConnected(names', to[i], to[j]) {
      PlacedStaysMutual(names', names, from, to[i], to[j]);
    }
  }

  // ---------------------------------------------------------------- lists whose one-sided pairs are bridged

  /** Every one-sided pair is joined by links that hold both ways. */
  ghost predicate Bridged(names: seq<string>) {
    forall i: nat, j: nat :: i < |names| && j < |names| && OneSided(names[i], names[j]) ==> MutuallyConnected(names, i, j)
  }

  lemma {:induction false} BridgedPathIsMutual(names: seq<string>, path: seq<nat>)
    requires Bridged(names) && IsPath(names, path)
    ensures MutuallyConnected(names, path[0], path[|path| - 1])
    decreases |path|
  {
    var n := |path| - 1;
    if n == 0 {
      assert IsMutualPath(names, path);
    } else {
      assert IsPath(names, path[..n]);
      BridgedPathIsMutual(names, path[..n]);
      BridgedLinkIsMutual(names, path[n - 1], path[n]);
      MutualJoins(names, path[0], path[n - 1], path[n]);
    }
  }

  lemma BridgedLinkIsMutual(names: seq<string>, x: nat, y: nat)
    requires Bridged(names) && x < |names| && y < |names| && Linked(names, x, y)
    ensures MutuallyConnected(names, x, y)
  {
    if !OneSided(names[x], names[y]) {
      var path := [x, y];
      assert IsMutualPath(names, path) && path[0] == x && path[|path| - 1] == y;
    }
  }

  lemma BridgedConnectsMutually(names: seq<string>, i: nat, j: nat)
    requires Bridged(names)
    ensures Connected(names, i, j) <==> MutuallyConnected(names, i, j)
  {
    if path: seq<nat> :| IsPath(names, path) && path[0] == i && path[|path| - 1] == j {
      BridgedPathIsMutual(names, path);
    }
    if MutuallyConnected(names, i, j) {
      MutualIsConnected(names, i, j);
    }
  }

  lemma RearrangedStaysBridged(names: seq<string>, names': seq<string>, to: seq<nat>, from: seq<nat>)
    requires Rearranges(names, names', to, from) && Bridged(names)
    ensures Bridged(names')
  {
    forall x: nat, y: nat | x < |names'| && y < |names'| && OneSided(names'[x], names'[y])
      ensures MutuallyConnected(names', x, y)
    {
      assert names'[x] == names[from[x]] && names'[y] == names[from[y]];
      assert MutuallyConnected(names, from[x], from[y]);
      PlacedStaysMutual(names, names', to, from[x], from[y]);
    }
  }

  /** Such a list is grouped alike in every order. */
  lemma BridgedIgnoresOrder(names: seq<string>, names': seq<string>, to: seq<nat>, from: seq<nat>, i: nat, j: nat)
    requires Rearranges(names, names', to, from) && Bridged(names) && i < |names| && j < |names|
    ensures Connected(names, i, j) <==> Connected(names', to[i], to[j])
  {
    RearrangedStaysBridged(names, names', to, from);
    BridgedConnectsMutually(names, i, j);
    BridgedConnectsMutually(names', to[i], to[j]);
    MutualIgnoresOrder(names, names', to, from, i, j);
  }

  // ---------------------------------------------------------------- two orders that tell the rest apart

  /** The indices below `n` of the names with three bytes, or of the others, in order. */
  function Picked(names: seq<string>, three: bool, n: nat): (s: seq<nat>)
    requires n <= |names|
    ensures forall i: nat :: i in s <==> i < n && (Bytes(names[i]) == 3) == three
    ensures Ascending(s)
  {
    if n == 0 then []
    else
      var s := Picked(names, three, n - 1);
      assert forall k :: 0 <= k < |s| ==> s[k] in s;
      if (Bytes(names[n - 1]) == 3) == three then s + [n - 1] else s
  }

  /** The names with three bytes all first, or all last. */
  function Order(names: seq<string>, threesFirst: bool): (order: seq<nat>)
    ensures forall k :: 0 <= k < |order| ==> order[k] < |names|
  {
    var s, t := Picked(names, threesFirst, |names|), Picked(names, !threesFirst, |names|);
    assert forall k :: 0 <= k < |s| ==> s[k] in s;
    assert forall k :: 0 <= k < |t| ==> t[k] in t;
    s + t
  }

  lemma OrderIsOnto(names: seq<string>, threesFirst: bool, i: nat)
    requires i < |names|
    ensures i in Order(names, threesFirst)
  {
    assert i in Picked(names, threesFirst, |names|) || i in Picked(names, !threesFirst, |names|);
  }

  lemma OrderIsDistinct(names: seq<string>, threesFirst: bool, a: nat, b: nat)
    requires a < b < |Order(names, threesFirst)|
    ensures Order(names, threesFirst)[a] != Order(names, threesFirst)[b]
  {
    var s, t := Picked(names, threesFirst, |names|), Picked(names, !threesFirst, |names|);
    var order := Order(names, threesFirst);
    if a < |s| <= b {
      assert order[a] == s[a] && s[a] in s && order[b] == t[b - |s|] && t[b - |s|] in t;
    } else if |s| <= a {
      assert order[a] == t[a - |s|] && order[b] == t[b - |s|];
    }
  }

  function PlaceOf(order: seq<nat>, i: nat): (k: nat)
    requires i in order
    ensures k < |order| && order[k] == i
  {
    if order[0] == i then 0 else 1 + PlaceOf(order[1..], i)
  }

  function NamesIn(names: seq<string>, order: seq<nat>): (names': seq<string>)
    requires forall k :: 0 <= k < |order| ==> order[k] < |names|
    ensures |names'| == |order| && forall k :: 0 <= k < |order| ==> names'[k] == names[order[k]]
  {
    seq(|order|, k requires 0 <= k < |order| => names[order[k]])
  }

  function Inverse(order: seq<nat>, n: nat): (to: seq<nat>)
    requires forall i: nat :: i < n ==> i in order
    ensures |to| == n && forall i :: 0 <= i < n ==> to[i] < |order| && order[to[i]] == i
  {
    seq(n, i requires 0 <= i < n => PlaceOf(order, i))
  }

  lemma OrderRearranges(names: seq<string>, order: seq<nat>)
    requires forall k :: 0 <= k < |order| ==> order[k] < |names|
    requires forall a, b :: 0 <= a < |order| && 0 <= b < |order| && a != b ==> order[a] != order[b]
    requires forall i: nat :: i < |names| ==> i in order
    ensures Rearranges(names, NamesIn(names, order), Inverse(order, |names|), order)
  {
  }

  /** The list with the three-byte names first or last is a rearrangement. */
  lemma Sorted(names: seq<string>, threesFirst: bool) returns (names': seq<string>, to: seq<nat>, from: seq<nat>)
    ensures Rearranges(names, names', to, from)
    ensures forall a, b :: 0 <= a < b < |names'| && (Bytes(names'[b]) == 3) == threesFirst ==> (Bytes(names'[a]) == 3) == threesFirst
  {
    from := Order(names, threesFirst);
    forall i: nat | i < |names| ensures i in from {
      OrderIsOnto(names, threesFirst, i);
    }
    forall a, b | 0 <= a < |from| && 0 <= b < |from| && a != b ensures from[a] != from[b] {
      if a < b { OrderIsDistinct(names, threesFirst, a, b); } else { OrderIsDistinct(names, threesFirst, b, a); }
    }
    names', to := NamesIn(names, from), Inverse(from, |names|);
    OrderRearranges(names, from);
    SortedApart(names, threesFirst);
  }

  lemma SortedApart(names: seq<string>, threesFirst: bool)
    ensures var order := Order(names, threesFirst);
      forall a, b :: 0 <= a < b < |order| && (Bytes(names[order[b]]) == 3) == threesFirst ==>
        (Bytes(names[order[a]]) == 3) == threesFirst
  {
    var s, t := Picked(names, threesFirst, |names|), Picked(names, !threesFirst, |names|);
    var order := Order(names, threesFirst);
    assert forall k :: 0 <= k < |s| ==> s[k] in s && order[k] == s[k];
    assert forall k :: 0 <= k < |t| ==> t[k] in t;
    assert forall k :: |s| <= k < |order| ==> order[k] == t[k - |s|];
  }

  lemma ShortAfterLong(a: string, b: string)
    requires OneSided(a, b) && Similar(a, b)
    ensures Bytes(a) == 4 && Bytes(b) == 3
  {
    OneSidedExactlyAtFourAndThree(a, b);
  }

  /** With all three-byte names in front no one-sided pair is linked. */
  lemma ThreesFirstIsMutual(names: seq<string>, i: nat, j: nat)
    requires forall a, b :: 0 <= a < b < |names| && Bytes(names[b]) == 3 ==> Bytes(names[a]) == 3
    requires Connected(names, i, j)
    ensures MutuallyConnected(names, i, j)
  {
    var path: seq<nat> :| IsPath(names, path) && path[0] == i && path[|path| - 1] == j;
    forall k | 0 < k < |path| ensures path[k - 1] != path[k] && Mutual(names[path[k - 1]], names[path[k]]) {
      var x, y := path[k - 1], path[k];
      assert Linked(names, x, y);
      if OneSided(names[x], names[y]) {
        if x < y { ShortAfterLong(names[x], names[y]); } else { ShortAfterLong(names[y], names[x]); }
      }
    }
    assert IsMutualPath(names, path);
  }

  /** With all three-byte names at the end every one-sided pair is. */
  lemma ThreesLastIsLinked(names: seq<string>, x: nat, y: nat)
    requires forall a, b :: 0 <= a < b < |names| && Bytes(names[b]) != 3 ==> Bytes(names[a]) != 3
    requires x < |names| && y < |names| && Similar(names[x], names[y]) && !Similar(names[y], names[x])
    ensures Connected(names, x, y)
  {
    ShortAfterLong(names[x], names[y]);
    LinkConnects(names, x, y);
  }

  // ---------------------------------------------------------------- the exact condition

  /** Every order of the names groups them alike. */
  ghost predicate OrderIndependent(names: seq<string>) {
    forall names', to, from :: Rearranges(names, names', to, from) ==> GroupsAlike(names, names', to)
  }

  ghost predicate GroupsAlike(names: seq<string>, names': seq<string>, to: seq<nat>)
    requires |to| == |names|
  {
    forall i: nat, j: nat :: i < |names| && j < |names| ==> (Connected(names, i, j) <==> Connected(names', to[i], to[j]))
  }

  /** An unbridged pair is apart in one order and together in another. */
  lemma UnbridgedDependsOnOrder(names: seq<string>, x: nat, y: nat)
    requires x < |names| && y < |names| && Similar(names[x], names[y]) && !Similar(names[y], names[x])
    requires !MutuallyConnected(names, x, y)
    ensures !OrderIndependent(names)
  {
    var early, to, from := Sorted(names, true);
    if Connected(names, x, y) {
      if Connected(early, to[x], to[y]) {
        ThreesFirstIsMutual(early, to[x], to[y]);
        MutualIgnoresOrder(names, early, to, from, x, y);
      }
      assert !GroupsAlike(names, early, to);
    } else {
      var late, to', from' := Sorted(names, false);
      ThreesLastIsLinked(late, to'[x], to'[y]);
      assert !GroupsAlike(names, late, to');
    }
  }

  /**
    * A list of names is grouped alike in every order exactly when each of its one-sided pairs is
    * joined by links that hold both ways.
    */
  lemma OrderIndependentExactly(names: seq<string>)
    ensures OrderIndependent(names) <==> Bridged(names)
  {
    if Bridged(names) {
      forall names', to, from | Rearranges(names, names', to, from) ensures GroupsAlike(names, names', to) {
        forall i: nat, j: nat | i < |names| && j < |names|
          ensures Connected(names, i, j) <==> Connected(names', to[i], to[j])
        {
          BridgedIgnoresOrder(names, names', to, from, i, j);
        }
      }
    } else {
      var x: nat, y: nat :| x < |names| && y < |names| && OneSided(names[x], names[y]) && !MutuallyConnected(names, x, y);
      if Similar(names[x], names[y]) {
        UnbridgedDependsOnOrder(names, x, y);
      } else {
        if MutuallyConnected(names, y, x) {
          MutualTurns(names, y, x);
        }
        UnbridgedDependsOnOrder(names, y, x);
      }
    }
  }

  lemma FirstStepIsMutual(names: seq<string>)
    requires |names| == 2 && MutuallyConnected(names, 0, 1)
    ensures Mutual(names[0], names[1])
  {
    var path: seq<nat> :| IsMutualPath(names, path) && path[0] == 0 && path[|path| - 1] == 1;
    assert Mutual(names[path[0]], names[path[1]]);
  }

  /** The smallest list that depends on its order. */
  lemma OrderMatters()
    ensures !OrderIndependent(["abcd", "abc"])
  {
    var names := ["abcd", "abc"];
    OneSidedExample();
    if MutuallyConnected(names, 0, 1) {
      FirstStepIsMutual(names);
    }
    UnbridgedDependsOnOrder(names, 0, 1);
  }
}
