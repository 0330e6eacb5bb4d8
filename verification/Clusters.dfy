/**
  * Tag clusters: music-hub/src/clusters.rs, `cluster`. An array union-find with path
  * compression, proved to return the connected components of the similarity graph.
  */
module Clusters {
  import opened Similarity

  // ---------------------------------------------------------------- parent arrays

  /**
    * `root` names every node's root in the parent array `p`; `depth` falls along each parent
    * step, so walking up terminates.
    */
  ghost predicate Forest(p: seq<nat>, root: seq<nat>, depth: seq<nat>) {
    && |root| == |depth| == |p|
    && (forall x :: 0 <= x < |p| ==> p[x] < |p|)
    && (forall x :: 0 <= x < |p| ==> root[x] < |p|)
    && (forall x {:trigger root[x]} :: 0 <= x < |p| ==> p[root[x]] == root[x])
    && (forall x {:trigger p[x]} :: 0 <= x < |p| && p[x] == x ==> root[x] == x)
    && (forall x {:trigger p[x]} :: 0 <= x < |p| && p[x] != x ==> root[p[x]] == root[x] && depth[p[x]] < depth[x])
  }

  /** A parent array has one root map: what `Forest` says of roots is not a choice. */
  lemma {:induction false} RootsAreUnique(p: seq<nat>, r: seq<nat>, d: seq<nat>, r': seq<nat>, d': seq<nat>, x: nat)
    requires Forest(p, r, d) && Forest(p, r', d') && x < |p|
    ensures r[x] == r'[x]
    decreases d[x]
  {
    if p[x] != x {
      RootsAreUnique(p, r, d, r', d', p[x]);
    }
  }

  /** Walk to the root, then point every node on the way at it. No node's root changes. */
  method Find(p: array<nat>, x: nat, ghost root: seq<nat>, ghost depth: seq<nat>) returns (r: nat)
    requires Forest(p[..], root, depth) && x < p.Length
    modifies p
    ensures Forest(p[..], root, depth)
    ensures r == root[x]
    ensures p[x] == r
  {
    r := x;
    while p[r] != r
      invariant r < p.Length && root[r] == root[x]
      invariant r == x || depth[r] < depth[x]
      decreases depth[r]
    {
      r := p[r];
    }
    var c: nat := x;
    while p[c] != r
      invariant c < p.Length && |root| == |depth| == p.Length
      invariant root[c] == r && root[x] == r
      invariant Forest(p[..], root, depth)
      invariant c == x || p[x] == r
      decreases depth[c]
    {
      ShortcutKeepsForest(p[..], root, depth, c);
      var next := p[c];
      p[c] := r;
      c := next;
    }
  }

  lemma {:induction false} RootLiesAbove(p: seq<nat>, root: seq<nat>, depth: seq<nat>, x: nat)
    requires Forest(p, root, depth) && x < |p| && p[x] != x
    ensures depth[root[x]] < depth[x]
    decreases depth[x]
  {
    if p[p[x]] != p[x] {
      RootLiesAbove(p, root, depth, p[x]);
    }
  }

  lemma ShortcutKeepsForest(p: seq<nat>, root: seq<nat>, depth: seq<nat>, c: nat)
    requires Forest(p, root, depth) && c < |p| && p[c] != root[c]
    ensures Forest(p[c := root[c]], root, depth)
    ensures p[c] != c && depth[p[c]] < depth[c]
  {
    RootLiesAbove(p, root, depth, c);
  }

  /** Hanging root `a` under root `b` merges exactly their two classes. */
  ghost function Merged(root: seq<nat>, a: nat, b: nat): seq<nat> {
    seq(|root|, x requires 0 <= x < |root| => if root[x] == a then b else root[x])
  }

  ghost function Sunk(root: seq<nat>, depth: seq<nat>, a: nat, drop: nat): seq<nat>
    requires |root| == |depth|
  {
    seq(|root|, x requires 0 <= x < |root| => if root[x] == a then depth[x] + drop else depth[x])
  }

  lemma MergeKeepsForest(p: seq<nat>, root: seq<nat>, depth: seq<nat>, a: nat, b: nat)
    requires Forest(p, root, depth)
    requires a < |p| && b < |p| && p[a] == a && p[b] == b && a != b
    ensures Forest(p[a := b], Merged(root, a, b), Sunk(root, depth, a, depth[b] + 1))
  {
    var p', root', depth' := p[a := b], Merged(root, a, b), Sunk(root, depth, a, depth[b] + 1);
    forall x | 0 <= x < |p|
      ensures p'[root'[x]] == root'[x]
      ensures p'[x] == x ==> root'[x] == x
      ensures p'[x] != x ==> root'[p'[x]] == root'[x] && depth'[p'[x]] < depth'[x]
    {
    }
  }

  // ---------------------------------------------------------------- the graph

  ghost predicate Linked(names: seq<string>, i: nat, j: nat)
    requires i < |names| && j < |names|
  {
    (i < j && Similar(names[i], names[j])) || (j < i && Similar(names[j], names[i]))
  }

  ghost predicate IsPath(names: seq<string>, path: seq<nat>) {
    && path != []
    && (forall k :: 0 <= k < |path| ==> path[k] < |names|)
    && (forall k :: 0 < k < |path| ==> Linked(names, path[k - 1], path[k]))
  }

  ghost predicate Connected(names: seq<string>, i: nat, j: nat) {
    exists path: seq<nat> :: IsPath(names, path) && path[0] == i && path[|path| - 1] == j
  }

  lemma Joins(names: seq<string>, i: nat, j: nat, k: nat)
    requires Connected(names, i, j) && Connected(names, j, k)
    ensures Connected(names, i, k)
  {
    var p: seq<nat> :| IsPath(names, p) && p[0] == i && p[|p| - 1] == j;
    var q: seq<nat> :| IsPath(names, q) && q[0] == j && q[|q| - 1] == k;
    var r := p + q[1..];
    assert IsPath(names, r) && r[0] == i && r[|r| - 1] == k;
  }

  lemma Turns(names: seq<string>, i: nat, j: nat)
    requires Connected(names, i, j)
    ensures Connected(names, j, i)
  {
    var p: seq<nat> :| IsPath(names, p) && p[0] == i && p[|p| - 1] == j;
    var r := Reversed(p);
    ReversedIsPath(names, p);
    assert r[0] == j && r[|r| - 1] == i;
  }

  function Reversed(p: seq<nat>): (r: seq<nat>)
    ensures |r| == |p| && forall k :: 0 <= k < |p| ==> r[k] == p[|p| - 1 - k]
  {
    seq(|p|, k requires 0 <= k < |p| => p[|p| - 1 - k])
  }

  lemma ReversedIsPath(names: seq<string>, p: seq<nat>)
    requires IsPath(names, p)
    ensures IsPath(names, Reversed(p))
  {
    var r := Reversed(p);
    forall k | 0 < k < |r| ensures Linked(names, r[k - 1], r[k]) {
      assert Linked(names, p[|p| - 1 - k], p[|p| - k]);
    }
  }

  lemma LinkConnects(names: seq<string>, i: nat, j: nat)
    requires i < |names| && j < |names| && (i == j || Linked(names, i, j))
    ensures Connected(names, i, j)
  {
    var path := if i == j then [i] else [i, j];
    assert IsPath(names, path) && path[0] == i && path[|path| - 1] == j;
  }

  // ---------------------------------------------------------------- what the loops keep

  /** Nodes that share a root are connected. */
  ghost predicate Sound(names: seq<string>, root: seq<nat>) {
    && |root| == |names|
    && forall x, y :: 0 <= x < |names| && 0 <= y < |names| && root[x] == root[y] ==> Connected(names, x, y)
  }

  /** Every link looked at so far, those before `(i, j)` in row order, is inside one class. */
  ghost predicate Covers(names: seq<string>, root: seq<nat>, i: nat, j: nat) {
    && |root| == |names|
    && forall x: nat, y: nat :: x < y < |names| && Similar(names[x], names[y]) && (x < i || (x == i && y < j))
         ==> root[x] == root[y]
  }

  lemma MergeKeepsSound(names: seq<string>, root: seq<nat>, i: nat, j: nat)
    requires Sound(names, root) && i < |names| && j < |names| && Linked(names, i, j)
    ensures Sound(names, Merged(root, root[i], root[j]))
  {
    var root' := Merged(root, root[i], root[j]);
    LinkConnects(names, i, j);
    Turns(names, i, j);
    forall x, y | 0 <= x < |names| && 0 <= y < |names| && root'[x] == root'[y]
      ensures Connected(names, x, y)
    {
      if root[x] != root[y] {
        var (u, v) := if root[x] == root[i] then (i, j) else (j, i);
        assert root[x] == root[u] && root[v] == root[y];
        Joins(names, x, u, v);
        Joins(names, x, v, y);
      }
    }
  }

  lemma CoversNextPair(names: seq<string>, root: seq<nat>, root': seq<nat>, i: nat, j: nat)
    requires Covers(names, root, i, j) && i < j < |names|
    requires root' == if Similar(names[i], names[j]) then Merged(root, root[i], root[j]) else root
    ensures Covers(names, root', i, j + 1)
  {
  }

  lemma CoversNextRow(names: seq<string>, root: seq<nat>, i: nat)
    requires Covers(names, root, i, |names|)
    ensures Covers(names, root, i + 1, 0)
  {
  }

  lemma {:induction false} PathKeepsRoot(names: seq<string>, root: seq<nat>, path: seq<nat>)
    requires Covers(names, root, |names|, 0) && IsPath(names, path)
    ensures root[path[0]] == root[path[|path| - 1]]
  {
    if |path| > 1 {
      PathKeepsRoot(names, root, path[1..]);
      assert Linked(names, path[0], path[1]);
    }
  }

  lemma SameRootIsConnected(names: seq<string>, root: seq<nat>, i: nat, j: nat)
    requires Sound(names, root) && Covers(names, root, |names|, 0)
    requires i < |names| && j < |names|
    ensures root[i] == root[j] <==> Connected(names, i, j)
  {
    if path: seq<nat> :| IsPath(names, path) && path[0] == i && path[|path| - 1] == j {
      PathKeepsRoot(names, root, path);
    }
  }

  // ---------------------------------------------------------------- grouping

  ghost predicate Ascending(s: seq<nat>) {
    forall a, b :: 0 <= a < b < |s| ==> s[a] < s[b]
  }

  /** `byRoot` files the indices below `n` under their roots, in ascending order. */
  ghost predicate Filed(byRoot: map<nat, seq<nat>>, root: seq<nat>, n: nat) {
    && n <= |root|
    && (forall k :: k in byRoot ==> k < |root| && Ascending(byRoot[k]))
    && (forall k :: k in byRoot ==> forall x: nat :: x in byRoot[k] ==> x < n && root[x] == k)
    && (forall x: nat :: x < n ==> root[x] in byRoot && x in byRoot[root[x]])
  }

  ghost predicate Together(groups: seq<seq<nat>>, i: nat, j: nat) {
    exists g :: 0 <= g < |groups| && i in groups[g] && j in groups[g]
  }

  /** Groups are ascending lists of at least two indices, and no two groups meet. */
  ghost predicate WellGrouped(groups: seq<seq<nat>>, n: nat) {
    && (forall g :: 0 <= g < |groups| ==> |groups[g]| >= 2 && Ascending(groups[g]))
    && (forall g, x: nat :: 0 <= g < |groups| && x in groups[g] ==> x < n)
    && (forall g, h, x: nat :: 0 <= g < h < |groups| && x in groups[g] ==> x !in groups[h])
  }

  /**
    * The roots after every similar pair of the rows before `i`, and of row `i` before `j`, has
    * been merged in turn, the first name's root under the second's.
    */
  ghost function RootsAfter(names: seq<string>, i: nat, j: nat): (root: seq<nat>)
    requires i <= |names| && j <= |names|
    ensures |root| == |names|
    decreases i, j
  {
    if j > i + 1 then
      var root := RootsAfter(names, i, j - 1);
      if Similar(names[i], names[j - 1]) then Merged(root, root[i], root[j - 1]) else root
    else if i == 0 then seq(|names|, x => x)
    else RootsAfter(names, i - 1, |names|)
  }

  lemma AloneIsRight(names: seq<string>, root: seq<nat>, j: nat)
    requires |root| == |names| && j <= 1 && forall x :: 0 <= x < |names| ==> root[x] == x
    ensures Sound(names, root) && Covers(names, root, 0, j)
  {
    forall x | 0 <= x < |names| ensures Connected(names, x, x) {
      LinkConnects(names, x, x);
    }
  }

  lemma NextPairIsRight(names: seq<string>, root: seq<nat>, i: nat, j: nat)
    requires Sound(names, root) && Covers(names, root, i, j) && i < j < |names|
    ensures var root' := if Similar(names[i], names[j]) then Merged(root, root[i], root[j]) else root;
      Sound(names, root') && Covers(names, root', i, j + 1)
  {
    var root' := if Similar(names[i], names[j]) then Merged(root, root[i], root[j]) else root;
    CoversNextPair(names, root, root', i, j);
    if Similar(names[i], names[j]) {
      MergeKeepsSound(names, root, i, j);
    }
  }

  lemma NextRowIsRight(names: seq<string>, root: seq<nat>, i: nat, j: nat)
    requires Covers(names, root, i, |names|) && j <= i + 2
    ensures Covers(names, root, i + 1, j)
  {
    CoversNextRow(names, root, i);
  }

  /** They are sound, and cover every pair compared so far. */
  lemma {:induction false} RootsAreRight(names: seq<string>, i: nat, j: nat)
    requires i <= |names| && j <= |names|
    ensures Sound(names, RootsAfter(names, i, j)) && Covers(names, RootsAfter(names, i, j), i, j)
    decreases i, j
  {
    if j > i + 1 {
      RootsAreRight(names, i, j - 1);
      NextPairIsRight(names, RootsAfter(names, i, j - 1), i, j - 1);
    } else if i == 0 {
      AloneIsRight(names, RootsAfter(names, i, j), j);
    } else {
      RootsAreRight(names, i - 1, |names|);
      NextRowIsRight(names, RootsAfter(names, i, j), i - 1, j);
    }
  }

  /** Groups stand in the order of their roots. */
  ghost predicate RootOrder(groups: seq<seq<nat>>, root: seq<nat>) {
    forall g, h :: 0 <= g < h < |groups| ==>
      && groups[g] != [] && groups[h] != [] && groups[g][0] < |root| && groups[h][0] < |root|
      && root[groups[g][0]] < root[groups[h][0]]
  }

  /**
    * The groups are the connected components of size at least two: two different names stand
    * in one group exactly when a chain of similar names leads from one to the other. They come
    * in the order of the roots that merging the similar pairs in turn leaves.
    */
  method Cluster(names: seq<string>) returns (groups: seq<seq<nat>>)
    ensures WellGrouped(groups, |names|)
    ensures RootOrder(groups, RootsAfter(names, |names|, 0))
    ensures forall i: nat, j: nat :: i < |names| && j < |names| && i != j ==>
      (Together(groups, i, j) <==> Connected(names, i, j))
  {
    var n := |names|;
    var parent := new nat[n](x => x);
    ghost var root: seq<nat> := seq(n, x => x);
    ghost var depth: seq<nat> := seq(n, x => 0);
    for i := 0 to n
      invariant Forest(parent[..], root, depth) && parent.Length == n
      invariant root == RootsAfter(names, i, 0)
    {
      root, depth := LinkRow(names, parent, i, root, depth);
    }
    groups := Groups(parent, root, depth);
    RootsAreRight(names, n, 0);
    forall i: nat, j: nat | i < n && j < n && i != j
      ensures Together(groups, i, j) <==> Connected(names, i, j)
    {
      SameRootIsConnected(names, root, i, j);
    }
  }

  /** The inner loop: compare name `i` with every later one. */
  method LinkRow(names: seq<string>, parent: array<nat>, i: nat, ghost root: seq<nat>, ghost depth: seq<nat>)
    returns (ghost root': seq<nat>, ghost depth': seq<nat>)
    requires Forest(parent[..], root, depth) && parent.Length == |names| && i < |names|
    requires root == RootsAfter(names, i, 0)
    modifies parent
    ensures Forest(parent[..], root', depth') && root' == RootsAfter(names, i + 1, 0)
  {
    root', depth' := root, depth;
    for j := i + 1 to |names|
      invariant Forest(parent[..], root', depth')
      invariant root' == RootsAfter(names, i, j)
    {
      root', depth' := LinkPair(names, parent, i, j, root', depth');
    }
  }

  /** One pair of the inner loop. */
  method LinkPair(names: seq<string>, parent: array<nat>, i: nat, j: nat, ghost root: seq<nat>, ghost depth: seq<nat>)
    returns (ghost root': seq<nat>, ghost depth': seq<nat>)
    requires Forest(parent[..], root, depth) && parent.Length == |names| && i < j < |names|
    requires root == RootsAfter(names, i, j)
    modifies parent
    ensures Forest(parent[..], root', depth') && root' == RootsAfter(names, i, j + 1)
  {
    root', depth' := root, depth;
    var alike := AreSimilar(names[i], names[j]);
    if alike {
      root', depth' := Union(parent, i, j, root, depth);
    }
  }

  /** The body of the pair loop: link the two roots unless they are one. */
  method Union(parent: array<nat>, i: nat, j: nat, ghost root: seq<nat>, ghost depth: seq<nat>)
    returns (ghost root': seq<nat>, ghost depth': seq<nat>)
    requires Forest(parent[..], root, depth) && i < parent.Length && j < parent.Length
    modifies parent
    ensures Forest(parent[..], root', depth')
    ensures root' == Merged(root, root[i], root[j])
  {
    var ri := Find(parent, i, root, depth);
    var rj := Find(parent, j, root, depth);
    root', depth' := Merged(root, ri, rj), depth;
    if ri != rj {
      ghost var before := parent[..];
      depth' := Sunk(root, depth, ri, depth[rj] + 1);
      parent[ri] := rj;
      assert parent[..] == before[ri := rj];
      MergeKeepsForest(before, root, depth, ri, rj);
    } else {
      assert root' == root;
    }
  }

  /** Files every index under its root, then keeps the lists of two or more. */
  method Groups(parent: array<nat>, ghost root: seq<nat>, ghost depth: seq<nat>) returns (groups: seq<seq<nat>>)
    requires Forest(parent[..], root, depth)
    modifies parent
    ensures WellGrouped(groups, |root|) && RootOrder(groups, root)
    ensures forall i: nat, j: nat :: i < |root| && j < |root| && i != j ==>
      (Together(groups, i, j) <==> root[i] == root[j])
  {
    var byRoot := FileAll(parent, root, depth);
    groups := Kept(byRoot, root);
  }

  method FileAll(parent: array<nat>, ghost root: seq<nat>, ghost depth: seq<nat>) returns (byRoot: map<nat, seq<nat>>)
    requires Forest(parent[..], root, depth)
    modifies parent
    ensures Filed(byRoot, root, |root|)
  {
    byRoot := map[];
    for i := 0 to parent.Length
      invariant Forest(parent[..], root, depth)
      invariant Filed(byRoot, root, i)
    {
      var r := Find(parent, i, root, depth);
      FileOne(byRoot, root, i);
      byRoot := byRoot[r := (if r in byRoot then byRoot[r] else []) + [i]];
    }
  }

  lemma FileOne(byRoot: map<nat, seq<nat>>, root: seq<nat>, i: nat)
    requires Filed(byRoot, root, i) && i < |root| && root[i] < |root|
    ensures Filed(byRoot[root[i] := (if root[i] in byRoot then byRoot[root[i]] else []) + [i]], root, i + 1)
  {
    var r := root[i];
    if r in byRoot {
      assert forall k :: 0 <= k < |byRoot[r]| ==> byRoot[r][k] in byRoot[r];
    }
    var filed := byRoot[r := (if r in byRoot then byRoot[r] else []) + [i]];
    forall x: nat | x < i + 1 ensures root[x] in filed && x in filed[root[x]] {
      assert x < i ==> x in byRoot[root[x]];
    }
  }

  /** The lists of two or more, in the order of their keys. */
  method Kept(byRoot: map<nat, seq<nat>>, ghost root: seq<nat>) returns (groups: seq<seq<nat>>)
    requires Filed(byRoot, root, |root|)
    ensures WellGrouped(groups, |root|) && RootOrder(groups, root)
    ensures forall i: nat, j: nat :: i < |root| && j < |root| && i != j ==>
      (Together(groups, i, j) <==> root[i] == root[j])
  {
    groups := [];
    ghost var keys: seq<nat> := [];
    var unseen := byRoot.Keys;
    while unseen != {}
      invariant unseen <= byRoot.Keys
      invariant KeptSoFar(groups, keys, byRoot, unseen)
    {
      var k := Smallest(unseen);
      unseen := unseen - {k};
      if |byRoot[k]| >= 2 {
        groups := groups + [byRoot[k]];
        keys := keys + [k];
      }
    }
    KeptAll(groups, keys, byRoot, root);
  }

  /** `groups` are the lists of two or more whose key has been passed, by ascending key. */
  ghost predicate KeptSoFar(groups: seq<seq<nat>>, keys: seq<nat>, byRoot: map<nat, seq<nat>>, unseen: set<nat>) {
    && |keys| == |groups| && Ascending(keys)
    && (forall g :: 0 <= g < |keys| ==>
          keys[g] in byRoot && byRoot[keys[g]] == groups[g] && |groups[g]| >= 2)
    && (forall g, u: nat :: 0 <= g < |keys| && u in unseen ==> keys[g] < u)
    && (forall r: nat :: r in byRoot && r !in unseen && |byRoot[r]| >= 2 ==> r in keys)
  }

  lemma KeptAll(groups: seq<seq<nat>>, keys: seq<nat>, byRoot: map<nat, seq<nat>>, root: seq<nat>)
    requires Filed(byRoot, root, |root|)
    requires KeptSoFar(groups, keys, byRoot, {})
    ensures WellGrouped(groups, |root|) && RootOrder(groups, root)
    ensures forall i: nat, j: nat :: i < |root| && j < |root| && i != j ==>
      (Together(groups, i, j) <==> root[i] == root[j])
  {
    forall g, x: nat | 0 <= g < |groups| && x in groups[g]
      ensures x < |root| && root[x] == keys[g]
    {
      assert x in byRoot[keys[g]];
    }
    forall g | 0 <= g < |groups| ensures groups[g][0] < |root| && root[groups[g][0]] == keys[g] {
      assert groups[g][0] in groups[g];
    }
    forall i: nat, j: nat | i < |root| && j < |root| && i != j && root[i] == root[j]
      ensures Together(groups, i, j)
    {
      TwoMembers(byRoot, root, i, j);
      var g :| 0 <= g < |keys| && keys[g] == root[i];
      assert i in groups[g] && j in groups[g];
    }
  }

  lemma TwoMembers(byRoot: map<nat, seq<nat>>, root: seq<nat>, i: nat, j: nat)
    requires Filed(byRoot, root, |root|)
    requires i < |root| && j < |root| && i != j && root[i] == root[j]
    ensures root[i] in byRoot && |byRoot[root[i]]| >= 2
    ensures i in byRoot[root[i]] && j in byRoot[root[i]]
  {
    var s := byRoot[root[i]];
    var a :| 0 <= a < |s| && s[a] == i;
    var b :| 0 <= b < |s| && s[b] == j;
  }

  method Smallest(s: set<nat>) returns (k: nat)
    requires s != {}
    ensures k in s && forall x :: x in s ==> k <= x
  {
    k :| k in s;
    var rest := s - {k};
    while rest != {}
      invariant rest <= s && k in s
      invariant forall x :: x in s && x !in rest ==> k <= x
    {
      var x :| x in rest;
      rest := rest - {x};
      if x < k { k := x; }
    }
  }

  // ---------------------------------------------------------------- what connects

  /** A labelling that puts similar names together, each compared with the later ones. */
  ghost predicate Gathers(names: seq<string>, mark: seq<int>) {
    |mark| == |names| && forall i: nat, j: nat :: i < j < |names| && Similar(names[i], names[j]) ==> mark[i] == mark[j]
  }

  lemma {:induction false} PathKeepsLabel(names: seq<string>, mark: seq<int>, path: seq<nat>)
    requires Gathers(names, mark) && IsPath(names, path)
    ensures mark[path[0]] == mark[path[|path| - 1]]
  {
    if |path| > 1 {
      PathKeepsLabel(names, mark, path[1..]);
      assert Linked(names, path[0], path[1]);
    }
  }

  /** Two names are connected exactly when every such labelling gives them one label. */
  lemma ConnectedExactly(names: seq<string>, i: nat, j: nat)
    requires i < |names| && j < |names|
    ensures Connected(names, i, j) <==> forall mark: seq<int> :: Gathers(names, mark) ==> mark[i] == mark[j]
  {
    forall mark: seq<int> | Connected(names, i, j) && Gathers(names, mark) ensures mark[i] == mark[j] {
      var path: seq<nat> :| IsPath(names, path) && path[0] == i && path[|path| - 1] == j;
      PathKeepsLabel(names, mark, path);
    }
    if forall mark: seq<int> :: Gathers(names, mark) ==> mark[i] == mark[j] {
      RootsAreRight(names, |names|, 0);
      SameRootIsConnected(names, RootsAfter(names, |names|, 0), i, j);
      assert Gathers(names, RootsAfter(names, |names|, 0));
    }
  }

  /** After a similar pair has been compared, all of the first name's class have the second's root. */
  lemma SecondRootStays(names: seq<string>, i: nat, j: nat, x: nat)
    requires i < j < |names| && Similar(names[i], names[j]) && x < |names|
    ensures var before, after := RootsAfter(names, i, j), RootsAfter(names, i, j + 1);
      after[x] == if before[x] == before[i] then before[j] else before[x]
  {
    if j == i + 1 {
      assert RootsAfter(names, i, j) == RootsAfter(names, i, j + 1 - 1);
    }
  }
}
