// Versions of a binary trie, as finite maps from routes to the node found there.  A node is only a name:
// the class models instantiate N with heap objects, the concurrent model with addresses of the slab cache.
// Two versions share structure where they map the same route to the same node.
module Trie {
  import opened Bits

  datatype Option<+T> = None | Some(value: T)

  datatype Slot<N, D> = Slot(node: N, data: D)

  // The empty map is the null root.
  type Version<N, D> = map<Path, Slot<N, D>>

  ghost predicate PrefixClosed<N, D>(v: Version<N, D>) {
    forall p | p in v && p != [] :: p[..|p| - 1] in v
  }

  // No node hangs at two places of one version.
  ghost predicate Unshared<N, D>(v: Version<N, D>) {
    forall p, q | p in v && q in v && v[p].node == v[q].node :: p == q
  }

  ghost predicate IsTree<N, D>(v: Version<N, D>) {
    PrefixClosed(v) && Unshared(v)
  }

  ghost function Nodes<N, D>(v: Version<N, D>): set<N> {
    set p | p in v :: v[p].node
  }

  // What the trie says about whole keys.
  ghost function Leaves<N, D>(v: Version<N, D>, depth: nat): map<Path, D> {
    map p | p in v && |p| == depth :: v[p].data
  }

  ghost function Prefixes(k: Path): set<Path> {
    set e | 0 <= e <= |k| :: k[..e]
  }

  ghost function Closure(s: set<Path>): set<Path> {
    set k, e | k in s && 0 <= e <= |k| :: k[..e]
  }

  // The root aside, there is a node at a route exactly when it leads to a leaf at the given depth.
  ghost predicate Pruned<N, D>(v: Version<N, D>, depth: nat) {
    v.Keys == {[]} + Closure(Leaves(v, depth).Keys)
  }

  // ---------------------------------------------------------------------------
  // Path copying: the routes that lead towards k get new nodes, everything else is shared

  ghost predicate Fresh<N, D>(v: Version<N, D>, names: seq<N>) {
    && (forall i | 0 <= i < |names| :: names[i] !in Nodes(v))
    && (forall i, j | 0 <= i < j < |names| :: names[i] != names[j])
  }

  ghost function CopiedSlot<N, D>(v: Version<N, D>, k: Path, leaf: D, blank: D, names: seq<N>, p: Path): Slot<N, D>
    requires |names| == |k| + 1 && p <= k
  {
    Slot(names[|p|], if p == k then leaf else if p in v then v[p].data else blank)
  }

  ghost function PathCopy<N, D>(v: Version<N, D>, k: Path, leaf: D, blank: D, names: seq<N>): Version<N, D>
    requires |names| == |k| + 1
  {
    map p | p in v.Keys + Prefixes(k) :: if p <= k then CopiedSlot(v, k, leaf, blank, names, p) else v[p]
  }

  // The nodes that a path copy replaces.
  ghost function Replaced<N, D>(v: Version<N, D>, k: Path): set<N> {
    set p | p in v && p <= k :: v[p].node
  }

  lemma PrefixMembership(k: Path, p: Path)
    ensures p in Prefixes(k) <==> p <= k
  {
    if p <= k {
      assert p == k[..|p|];
    }
  }

  lemma {:induction false} PrefixIn<N, D>(v: Version<N, D>, p: Path, e: nat)
    requires PrefixClosed(v) && p in v && e <= |p|
    ensures p[..e] in v
    decreases |p|
  {
    if e == |p| {
      assert p[..e] == p;
    } else {
      PrefixIn(v, p[..|p| - 1], e);
      assert p[..|p| - 1][..e] == p[..e];
    }
  }

  // Nothing lies below a route that is not there.
  lemma BeyondEnd<N, D>(v: Version<N, D>, k: Path, d: nat, e: nat)
    requires PrefixClosed(v) && e <= d <= |k| && k[..e] !in v
    ensures k[..d] !in v
  {
    assert k[..d][..e] == k[..e];
    if k[..d] in v {
      PrefixIn(v, k[..d], e);
    }
  }

  lemma PathCopyKeys<N, D>(v: Version<N, D>, k: Path, leaf: D, blank: D, names: seq<N>, p: Path)
    requires |names| == |k| + 1
    ensures p in PathCopy(v, k, leaf, blank, names) <==> p in v || p <= k
  {
    PrefixMembership(k, p);
  }

  lemma PathCopyPrefixClosed<N, D>(v: Version<N, D>, k: Path, leaf: D, blank: D, names: seq<N>)
    requires |names| == |k| + 1 && PrefixClosed(v)
    ensures PrefixClosed(PathCopy(v, k, leaf, blank, names))
  {
    var w := PathCopy(v, k, leaf, blank, names);
    forall p | p in w && p != [] ensures p[..|p| - 1] in w {
      PathCopyKeys(v, k, leaf, blank, names, p);
      PathCopyKeys(v, k, leaf, blank, names, p[..|p| - 1]);
    }
  }

  lemma SamePrefixLength(k: Path, p: Path, q: Path)
    requires p <= k && q <= k && |p| == |q|
    ensures p == q
  {}

  lemma PathCopySlotsApart<N, D>(v: Version<N, D>, k: Path, leaf: D, blank: D, names: seq<N>, p: Path, q: Path)
    requires |names| == |k| + 1 && Unshared(v) && Fresh(v, names)
    requires p in PathCopy(v, k, leaf, blank, names) && q in PathCopy(v, k, leaf, blank, names) && p != q
    ensures PathCopy(v, k, leaf, blank, names)[p].node != PathCopy(v, k, leaf, blank, names)[q].node
  {}

  lemma PathCopyIsTree<N, D>(v: Version<N, D>, k: Path, leaf: D, blank: D, names: seq<N>)
    requires |names| == |k| + 1 && IsTree(v) && Fresh(v, names)
    ensures IsTree(PathCopy(v, k, leaf, blank, names))
  {
    var w := PathCopy(v, k, leaf, blank, names);
    PathCopyPrefixClosed(v, k, leaf, blank, names);
    forall p, q | p in w && q in w && p != q ensures w[p].node != w[q].node {
      PathCopySlotsApart(v, k, leaf, blank, names, p, q);
    }
  }

  lemma CopiedNodeKnown<N, D>(v: Version<N, D>, k: Path, leaf: D, blank: D, names: seq<N>, n: N)
    requires |names| == |k| + 1 && Unshared(v) && n in Nodes(PathCopy(v, k, leaf, blank, names))
    ensures n in names || (n in Nodes(v) && n !in Replaced(v, k))
  {}

  lemma KnownNodeCopied<N, D>(v: Version<N, D>, k: Path, leaf: D, blank: D, names: seq<N>, n: N)
    requires |names| == |k| + 1 && (n in names || (n in Nodes(v) && n !in Replaced(v, k)))
    ensures n in Nodes(PathCopy(v, k, leaf, blank, names))
  {
    var w := PathCopy(v, k, leaf, blank, names);
    if n in names {
      var i :| 0 <= i < |names| && names[i] == n;
      PathCopyKeys(v, k, leaf, blank, names, k[..i]);
      assert w[k[..i]].node == n;
    } else {
      var p :| p in v && v[p].node == n;
      PathCopyKeys(v, k, leaf, blank, names, p);
      assert w[p].node == n;
    }
  }

  // The replaced nodes are exactly those of the old version that the new version does not use, so nothing
  // leaks and nothing still in use is given up.
  lemma PathCopyNodes<N, D>(v: Version<N, D>, k: Path, leaf: D, blank: D, names: seq<N>)
    requires |names| == |k| + 1 && IsTree(v) && Fresh(v, names)
    ensures var w := PathCopy(v, k, leaf, blank, names);
            && Replaced(v, k) == Nodes(v) - Nodes(w)
            && Nodes(w) == (Nodes(v) - Replaced(v, k)) + (set n | n in names)
  {
    assert Replaced(v, k) <= Nodes(v);
    hide PathCopy, Nodes, Replaced;
    var w := PathCopy(v, k, leaf, blank, names);
    forall n ensures n in Nodes(w) <==> n in names || (n in Nodes(v) && n !in Replaced(v, k)) {
      if n in Nodes(w) {
        CopiedNodeKnown(v, k, leaf, blank, names, n);
      }
      if n in names || (n in Nodes(v) && n !in Replaced(v, k)) {
        KnownNodeCopied(v, k, leaf, blank, names, n);
      }
    }
  }

  // Path copying refines map update.
  lemma PathCopyLeaves<N, D>(v: Version<N, D>, k: Path, leaf: D, blank: D, names: seq<N>)
    requires |names| == |k| + 1
    ensures Leaves(PathCopy(v, k, leaf, blank, names), |k|) == Leaves(v, |k|)[k := leaf]
  {
    var w := PathCopy(v, k, leaf, blank, names);
    forall p ensures p in w && |p| == |k| <==> (p in v && |p| == |k|) || p == k {
      PathCopyKeys(v, k, leaf, blank, names, p);
    }
    assert Leaves(w, |k|).Keys == Leaves(v, |k|)[k := leaf].Keys;
  }

  lemma ClosureAdd(s: set<Path>, k: Path)
    ensures Closure(s + {k}) == Closure(s) + Prefixes(k)
  {}

  lemma PathCopyPruned<N, D>(v: Version<N, D>, k: Path, leaf: D, blank: D, names: seq<N>)
    requires |names| == |k| + 1 && Pruned(v, |k|)
    ensures Pruned(PathCopy(v, k, leaf, blank, names), |k|)
  {
    var w := PathCopy(v, k, leaf, blank, names);
    PathCopyLeaves(v, k, leaf, blank, names);
    assert Leaves(w, |k|).Keys == Leaves(v, |k|).Keys + {k};
    ClosureAdd(Leaves(v, |k|).Keys, k);
    assert w.Keys == v.Keys + Prefixes(k);
  }

  // ---------------------------------------------------------------------------
  // Counting

  ghost function Missing<N, D>(v: Version<N, D>, k: Path): set<Path> {
    Prefixes(k) - v.Keys
  }

  lemma {:induction false} PrefixCount(k: Path)
    ensures |Prefixes(k)| == |k| + 1
  {
    if k == [] {
      forall p ensures p in Prefixes(k) <==> p in {[]} {
        PrefixMembership(k, p);
      }
      assert Prefixes(k) == {[]};
    } else {
      var j := k[..|k| - 1];
      PrefixCount(j);
      LongestPrefix(k);
    }
  }

  lemma LongestPrefix(k: Path)
    requires k != []
    ensures Prefixes(k) == Prefixes(k[..|k| - 1]) + {k} && k !in Prefixes(k[..|k| - 1])
  {
    var j := k[..|k| - 1];
    forall p ensures p in Prefixes(k) <==> p in Prefixes(j) + {k} {
      PrefixMembership(k, p);
      PrefixMembership(j, p);
      if p <= k && |p| == |k| {
        SamePrefixLength(k, p, k);
      }
    }
  }

  lemma {:induction false} ReplacedCount<N, D>(v: Version<N, D>, routes: set<Path>)
    requires Unshared(v) && routes <= v.Keys
    ensures |set p | p in routes :: v[p].node| == |routes|
  {
    var nodes := set p | p in routes :: v[p].node;
    if routes == {} {
      assert nodes == {};
    } else {
      var q :| q in routes;
      var rest := set p | p in routes - {q} :: v[p].node;
      ReplacedCount(v, routes - {q});
      assert nodes == rest + {v[q].node};
      assert v[q].node !in rest;
    }
  }

  lemma RouteComplete<N, D>(v: Version<N, D>, k: Path)
    requires PrefixClosed(v)
    ensures Missing(v, k) == {} <==> k in v
  {
    if k in v {
      forall p | p in Prefixes(k) ensures p in v {
        PrefixMembership(k, p);
        PrefixIn(v, k, |p|);
        assert p == k[..|p|];
      }
    } else {
      PrefixMembership(k, k);
      assert k in Missing(v, k);
    }
  }

  lemma ReplacedRoutes<N, D>(v: Version<N, D>, k: Path)
    ensures var present := Prefixes(k) * v.Keys;
            present <= v.Keys && Replaced(v, k) == (set p | p in present :: v[p].node)
            && Prefixes(k) == present + Missing(v, k)
  {
    hide Prefixes;
    forall p ensures p in Prefixes(k) * v.Keys <==> p in v && p <= k {
      PrefixMembership(k, p);
    }
  }

  // Every copied level is either a replaced node or a created one.
  lemma PathCopyCounts<N, D>(v: Version<N, D>, k: Path)
    requires Unshared(v)
    ensures |Replaced(v, k)| + |Missing(v, k)| == |k| + 1
  {
    hide Prefixes, Replaced, Unshared;
    PrefixCount(k);
    ReplacedRoutes(v, k);
    ReplacedCount(v, Prefixes(k) * v.Keys);
  }

  lemma ShorterPrefix(k: Path, p: Path, d: nat)
    requires p <= k && d <= |k|
    ensures |p| <= d <==> p <= k[..d]
  {}

  lemma BeyondMissing<N, D>(v: Version<N, D>, k: Path, d: nat, p: Path)
    requires PrefixClosed(v) && d < |k| && k[..d + 1] !in v && p <= k && |p| > d
    ensures p !in v
  {
    assert p[..d + 1] == k[..d + 1];
    if p in v {
      PrefixIn(v, p, d + 1);
    }
  }

  // A walk that gets d levels down finds the other |k| - d missing.
  lemma MissingCount<N, D>(v: Version<N, D>, k: Path, d: nat)
    requires PrefixClosed(v) && d <= |k| && k[..d] in v && (d < |k| ==> k[..d + 1] !in v)
    ensures |Missing(v, k)| == |k| - d
  {
    var j := k[..d];
    forall p ensures p in Missing(v, k) <==> p in Prefixes(k) - Prefixes(j) {
      PrefixMembership(k, p);
      PrefixMembership(j, p);
      if p <= j {
        PrefixIn(v, j, |p|);
        assert p == j[..|p|];
      } else if p <= k {
        ShorterPrefix(k, p, d);
        BeyondMissing(v, k, d, p);
      }
    }
    assert Missing(v, k) == Prefixes(k) - Prefixes(j);
    forall p | p in Prefixes(j) ensures p in Prefixes(k) {
      PrefixMembership(k, p);
      PrefixMembership(j, p);
    }
    PrefixCount(k);
    PrefixCount(j);
  }

  lemma PathCopyGrowth<N, D>(v: Version<N, D>, k: Path, leaf: D, blank: D, names: seq<N>)
    requires |names| == |k| + 1
    ensures |PathCopy(v, k, leaf, blank, names)| == |v| + |Missing(v, k)|
  {
    var w := PathCopy(v, k, leaf, blank, names);
    assert w.Keys == v.Keys + Missing(v, k);
    assert |w.Keys| == |v.Keys| + |Missing(v, k)|;
  }

  // ---------------------------------------------------------------------------
  // Growing a version in place, one node at a time

  ghost function Grow<N, D>(v: Version<N, D>, p: Path, b: bool, n: N, blank: D): Version<N, D> {
    v[p + [b] := Slot(n, blank)]
  }

  lemma GrowIsTree<N, D>(v: Version<N, D>, p: Path, b: bool, n: N, blank: D)
    requires IsTree(v) && p in v && p + [b] !in v && n !in Nodes(v)
    ensures IsTree(Grow(v, p, b, n, blank))
    ensures Nodes(Grow(v, p, b, n, blank)) == Nodes(v) + {n}
    ensures forall c :: p + [b] + [c] !in v
  {
    var w := Grow(v, p, b, n, blank);
    forall q | q in w && q != [] ensures q[..|q| - 1] in w {
      if q == p + [b] {
        assert q[..|q| - 1] == p;
      }
    }
    forall c ensures p + [b] + [c] !in v {
      var q := p + [b] + [c];
      assert q[..|q| - 1] == p + [b];
    }
    forall q, r | q in w && r in w && q != r ensures w[q].node != w[r].node {
      if q == p + [b] {
        assert w[r].node in Nodes(v);
      } else if r == p + [b] {
        assert w[q].node in Nodes(v);
      }
    }
    forall m | m in Nodes(v) ensures m in Nodes(w) {
      var q :| q in v && v[q].node == m;
      assert w[q].node == m;
    }
    assert w[p + [b]].node == n;
  }

  ghost function Mark<N, D>(v: Version<N, D>, p: Path, data: D): Version<N, D>
    requires p in v
  {
    v[p := Slot(v[p].node, data)]
  }

  lemma MarkIsTree<N, D>(v: Version<N, D>, p: Path, data: D)
    requires IsTree(v) && p in v
    ensures IsTree(Mark(v, p, data))
    ensures Nodes(Mark(v, p, data)) == Nodes(v)
  {
    var w := Mark(v, p, data);
    assert w.Keys == v.Keys;
    assert forall q | q in v :: w[q].node == v[q].node;
    forall m | m in Nodes(v) ensures m in Nodes(w) {
      var q :| q in v && v[q].node == m;
      assert w[q].node == m;
    }
  }

  // Descending along k and creating what is missing.
  ghost predicate Grown<N, D>(v: Version<N, D>, k: Path, e: nat, blank: D, w: Version<N, D>)
    requires e <= |k|
  {
    && w.Keys == v.Keys + Prefixes(k[..e])
    && (forall p | p in v :: w[p] == v[p])
    && (forall p | p in w && p !in v :: w[p].data == blank)
  }

  lemma PrefixesStep(k: Path, e: nat)
    requires e < |k|
    ensures Prefixes(k[..e + 1]) == Prefixes(k[..e]) + {k[..e + 1]}
    ensures k[..e + 1] == k[..e] + [k[e]]
  {
    LongestPrefix(k[..e + 1]);
    assert k[..e + 1][..e] == k[..e];
  }

  // One more level, whether it was there or had to be created.
  lemma GrownStep<N, D>(v: Version<N, D>, k: Path, e: nat, blank: D, w: Version<N, D>, w': Version<N, D>)
    requires e < |k| && Grown(v, k, e, blank, w)
    requires k[..e + 1] in w ==> w' == w
    requires k[..e + 1] !in w ==> w'.Keys == w.Keys + {k[..e + 1]} && (forall p | p in w :: w'[p] == w[p])
                                  && w'[k[..e + 1]].data == blank
    ensures Grown(v, k, e + 1, blank, w')
  {
    PrefixesStep(k, e);
  }

  // A new leaf below a grown path: the map of leaves is updated and the trie stays pruned.
  lemma GrownLeaves<N, D>(v: Version<N, D>, k: Path, blank: D, w: Version<N, D>, leaf: D)
    requires Grown(v, k, |k|, blank, w) && Pruned(v, |k|)
    ensures k in w
    ensures Leaves(Mark(w, k, leaf), |k|) == Leaves(v, |k|)[k := leaf]
    ensures Pruned(Mark(w, k, leaf), |k|)
  {
    assert k[..|k|] == k;
    PrefixMembership(k, k);
    var x := Mark(w, k, leaf);
    LeavesMarked(v, k, blank, w, leaf);
    ClosureAdd(Leaves(v, |k|).Keys, k);
    assert x.Keys == w.Keys == v.Keys + Prefixes(k);
  }

  lemma LeavesMarked<N, D>(v: Version<N, D>, k: Path, blank: D, w: Version<N, D>, leaf: D)
    requires Grown(v, k, |k|, blank, w) && k in w
    ensures Leaves(Mark(w, k, leaf), |k|) == Leaves(v, |k|)[k := leaf]
    ensures Leaves(Mark(w, k, leaf), |k|).Keys == Leaves(v, |k|).Keys + {k}
  {
    hide Prefixes, Closure;
    assert k[..|k|] == k;
    var x := Mark(w, k, leaf);
    forall p ensures p in x && |p| == |k| <==> (p in v && |p| == |k|) || p == k {
      PrefixMembership(k, p);
      if p <= k && |p| == |k| {
        SamePrefixLength(k, p, k);
      }
    }
  }
}
