// The bogon trie as a heap structure (kernel/src/bogon.c).
module BogonTree {
  import opened Bits
  import opened Trie
  import opened Bogon
  import opened Rcu
  import Reclaim

  // struct lfw_bg_node
  class BgNode {
    var zero: BgNode?
    var one: BgNode?
    var isBogon: bool

    // lfw_create_node
    constructor ()
      ensures zero == null && one == null && !isBogon
    {
      zero, one, isBogon := null, null, false;
    }

    function Child(b: bool): BgNode?
      reads this
    {
      if b then one else zero
    }

    method SetChild(b: bool, n: BgNode)
      modifies this
      ensures Child(b) == n && Child(!b) == old(Child(!b)) && isBogon == old(isBogon)
    {
      if b {
        one := n;
      } else {
        zero := n;
      }
    }
  }

  // struct lfw_bg_tree
  class BgTree {
    var root: BgNode?

    constructor (root: BgNode?)
      ensures this.root == root
    {
      this.root := root;
    }
  }

  type BgVersion = Version<BgNode, bool>

  ghost function Below(v: BgVersion, p: Path, b: bool): BgNode? {
    if p + [b] in v then v[p + [b]].node else null
  }

  ghost function RootOf(v: BgVersion): BgNode? {
    if [] in v then v[[]].node else null
  }

  ghost predicate Holds(n: BgNode, v: BgVersion, p: Path, data: bool)
    reads n
  {
    n.Child(false) == Below(v, p, false) && n.Child(true) == Below(v, p, true) && n.isBogon == data
  }

  ghost predicate Depicts(v: BgVersion)
    reads Nodes(v)
  {
    forall p | p in v :: v[p].node in Nodes(v) && Holds(v[p].node, v, p, v[p].data)
  }

  lemma NodeHolds(v: BgVersion, p: Path)
    requires Depicts(v) && p in v
    ensures v[p].node in Nodes(v) && v[p].node.isBogon == v[p].data
    ensures forall b :: v[p].node.Child(b) == Below(v, p, b)
  {}

  lemma InNodes(v: BgVersion, p: Path)
    ensures p in v ==> v[p].node in Nodes(v)
  {}

  // ---------------------------------------------------------------------------
  // Growing the trie in place

  lemma BelowGrown(v: BgVersion, p: Path, bit: bool, n: BgNode, q: Path, b: bool)
    ensures Below(Grow(v, p, bit, n, false), q, b) == if q == p && b == bit then n else Below(v, q, b)
  {
    if q + [b] == p + [bit] {
      assert (q + [b])[..|q|] == q && (q + [b])[|q|] == b;
    }
  }

  lemma GrowKeys(v: BgVersion, p: Path, b: bool, n: BgNode)
    requires p in v && p + [b] !in v
    ensures var w := Grow(v, p, b, n, false);
            && w.Keys == v.Keys + {p + [b]} && |w| == |v| + 1 && (forall q | q in v :: w[q] == v[q])
            && w[p + [b]].data == false && w[p + [b]].node == n
  {}

  // runner->child[bit] = lfw_create_node()
  method Attach(runner: BgNode, bit: bool, n: BgNode, ghost v: BgVersion, ghost p: Path)
    requires IsTree(v) && Depicts(v) && p in v && v[p].node == runner && p + [bit] !in v
    requires n !in Nodes(v) && Holds(n, map[], [], false)
    modifies runner
    ensures IsTree(Grow(v, p, bit, n, false)) && Depicts(Grow(v, p, bit, n, false))
    ensures Nodes(Grow(v, p, bit, n, false)) == Nodes(v) + {n}
  {
    ghost var w := Grow(v, p, bit, n, false);
    GrowIsTree(v, p, bit, n, false);
    assert runner in Nodes(v);
    runner.SetChild(bit, n);
    forall q | q in w ensures w[q].node in Nodes(w) && Holds(w[q].node, w, q, w[q].data) {
      if q in v {
        BelowGrown(v, p, bit, n, q, false);
        BelowGrown(v, p, bit, n, q, true);
        assert Holds(v[q].node, v, q, v[q].data) || q == p;
      }
    }
  }

  // One step of the inner loop of lfw_load_bg_tree.
  method Descend(runner: BgNode, bit: bool, ghost k: Path, ghost e: nat, ghost v: BgVersion, ghost w: BgVersion,
                 ghost nodes: set<BgNode>)
    returns (next: BgNode, created: nat, ghost w': BgVersion)
    requires nodes == Nodes(w) && IsTree(w) && Depicts(w) && e < |k| && bit == k[e]
    requires Grown(v, k, e, false, w) && k[..e] in w && runner == w[k[..e]].node
    modifies runner
    ensures IsTree(w') && Depicts(w') && Grown(v, k, e + 1, false, w')
    ensures k[..e + 1] in w' && next == w'[k[..e + 1]].node
    ensures created == |w'| - |w|
    ensures forall n | n in Nodes(w') :: n in Nodes(w) || fresh(n)
  {
    hide Depicts, IsTree, Grown, Grow, Nodes;
    PrefixesStep(k, e);
    NodeHolds(w, k[..e]);
    created, w' := 0, w;
    if runner.Child(bit) == null {
      var child := new BgNode();
      assert child !in nodes;
      Attach(runner, bit, child, w, k[..e]);
      created, w' := 1, Grow(w, k[..e], bit, child, false);
      GrowKeys(w, k[..e], bit, child);
    }
    NodeHolds(w', k[..e]);
    next := runner.Child(bit);
    GrownStep(v, k, e, false, w, w');
  }

  lemma MarkedBelow(w: BgVersion, k: Path, q: Path)
    requires k in w
    ensures forall b :: Below(Mark(w, k, true), q, b) == Below(w, q, b)
  {}

  // runner->is_bogon = 1
  method MarkBogon(runner: BgNode, ghost k: Path, ghost w: BgVersion)
    requires IsTree(w) && Depicts(w) && k in w && w[k].node == runner
    modifies runner
    ensures IsTree(Mark(w, k, true)) && Depicts(Mark(w, k, true)) && Nodes(Mark(w, k, true)) == Nodes(w)
  {
    hide Nodes, PrefixClosed;
    ghost var x := Mark(w, k, true);
    MarkIsTree(w, k, true);
    assert forall q | q in w && q != k :: w[q].node != runner;
    assert forall q | q in w :: Holds(w[q].node, w, q, w[q].data);
    runner.isBogon := true;
    forall q | q in x ensures x[q].node in Nodes(x) && Holds(x[q].node, x, q, x[q].data) {
      MarkedBelow(w, k, q);
      InNodes(x, q);
      assert q != k ==> Holds(w[q].node, w, q, w[q].data);
    }
  }

  lemma StartDescent(v: BgVersion, k: Path)
    requires RootOf(v) != null
    ensures k[..0] == [] && [] in v && Grown(v, k, 0, false, v)
  {}

  lemma RouteBit(p: Prefix, j: nat)
    requires j < p.len <= IPV4_BITS
    ensures RouteOf(p)[j] == GetBit(p.ip, j)
  {}

  lemma MarkedRoot(v: BgVersion, k: Path, w: BgVersion)
    requires RootOf(v) != null && Grown(v, k, |k|, false, w) && k in w
    ensures RootOf(Mark(w, k, true)) == RootOf(v) && |Mark(w, k, true)| == |w|
  {}

  // One prefix of the list: walk its bits, creating what is missing, and mark the last node.
  method InsertPrefix(root: BgNode, prefixes: seq<Prefix>, i: nat, ghost v: BgVersion)
    returns (numNodes: nat, ghost x: BgVersion)
    requires i < |prefixes| && WellFormed(prefixes) && WellFormed(prefixes[..i])
    requires IsTree(v) && Depicts(v) && Loaded(v, prefixes[..i]) && root == RootOf(v)
    modifies Nodes(v)
    ensures WellFormed(prefixes[..i + 1]) && IsTree(x) && Depicts(x) && Loaded(x, prefixes[..i + 1])
    ensures root == RootOf(x) && |x| == |v| + numNodes && numNodes == |Added(prefixes, i)|
    ensures forall n | n in Nodes(x) :: n in Nodes(v) || fresh(n)
  {
    hide Depicts, IsTree, Grown, Nodes, Loaded, RouteOf, GetBit, Added;
    var p := prefixes[i];
    ghost var k, w := RouteOf(p), v;
    var runner := root;
    numNodes := 0;
    StartDescent(v, k);
    var j := 0;
    while j < p.len
      invariant 0 <= j <= p.len
      invariant IsTree(w) && Depicts(w) && Grown(v, k, j, false, w)
      invariant k[..j] in w && runner == w[k[..j]].node
      invariant |w| == |v| + numNodes
      invariant forall n | n in Nodes(w) :: n in Nodes(v) || fresh(n)
    {
      var bit := GetBit(p.ip, j);
      RouteBit(p, j);
      InNodes(w, k[..j]);
      var created;
      runner, created, w := Descend(runner, bit, k, j, v, w, Nodes(w));
      numNodes := numNodes + created;
      j := j + 1;
    }
    assert k[..|k|] == k;
    LoadedStep(v, prefixes, i, k, w);
    MarkedRoot(v, k, w);
    InNodes(w, k);
    MarkBogon(runner, k, w);
    x := Mark(w, k, true);
    AddedCount(v, x, prefixes, i);
  }

  // ---------------------------------------------------------------------------
  // The same heap as the cells of Rcu

  ghost function Pointer(n: BgNode?): Option<BgNode> {
    if n == null then None else Some(n)
  }

  ghost function CellAt(n: BgNode): Cell<BgNode, bool>
    reads n
  {
    Cell(Pointer(n.Child(false)), Pointer(n.Child(true)), n.isBogon)
  }

  // Memory is as the cells say.
  ghost predicate Agrees(cells: map<BgNode, Cell<BgNode, bool>>)
    reads cells.Keys
  {
    forall n | n in cells :: CellAt(n) == cells[n]
  }

  lemma CellOfNode(v: BgVersion, p: Path)
    requires Depicts(v) && p in v
    ensures v[p].node in Nodes(v) && CellAt(v[p].node) == CellOf(v, p)
  {
    NodeHolds(v, p);
  }

  lemma NewCellsAgree(v: BgVersion)
    requires IsTree(v) && Depicts(v)
    ensures CellsOf(v).Keys == Nodes(v) && Agrees(CellsOf(v)) && Pointer(RootOf(v)) == NodeAt(v, [])
  {
    hide Depicts;
    forall p | p in v ensures CellAt(v[p].node) == CellsOf(v)[v[p].node] {
      CellOfNode(v, p);
    }
  }

  // A load that leaves the old nodes alone and publishes a tree of new ones takes the swap step of the concurrent
  // model, in memory and at the root.
  lemma LoadTakesSwapStep(s: Reclaim.State<BgNode, bool>, j: nat, w: BgVersion)
    requires Agrees(s.heap) && IsTree(w) && Depicts(w) && Nodes(w) !! s.heap.Keys && j !in s.orphans
    ensures var e := Reclaim.Swap(j, w);
            && Reclaim.Enabled(s, e)
            && var s' := Reclaim.Apply(s, e);
            && s'.heap.Keys == s.heap.Keys + Nodes(w) && Agrees(s'.heap) && s'.root == Pointer(RootOf(w))
            && s'.published == w
            && (s.root.Some? ==> j in s'.orphans && s'.orphans[j].root == s.root.value && s'.orphans[j].waits.None?)
  {
    hide Depicts, Nodes, CellsOf, PrefixClosed;
    NewCellsAgree(w);
  }

  // ---------------------------------------------------------------------------
  // Loading and looking up

  ghost function Sum(counts: seq<nat>): nat {
    if counts == [] then 0 else Sum(counts[..|counts| - 1]) + counts[|counts| - 1]
  }

  lemma SumStep(counts: seq<nat>, n: nat)
    ensures Sum(counts + [n]) == Sum(counts) + n
  {}

  lemma EmptyTrie(root: BgNode, v: BgVersion, prefixes: seq<Prefix>)
    requires v == map[[] := Slot(root, false)] && Holds(root, map[], [], false) && prefixes == []
    ensures IsTree(v) && Depicts(v) && Loaded(v, prefixes) && RootOf(v) == root && Nodes(v) == {root} && |v| == 1
  {}

  lemma AddressBit(ip: Word, i: nat)
    requires i < IPV4_BITS
    ensures PathOf(ip, IPV4_BITS)[..i + 1] == PathOf(ip, IPV4_BITS)[..i] + [GetBit(ip, i)]
  {}

  // The new tree of lfw_load_bg_tree, built before anybody can see it; numNodes holds the node count that is
  // logged for each prefix.
  method BuildTree(prefixes: seq<Prefix>) returns (newTree: BgTree, numNodes: seq<nat>, ghost v: BgVersion)
    requires WellFormed(prefixes)
    ensures fresh(newTree) && fresh(Nodes(v)) && newTree.root == RootOf(v)
    ensures IsTree(v) && Depicts(v) && Loaded(v, prefixes)
    ensures |numNodes| == |prefixes| && |v| == 1 + Sum(numNodes)
    ensures forall j | 0 <= j < |prefixes| :: numNodes[j] == |Added(prefixes, j)|
  {
    hide Depicts, IsTree, Nodes, Loaded, Added;
    newTree := new BgTree(null);
    var root := new BgNode();
    newTree.root := root;
    v := map[[] := Slot(root, false)];
    numNodes := [];
    assert prefixes[..0] == [];
    EmptyTrie(root, v, prefixes[..0]);
    var i := 0;
    while i < |prefixes|
      invariant 0 <= i <= |prefixes| && |numNodes| == i
      invariant WellFormed(prefixes[..i]) && IsTree(v) && Depicts(v) && Loaded(v, prefixes[..i])
      invariant newTree.root == root == RootOf(v) && |v| == 1 + Sum(numNodes) && fresh(Nodes(v))
      invariant forall j | 0 <= j < i :: numNodes[j] == |Added(prefixes, j)|
    {
      var count;
      count, v := InsertPrefix(root, prefixes, i, v);
      SumStep(numNodes, count);
      numNodes := numNodes + [count];
      i := i + 1;
    }
    assert prefixes[..|prefixes|] == prefixes;
  }

  // struct lfw_bg_state
  class BgState {
    var tree: BgTree
    var callbacks: seq<BgTree>             // trees handed to call_rcu
    ghost var version: BgVersion           // the version below tree->root
    ghost var loaded: Option<seq<Prefix>>  // the list it was loaded from, None before the first load

    ghost predicate Valid()
      reads this, tree, Nodes(version)
    {
      && tree.root == RootOf(version) && IsTree(version) && Depicts(version)
      && match loaded
         case None => version == map[]
         case Some(prefixes) => WellFormed(prefixes) && Loaded(version, prefixes)
    }

    // lfw_init_bg_state
    constructor ()
      ensures Valid() && loaded == None && callbacks == []
    {
      tree := new BgTree(null);
      callbacks, version, loaded := [], map[], None;
      new;
      assert IsTree(version) && Depicts(version);
    }

    // lfw_load_bg_tree: build the new tree, then publish it and hand the old one to call_rcu.
    method LoadBgTree(prefixes: seq<Prefix>) returns (numNodes: seq<nat>)
      requires Valid() && WellFormed(prefixes)
      modifies this
      ensures Valid() && loaded == Some(prefixes) && callbacks == old(callbacks) + [old(tree)]
      ensures |numNodes| == |prefixes| && 1 + Sum(numNodes) == |{[]} + Closure(Routes(prefixes))|
      ensures forall j | 0 <= j < |prefixes| :: numNodes[j] == |Added(prefixes, j)|
      ensures old(tree).root == RootOf(old(version)) && Depicts(old(version)) && fresh(Nodes(version))
    {
      hide IsTree, Loaded, Closure, Routes, Depicts, Added;
      var newTree;
      ghost var v;
      newTree, numNodes, v := BuildTree(prefixes);
      LoadedSize(v, prefixes);
      assert forall n | n in Nodes(v) + Nodes(version) :: n as object != this;
      callbacks := callbacks + [tree];
      tree := newTree;
      version, loaded := v, Some(prefixes);
    }

    // lfw_lookup_bg_tree
    method LookupBgTree(ip: Word) returns (result: int)
      requires Valid()
      ensures result == match loaded
                        case None => -1
                        case Some(prefixes) => if Covered(prefixes, ip) then 1 else -2
      ensures loaded.Some? ==>
                var prefixes := loaded.value;
                result == 1 <==>
                exists i :: 0 <= i < |prefixes| && prefixes[i].len <= IPV4_BITS
                            && GetMasked(ip, prefixes[i].len) == GetMasked(prefixes[i].ip, prefixes[i].len)
    {
      hide Depicts, IsTree, Loaded, PathOf, GetBit, Covered, GetMasked;
      ghost var k := PathOf(ip, IPV4_BITS);
      CoveredMeans(loaded, ip);
      result := 0;
      var runner := tree.root;
      NoRoot(version, loaded);
      if runner == null {
        return -1;
      }
      assert k[..0] == [];
      var i := 0;
      while i < IPV4_BITS
        invariant 0 <= i <= IPV4_BITS
        invariant k[..i] in version && runner == version[k[..i]].node
        invariant forall d | 0 <= d < i && k[..d] in version :: !version[k[..d]].data
        invariant Depicts(version)
      {
        var bit := GetBit(ip, i);
        AddressBit(ip, i);
        NodeHolds(version, k[..i]);
        if runner.isBogon {
          Marked(version, loaded.value, ip, i);
          return 1;
        }
        runner := runner.Child(bit);
        if runner == null {
          DeadEnd(version, loaded.value, ip, i + 1);
          return -2;
        }
        i := i + 1;
      }
      assert k[..32] == k;
      NodeHolds(version, k);
      LastIsMarked(version, loaded.value, ip);
      Marked(version, loaded.value, ip, IPV4_BITS);
      if runner != null && runner.isBogon {
        result := 1;
      }
    }
  }

  lemma LoadedSize(v: BgVersion, prefixes: seq<Prefix>)
    requires WellFormed(prefixes) && Loaded(v, prefixes)
    ensures |{[]} + Closure(Routes(prefixes))| == |v|
  {}

  lemma NoRoot(v: BgVersion, loaded: Option<seq<Prefix>>)
    requires loaded.None? ==> v == map[]
    requires loaded.Some? ==> WellFormed(loaded.value) && Loaded(v, loaded.value)
    ensures RootOf(v) == null <==> loaded.None?
  {}
}
