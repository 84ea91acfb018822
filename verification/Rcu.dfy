// The tries as read-copy-update structures: a slab of cells, a published root, readers that follow one
// pointer at a time without a lock, writers that publish a copied path or a whole new tree, and two ways
// of giving cells back (call_rcu on each replaced node, synchronize_rcu before freeing a whole old tree).
// Addresses may be handed out again once their cell has been freed.
//
// A grace period is the ending of every reader that had begun when the wait was started.
module Rcu {
  import opened Bits
  import opened Trie

  datatype Cell<N, D> = Cell(zero: Option<N>, one: Option<N>, data: D) {
    function Child(b: bool): Option<N> {
      if b then one else zero
    }

    function WithChild(b: bool, n: N): Cell<N, D> {
      if b then this.(one := Some(n)) else this.(zero := Some(n))
    }
  }

  // ---------------------------------------------------------------------------
  // Heaps and the versions they hold

  ghost function NodeAt<N, D>(v: Version<N, D>, p: Path): Option<N> {
    if p in v then Some(v[p].node) else None
  }

  ghost function CellOf<N, D>(v: Version<N, D>, p: Path): Cell<N, D>
    requires p in v
  {
    Cell(NodeAt(v, p + [false]), NodeAt(v, p + [true]), v[p].data)
  }

  // Every node of the version is allocated and holds what the version says.
  ghost predicate Intact<N, D>(heap: map<N, Cell<N, D>>, v: Version<N, D>) {
    && IsTree(v)
    && forall p | p in v :: v[p].node in heap && heap[v[p].node] == CellOf(v, p)
  }

  ghost function RouteTo<N, D>(v: Version<N, D>, n: N): (p: Path)
    requires n in Nodes(v)
    ensures p in v && v[p].node == n
  {
    var p :| p in v && v[p].node == n;
    p
  }

  ghost function CellsOf<N, D>(v: Version<N, D>): (cells: map<N, Cell<N, D>>)
    requires Unshared(v)
    ensures cells.Keys == Nodes(v)
    ensures forall p | p in v :: v[p].node in cells && cells[v[p].node] == CellOf(v, p)
  {
    map n | n in Nodes(v) :: CellOf(v, RouteTo(v, n))
  }

  lemma ChildOfCell<N, D>(v: Version<N, D>, p: Path, b: bool)
    requires p in v
    ensures CellOf(v, p).Child(b) == NodeAt(v, p + [b])
  {}

  lemma IntactFrame<N, D>(heap: map<N, Cell<N, D>>, heap': map<N, Cell<N, D>>, v: Version<N, D>)
    requires Intact(heap, v)
    requires forall n | n in Nodes(v) :: n in heap' && (n in heap ==> heap'[n] == heap[n])
    ensures Intact(heap', v)
  {}

  // A heap holds at most one version below a given root: what a recursive free visits is determined.
  lemma {:induction false} SameRoute<N, D>(heap: map<N, Cell<N, D>>, v: Version<N, D>, w: Version<N, D>, p: Path)
    requires Intact(heap, v) && Intact(heap, w) && NodeAt(v, []) == NodeAt(w, [])
    ensures NodeAt(v, p) == NodeAt(w, p)
    ensures p in v ==> v[p] == w[p]
    decreases |p|
  {
    if p != [] {
      var q, b := p[..|p| - 1], p[|p| - 1];
      assert p == q + [b];
      SameRoute(heap, v, w, q);
      if q in v {
        ChildOfCell(v, q, b);
        ChildOfCell(w, q, b);
      }
    }
    if p in v {
      assert heap[v[p].node].data == v[p].data;
      assert heap[w[p].node].data == w[p].data;
    }
  }

  lemma VersionUnique<N, D>(heap: map<N, Cell<N, D>>, v: Version<N, D>, w: Version<N, D>)
    requires Intact(heap, v) && Intact(heap, w) && NodeAt(v, []) == NodeAt(w, [])
    ensures v == w
  {
    forall p ensures p in v <==> p in w {
      SameRoute(heap, v, w, p);
    }
    forall p | p in v ensures v[p] == w[p] {
      SameRoute(heap, v, w, p);
    }
  }

  // ---------------------------------------------------------------------------
  // What a worker does to the heap, read off the pointers

  ghost function Walk<N, D>(heap: map<N, Cell<N, D>>, root: Option<N>, k: Path, e: nat): Option<N>
    requires e <= |k|
  {
    if e == 0 then root
    else
      match Walk(heap, root, k, e - 1)
      case None => None
      case Some(n) => if n in heap then heap[n].Child(k[e - 1]) else None
  }

  ghost function CopiedCell<N, D>(heap: map<N, Cell<N, D>>, root: Option<N>, k: Path, leaf: D, blank: D,
                                  names: seq<N>, e: nat): Cell<N, D>
    requires |names| == |k| + 1 && e <= |k|
  {
    var at := Walk(heap, root, k, e);
    var base := if at.Some? && at.value in heap then heap[at.value] else Cell(None, None, blank);
    if e == |k| then base.(data := leaf) else base.WithChild(k[e], names[e + 1])
  }

  ghost predicate Distinct<N>(names: seq<N>) {
    forall i, j | 0 <= i < j < |names| :: names[i] != names[j]
  }

  ghost function PublishedHeap<N, D>(heap: map<N, Cell<N, D>>, root: Option<N>, k: Path, leaf: D, blank: D,
                                     names: seq<N>): map<N, Cell<N, D>>
    requires |names| == |k| + 1 && Distinct(names)
  {
    heap + CopiedCells(heap, root, k, leaf, blank, names)
  }

  ghost function IndexOf<N>(names: seq<N>, n: N): (i: nat)
    requires n in names
    ensures i < |names| && names[i] == n
  {
    var i :| 0 <= i < |names| && names[i] == n;
    i
  }

  ghost function CopiedCells<N, D>(heap: map<N, Cell<N, D>>, root: Option<N>, k: Path, leaf: D, blank: D,
                                   names: seq<N>): (cells: map<N, Cell<N, D>>)
    requires |names| == |k| + 1 && Distinct(names)
    ensures cells.Keys == set n | n in names
    ensures forall e | 0 <= e <= |k| ::
              names[e] in cells && cells[names[e]] == CopiedCell(heap, root, k, leaf, blank, names, e)
  {
    map n | n in names :: CopiedCell(heap, root, k, leaf, blank, names, IndexOf(names, n))
  }

  ghost function Visited<N, D>(heap: map<N, Cell<N, D>>, root: Option<N>, k: Path): set<N> {
    set e | 0 <= e <= |k| && Walk(heap, root, k, e).Some? :: Walk(heap, root, k, e).value
  }

  lemma {:induction false} WalkFollowsRoute<N, D>(heap: map<N, Cell<N, D>>, v: Version<N, D>, k: Path, e: nat)
    requires Intact(heap, v) && e <= |k|
    ensures Walk(heap, NodeAt(v, []), k, e) == NodeAt(v, k[..e])
  {
    if e == 0 {
      assert k[..0] == [];
    } else {
      WalkFollowsRoute(heap, v, k, e - 1);
      var p := k[..e - 1];
      assert k[..e] == p + [k[e - 1]];
      assert k[..e][..e - 1] == p;
      if p in v {
        ChildOfCell(v, p, k[e - 1]);
      }
    }
  }

  lemma VisitedAreReplaced<N, D>(heap: map<N, Cell<N, D>>, v: Version<N, D>, k: Path)
    requires Intact(heap, v)
    ensures Visited(heap, NodeAt(v, []), k) == Replaced(v, k)
  {
    var root := NodeAt(v, []);
    forall n | n in Visited(heap, root, k) ensures n in Replaced(v, k) {
      var e :| 0 <= e <= |k| && Walk(heap, root, k, e).Some? && Walk(heap, root, k, e).value == n;
      WalkFollowsRoute(heap, v, k, e);
      assert k[..e] <= k;
    }
    forall n | n in Replaced(v, k) ensures n in Visited(heap, root, k) {
      var p :| p in v && p <= k && v[p].node == n;
      WalkFollowsRoute(heap, v, k, |p|);
      assert k[..|p|] == p;
    }
  }

  lemma ChildOfCopy<N, D>(v: Version<N, D>, k: Path, leaf: D, blank: D, names: seq<N>, e: nat, b: bool)
    requires |names| == |k| + 1 && e <= |k|
    ensures NodeAt(PathCopy(v, k, leaf, blank, names), k[..e] + [b]) ==
            if e < |k| && b == k[e] then Some(names[e + 1]) else NodeAt(v, k[..e] + [b])
  {
    var q := k[..e] + [b];
    PathCopyKeys(v, k, leaf, blank, names, q);
    assert q[e] == b;
    if e < |k| && b == k[e] {
      assert q == k[..e + 1];
    }
  }

  lemma AbsentChild<N, D>(v: Version<N, D>, p: Path, b: bool)
    requires PrefixClosed(v) && p !in v
    ensures p + [b] !in v
  {
    assert (p + [b])[..|p + [b]| - 1] == p;
  }

  lemma CopiedData<N, D>(v: Version<N, D>, k: Path, leaf: D, blank: D, names: seq<N>, e: nat)
    requires |names| == |k| + 1 && e <= |k|
    ensures var p, w := k[..e], PathCopy(v, k, leaf, blank, names);
            p in w && w[p].data == if e == |k| then leaf else if p in v then v[p].data else blank
  {
    PathCopyKeys(v, k, leaf, blank, names, k[..e]);
    assert k[..e] == k <==> e == |k|;
  }

  // A copied cell holds what the copied version says, whether its level was cloned or created.
  lemma CopiedCellMatches<N, D>(heap: map<N, Cell<N, D>>, v: Version<N, D>, k: Path, leaf: D, blank: D,
                                names: seq<N>, e: nat)
    requires |names| == |k| + 1 && e <= |k| && Intact(heap, v)
    ensures k[..e] in PathCopy(v, k, leaf, blank, names)
    ensures CopiedCell(heap, NodeAt(v, []), k, leaf, blank, names, e)
            == CellOf(PathCopy(v, k, leaf, blank, names), k[..e])
  {
    hide PathCopy, PrefixClosed, Unshared, Walk;
    var p := k[..e];
    CopiedData(v, k, leaf, blank, names, e);
    WalkFollowsRoute(heap, v, k, e);
    ChildOfCopy(v, k, leaf, blank, names, e, false);
    ChildOfCopy(v, k, leaf, blank, names, e, true);
    if p !in v {
      AbsentChild(v, p, false);
      AbsentChild(v, p, true);
    }
  }

  // Every other node of the new version is shared with the old one, cell and all.
  lemma SharedCellMatches<N, D>(v: Version<N, D>, k: Path, leaf: D, blank: D, names: seq<N>, p: Path)
    requires |names| == |k| + 1 && p in v && !(p <= k)
    ensures p in PathCopy(v, k, leaf, blank, names)
    ensures CellOf(PathCopy(v, k, leaf, blank, names), p) == CellOf(v, p)
  {}

  lemma PublishedCell<N, D>(heap: map<N, Cell<N, D>>, v: Version<N, D>, k: Path, leaf: D, blank: D, names: seq<N>,
                            p: Path)
    requires Intact(heap, v) && |names| == |k| + 1 && Distinct(names)
    requires forall i | 0 <= i < |names| :: names[i] !in heap
    requires p in PathCopy(v, k, leaf, blank, names)
    ensures var w := PathCopy(v, k, leaf, blank, names);
            var heap' := PublishedHeap(heap, NodeAt(v, []), k, leaf, blank, names);
            w[p].node in heap' && heap'[w[p].node] == CellOf(w, p)
  {
    PathCopyKeys(v, k, leaf, blank, names, p);
    var root, w := NodeAt(v, []), PathCopy(v, k, leaf, blank, names);
    var cells := CopiedCells(heap, root, k, leaf, blank, names);
    if p <= k {
      var e := |p|;
      assert p == k[..e];
      CopiedCellMatches(heap, v, k, leaf, blank, names, e);
      assert w[p].node == names[e] && names[e] in cells;
    } else {
      SharedCellMatches(v, k, leaf, blank, names, p);
      assert w[p].node == v[p].node && v[p].node !in cells;
    }
  }

  lemma OldCellsKept<N, D>(heap: map<N, Cell<N, D>>, v: Version<N, D>, k: Path, leaf: D, blank: D, names: seq<N>)
    requires Intact(heap, v) && |names| == |k| + 1 && Distinct(names)
    requires forall i | 0 <= i < |names| :: names[i] !in heap
    ensures Intact(PublishedHeap(heap, NodeAt(v, []), k, leaf, blank, names), v)
  {
    hide CopiedCell;
    IntactFrame(heap, PublishedHeap(heap, NodeAt(v, []), k, leaf, blank, names), v);
  }

  lemma PublishIntact<N, D>(heap: map<N, Cell<N, D>>, v: Version<N, D>, k: Path, leaf: D, blank: D, names: seq<N>)
    requires Intact(heap, v) && |names| == |k| + 1 && Distinct(names)
    requires forall i | 0 <= i < |names| :: names[i] !in heap
    ensures Fresh(v, names)
    ensures Intact(PublishedHeap(heap, NodeAt(v, []), k, leaf, blank, names), PathCopy(v, k, leaf, blank, names))
    ensures NodeAt(PathCopy(v, k, leaf, blank, names), []) == Some(names[0])
    ensures Intact(PublishedHeap(heap, NodeAt(v, []), k, leaf, blank, names), v)
  {
    OldCellsKept(heap, v, k, leaf, blank, names);
    var w := PathCopy(v, k, leaf, blank, names);
    PathCopyIsTree(v, k, leaf, blank, names);
    forall p | p in w
      ensures var heap' := PublishedHeap(heap, NodeAt(v, []), k, leaf, blank, names);
              w[p].node in heap' && heap'[w[p].node] == CellOf(w, p)
    {
      PublishedCell(heap, v, k, leaf, blank, names, p);
    }
    PathCopyKeys(v, k, leaf, blank, names, []);
  }
}
