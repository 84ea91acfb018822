// The hop-count trie of kernel/src/hcf.c as a heap structure, each function running alone (workers are
// serialised by the mutex; what lookups see while one runs is the subject of Reclaim).  Allocation succeeds.
module HcfTree {
  import opened Bits
  import opened Trie
  import opened Rcu
  import opened HopCount
  import Reclaim

  // struct hcf_node
  class HcfNode {
    var zero: HcfNode?
    var one: HcfNode?
    var hc: Byte
    var ttl: Byte

    constructor ()
      ensures zero == null && one == null && hc == 0 && ttl == 0
    {
      zero, one, hc, ttl := null, null, 0, 0;
    }

    constructor CloneOf(model: HcfNode)
      ensures zero == model.zero && one == model.one && hc == model.hc && ttl == model.ttl
    {
      zero, one, hc, ttl := model.zero, model.one, model.hc, model.ttl;
    }

    function Child(b: bool): HcfNode?
      reads this
    {
      if b then one else zero
    }

    method SetChild(b: bool, n: HcfNode)
      modifies this
      ensures Child(b) == n && Child(!b) == old(Child(!b))
      ensures hc == old(hc) && ttl == old(ttl)
    {
      if b {
        one := n;
      } else {
        zero := n;
      }
    }
  }

  type HcfVersion = Version<HcfNode, Info>

  ghost function Below(v: HcfVersion, p: Path, b: bool): HcfNode? {
    if p + [b] in v then v[p + [b]].node else null
  }

  ghost function RootOf(v: HcfVersion): HcfNode? {
    if [] in v then v[[]].node else null
  }

  // The node found at p holds what the version says.
  ghost predicate Holds(n: HcfNode, v: HcfVersion, p: Path, data: Info)
    reads n
  {
    && n.Child(false) == Below(v, p, false) && n.Child(true) == Below(v, p, true)
    && n.ttl == data.ttl && n.hc == data.hc
  }

  ghost predicate Depicts(v: HcfVersion)
    reads Nodes(v)
  {
    forall p | p in v :: v[p].node in Nodes(v) && Holds(v[p].node, v, p, v[p].data)
  }

  lemma ChildIsBelow(v: HcfVersion, p: Path, b: bool)
    requires Depicts(v) && p in v
    ensures v[p].node in Nodes(v) && v[p].node.Child(b) == Below(v, p, b)
    ensures v[p].node.ttl == v[p].data.ttl && v[p].node.hc == v[p].data.hc
  {}

  lemma NotBelow(v: HcfVersion, k: Path, e: nat)
    requires IsTree(v) && e <= |k| && k[..e] !in v
    ensures k !in v
  {
    if k in v {
      PrefixIn(v, k, e);
    }
  }

  // The bit read at (ip >> i) & 1 is the next one of the key.
  lemma NextBit(ip: Word, i: nat, depth: nat, next: nat)
    requires 8 <= i <= 31 && depth == 31 - i && next == depth + 1
    ensures Key(ip)[depth] == ShiftedBit(ip, i)
    ensures Key(ip)[..next] == Key(ip)[..depth] + [ShiftedBit(ip, i)]
  {}

  // ---------------------------------------------------------------------------
  // A path copy under construction

  ghost function OldData(v: HcfVersion, p: Path): Info {
    if p in v then v[p].data else BLANK
  }

  // Level e of the copied path is finished: it leads to level e + 1 and otherwise to what the old node led to.
  ghost predicate Linked(v: HcfVersion, k: Path, names: seq<HcfNode>, e: nat)
    requires e < |k| && e + 1 < |names|
    reads names[e]
  {
    && names[e].Child(k[e]) == names[e + 1] && names[e].Child(!k[e]) == Below(v, k[..e], !k[e])
    && names[e].ttl == OldData(v, k[..e]).ttl && names[e].hc == OldData(v, k[..e]).hc
  }

  ghost predicate Chain(v: HcfVersion, k: Path, names: seq<HcfNode>)
    requires 0 < |names| <= |k| + 1
    reads names
  {
    forall e | 0 <= e < |names| - 1 :: Linked(v, k, names, e)
  }

  ghost predicate Apart(names: seq<HcfNode>, taken: set<HcfNode>) {
    && (forall e | 0 <= e < |names| :: names[e] !in taken)
    && (forall d, e | 0 <= d < e < |names| :: names[d] != names[e])
  }

  // The copy has reached level |names| - 1; its last node still leads where the old path leads.
  ghost predicate Copying(v: HcfVersion, k: Path, names: seq<HcfNode>)
    reads names
  {
    && 0 < |names| <= |k| + 1 && Chain(v, k, names)
    && var p := k[..|names| - 1]; Holds(names[|names| - 1], v, p, OldData(v, p))
  }

  lemma StartCopy(v: HcfVersion, k: Path, root: HcfNode, clone: HcfNode, taken: set<HcfNode>)
    requires Depicts(v) && [] in v && v[[]].node == root && clone !in taken
    requires clone.Child(false) == root.Child(false) && clone.Child(true) == root.Child(true)
    requires clone.ttl == root.ttl && clone.hc == root.hc
    ensures Copying(v, k, [clone]) && Apart([clone], taken) && OnPath(v, k, [root]) && SetOf([clone]) == {clone}
    ensures k[..0] == []
  {}

  // new_runner->child[bit] = new_child
  method Link(newRunner: HcfNode, bit: bool, newChild: HcfNode, ghost v: HcfVersion, ghost k: Path,
              ghost names: seq<HcfNode>)
    requires Copying(v, k, names) && |names| <= |k|
    requires newRunner == names[|names| - 1] && bit == k[|names| - 1] && Apart(names, {newChild})
    requires Holds(newChild, v, k[..|names|], OldData(v, k[..|names|]))
    modifies newRunner
    ensures Copying(v, k, names + [newChild])
  {
    assert forall e | 0 <= e < |names| - 1 :: Linked(v, k, names, e);
    newRunner.SetChild(bit, newChild);
    forall e | 0 <= e < |names| ensures Linked(v, k, names + [newChild], e) {
      if e < |names| - 1 {
        assert Linked(v, k, names, e);
      }
    }
  }

  ghost function SetOf(names: seq<HcfNode>): set<HcfNode> {
    set n | n in names
  }

  // nodes_to_free[free_count++] = node
  method Note(nodesToFree: array<HcfNode?>, freeCount: nat, node: HcfNode, ghost noted: seq<HcfNode?>)
    returns (count: nat)
    requires freeCount < nodesToFree.Length && nodesToFree[..freeCount] == noted
    modifies nodesToFree
    ensures count == freeCount + 1 && nodesToFree[..count] == noted + [node]
  {
    nodesToFree[freeCount] := node;
    count := freeCount + 1;
    assert nodesToFree[..count] == nodesToFree[..freeCount] + [node];
  }

  // assign metadata
  method AssignLeaf(leaf: HcfNode, ttl: Byte, ghost v: HcfVersion, ghost k: Path, ghost names: seq<HcfNode>)
    requires Copying(v, k, names) && |names| == |k| + 1 && leaf == names[|k|] && Apart(names, Nodes(v)) && Depicts(v)
    modifies leaf
    ensures Chain(v, k, names) && Holds(leaf, v, k, Learned(ttl)) && Depicts(v)
    ensures leaf.ttl == ttl && leaf.hc == HopsTravelled(ttl)
  {
    assert k[..|k|] == k;
    assert forall e | 0 <= e < |names| - 1 :: Linked(v, k, names, e);
    leaf.ttl := ttl;
    leaf.hc := InitialTtl(ttl) - ttl;
    assert forall e | 0 <= e < |names| - 1 :: Linked(v, k, names, e);
    assert forall p | p in v :: v[p].node in Nodes(v);
  }

  lemma ApartExtends(names: seq<HcfNode>, next: HcfNode, taken: set<HcfNode>)
    requires Apart(names, taken) && next !in taken && next !in names
    ensures Apart(names, {next}) && Apart(names + [next], taken)
    ensures SetOf(names + [next]) == SetOf(names) + {next}
  {}

  lemma MembersApart(names: seq<HcfNode>, taken: set<HcfNode>, e: nat)
    requires Apart(names, taken) && e < |names|
    ensures names[e] !in taken && names[e] in SetOf(names)
  {}

  lemma ApartFewer(names: seq<HcfNode>, taken: set<HcfNode>, fewer: set<HcfNode>)
    requires Apart(names, taken) && fewer <= taken
    ensures Apart(names, fewer)
  {}

  // Past the end of the old path there is nothing to share.
  lemma NothingBelow(v: HcfVersion, p: Path)
    requires IsTree(v) && p !in v
    ensures Below(v, p, false) == null && Below(v, p, true) == null && OldData(v, p) == BLANK
  {}

  lemma StillMissing(v: HcfVersion, k: Path, e: nat)
    requires IsTree(v) && e < |k| && k[..e] !in v
    ensures k[..e + 1] !in v
  {
    assert k[..e + 1][..|k[..e + 1]| - 1] == k[..e];
  }

  // nodes_to_free holds the first levels of the old path.
  ghost predicate OnPath(v: HcfVersion, k: Path, nodes: seq<HcfNode>) {
    |nodes| <= |k| + 1 && forall e | 0 <= e < |nodes| :: k[..e] in v && nodes[e] == v[k[..e]].node
  }

  lemma OnPathExtends(v: HcfVersion, k: Path, nodes: seq<HcfNode>)
    requires OnPath(v, k, nodes) && |nodes| <= |k| && k[..|nodes|] in v
    ensures OnPath(v, k, nodes + [v[k[..|nodes|]].node])
  {}

  // A finished copy is what the copied version says.
  lemma ChainDepicts(v: HcfVersion, k: Path, leaf: Info, names: seq<HcfNode>)
    requires |names| == |k| + 1 && IsTree(v) && Depicts(v) && Chain(v, k, names) && Apart(names, Nodes(v))
    requires Holds(names[|k|], v, k, leaf)
    ensures IsTree(PathCopy(v, k, leaf, BLANK, names))
    ensures Depicts(PathCopy(v, k, leaf, BLANK, names))
    ensures RootOf(PathCopy(v, k, leaf, BLANK, names)) == names[0]
  {
    var w := PathCopy(v, k, leaf, BLANK, names);
    PathCopyIsTree(v, k, leaf, BLANK, names);
    PathCopyKeys(v, k, leaf, BLANK, names, []);
    forall p | p in w ensures w[p].node in Nodes(w) && Holds(w[p].node, w, p, w[p].data) {
      PathCopyKeys(v, k, leaf, BLANK, names, p);
      if p <= k {
        CopiedHolds(v, k, leaf, names, |p|);
        assert p == k[..|p|];
      } else {
        SharedHolds(v, k, leaf, names, p);
      }
    }
  }

  lemma BelowCopied(v: HcfVersion, k: Path, leaf: Info, names: seq<HcfNode>, e: nat, b: bool)
    requires |names| == |k| + 1 && e <= |k|
    ensures Below(PathCopy(v, k, leaf, BLANK, names), k[..e], b) ==
            if e < |k| && b == k[e] then names[e + 1] else Below(v, k[..e], b)
  {
    var q := k[..e] + [b];
    PathCopyKeys(v, k, leaf, BLANK, names, q);
    assert q[e] == b;
    if e < |k| && b == k[e] {
      assert q == k[..e + 1];
    }
  }

  lemma CopiedHolds(v: HcfVersion, k: Path, leaf: Info, names: seq<HcfNode>, e: nat)
    requires |names| == |k| + 1 && e <= |k| && Chain(v, k, names) && Holds(names[|k|], v, k, leaf)
    ensures var w := PathCopy(v, k, leaf, BLANK, names);
            k[..e] in w && w[k[..e]].node == names[e] && Holds(names[e], w, k[..e], w[k[..e]].data)
  {
    PathCopyKeys(v, k, leaf, BLANK, names, k[..e]);
    BelowCopied(v, k, leaf, names, e, false);
    BelowCopied(v, k, leaf, names, e, true);
    if e < |k| {
      assert Linked(v, k, names, e);
      assert k[..e] != k;
    } else {
      assert k[..e] == k;
    }
  }

  lemma SharedHolds(v: HcfVersion, k: Path, leaf: Info, names: seq<HcfNode>, p: Path)
    requires |names| == |k| + 1 && Depicts(v) && p in v && !(p <= k)
    ensures var w := PathCopy(v, k, leaf, BLANK, names);
            p in w && w[p] == v[p] && Holds(v[p].node, w, p, v[p].data)
  {}

  lemma RootMeansPruned(v: HcfVersion)
    requires v == map[] || Pruned(v, KEY_BITS)
    ensures RootOf(v) != null ==> Pruned(v, KEY_BITS)
  {}

  // What call_rcu has been given is still allocated, out of the tree, and given only once.
  ghost predicate Pending(callbacks: seq<HcfNode>, v: HcfVersion, live: set<HcfNode>) {
    && (forall n | n in callbacks :: n in live && n !in Nodes(v))
    && (forall i, j | 0 <= i < j < |callbacks| :: callbacks[i] != callbacks[j])
  }

  lemma PendingAfterCopy(callbacks: seq<HcfNode>, v: HcfVersion, live: set<HcfNode>, k: Path, leaf: Info,
                         names: seq<HcfNode>, retired: seq<HcfNode>)
    requires IsTree(v) && Nodes(v) <= live && Pending(callbacks, v, live)
    requires |names| == |k| + 1 && Apart(names, live) && OnPath(v, k, retired)
    ensures Pending(callbacks + retired, PathCopy(v, k, leaf, BLANK, names), live + SetOf(names))
    ensures Nodes(PathCopy(v, k, leaf, BLANK, names)) <= live + SetOf(names)
  {
    PathCopyNodes(v, k, leaf, BLANK, names);
    forall e | 0 <= e < |retired| ensures retired[e] in Replaced(v, k) && retired[e] in Nodes(v) {
      assert k[..e] in v && k[..e] <= k;
    }
    forall d, e | 0 <= d < e < |retired| ensures retired[d] != retired[e] {
      assert |k[..d]| < |k[..e]|;
    }
  }

  lemma RetiredAreReplaced(v: HcfVersion, k: Path, retired: seq<HcfNode>)
    requires IsTree(v) && OnPath(v, k, retired) && (|retired| <= |k| ==> k[..|retired|] !in v)
    ensures SetOf(retired) == Replaced(v, k)
  {
    forall p | p in v && p <= k ensures v[p].node in SetOf(retired) {
      assert p == k[..|p|];
      if |retired| <= |p| {
        assert k[..|p|][..|retired|] == k[..|retired|];
        PrefixIn(v, p, |retired|);
      }
      assert v[p].node == retired[|p|];
    }
    forall e | 0 <= e < |retired| ensures retired[e] in Replaced(v, k) {
      assert k[..e] <= k;
    }
  }

  // Everything the published version has to satisfy, from what the two loops have built.
  lemma PublishedTree(v: HcfVersion, k: Path, leaf: Info, names: seq<HcfNode>, retired: seq<HcfNode>,
                      callbacks: seq<HcfNode>, live: set<HcfNode>)
    requires |names| == |k| + 1 && IsTree(v) && Depicts(v) && Chain(v, k, names) && Apart(names, live)
    requires Pruned(v, |k|) && Nodes(v) <= live && Holds(names[|k|], v, k, leaf)
    requires 0 < |retired| <= |k| + 1 && OnPath(v, k, retired) && (|retired| <= |k| ==> k[..|retired|] !in v)
    requires Pending(callbacks, v, live)
    ensures var w := PathCopy(v, k, leaf, BLANK, names);
            && IsTree(w) && Pruned(w, |k|) && Depicts(w) && RootOf(w) == names[0]
            && Nodes(w) <= live + SetOf(names) && Pending(callbacks + retired, w, live + SetOf(names))
            && SetOf(retired) == Nodes(v) - Nodes(w)
    ensures |Missing(v, k)| == |k| + 1 - |retired|
  {
    hide Depicts, Holds, Chain, Pruned, Pending;
    RetiredAreReplaced(v, k, retired);
    PathCopyNodes(v, k, leaf, BLANK, names);
    ApartFewer(names, live, Nodes(v));
    ChainDepicts(v, k, leaf, names);
    PathCopyPruned(v, k, leaf, BLANK, names);
    PendingAfterCopy(callbacks, v, live, k, leaf, names, retired);
    MissingCount(v, k, |retired| - 1);
  }

  // ---------------------------------------------------------------------------
  // The same heap as the cells of Rcu

  ghost function Pointer(n: HcfNode?): Option<HcfNode> {
    if n == null then None else Some(n)
  }

  ghost function CellAt(n: HcfNode): Cell<HcfNode, Info>
    reads n
  {
    Cell(Pointer(n.Child(false)), Pointer(n.Child(true)), Info(n.ttl, n.hc))
  }

  ghost function Mirror(nodes: set<HcfNode>): map<HcfNode, Cell<HcfNode, Info>>
    reads nodes
  {
    map n | n in nodes :: CellAt(n)
  }

  lemma MirrorIntact(v: HcfVersion, live: set<HcfNode>)
    requires IsTree(v) && Depicts(v) && Nodes(v) <= live
    ensures Intact(Mirror(live), v) && Pointer(RootOf(v)) == NodeAt(v, []) && Mirror(live).Keys == live
  {}

  ghost predicate Agrees(cells: map<HcfNode, Cell<HcfNode, Info>>)
    reads cells.Keys
  {
    forall n | n in cells :: CellAt(n) == cells[n]
  }

  twostate lemma MirrorKept(nodes: set<HcfNode>)
    requires forall n | n in nodes :: unchanged(n)
    ensures Agrees(old(Mirror(nodes))) && old(Mirror(nodes)).Keys == nodes
  {}

  // The step that the concurrent model takes when a worker publishes.
  ghost predicate Publishes(before: map<HcfNode, Cell<HcfNode, Info>>, root: HcfNode?, k: Path, leaf: Info,
                            names: seq<HcfNode>, after: map<HcfNode, Cell<HcfNode, Info>>)
  {
    && |names| == |k| + 1 && Distinct(names) && (forall i | 0 <= i < |names| :: names[i] !in before)
    && after == PublishedHeap(before, Pointer(root), k, leaf, BLANK, names)
  }

  // What a worker leaves in memory is what the publishing step of the concurrent model writes.
  lemma MirrorPublished(before: map<HcfNode, Cell<HcfNode, Info>>, v: HcfVersion, k: Path, leaf: Info,
                        names: seq<HcfNode>, live: set<HcfNode>)
    requires Intact(before, v) && Pointer(RootOf(v)) == NodeAt(v, []) && |names| == |k| + 1 && Apart(names, before.Keys)
    requires Depicts(PathCopy(v, k, leaf, BLANK, names))
    requires live == before.Keys + SetOf(names) && Agrees(before)
    ensures Publishes(before, RootOf(v), k, leaf, names, Mirror(live))
  {
    hide Depicts, Intact, CopiedCell, PathCopy;
    var w := PathCopy(v, k, leaf, BLANK, names);
    var after := PublishedHeap(before, NodeAt(v, []), k, leaf, BLANK, names);
    forall e | 0 <= e <= |k| ensures CellAt(names[e]) == after[names[e]] {
      CopiedCellMatches(before, v, k, leaf, BLANK, names, e);
      CopiedName(v, k, leaf, names, e);
      ChildIsBelow(w, k[..e], false);
      ChildIsBelow(w, k[..e], true);
    }
    assert Mirror(live).Keys == after.Keys;
  }

  lemma CopiedName(v: HcfVersion, k: Path, leaf: Info, names: seq<HcfNode>, e: nat)
    requires |names| == |k| + 1 && e <= |k|
    ensures var w := PathCopy(v, k, leaf, BLANK, names);
            k[..e] in w && w[k[..e]].node == names[e]
  {}

  lemma RetiredDistinct(v: HcfVersion, k: Path, retired: seq<HcfNode>)
    requires IsTree(v) && OnPath(v, k, retired)
    ensures Distinct(retired)
  {
    forall i, j | 0 <= i < j < |retired| ensures retired[i] != retired[j] {
      assert |k[..i]| < |k[..j]|;
    }
  }

  // So a worker that finds the published root takes the publishing step of the concurrent model, and then, node
  // by node, the steps that hand to call_rcu exactly what that step has unlinked.
  lemma WorkerTakesSteps(s: Reclaim.State<HcfNode, Info>, root: HcfNode, v: HcfVersion, k: Path, leaf: Info,
                         names: seq<HcfNode>, after: map<HcfNode, Cell<HcfNode, Info>>, w: HcfVersion,
                         retired: seq<HcfNode>)
    requires Reclaim.Inv(s) && s.root == Some(root) && s.published == v
    requires Publishes(s.heap, root, k, leaf, names, after) && w == PathCopy(v, k, leaf, BLANK, names)
    requires OnPath(v, k, retired) && SetOf(retired) == Nodes(v) - Nodes(w)
    ensures var e := Reclaim.Publish(k, leaf, BLANK, names);
            && Reclaim.Enabled(s, e)
            && var s1 := Reclaim.Apply(s, e);
            && s1.heap == after && s1.root == Some(names[0]) && s1.published == w
            && SetOf(retired) !! s.unlinked && s1.unlinked == s.unlinked + SetOf(retired)
            && Distinct(retired) && (forall n | n in retired :: n in s1.unlinked)
            && var s2 := Reclaim.AfterCallRcu(s1, retired);
            && s2.unlinked == s.unlinked && s2.callbacks.Keys == s.callbacks.Keys + SetOf(retired)
            && s2.heap == after && s2.root == Some(names[0])
  {
    hide Nodes, Intact, Reclaim.Inv, PathCopy, PublishedHeap, Reclaim.AfterCallRcu;
    var e := Reclaim.Publish(k, leaf, BLANK, names);
    assert Reclaim.Enabled(s, e);
    TreeAt(s);
    RetiredDistinct(v, k, retired);
    UnlinkedBy(s, k, leaf, names);
    var s1 := Reclaim.Apply(s, e);
    assert forall n | n in retired :: n in SetOf(retired);
    Reclaim.CallRcuInTurn(s1, retired);
    assert (set n | n in retired) == SetOf(retired);
  }

  lemma UnlinkedBy(s: Reclaim.State<HcfNode, Info>, k: Path, leaf: Info, names: seq<HcfNode>)
    requires Reclaim.Inv(s) && Reclaim.Enabled(s, Reclaim.Publish(k, leaf, BLANK, names))
    ensures var s1 := Reclaim.Apply(s, Reclaim.Publish(k, leaf, BLANK, names));
            s1.unlinked == s.unlinked + (Nodes(s.published) - Nodes(s1.published))
    ensures Nodes(s.published) !! s.unlinked
  {
    hide Nodes, Intact, PathCopy, PublishedHeap, Visited;
    Reclaim.UnlinkedExactly(s, k, leaf, BLANK, names);
  }

  // What a replay does to memory: the cells of the new tree are added, those of the old one are gone.
  ghost predicate Replaces(before: map<HcfNode, Cell<HcfNode, Info>>, v: HcfVersion, w: HcfVersion,
                           after: map<HcfNode, Cell<HcfNode, Info>>)
  {
    IsTree(w) && Nodes(w) !! before.Keys && after == (before + CellsOf(w)) - Nodes(v)
  }

  lemma CellOfNode(w: HcfVersion, p: Path)
    requires Depicts(w) && p in w
    ensures w[p].node in Nodes(w) && CellAt(w[p].node) == CellOf(w, p)
  {
    hide Depicts;
    ChildIsBelow(w, p, false);
    ChildIsBelow(w, p, true);
  }

  lemma NewCellsAgree(w: HcfVersion)
    requires IsTree(w) && Depicts(w)
    ensures CellsOf(w).Keys == Nodes(w) && Agrees(CellsOf(w))
  {
    hide Depicts, CellAt, CellOf, PrefixClosed;
    forall p | p in w ensures CellAt(w[p].node) == CellsOf(w)[w[p].node] {
      CellOfNode(w, p);
    }
  }

  lemma MirrorReplaced(before: map<HcfNode, Cell<HcfNode, Info>>, v: HcfVersion, w: HcfVersion, live: set<HcfNode>)
    requires IsTree(w) && Depicts(w) && Nodes(w) !! before.Keys && Nodes(v) <= before.Keys
    requires live == (before.Keys - Nodes(v)) + Nodes(w) && Agrees(before)
    ensures Replaces(before, v, w, Mirror(live))
  {
    hide Depicts, CellsOf, CellAt, Nodes, PrefixClosed;
    NewCellsAgree(w);
    assert Mirror(live) == (before + CellsOf(w)) - Nodes(v);
  }

  // So a replay takes the steps that swap the tree, wait for a grace period and free the old tree: once the
  // readers that were running when the wait began have ended, whoever has come since, the free is enabled, and
  // it leaves in memory what the code leaves.
  lemma ReplayTakesSwapSteps(s: Reclaim.State<HcfNode, Info>, j: nat, v: HcfVersion, w: HcfVersion,
                             after: map<HcfNode, Cell<HcfNode, Info>>,
                             later: map<nat, Reclaim.Reader<HcfNode, Info>>, born: nat)
    requires Reclaim.Inv(s) && s.root.Some? && s.published == v && j !in s.orphans
    requires Replaces(s.heap, v, w, after)
    ensures var swap, wait, free := Reclaim.Swap(j, w), Reclaim.Synchronize(j), Reclaim.FreeTree(j, v);
            && Reclaim.Enabled(s, swap)
            && var s1 := Reclaim.Apply(s, swap);
            && Reclaim.Enabled(s1, wait)
            && var s2 := Reclaim.Apply(s1, wait);
            var t := s2.(readers := later, born := born);
            && (Reclaim.Enabled(t, free) <==> later.Keys !! s.readers.Keys)
            && (Reclaim.Enabled(t, free) ==>
                  var t' := Reclaim.Apply(t, free);
                  t'.heap == after && t'.published == w && t'.root == NodeAt(w, []) && t'.orphans == s.orphans)
  {
    hide Nodes, Intact, CellsOf, Reclaim.Inv, PrefixClosed;
    OldTreeKept(s, w);
  }

  lemma OldTreeKept(s: Reclaim.State<HcfNode, Info>, w: HcfVersion)
    requires Reclaim.Inv(s) && IsTree(w) && Nodes(w) !! s.heap.Keys
    ensures Intact(s.heap + CellsOf(w), s.published) && s.root == NodeAt(s.published, [])
  {
    hide Nodes, Intact, CellsOf, Reclaim.Inv, PrefixClosed;
    TreeAt(s);
    KeepsCells(s.heap, w);
    IntactFrame(s.heap, s.heap + CellsOf(w), s.published);
  }

  lemma TreeAt(s: Reclaim.State<HcfNode, Info>)
    requires Reclaim.Inv(s)
    ensures Intact(s.heap, s.published) && s.root == NodeAt(s.published, [])
    ensures forall n | n in Nodes(s.published) :: n in s.heap
  {}

  lemma KeepsCells(heap: map<HcfNode, Cell<HcfNode, Info>>, w: HcfVersion)
    requires IsTree(w) && Nodes(w) !! heap.Keys
    ensures forall n | n in heap :: n in heap + CellsOf(w) && (heap + CellsOf(w))[n] == heap[n]
  {}

  // ---------------------------------------------------------------------------
  // Freeing and building whole trees

  ghost function Under(v: HcfVersion, p: Path): set<Path> {
    set q | q in v && p <= q
  }

  ghost function NodesOf(v: HcfVersion, routes: set<Path>): set<HcfNode>
    requires routes <= v.Keys
  {
    set q | q in routes :: v[q].node
  }

  ghost function Subtree(v: HcfVersion, p: Path): set<HcfNode> {
    NodesOf(v, Under(v, p))
  }

  ghost predicate Shallow(v: HcfVersion) {
    forall q | q in v :: |q| <= KEY_BITS
  }

  lemma PrunedIsShallow(v: HcfVersion)
    requires v == map[] || Pruned(v, KEY_BITS)
    ensures Shallow(v)
  {}

  lemma WholeTree(v: HcfVersion)
    ensures Subtree(v, []) == Nodes(v)
  {}

  lemma Ancestor(v: HcfVersion, p: Path, q: Path)
    requires IsTree(v) && q in v
    ensures p <= q ==> p in v
  {
    if p <= q {
      PrefixIn(v, q, |p|);
      assert q[..|p|] == p;
    }
  }

  lemma NoSubtree(v: HcfVersion, p: Path)
    requires IsTree(v) && p !in v
    ensures Subtree(v, p) == {}
  {
    forall q | q in v ensures !(p <= q) {
      Ancestor(v, p, q);
    }
  }

  lemma BelowSplits(p: Path, q: Path)
    ensures p <= q <==> (q == p || p + [false] <= q || p + [true] <= q)
    ensures !(p + [false] <= q && p + [true] <= q) && !(p + [false] <= p) && !(p + [true] <= p)
  {
    if p <= q {
      assert |q| == |p| ==> q == p;
      assert |q| > |p| && q[|p|] ==> p + [true] <= q;
      assert |q| > |p| && !q[|p|] ==> p + [false] <= q;
    }
    forall b | p + [b] <= q ensures p <= q && q[|p|] == b {
      assert (p + [b])[|p|] == b;
    }
  }

  lemma RoutesSplit(v: HcfVersion, p: Path)
    requires p in v
    ensures Under(v, p) == Under(v, p + [false]) + Under(v, p + [true]) + {p}
    ensures Under(v, p + [false]) !! Under(v, p + [true])
    ensures p !in Under(v, p + [false]) && p !in Under(v, p + [true])
  {
    forall q | q in v
      ensures q in Under(v, p) <==> q in Under(v, p + [false]) + Under(v, p + [true]) + {p}
      ensures !(q in Under(v, p + [false]) && q in Under(v, p + [true]))
    {
      BelowSplits(p, q);
    }
    BelowSplits(p, p);
  }

  lemma NodesSplit(v: HcfVersion, r: set<Path>, s: set<Path>)
    requires IsTree(v) && r <= v.Keys && s <= v.Keys
    ensures NodesOf(v, r + s) == NodesOf(v, r) + NodesOf(v, s)
    ensures r !! s ==> NodesOf(v, r) !! NodesOf(v, s)
  {}

  lemma ChildrenOf(v: HcfVersion, p: Path)
    requires IsTree(v) && p in v
    ensures Subtree(v, p) == Subtree(v, p + [false]) + Subtree(v, p + [true]) + {v[p].node}
    ensures Subtree(v, p + [false]) !! Subtree(v, p + [true])
    ensures v[p].node !in Subtree(v, p + [false]) && v[p].node !in Subtree(v, p + [true])
  {
    hide IsTree, Under, NodesOf;
    RoutesSplit(v, p);
    UnderIsPresent(v, p);
    UnderIsPresent(v, p + [false]);
    UnderIsPresent(v, p + [true]);
    NodesSplit(v, Under(v, p + [false]), Under(v, p + [true]));
    NodesSplit(v, Under(v, p + [false]) + Under(v, p + [true]), {p});
    NodesSplit(v, Under(v, p + [false]), {p});
    NodesSplit(v, Under(v, p + [true]), {p});
    SingleNode(v, p);
  }

  lemma UnderIsPresent(v: HcfVersion, p: Path)
    ensures Under(v, p) <= v.Keys
  {}

  lemma SingleNode(v: HcfVersion, p: Path)
    requires p in v
    ensures NodesOf(v, {p}) == {v[p].node}
  {}

  // runner->child[bit] = new node
  method Attach(runner: HcfNode, bit: bool, n: HcfNode, ghost v: HcfVersion, ghost p: Path)
    requires IsTree(v) && Depicts(v) && p in v && v[p].node == runner && p + [bit] !in v
    requires n !in Nodes(v) && Holds(n, map[], [], BLANK)
    modifies runner
    ensures IsTree(Grow(v, p, bit, n, BLANK)) && Depicts(Grow(v, p, bit, n, BLANK))
    ensures Nodes(Grow(v, p, bit, n, BLANK)) == Nodes(v) + {n}
  {
    ghost var w := Grow(v, p, bit, n, BLANK);
    GrowIsTree(v, p, bit, n, BLANK);
    assert runner in Nodes(v);
    runner.SetChild(bit, n);
    forall q | q in w ensures w[q].node in Nodes(w) && Holds(w[q].node, w, q, w[q].data) {
      if q in v {
        BelowGrown(v, p, bit, n, q, false);
        BelowGrown(v, p, bit, n, q, true);
        assert Holds(v[q].node, v, q, v[q].data) || q == p;
      }
    }
  }

  lemma GrowKeys(v: HcfVersion, p: Path, b: bool, n: HcfNode)
    requires p in v && p + [b] !in v
    ensures var w := Grow(v, p, b, n, BLANK);
            && w.Keys == v.Keys + {p + [b]} && |w| == |v| + 1 && (forall q | q in v :: w[q] == v[q])
            && w[p + [b]].data == BLANK && w[p + [b]].node == n
  {}

  lemma BelowGrown(v: HcfVersion, p: Path, bit: bool, n: HcfNode, q: Path, b: bool)
    ensures Below(Grow(v, p, bit, n, BLANK), q, b) == if q == p && b == bit then n else Below(v, q, b)
  {
    if q + [b] == p + [bit] {
      assert (q + [b])[..|q|] == q && (q + [b])[|q|] == b;
    }
  }

  lemma StartDescent(v: HcfVersion, k: Path)
    requires RootOf(v) != null
    ensures k[..0] == [] && [] in v && Grown(v, k, 0, BLANK, v)
  {}

  lemma InNodes(v: HcfVersion, p: Path)
    ensures p in v ==> v[p].node in Nodes(v)
    ensures |p| == KEY_BITS ==> p[..KEY_BITS] == p
  {}

  // runner->ttl = ttl; runner->hc = hc at the end of a descent
  method Assign(runner: HcfNode, ttl: Byte, hc: Byte, ghost k: Path, ghost w: HcfVersion)
    requires IsTree(w) && Depicts(w) && k in w && w[k].node == runner
    modifies runner
    ensures Depicts(Mark(w, k, Info(ttl, hc)))
  {
    hide Nodes;
    ghost var x := Mark(w, k, Info(ttl, hc));
    assert forall q | q in w && q != k :: w[q].node != runner;
    assert forall q | q in w :: Holds(w[q].node, w, q, w[q].data);
    runner.ttl := ttl;
    runner.hc := hc;
    forall q | q in x ensures x[q].node in Nodes(x) && Holds(x[q].node, x, q, x[q].data) {
      MarkedBelow(w, k, Info(ttl, hc), q);
      InNodes(x, q);
      assert q != k ==> Holds(w[q].node, w, q, w[q].data);
    }
  }

  lemma MarkedBelow(w: HcfVersion, k: Path, info: Info, q: Path)
    requires k in w
    ensures forall b :: Below(Mark(w, k, info), q, b) == Below(w, q, b)
  {}

  method SetLeaf(runner: HcfNode, ttl: Byte, hc: Byte, ghost k: Path, ghost v: HcfVersion, ghost w: HcfVersion)
    returns (ghost x: HcfVersion)
    requires |k| == KEY_BITS && IsTree(w) && Depicts(w) && Grown(v, k, KEY_BITS, BLANK, w)
    requires k in w && w[k].node == runner && Pruned(v, KEY_BITS) && RootOf(v) != null
    modifies runner
    ensures IsTree(x) && Depicts(x) && Pruned(x, KEY_BITS) && RootOf(x) == RootOf(v) && Nodes(x) == Nodes(w)
    ensures |x| == |w| && Leaves(x, KEY_BITS) == Leaves(v, KEY_BITS)[k := Info(ttl, hc)]
  {
    hide Depicts, IsTree, Pruned, Leaves, Nodes;
    x := Mark(w, k, Info(ttl, hc));
    MarkIsTree(w, k, Info(ttl, hc));
    GrownLeaves(v, k, BLANK, w, Info(ttl, hc));
    assert x.Keys == w.Keys;
    Assign(runner, ttl, hc, k, w);
  }

  lemma EmptyHistory(root: HcfNode, v: HcfVersion)
    requires v == map[[] := Slot(root, BLANK)] && Holds(root, map[], [], BLANK)
    ensures IsTree(v) && Depicts(v) && Pruned(v, KEY_BITS) && RootOf(v) == root && Nodes(v) == {root}
    ensures Leaves(v, KEY_BITS) == map[]
  {}

  // A freshly built tree shares nothing with what was allocated before.
  lemma PendingBeside(callbacks: seq<HcfNode>, v: HcfVersion, w: HcfVersion, taken: set<HcfNode>)
    requires Pending(callbacks, v, taken) && Nodes(v) <= taken && taken !! Nodes(w)
    ensures Pending(callbacks, v, taken + Nodes(w)) && Pending(callbacks, w, taken + Nodes(w))
    ensures Nodes(w) !! Nodes(v)
  {}

  // What one run of the worker does to a trie that is there: from version v with the nodes `live` allocated
  // and `callbacks` queued to version w.
  ghost predicate Worked(v: HcfVersion, live: set<HcfNode>, callbacks: seq<HcfNode>, k: Path, leaf: Info,
                         w: HcfVersion, live': set<HcfNode>, callbacks': seq<HcfNode>,
                         names: seq<HcfNode>, retired: seq<HcfNode>, created: nat)
  {
    && |names| == |k| + 1 && Apart(names, live) && live' == live + SetOf(names)
    && w == PathCopy(v, k, leaf, BLANK, names)
    && OnPath(v, k, retired) && callbacks' == callbacks + retired
    && |retired| + created == |k| + 1 && created == |Missing(v, k)|
  }

  // struct hcf_state
  class HcfState {
    var tree: HcfNode?
    var callbacks: seq<HcfNode>           // nodes handed to call_rcu, oldest first
    ghost var version: HcfVersion         // the version below `tree`
    ghost var live: set<HcfNode>          // the nodes allocated from the slab cache and not freed

    ghost predicate Valid()
      reads this, Nodes(version)
    {
      && tree == RootOf(version)
      && IsTree(version) && (version == map[] || Pruned(version, KEY_BITS))
      && Depicts(version)
      && Nodes(version) <= live
      && Pending(callbacks, version, live)
    }

    // hcf_init_state
    constructor ()
      ensures Valid() && tree != null && Contents() == map[] && callbacks == []
    {
      var newTree := new HcfNode();
      tree, callbacks, version, live := newTree, [], map[[] := Slot(newTree, BLANK)], {newTree};
      new;
      EmptyHistory(newTree, version);
    }

    // What the trie knows, by 24-bit key.
    ghost function Contents(): Known
      reads this
    {
      Leaves(version, KEY_BITS)
    }

    // hcf_create_node
    method CreateNode() returns (n: HcfNode)
      modifies this`live
      ensures fresh(n) && live == old(live) + {n}
      ensures n.Child(false) == null && n.Child(true) == null && n.hc == 0 && n.ttl == 0
    {
      n := new HcfNode();
      live := live + {n};
    }

    // hcf_clone_node
    method CloneNode(model: HcfNode) returns (n: HcfNode)
      requires model in live
      modifies this`live
      ensures fresh(n) && live == old(live) + {n}
      ensures n.Child(false) == model.Child(false) && n.Child(true) == model.Child(true)
      ensures n.hc == model.hc && n.ttl == model.ttl
    {
      n := new HcfNode.CloneOf(model);
      live := live + {n};
    }

    // kmem_cache_free: only a node that is allocated may be freed.
    method KmemCacheFree(n: HcfNode)
      requires n in live
      modifies this`live
      ensures live == old(live) - {n}
    {
      live := live - {n};
    }

    // hcf_lookup_tree
    method LookupTree(sourceIp: Word, ttl: Byte) returns (result: int)
      requires Valid()
      ensures Key(sourceIp) !in Contents() ==> result == -1
      ensures Key(sourceIp) in Contents() ==>
                && result in {0, 1}
                && (result == 1 <==> -2 <= HopsTravelled(ttl) - Contents()[Key(sourceIp)].hc <= 2)
      ensures result == Answer(Contents(), sourceIp, ttl)
    {
      hide Key, Depicts, Nodes, Pruned, IsTree, ShiftedBit;
      ghost var k := Key(sourceIp);
      var runner := tree;
      if runner == null {
        assert k[..0] == [];
        NotBelow(version, k, 0);
        return -1;
      }
      assert k[..0] == [];
      var i := 31;
      while i >= 8
        invariant 7 <= i <= 31
        invariant k[..31 - i] in version && runner == version[k[..31 - i]].node
      {
        var bit := ShiftedBit(sourceIp, i);
        NextBit(sourceIp, i, 31 - i, 32 - i);
        ChildIsBelow(version, k[..31 - i], bit);
        assert runner in live;
        runner := runner.Child(bit);
        if runner == null {
          NotBelow(version, k, 32 - i);
          return -1;
        }
        i := i - 1;
      }
      assert k[..24] == k;
      ChildIsBelow(version, k, false);
      var initialTtl := InitialTtl(ttl);
      var currentHc := initialTtl - ttl;
      if Abs(currentHc - runner.hc) <= 2 {
        result := 1;
      } else {
        result := 0;
      }
    }

    // The first loop of hcf_register_ip_work: clone the path as far as it exists.
    method ClonePath(sourceIp: Word, root: HcfNode, nodesToFree: array<HcfNode?>)
      returns (newRoot: HcfNode, newRunner: HcfNode, freeCount: nat, remainingBits: int,
               ghost names: seq<HcfNode>, ghost retired: seq<HcfNode>)
      requires Valid() && tree == root && nodesToFree.Length == 33
      modifies this`live, nodesToFree
      ensures live == old(live) + SetOf(names) && Apart(names, old(live)) && fresh(newRunner)
      ensures 7 <= remainingBits <= 31 && |names| == freeCount == 32 - remainingBits
      ensures newRoot == names[0] && newRunner == names[|names| - 1]
      ensures Copying(version, Key(sourceIp), names) && OnPath(version, Key(sourceIp), retired)
      ensures nodesToFree[..freeCount] == retired
      ensures remainingBits >= 8 ==> Key(sourceIp)[..freeCount] !in version
    {
      hide Key, Depicts, Nodes, Pruned, IsTree, ShiftedBit, Copying, Apart, OnPath, SetOf;
      ghost var k, v := Key(sourceIp), version;
      var runner := root;
      newRoot, freeCount := CloneRoot(runner, nodesToFree, k);
      newRunner := newRoot;
      names, retired := [newRunner], [runner];
      remainingBits := 31;
      while remainingBits >= 8
        invariant 7 <= remainingBits <= 31 && |names| == freeCount == 32 - remainingBits
        invariant newRoot == names[0] && newRunner == names[|names| - 1]
        invariant k[..freeCount - 1] in v && runner == v[k[..freeCount - 1]].node
        invariant Copying(v, k, names) && Apart(names, old(live)) && fresh(newRunner)
        invariant live == old(live) + SetOf(names)
        invariant OnPath(v, k, retired) && nodesToFree[..freeCount] == retired
        invariant Depicts(v)
      {
        var bit := ShiftedBit(sourceIp, remainingBits);
        NextBit(sourceIp, remainingBits, freeCount - 1, freeCount);
        ChildIsBelow(v, k[..freeCount - 1], bit);
        assert runner in live;
        var oldChild := runner.Child(bit);
        if oldChild == null {
          break;
        }
        newRunner := CloneInto(newRunner, bit, oldChild, nodesToFree, freeCount, k, names, retired, old(live));
        freeCount := freeCount + 1;
        names := names + [newRunner];
        retired := retired + [oldChild];
        runner := oldChild;
        remainingBits := remainingBits - 1;
      }
    }

    // Clone the root and remember the original.
    method CloneRoot(root: HcfNode, nodesToFree: array<HcfNode?>, ghost k: Path)
      returns (newRoot: HcfNode, freeCount: nat)
      requires Valid() && tree == root && nodesToFree.Length == 33
      modifies this`live, nodesToFree
      ensures fresh(newRoot) && freeCount == 1 && nodesToFree[..1] == [root]
      ensures live == old(live) + SetOf([newRoot]) && Apart([newRoot], old(live))
      ensures k[..0] in version && root == version[k[..0]].node
      ensures Copying(version, k, [newRoot]) && OnPath(version, k, [root]) && Depicts(version)
    {
      hide Depicts, Nodes, Pruned, IsTree, Copying, Apart, OnPath, SetOf;
      ChildIsBelow(version, [], false);
      newRoot := CloneNode(root);
      freeCount := Note(nodesToFree, 0, root, []);
      StartCopy(version, k, root, newRoot, old(live));
    }

    // Clone a child, hang the clone below the new runner and remember the original.
    method CloneInto(newRunner: HcfNode, bit: bool, oldChild: HcfNode, nodesToFree: array<HcfNode?>, freeCount: nat,
                     ghost k: Path, ghost names: seq<HcfNode>, ghost retired: seq<HcfNode>, ghost taken: set<HcfNode>)
      returns (newChild: HcfNode)
      requires Depicts(version) && Nodes(version) <= taken <= live
      requires Copying(version, k, names) && 0 < |names| == freeCount <= |k| && Apart(names, taken)
      requires live == taken + SetOf(names)
      requires newRunner == names[freeCount - 1] && bit == k[freeCount - 1]
      requires k[..freeCount] in version && oldChild == version[k[..freeCount]].node
      requires freeCount < nodesToFree.Length && nodesToFree[..freeCount] == retired && OnPath(version, k, retired)
      modifies this`live, newRunner, nodesToFree
      ensures fresh(newChild) && live == taken + SetOf(names + [newChild])
      ensures Copying(version, k, names + [newChild]) && Depicts(version) && Apart(names + [newChild], taken)
      ensures nodesToFree[..freeCount + 1] == retired + [oldChild] && OnPath(version, k, retired + [oldChild])
    {
      hide OnPath, Copying, Depicts, Nodes;
      ghost var p := k[..freeCount];
      ChildIsBelow(version, p, false);
      ChildIsBelow(version, p, true);
      OnPathExtends(version, k, retired);
      newChild := CloneNode(oldChild);
      ApartExtends(names, newChild, taken);
      MembersApart(names, taken, freeCount - 1);
      assert newRunner !in Nodes(version);
      Link(newRunner, bit, newChild, version, k, names);
      var _ := Note(nodesToFree, freeCount, oldChild, retired);
    }

    // The second loop: create the rest of the path.
    method CreateRest(sourceIp: Word, runner: HcfNode, bits: int, ghost path: seq<HcfNode>, ghost taken: set<HcfNode>)
      returns (leaf: HcfNode, nodesCreated: nat, ghost names: seq<HcfNode>)
      requires IsTree(version) && Depicts(version) && Nodes(version) <= taken <= live
      requires 7 <= bits <= 31 && |path| == 32 - bits && runner == path[|path| - 1]
      requires Copying(version, Key(sourceIp), path) && Apart(path, taken) && live == taken + SetOf(path)
      requires bits >= 8 ==> Key(sourceIp)[..|path|] !in version
      modifies this`live, runner
      ensures IsTree(version) && Depicts(version) && Copying(version, Key(sourceIp), names) && Apart(names, taken)
      ensures |names| == KEY_BITS + 1 && path <= names && leaf == names[KEY_BITS]
      ensures nodesCreated == KEY_BITS + 1 - |path|
      ensures live == taken + SetOf(names) && (leaf == runner || fresh(leaf))
    {
      hide Key, Depicts, Nodes, IsTree, ShiftedBit, Copying, Apart, SetOf;
      ghost var k, v := Key(sourceIp), version;
      leaf, nodesCreated, names := runner, 0, path;
      var remainingBits := bits;
      while remainingBits >= 8
        invariant 7 <= remainingBits <= 31 && |names| == 32 - remainingBits && path <= names
        invariant nodesCreated == |names| - |path|
        invariant leaf == names[|names| - 1]
        invariant remainingBits >= 8 ==> k[..|names|] !in v
        invariant Copying(v, k, names) && Apart(names, taken)
        invariant live == taken + SetOf(names)
        invariant leaf == runner || fresh(leaf)
        invariant Depicts(v)
      {
        var bit := ShiftedBit(sourceIp, remainingBits);
        NextBit(sourceIp, remainingBits, |names| - 1, |names|);
        NothingBelow(v, k[..|names|]);
        MembersApart(names, taken, |names| - 1);
        assert leaf in names && leaf !in Nodes(v);
        var child := CreateNode();
        ApartExtends(names, child, taken);
        Link(leaf, bit, child, v, k, names);
        names := names + [child];
        leaf := child;
        nodesCreated := nodesCreated + 1;
        remainingBits := remainingBits - 1;
        if remainingBits >= 8 {
          StillMissing(v, k, |names| - 1);
        }
      }
    }

    // Both loops and the assignment to the new leaf: a complete private copy of the path.
    method BuildCopy(sourceIp: Word, ttl: Byte, root: HcfNode, nodesToFree: array<HcfNode?>)
      returns (newRoot: HcfNode, leaf: HcfNode, freeCount: nat, nodesCreated: nat,
               ghost names: seq<HcfNode>, ghost retired: seq<HcfNode>)
      requires Valid() && tree == root && nodesToFree.Length == 33
      modifies this`live, nodesToFree
      ensures |names| == KEY_BITS + 1 && newRoot == names[0] && leaf == names[KEY_BITS] && Apart(names, old(live))
      ensures live == old(live) + SetOf(names)
      ensures Depicts(version) && Chain(version, Key(sourceIp), names)
      ensures Holds(leaf, version, Key(sourceIp), Learned(ttl))
      ensures leaf.ttl == ttl && leaf.hc == HopsTravelled(ttl)
      ensures freeCount <= 33 && nodesToFree[..freeCount] == retired && OnPath(version, Key(sourceIp), retired)
      ensures 0 < freeCount && freeCount + nodesCreated == KEY_BITS + 1
      ensures freeCount <= KEY_BITS ==> Key(sourceIp)[..freeCount] !in version
      ensures Agrees(old(Mirror(live)))
    {
      hide Key, Depicts, Nodes, ShiftedBit, Chain, Copying, Apart, OnPath, SetOf, Pending, Learned, Pruned, IsTree,
           Mirror, Agrees, Publishes, PathCopy, Holds, Intact;
      ghost var path, taken := [], live;
      var newRunner, remainingBits;
      newRoot, newRunner, freeCount, remainingBits, path, retired := ClonePath(sourceIp, root, nodesToFree);
      leaf, nodesCreated, names := CreateRest(sourceIp, newRunner, remainingBits, path, taken);
      ApartFewer(names, taken, Nodes(version));
      AssignLeaf(leaf, ttl, version, Key(sourceIp), names);
      MirrorKept(taken);
    }

    // call_rcu on every replaced node
    method Retire(nodesToFree: array<HcfNode?>, freeCount: nat, ghost retired: seq<HcfNode>)
      requires freeCount <= nodesToFree.Length && nodesToFree[..freeCount] == retired
      modifies this`callbacks
      ensures callbacks == old(callbacks) + retired
    {
      for i := 0 to freeCount
        invariant callbacks == old(callbacks) + retired[..i]
      {
        var node := nodesToFree[i];
        assert nodesToFree[..freeCount][i] == node == retired[i];
        callbacks := callbacks + [node];
      }
    }

    // Everything that happens under the mutex, and the call_rcu loop after it.
    method CopyPath(sourceIp: Word, ttl: Byte, root: HcfNode)
      returns (leaf: HcfNode, nodesCreated: nat, ghost names: seq<HcfNode>, ghost retired: seq<HcfNode>)
      requires Valid() && tree == root
      modifies this
      ensures Valid() && Depicts(old(version))
      ensures Worked(old(version), old(live), old(callbacks), Key(sourceIp), Learned(ttl),
                     version, live, callbacks, names, retired, nodesCreated)
      ensures SetOf(retired) == Nodes(old(version)) - Nodes(version)
      ensures leaf.ttl == ttl && leaf.hc == HopsTravelled(ttl)
      ensures Publishes(old(Mirror(live)), root, Key(sourceIp), Learned(ttl), names, Mirror(live))
    {
      hide Key, Depicts, Nodes, ShiftedBit, Chain, Holds, Apart, OnPath, SetOf, Pending, PathCopy, Missing, Learned,
           Pruned, IsTree, Intact, Publishes, Mirror, Agrees, RootOf, NodeAt, Pointer;
      ghost var k, v, taken, before := Key(sourceIp), version, live, Mirror(live);
      RootMeansPruned(v);
      MirrorIntact(v, live);
      var nodesToFree := new HcfNode?[33](_ => null);
      var newRoot, freeCount;
      newRoot, leaf, freeCount, nodesCreated, names, retired := BuildCopy(sourceIp, ttl, root, nodesToFree);
      tree := newRoot;
      version := PathCopy(v, k, Learned(ttl), BLANK, names);
      PublishedTree(v, k, Learned(ttl), names, retired, callbacks, taken);
      Retire(nodesToFree, freeCount, retired);
      MirrorPublished(before, v, k, Learned(ttl), names, live);
    }

    // hcf_register_ip_work.  The announcement reports the fields of the new leaf as they are under the lock.
    // Memory changes as in the publishing step of the concurrent model.
    method RegisterIpWork(sourceIp: Word, ttl: Byte)
      returns (nodesCreated: nat, announced: Option<(Word, Byte, Byte)>,
               ghost names: seq<HcfNode>, ghost retired: seq<HcfNode>)
      requires Valid()
      modifies this
      ensures Valid() && Depicts(old(version))
      ensures old(tree) == null ==> unchanged(this) && nodesCreated == 0
      ensures old(tree) != null ==>
                Worked(old(version), old(live), old(callbacks), Key(sourceIp), Learned(ttl),
                       version, live, callbacks, names, retired, nodesCreated)
      ensures old(tree) != null ==> SetOf(retired) == Nodes(old(version)) - Nodes(version)
      ensures old(tree) != null ==> Contents() == old(Contents())[Key(sourceIp) := Learned(ttl)]
      ensures announced == if nodesCreated > 0 then Some((sourceIp, ttl, HopsTravelled(ttl))) else None
      ensures old(tree) != null ==> (nodesCreated == 0 <==> Key(sourceIp) in old(Contents()))
      ensures old(tree) != null ==>
                Publishes(old(Mirror(live)), old(tree), Key(sourceIp), Learned(ttl), names, Mirror(live))
    {
      hide Key, Depicts, Nodes, Apart, OnPath, SetOf, Pending, PathCopy, Missing, Learned, Pruned, Mirror,
           Publishes;
      nodesCreated, announced, names, retired := 0, None, [], [];
      var runner := tree;
      if runner == null {
        return;
      }
      ghost var k, v := Key(sourceIp), version;
      RouteComplete(v, k);
      var leaf;
      leaf, nodesCreated, names, retired := CopyPath(sourceIp, ttl, runner);
      if nodesCreated > 0 {
        announced := Some((sourceIp, leaf.ttl, leaf.hc));
      }
      PathCopyLeaves(v, k, Learned(ttl), BLANK, names);
    }

    // hcf_free_node: a node's children are read before the node is freed, and every node is freed once.
    method FreeNode(node: HcfNode?, ghost v: HcfVersion, ghost p: Path)
      requires IsTree(v) && Depicts(v) && Shallow(v) && |p| <= KEY_BITS + 1
      requires node == (if p in v then v[p].node else null) && Subtree(v, p) <= live
      modifies this`live
      ensures live == old(live) - Subtree(v, p)
      decreases KEY_BITS + 1 - |p|
    {
      hide Depicts, IsTree, Subtree;
      if node == null {
        NoSubtree(v, p);
        return;
      }
      ChildrenOf(v, p);
      ChildIsBelow(v, p, false);
      ChildIsBelow(v, p, true);
      assert node in live;
      FreeNode(node.Child(false), v, p + [false]);
      assert node in live;
      FreeNode(node.Child(true), v, p + [true]);
      KmemCacheFree(node);
    }

    // hcf_swap_tree
    method SwapTree(newTree: HcfNode?, ghost newVersion: HcfVersion)
      requires Valid() && newTree == RootOf(newVersion)
      requires IsTree(newVersion) && Depicts(newVersion) && (newVersion == map[] || Pruned(newVersion, KEY_BITS))
      requires Nodes(newVersion) <= live && Nodes(newVersion) !! Nodes(version)
      requires Pending(callbacks, newVersion, live)
      modifies this
      ensures Valid() && version == newVersion && callbacks == old(callbacks)
      ensures live == old(live) - Nodes(old(version))
    {
      hide Depicts, IsTree, Pruned, Nodes;
      ghost var oldVersion := version;
      PrunedIsShallow(version);
      WholeTree(version);
      var oldRoot := tree;
      tree := newTree;
      version := newVersion;
      if oldRoot == null {
        NoSubtree(oldVersion, []);
        return;
      }
      // synchronize_rcu() waits here
      FreeNode(oldRoot, oldVersion, []);
    }

    // runner->child[bit] = hcf_create_node()
    method AddChild(runner: HcfNode, bit: bool, ghost p: Path, ghost w: HcfVersion, ghost taken: set<HcfNode>)
      returns (ghost w': HcfVersion)
      requires IsTree(w) && Depicts(w) && live == taken + Nodes(w) && taken !! Nodes(w)
      requires p in w && runner == w[p].node && p + [bit] !in w
      modifies this`live, runner
      ensures IsTree(w') && Depicts(w') && live == taken + Nodes(w') && taken !! Nodes(w')
      ensures w'.Keys == w.Keys + {p + [bit]} && |w'| == |w| + 1 && w'[p + [bit]].data == BLANK
      ensures forall q | q in w :: w'[q] == w[q]
      ensures forall n | n in Nodes(w') :: n in Nodes(w) || fresh(n)
    {
      hide Depicts, IsTree, Grow, Nodes;
      var child := CreateNode();
      assert child !in taken + Nodes(w);
      Attach(runner, bit, child, w, p);
      w' := Grow(w, p, bit, child, BLANK);
      GrowKeys(w, p, bit, child);
      assert Nodes(w') == Nodes(w) + {child};
      assert live == taken + Nodes(w');
    }

    // One step of the inner loop of hcf_register_ip_history: create the child if it is missing, then go there.
    method Descend(runner: HcfNode, bit: bool, ghost k: Path, ghost e: nat, ghost v: HcfVersion, ghost w: HcfVersion,
                   ghost taken: set<HcfNode>)
      returns (next: HcfNode, created: nat, ghost w': HcfVersion)
      requires IsTree(w) && Depicts(w) && live == taken + Nodes(w) && taken !! Nodes(w) && e < |k| && bit == k[e]
      requires Grown(v, k, e, BLANK, w) && k[..e] in w && runner == w[k[..e]].node
      modifies this`live, runner
      ensures IsTree(w') && Depicts(w') && Grown(v, k, e + 1, BLANK, w')
      ensures k[..e + 1] in w' && next == w'[k[..e + 1]].node
      ensures created == |w'| - |w|
      ensures live == taken + Nodes(w') && taken !! Nodes(w')
      ensures forall n | n in Nodes(w') :: n in Nodes(w) || fresh(n)
    {
      hide Depicts, IsTree, Grown, Grow, Nodes;
      PrefixesStep(k, e);
      ChildIsBelow(w, k[..e], bit);
      created, w' := 0, w;
      if runner.Child(bit) == null {
        w' := AddChild(runner, bit, k[..e], w, taken);
        created := 1;
      }
      ChildIsBelow(w', k[..e], bit);
      next := runner.Child(bit);
      GrownStep(v, k, e, BLANK, w, w');
    }

    // One entry of a history message: descend 24 levels, then assign the leaf.
    method InsertEntry(root: HcfNode, entry: Entry, ghost v: HcfVersion, ghost taken: set<HcfNode>)
      returns (created: nat, ghost w: HcfVersion)
      requires IsTree(v) && Depicts(v) && Pruned(v, KEY_BITS) && root == RootOf(v)
      requires live == taken + Nodes(v) && taken !! Nodes(v)
      modifies this`live, Nodes(v)
      ensures IsTree(w) && Depicts(w) && Pruned(w, KEY_BITS) && root == RootOf(w)
      ensures Leaves(w, KEY_BITS) == Leaves(v, KEY_BITS)[Key(entry.ip) := Info(entry.ttl, entry.hc)]
      ensures |w| == |v| + created && live == taken + Nodes(w) && taken !! Nodes(w)
      ensures forall n | n in Nodes(w) :: n in Nodes(v) || fresh(n)
    {
      hide Depicts, IsTree, Grown, Nodes, Pruned, Key, Leaves, ShiftedBit;
      ghost var k := Key(entry.ip);
      var runner := root;
      created, w := 0, v;
      StartDescent(v, k);
      var i := 31;
      while i >= 8
        invariant 7 <= i <= 31
        invariant IsTree(w) && Depicts(w) && Grown(v, k, 31 - i, BLANK, w)
        invariant k[..31 - i] in w && runner == w[k[..31 - i]].node
        invariant live == taken + Nodes(w) && taken !! Nodes(w)
        invariant |w| == |v| + created
        invariant forall n | n in Nodes(w) :: n in Nodes(v) || fresh(n)
      {
        var bit := ShiftedBit(entry.ip, i);
        NextBit(entry.ip, i, 31 - i, 32 - i);
        InNodes(w, k[..31 - i]);
        var more;
        runner, more, w := Descend(runner, bit, k, 31 - i, v, w, taken);
        created := created + more;
        i := i - 1;
      }
      InNodes(w, k);
      w := SetLeaf(runner, entry.ttl, entry.hc, k, v, w);
    }

    // The loop over the entries: a private tree, beside the published one.
    method BuildHistory(entries: seq<Entry>)
      returns (newTree: HcfNode, newNodes: nat, newIps: nat, ghost v: HcfVersion)
      requires Valid()
      modifies this`live
      ensures IsTree(v) && Depicts(v) && Pruned(v, KEY_BITS) && newTree == RootOf(v) && fresh(Nodes(v))
      ensures Leaves(v, KEY_BITS) == Replayed(entries)
      ensures |v| == 1 + newNodes && newIps == |entries|
      ensures live == old(live) + Nodes(v) && old(live) !! Nodes(v)
      ensures Depicts(version)
    {
      hide Depicts, IsTree, Nodes, Pruned, Key, Leaves, Pending;
      ghost var taken := live;
      newTree := CreateNode();
      v := map[[] := Slot(newTree, BLANK)];
      EmptyHistory(newTree, v);
      newNodes, newIps := 0, 0;
      while newIps < |entries|
        invariant 0 <= newIps <= |entries|
        invariant IsTree(v) && Depicts(v) && Pruned(v, KEY_BITS) && newTree == RootOf(v) && fresh(Nodes(v))
        invariant Leaves(v, KEY_BITS) == Replayed(entries[..newIps])
        invariant |v| == 1 + newNodes
        invariant live == taken + Nodes(v) && taken !! Nodes(v)
        invariant Depicts(version)
      {
        var created;
        ReplayedStep(entries, newIps);
        created, v := InsertEntry(newTree, entries[newIps], v, taken);
        newNodes := newNodes + created;
        newIps := newIps + 1;
      }
      assert entries[..|entries|] == entries;
    }

    // hcf_register_ip_history, with the entries already decoded.
    method RegisterIpHistory(entries: seq<Entry>) returns (newNodes: nat, newIps: nat)
      requires Valid()
      modifies this
      ensures Valid() && tree != null && fresh(Nodes(version))
      ensures Contents() == Replayed(entries)
      ensures |version| == 1 + newNodes && newIps == |entries|
      ensures live == (old(live) - Nodes(old(version))) + Nodes(version) && callbacks == old(callbacks)
      ensures Replaces(old(Mirror(live)), old(version), version, Mirror(live))
    {
      hide Depicts, IsTree, Nodes, Pruned, Key, Leaves, Pending, Mirror, Agrees, Replaces, Intact;
      ghost var taken, before := live, Mirror(live);
      MirrorIntact(version, live);
      var newTree;
      ghost var v;
      newTree, newNodes, newIps, v := BuildHistory(entries);
      MirrorKept(taken);
      MirrorReplaced(before, version, v, (taken - Nodes(version)) + Nodes(v));
      PendingBeside(callbacks, version, v, taken);
      SwapTree(newTree, v);
    }
  }
}
