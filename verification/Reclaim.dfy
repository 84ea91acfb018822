// Lookups, publications and reclamation as a transition system (kernel/src/hcf.c and kernel/src/bogon.c).
// A lookup follows one pointer or reads one field per step, a worker publishes a copied path under the mutex,
// call_rcu is issued node by node after the mutex has been dropped, a whole tree is swapped out under the
// lock and freed one grace period later.  Steps of different threads interleave freely.
module Reclaim {
  import opened Bits
  import opened Trie
  import opened Rcu

  // A running lookup.  `begun` is a history variable: the version that was published when the lookup
  // dereferenced the root.  No step depends on it.
  datatype Reader<N, D> = Reader(key: Path, depth: nat, cursor: Option<N>, looks: seq<(nat, D)>, begun: Version<N, D>)

  // A tree that has been swapped out; `waits` is None until its grace period has been started.
  // `tree` is a history variable.
  datatype Orphan<N, D> = Orphan(root: N, waits: Option<set<nat>>, tree: Version<N, D>)

  datatype State<N, D> = State(
    heap: map<N, Cell<N, D>>,
    root: Option<N>,
    readers: map<nat, Reader<N, D>>,
    born: nat,                         // readers are numbered in the order in which they begin
    unlinked: set<N>,                  // replaced, but call_rcu has not been issued yet
    callbacks: map<N, set<nat>>,       // call_rcu issued, with the readers running at that moment
    orphans: map<nat, Orphan<N, D>>,
    published: Version<N, D>           // history variable: the version below the root
  )

  datatype Event<N, D> =
    | Begin(key: Path)
    | Look(reader: nat)
    | Move(reader: nat)
    | End(reader: nat)
    | Publish(key: Path, leaf: D, blank: D, names: seq<N>)
    | CallRcu(node: N)
    | Reclaim(node: N)
    | Swap(job: nat, tree: Version<N, D>)
    | Synchronize(job: nat)
    | FreeTree(job: nat, walked: Version<N, D>)

  ghost predicate Init<N, D>(s: State<N, D>) {
    && IsTree(s.published)
    && s.heap == CellsOf(s.published)
    && s.root == NodeAt(s.published, [])
    && s.readers == map[] && s.unlinked == {} && s.callbacks == map[] && s.orphans == map[]
  }

  // A reader's step says nothing about whether the cell is still allocated beyond asking for it in order to
  // be defined; ReadersNeverDangle shows that it always is.
  ghost predicate Enabled<N, D>(s: State<N, D>, e: Event<N, D>) {
    match e
    case Begin(_) => true
    case Look(r) =>
      r in s.readers && s.readers[r].cursor.Some? && s.readers[r].cursor.value in s.heap
    case Move(r) =>
      && r in s.readers && s.readers[r].depth < |s.readers[r].key|
      && s.readers[r].cursor.Some? && s.readers[r].cursor.value in s.heap
    case End(r) => r in s.readers
    case Publish(k, _, _, names) =>
      && s.root.Some? && |names| == |k| + 1 && Distinct(names)
      && forall i | 0 <= i < |names| :: names[i] !in s.heap
    case CallRcu(n) => n in s.unlinked
    case Reclaim(n) => n in s.callbacks && s.callbacks[n] !! s.readers.Keys
    case Swap(j, t) => j !in s.orphans && IsTree(t) && Nodes(t) !! s.heap.Keys
    case Synchronize(j) => j in s.orphans && s.orphans[j].waits.None?
    case FreeTree(j, t) =>
      && j in s.orphans && s.orphans[j].waits.Some? && s.orphans[j].waits.value !! s.readers.Keys
      && Intact(s.heap, t) && NodeAt(t, []) == Some(s.orphans[j].root)
  }

  ghost function Moved<N, D>(s: State<N, D>, r: nat): Reader<N, D>
    requires Enabled(s, Move(r))
  {
    var rd := s.readers[r];
    rd.(cursor := s.heap[rd.cursor.value].Child(rd.key[rd.depth]), depth := rd.depth + 1)
  }

  ghost function Looked<N, D>(s: State<N, D>, r: nat): Reader<N, D>
    requires Enabled(s, Look(r))
  {
    var rd := s.readers[r];
    rd.(looks := rd.looks + [(rd.depth, s.heap[rd.cursor.value].data)])
  }

  ghost function Apply<N, D>(s: State<N, D>, e: Event<N, D>): State<N, D>
    requires Enabled(s, e)
  {
    match e
    case Begin(k) =>
      s.(readers := s.readers[s.born := Reader(k, 0, s.root, [], s.published)], born := s.born + 1)
    case Look(r) => s.(readers := s.readers[r := Looked(s, r)])
    case Move(r) => s.(readers := s.readers[r := Moved(s, r)])
    case End(r) => s.(readers := s.readers - {r})
    case Publish(k, leaf, blank, names) =>
      s.(heap := PublishedHeap(s.heap, s.root, k, leaf, blank, names),
         root := Some(names[0]),
         unlinked := s.unlinked + Visited(s.heap, s.root, k),
         published := PathCopy(s.published, k, leaf, blank, names))
    case CallRcu(n) =>
      s.(unlinked := s.unlinked - {n}, callbacks := s.callbacks[n := s.readers.Keys])
    case Reclaim(n) =>
      s.(heap := s.heap - {n}, callbacks := s.callbacks - {n})
    case Swap(j, t) =>
      s.(heap := s.heap + CellsOf(t),
         root := NodeAt(t, []),
         orphans := if s.root.Some? then s.orphans[j := Orphan(s.root.value, None, s.published)] else s.orphans,
         published := t)
    case Synchronize(j) =>
      s.(orphans := s.orphans[j := s.orphans[j].(waits := Some(s.readers.Keys))])
    case FreeTree(j, t) =>
      s.(heap := s.heap - Nodes(t), orphans := s.orphans - {j})
  }

  // ---------------------------------------------------------------------------
  // The invariant

  ghost function OrphanNodes<N, D>(orphans: map<nat, Orphan<N, D>>): set<N> {
    set j, n | j in orphans && n in Nodes(orphans[j].tree) :: n
  }

  // Every allocated cell belongs to the published tree, or is unlinked, or is waiting in a callback, or
  // belongs to exactly one swapped-out tree.
  ghost predicate Partition<N, D>(all: set<N>, tree: set<N>, unlinked: set<N>, pending: set<N>,
                                  orphans: map<nat, Orphan<N, D>>)
  {
    && tree !! unlinked && tree !! pending && unlinked !! pending
    && (forall j | j in orphans ::
          && Nodes(orphans[j].tree) !! tree && Nodes(orphans[j].tree) !! unlinked && Nodes(orphans[j].tree) !! pending)
    && (forall i, j | i in orphans && j in orphans && i != j :: Nodes(orphans[i].tree) !! Nodes(orphans[j].tree))
    && all == tree + unlinked + pending + OrphanNodes(orphans)
  }

  ghost predicate Partitioned<N, D>(s: State<N, D>) {
    Partition(s.heap.Keys, Nodes(s.published), s.unlinked, s.callbacks.Keys, s.orphans)
  }

  ghost predicate OrphansIntact<N, D>(heap: map<N, Cell<N, D>>, orphans: map<nat, Orphan<N, D>>) {
    forall j | j in orphans :: Intact(heap, orphans[j].tree) && NodeAt(orphans[j].tree, []) == Some(orphans[j].root)
  }

  ghost predicate TreesIntact<N, D>(s: State<N, D>) {
    && Intact(s.heap, s.published) && s.root == NodeAt(s.published, [])
    && OrphansIntact(s.heap, s.orphans)
  }

  // Whatever of the reader's version has been given up waits for this reader.
  ghost predicate Covered<N, D>(callbacks: map<N, set<nat>>, orphans: map<nat, Orphan<N, D>>, r: nat,
                                begun: Version<N, D>)
  {
    && (forall n | n in Nodes(begun) && n in callbacks :: r in callbacks[n])
    && (forall j | j in orphans && orphans[j].waits.Some? ::
          r in orphans[j].waits.value || Nodes(orphans[j].tree) !! Nodes(begun))
  }

  ghost predicate OnRoute<N, D>(rd: Reader<N, D>) {
    && rd.depth <= |rd.key|
    && rd.cursor == NodeAt(rd.begun, rd.key[..rd.depth])
    && forall i | 0 <= i < |rd.looks| ::
         && rd.looks[i].0 <= rd.depth && rd.key[..rd.looks[i].0] in rd.begun
         && rd.looks[i].1 == rd.begun[rd.key[..rd.looks[i].0]].data
  }

  ghost predicate ReaderSafe<N, D>(heap: map<N, Cell<N, D>>, callbacks: map<N, set<nat>>,
                                   orphans: map<nat, Orphan<N, D>>, r: nat, rd: Reader<N, D>)
  {
    Intact(heap, rd.begun) && OnRoute(rd) && Covered(callbacks, orphans, r, rd.begun)
  }

  ghost predicate AllSafe<N, D>(heap: map<N, Cell<N, D>>, callbacks: map<N, set<nat>>,
                                orphans: map<nat, Orphan<N, D>>, readers: map<nat, Reader<N, D>>)
  {
    forall r | r in readers :: ReaderSafe(heap, callbacks, orphans, r, readers[r])
  }

  ghost predicate ReadersSafe<N, D>(s: State<N, D>) {
    && (forall r | r in s.readers :: r < s.born)
    && AllSafe(s.heap, s.callbacks, s.orphans, s.readers)
  }

  ghost predicate Inv<N, D>(s: State<N, D>) {
    Partitioned(s) && TreesIntact(s) && ReadersSafe(s)
  }

  lemma NewTreeIntact<N, D>(heap: map<N, Cell<N, D>>, t: Version<N, D>)
    requires IsTree(t)
    ensures Intact(heap + CellsOf(t), t)
    ensures CellsOf(t).Keys == Nodes(t)
  {}

  lemma PartitionInit<N, D>(tree: set<N>, orphans: map<nat, Orphan<N, D>>)
    requires orphans == map[]
    ensures Partition(tree, tree, {}, {}, orphans)
  {}

  lemma InitInv<N, D>(s: State<N, D>)
    requires Init(s)
    ensures Inv(s)
  {
    hide Intact, Nodes, Partition, CellsOf;
    NewTreeIntact(map[], s.published);
    assert map[] + s.heap == s.heap;
    assert s.callbacks.Keys == {};
    PartitionInit(Nodes(s.published), s.orphans);
  }

  // ---------------------------------------------------------------------------
  // Steps of the readers

  lemma BeginSafe<N, D>(s: State<N, D>, k: Path)
    requires Inv(s)
    ensures ReaderSafe(s.heap, s.callbacks, s.orphans, s.born, Reader(k, 0, s.root, [], s.published))
  {}

  lemma LookOnRoute<N, D>(s: State<N, D>, r: nat)
    requires Enabled(s, Look(r)) && OnRoute(s.readers[r]) && Intact(s.heap, s.readers[r].begun)
    ensures OnRoute(Looked(s, r)) && Looked(s, r).begun == s.readers[r].begun
  {}

  lemma CursorCell<N, D>(heap: map<N, Cell<N, D>>, rd: Reader<N, D>)
    requires Intact(heap, rd.begun) && OnRoute(rd) && rd.cursor.Some?
    ensures rd.key[..rd.depth] in rd.begun && rd.cursor.value in heap
    ensures heap[rd.cursor.value] == CellOf(rd.begun, rd.key[..rd.depth])
  {
    assert rd.begun[rd.key[..rd.depth]].node == rd.cursor.value;
  }

  lemma MoveOnRoute<N, D>(s: State<N, D>, r: nat)
    requires Enabled(s, Move(r)) && OnRoute(s.readers[r]) && Intact(s.heap, s.readers[r].begun)
    ensures OnRoute(Moved(s, r)) && Moved(s, r).begun == s.readers[r].begun
  {
    hide Intact, CellOf;
    var rd := s.readers[r];
    var p, b := rd.key[..rd.depth], rd.key[rd.depth];
    CursorCell(s.heap, rd);
    ChildOfCell(rd.begun, p, b);
    assert rd.key[..rd.depth + 1] == p + [b];
  }

  // Adding a reader, or replacing the record of a running one, by a safe record.
  lemma KeepReader<N, D>(s: State<N, D>, r: nat, rd: Reader<N, D>, born: nat)
    requires Inv(s) && r < born && s.born <= born && ReaderSafe(s.heap, s.callbacks, s.orphans, r, rd)
    ensures Inv(s.(readers := s.readers[r := rd], born := born))
  {
    hide Intact, OnRoute, Nodes, Partition, Covered;
    assert AllSafe(s.heap, s.callbacks, s.orphans, s.readers[r := rd]);
  }

  lemma KeepReaderStep<N, D>(s: State<N, D>, e: Event<N, D>)
    requires Inv(s) && Enabled(s, e) && (e.Begin? || e.Look? || e.Move? || e.End?)
    ensures Inv(Apply(s, e))
  {
    match e {
      case Begin(k) =>
        BeginSafe(s, k);
        KeepReader(s, s.born, Reader(k, 0, s.root, [], s.published), s.born + 1);
      case Look(r) =>
        assert ReaderSafe(s.heap, s.callbacks, s.orphans, r, s.readers[r]);
        LookOnRoute(s, r);
        KeepReader(s, r, Looked(s, r), s.born);
      case Move(r) =>
        assert ReaderSafe(s.heap, s.callbacks, s.orphans, r, s.readers[r]);
        MoveOnRoute(s, r);
        KeepReader(s, r, Moved(s, r), s.born);
      case End(r) =>
        KeepEnd(s, r);
    }
  }

  lemma KeepEnd<N, D>(s: State<N, D>, r: nat)
    requires Inv(s) && r in s.readers
    ensures Inv(s.(readers := s.readers - {r}))
  {}

  // ---------------------------------------------------------------------------
  // Steps of the writers: where the cells go

  lemma OrphansWithout<N, D>(orphans: map<nat, Orphan<N, D>>, j: nat)
    requires j in orphans
    requires forall i | i in orphans && i != j :: Nodes(orphans[i].tree) !! Nodes(orphans[j].tree)
    ensures OrphanNodes(orphans - {j}) == OrphanNodes(orphans) - Nodes(orphans[j].tree)
  {
    var rest := orphans - {j};
    forall n | n in OrphanNodes(orphans) - Nodes(orphans[j].tree) ensures n in OrphanNodes(rest) {
      var i :| i in orphans && n in Nodes(orphans[i].tree);
      assert i in rest && rest[i] == orphans[i];
    }
    forall n | n in OrphanNodes(rest) ensures n in OrphanNodes(orphans) - Nodes(orphans[j].tree) {
      var i :| i in rest && n in Nodes(rest[i].tree);
      assert i in orphans && i != j;
    }
  }

  lemma OrphansWith<N, D>(orphans: map<nat, Orphan<N, D>>, j: nat, o: Orphan<N, D>)
    requires j !in orphans
    ensures OrphanNodes(orphans[j := o]) == OrphanNodes(orphans) + Nodes(o.tree)
  {
    var more := orphans[j := o];
    forall n | n in OrphanNodes(orphans) ensures n in OrphanNodes(more) {
      var i :| i in orphans && n in Nodes(orphans[i].tree);
      assert i in more && more[i] == orphans[i];
    }
    forall n | n in Nodes(o.tree) ensures n in OrphanNodes(more) {
      assert j in more && n in Nodes(more[j].tree);
    }
  }

  lemma OrphansWaiting<N, D>(orphans: map<nat, Orphan<N, D>>, j: nat, waits: set<nat>)
    requires j in orphans
    ensures OrphanNodes(orphans[j := orphans[j].(waits := Some(waits))]) == OrphanNodes(orphans)
  {
    var same := orphans[j := orphans[j].(waits := Some(waits))];
    assert same.Keys == orphans.Keys;
    assert forall i | i in orphans :: same[i].tree == orphans[i].tree;
    forall n | n in OrphanNodes(orphans) ensures n in OrphanNodes(same) {
      var i :| i in orphans && n in Nodes(orphans[i].tree);
      assert i in same;
    }
  }

  lemma PartitionReplace<N, D>(all: set<N>, tree: set<N>, unlinked: set<N>, pending: set<N>,
                               orphans: map<nat, Orphan<N, D>>, replaced: set<N>, added: set<N>)
    requires Partition(all, tree, unlinked, pending, orphans) && replaced <= tree && added !! all
    ensures Partition(all + added, (tree - replaced) + added, unlinked + replaced, pending, orphans)
  {}

  lemma PartitionCallRcu<N, D>(all: set<N>, tree: set<N>, unlinked: set<N>, pending: set<N>,
                               orphans: map<nat, Orphan<N, D>>, n: N)
    requires Partition(all, tree, unlinked, pending, orphans) && n in unlinked
    ensures Partition(all, tree, unlinked - {n}, pending + {n}, orphans)
  {}

  lemma PartitionReclaim<N, D>(all: set<N>, tree: set<N>, unlinked: set<N>, pending: set<N>,
                               orphans: map<nat, Orphan<N, D>>, n: N)
    requires Partition(all, tree, unlinked, pending, orphans) && n in pending
    ensures Partition(all - {n}, tree, unlinked, pending - {n}, orphans)
  {}

  lemma PartitionSwap<N, D>(all: set<N>, tree: set<N>, unlinked: set<N>, pending: set<N>,
                            orphans: map<nat, Orphan<N, D>>, j: nat, o: Orphan<N, D>, added: set<N>)
    requires Partition(all, tree, unlinked, pending, orphans) && added !! all
    requires j !in orphans && Nodes(o.tree) == tree
    ensures Partition(all + added, added, unlinked, pending, orphans[j := o])
  {
    OrphansWith(orphans, j, o);
    forall i | i in orphans ensures Nodes(orphans[i].tree) <= all {
      forall n | n in Nodes(orphans[i].tree) ensures n in OrphanNodes(orphans) {}
    }
  }

  lemma PartitionFirst<N, D>(all: set<N>, unlinked: set<N>, pending: set<N>,
                             orphans: map<nat, Orphan<N, D>>, added: set<N>)
    requires Partition(all, {}, unlinked, pending, orphans) && added !! all
    ensures Partition(all + added, added, unlinked, pending, orphans)
  {}

  lemma PartitionWaiting<N, D>(all: set<N>, tree: set<N>, unlinked: set<N>, pending: set<N>,
                               orphans: map<nat, Orphan<N, D>>, j: nat, waits: set<nat>)
    requires Partition(all, tree, unlinked, pending, orphans) && j in orphans
    ensures Partition(all, tree, unlinked, pending, orphans[j := orphans[j].(waits := Some(waits))])
  {
    OrphansWaiting(orphans, j, waits);
  }

  lemma PartitionFree<N, D>(all: set<N>, tree: set<N>, unlinked: set<N>, pending: set<N>,
                            orphans: map<nat, Orphan<N, D>>, j: nat)
    requires Partition(all, tree, unlinked, pending, orphans) && j in orphans
    ensures Partition(all - Nodes(orphans[j].tree), tree, unlinked, pending, orphans - {j})
  {
    OrphansWithout(orphans, j);
    assert all - Nodes(orphans[j].tree) == tree + unlinked + pending + (OrphanNodes(orphans) - Nodes(orphans[j].tree));
  }

  // ---------------------------------------------------------------------------
  // Steps of the writers: what the readers still see

  lemma AllocKeepsIntact<N, D>(heap: map<N, Cell<N, D>>, v: Version<N, D>, cells: map<N, Cell<N, D>>)
    requires Intact(heap, v) && heap.Keys !! cells.Keys
    ensures Intact(heap + cells, v)
  {}

  lemma FreeKeepsIntact<N, D>(heap: map<N, Cell<N, D>>, v: Version<N, D>, gone: set<N>)
    requires Intact(heap, v) && Nodes(v) !! gone
    ensures Intact(heap - gone, v)
  {}

  lemma AllocKeepsAll<N, D>(s: State<N, D>, cells: map<N, Cell<N, D>>)
    requires Inv(s) && s.heap.Keys !! cells.Keys
    ensures Intact(s.heap + cells, s.published)
    ensures OrphansIntact(s.heap + cells, s.orphans)
    ensures AllSafe(s.heap + cells, s.callbacks, s.orphans, s.readers)
  {
    AllocKeepsIntact(s.heap, s.published, cells);
    forall j | j in s.orphans ensures Intact(s.heap + cells, s.orphans[j].tree) {
      AllocKeepsIntact(s.heap, s.orphans[j].tree, cells);
    }
    forall r | r in s.readers ensures ReaderSafe(s.heap + cells, s.callbacks, s.orphans, r, s.readers[r]) {
      AllocKeepsIntact(s.heap, s.readers[r].begun, cells);
    }
  }

  // Freeing is safe for every reader whose version does not contain the freed cells.
  lemma FreeKeepsReaders<N, D>(s: State<N, D>, gone: set<N>)
    requires Inv(s)
    requires forall r | r in s.readers :: Nodes(s.readers[r].begun) !! gone
    ensures AllSafe(s.heap - gone, s.callbacks, s.orphans, s.readers)
  {}

  lemma Recover<N, D>(heap: map<N, Cell<N, D>>, callbacks: map<N, set<nat>>, orphans: map<nat, Orphan<N, D>>,
                      readers: map<nat, Reader<N, D>>,
                      callbacks': map<N, set<nat>>, orphans': map<nat, Orphan<N, D>>)
    requires AllSafe(heap, callbacks, orphans, readers)
    requires forall r | r in readers && Covered(callbacks, orphans, r, readers[r].begun) ::
               Covered(callbacks', orphans', r, readers[r].begun)
    ensures AllSafe(heap, callbacks', orphans', readers)
  {}

  lemma KeepPublish<N, D>(s: State<N, D>, k: Path, leaf: D, blank: D, names: seq<N>)
    requires Inv(s) && Enabled(s, Publish(k, leaf, blank, names))
    ensures Inv(Apply(s, Publish(k, leaf, blank, names)))
  {
    var s' := Apply(s, Publish(k, leaf, blank, names));
    PublishIntact(s.heap, s.published, k, leaf, blank, names);
    VisitedAreReplaced(s.heap, s.published, k);
    PathCopyNodes(s.published, k, leaf, blank, names);
    var cells := CopiedCells(s.heap, s.root, k, leaf, blank, names);
    assert s'.heap.Keys == s.heap.Keys + cells.Keys;
    PartitionReplace(s.heap.Keys, Nodes(s.published), s.unlinked, s.callbacks.Keys, s.orphans,
                     Replaced(s.published, k), cells.Keys);
    AllocKeepsAll(s, cells);
  }

  lemma KeepCallRcu<N, D>(s: State<N, D>, n: N)
    requires Inv(s) && Enabled(s, CallRcu(n))
    ensures Inv(Apply(s, CallRcu(n)))
  {
    hide Intact, OnRoute, Nodes, Partition;
    var s' := Apply(s, CallRcu(n));
    assert s'.callbacks.Keys == s.callbacks.Keys + {n};
    PartitionCallRcu(s.heap.Keys, Nodes(s.published), s.unlinked, s.callbacks.Keys, s.orphans, n);
    Recover(s.heap, s.callbacks, s.orphans, s.readers, s'.callbacks, s'.orphans);
  }

  lemma KeepReclaim<N, D>(s: State<N, D>, n: N)
    requires Inv(s) && Enabled(s, Reclaim(n))
    ensures Inv(Apply(s, Reclaim(n)))
  {
    hide Intact, OnRoute, Partition, Nodes;
    var s' := Apply(s, Reclaim(n));
    ReclaimedIsUnseen(s, n);
    assert s'.callbacks.Keys == s.callbacks.Keys - {n} && s'.heap.Keys == s.heap.Keys - {n};
    PartitionReclaim(s.heap.Keys, Nodes(s.published), s.unlinked, s.callbacks.Keys, s.orphans, n);
    FreeKeepsIntact(s.heap, s.published, {n});
    forall j | j in s.orphans ensures Intact(s'.heap, s.orphans[j].tree) {
      FreeKeepsIntact(s.heap, s.orphans[j].tree, {n});
    }
    FreeKeepsReaders(s, {n});
    Recover(s'.heap, s.callbacks, s.orphans, s.readers, s'.callbacks, s'.orphans);
  }

  lemma NullRoot<N, D>(s: State<N, D>)
    requires TreesIntact(s) && s.root.None?
    ensures s.published == map[] && Nodes(s.published) == {}
  {
    if p :| p in s.published {
      assert p[..0] == [];
      PrefixIn(s.published, p, 0);
    }
  }

  lemma SwapPartition<N, D>(s: State<N, D>, j: nat, t: Version<N, D>)
    requires Inv(s) && Enabled(s, Swap(j, t))
    ensures Partitioned(Apply(s, Swap(j, t)))
  {
    hide Intact, OnRoute, Nodes, Partition;
    NewTreeIntact(s.heap, t);
    assert Apply(s, Swap(j, t)).heap.Keys == s.heap.Keys + Nodes(t);
    if s.root.Some? {
      PartitionSwap(s.heap.Keys, Nodes(s.published), s.unlinked, s.callbacks.Keys, s.orphans,
                    j, Orphan(s.root.value, None, s.published), Nodes(t));
    } else {
      NullRoot(s);
      PartitionFirst(s.heap.Keys, s.unlinked, s.callbacks.Keys, s.orphans, Nodes(t));
    }
  }

  lemma SwapKeepsOrphans<N, D>(s: State<N, D>, j: nat, o: Orphan<N, D>, cells: map<N, Cell<N, D>>)
    requires Inv(s) && s.heap.Keys !! cells.Keys
    requires NodeAt(s.published, []) == Some(o.root) && o.tree == s.published && o.waits.None? && j !in s.orphans
    ensures OrphansIntact(s.heap + cells, s.orphans[j := o])
    ensures AllSafe(s.heap + cells, s.callbacks, s.orphans[j := o], s.readers)
  {
    hide Intact, OnRoute, Nodes, Partition;
    AllocKeepsAll(s, cells);
    Recover(s.heap + cells, s.callbacks, s.orphans, s.readers, s.callbacks, s.orphans[j := o]);
  }

  lemma KeepSwap<N, D>(s: State<N, D>, j: nat, t: Version<N, D>)
    requires Inv(s) && Enabled(s, Swap(j, t))
    ensures Inv(Apply(s, Swap(j, t)))
  {
    hide Intact, Nodes, Partition, AllSafe, OrphansIntact, CellsOf;
    SwapPartition(s, j, t);
    NewTreeIntact(s.heap, t);
    AllocKeepsAll(s, CellsOf(t));
    if s.root.Some? {
      SwapKeepsOrphans(s, j, Orphan(s.root.value, None, s.published), CellsOf(t));
    }
  }

  lemma KeepSynchronize<N, D>(s: State<N, D>, j: nat)
    requires Inv(s) && Enabled(s, Synchronize(j))
    ensures Inv(Apply(s, Synchronize(j)))
  {
    hide Intact, OnRoute, Nodes, Partition;
    var s' := Apply(s, Synchronize(j));
    OrphansWaiting(s.orphans, j, s.readers.Keys);
    PartitionWaiting(s.heap.Keys, Nodes(s.published), s.unlinked, s.callbacks.Keys, s.orphans, j, s.readers.Keys);
    Recover(s.heap, s.callbacks, s.orphans, s.readers, s'.callbacks, s'.orphans);
  }

  // The recursive free visits exactly the nodes of the tree that was swapped out.
  lemma WalkedIsTree<N, D>(s: State<N, D>, j: nat, t: Version<N, D>)
    requires TreesIntact(s) && Enabled(s, FreeTree(j, t))
    ensures t == s.orphans[j].tree
  {
    VersionUnique(s.heap, t, s.orphans[j].tree);
  }

  // After the grace period no running lookup can reach the tree.
  lemma TreeUnseen<N, D>(s: State<N, D>, j: nat)
    requires ReadersSafe(s) && j in s.orphans
    requires s.orphans[j].waits.Some? && s.orphans[j].waits.value !! s.readers.Keys
    ensures forall r | r in s.readers :: Nodes(s.readers[r].begun) !! Nodes(s.orphans[j].tree)
  {}

  lemma OrphansAfterFree<N, D>(s: State<N, D>, j: nat)
    requires Partitioned(s) && OrphansIntact(s.heap, s.orphans) && j in s.orphans
    ensures OrphansIntact(s.heap - Nodes(s.orphans[j].tree), s.orphans - {j})
  {
    forall i | i in s.orphans - {j} ensures Intact(s.heap - Nodes(s.orphans[j].tree), s.orphans[i].tree) {
      FreeKeepsIntact(s.heap, s.orphans[i].tree, Nodes(s.orphans[j].tree));
    }
  }

  lemma KeepFreeTree<N, D>(s: State<N, D>, j: nat, t: Version<N, D>)
    requires Inv(s) && Enabled(s, FreeTree(j, t))
    ensures Inv(Apply(s, FreeTree(j, t)))
  {
    hide Intact, OnRoute, Nodes;
    var s' := Apply(s, FreeTree(j, t));
    WalkedIsTree(s, j, t);
    assert s'.heap.Keys == s.heap.Keys - Nodes(t);
    PartitionFree(s.heap.Keys, Nodes(s.published), s.unlinked, s.callbacks.Keys, s.orphans, j);
    FreeKeepsIntact(s.heap, s.published, Nodes(t));
    OrphansAfterFree(s, j);
    TreeUnseen(s, j);
    FreeKeepsReaders(s, Nodes(t));
    Recover(s'.heap, s.callbacks, s.orphans, s.readers, s'.callbacks, s'.orphans);
  }

  lemma Keep<N, D>(s: State<N, D>, e: Event<N, D>)
    requires Inv(s) && Enabled(s, e)
    ensures Inv(Apply(s, e))
  {
    match e
    case Begin(k) => KeepReaderStep(s, e);
    case Look(_) => KeepReaderStep(s, e);
    case Move(_) => KeepReaderStep(s, e);
    case End(_) => KeepReaderStep(s, e);
    case Publish(k, leaf, blank, names) => KeepPublish(s, k, leaf, blank, names);
    case CallRcu(n) => KeepCallRcu(s, n);
    case Reclaim(n) => KeepReclaim(s, n);
    case Swap(j, t) => KeepSwap(s, j, t);
    case Synchronize(j) => KeepSynchronize(s, j);
    case FreeTree(j, t) => KeepFreeTree(s, j, t);
  }

  // ---------------------------------------------------------------------------
  // What the invariant says about one state

  // A lookup never holds, and can never follow a pointer to, a cell that has been freed.
  lemma ReadersNeverDangle<N, D>(s: State<N, D>, r: nat)
    requires Inv(s) && r in s.readers && s.readers[r].cursor.Some?
    ensures var n := s.readers[r].cursor.value;
            && n in s.heap
            && forall b :: s.heap[n].Child(b).Some? ==> s.heap[n].Child(b).value in s.heap
  {
    var rd := s.readers[r];
    var p := rd.key[..rd.depth];
    assert ReaderSafe(s.heap, s.callbacks, s.orphans, r, rd);
    forall b ensures s.heap[rd.cursor.value].Child(b) == NodeAt(rd.begun, p + [b]) {
      ChildOfCell(rd.begun, p, b);
    }
  }

  // The history variable is no extra state: it is the only version that the heap holds below the root.
  lemma PublishedIsHeap<N, D>(s: State<N, D>, v: Version<N, D>)
    requires Inv(s) && Intact(s.heap, v) && NodeAt(v, []) == s.root
    ensures v == s.published
  {
    VersionUnique(s.heap, v, s.published);
  }

  // A worker unlinks exactly the nodes that the old version has and the new one has not.
  lemma UnlinkedExactly<N, D>(s: State<N, D>, k: Path, leaf: D, blank: D, names: seq<N>)
    requires Inv(s) && Enabled(s, Publish(k, leaf, blank, names))
    ensures var s' := Apply(s, Publish(k, leaf, blank, names));
            s'.unlinked - s.unlinked == Nodes(s.published) - Nodes(s'.published)
  {
    hide Inv, Intact, PathCopy, PublishedHeap, Visited, Nodes, Replaced;
    PublishedInHeap(s);
    PublishIntact(s.heap, s.published, k, leaf, blank, names);
    VisitedAreReplaced(s.heap, s.published, k);
    PathCopyNodes(s.published, k, leaf, blank, names);
  }

  lemma PublishedInHeap<N, D>(s: State<N, D>)
    requires Inv(s)
    ensures Intact(s.heap, s.published) && IsTree(s.published) && s.root == NodeAt(s.published, [])
    ensures s.unlinked !! Nodes(s.published)
  {
    hide Nodes, ReadersSafe;
  }

  // The states after call_rcu has been issued for some unlinked nodes, one after the other.
  ghost function AfterCallRcu<N, D>(s: State<N, D>, nodes: seq<N>): State<N, D>
    requires Distinct(nodes) && forall n | n in nodes :: n in s.unlinked
    decreases |nodes|
  {
    if nodes == [] then s else AfterCallRcu(Apply(s, CallRcu(nodes[0])), nodes[1..])
  }

  lemma {:induction false} CallRcuInTurn<N, D>(s: State<N, D>, nodes: seq<N>)
    requires Distinct(nodes) && forall n | n in nodes :: n in s.unlinked
    ensures var s' := AfterCallRcu(s, nodes);
            && s'.unlinked == s.unlinked - (set n | n in nodes)
            && s'.callbacks.Keys == s.callbacks.Keys + (set n | n in nodes)
            && (forall n | n in nodes :: s'.callbacks[n] == s.readers.Keys)
            && (forall n | n in s.callbacks && n !in nodes :: s'.callbacks[n] == s.callbacks[n])
            && s' == s.(unlinked := s'.unlinked, callbacks := s'.callbacks)
    decreases |nodes|
  {
    if nodes != [] {
      var s1 := Apply(s, CallRcu(nodes[0]));
      CallRcuInTurn(s1, nodes[1..]);
      assert nodes == [nodes[0]] + nodes[1..];
      assert (set n | n in nodes) == {nodes[0]} + (set n | n in nodes[1..]);
    }
  }

  // Nobody else takes an unlinked node away from the worker that has to hand it over.
  lemma UnlinkedStays<N, D>(s: State<N, D>, e: Event<N, D>, n: N)
    requires Enabled(s, e) && n in s.unlinked && e != CallRcu(n)
    ensures n in Apply(s, e).unlinked
  {}

  ghost function Frees<N, D>(s: State<N, D>, e: Event<N, D>): set<N> {
    match e
    case Reclaim(n) => {n}
    case FreeTree(_, t) => Nodes(t)
    case _ => {}
  }

  ghost function Allocates<N, D>(s: State<N, D>, e: Event<N, D>): set<N> {
    match e
    case Publish(_, _, _, names) => set n | n in names
    case Swap(_, t) => Nodes(t)
    case _ => {}
  }

  lemma PublishKeys<N, D>(s: State<N, D>, k: Path, leaf: D, blank: D, names: seq<N>)
    requires Enabled(s, Publish(k, leaf, blank, names))
    ensures PublishedHeap(s.heap, s.root, k, leaf, blank, names).Keys == s.heap.Keys + set n | n in names
  {}

  lemma HeapKeysStep<N, D>(s: State<N, D>, e: Event<N, D>)
    requires Inv(s) && Enabled(s, e)
    ensures Apply(s, e).heap.Keys == (s.heap.Keys - Frees(s, e)) + Allocates(s, e)
    ensures Allocates(s, e) !! s.heap.Keys
  {
    hide Intact, Inv, Nodes, PublishedHeap, CellsOf;
    match e
    case Publish(k, leaf, blank, names) => PublishKeys(s, k, leaf, blank, names);
    case Swap(_, t) => NewTreeIntact(s.heap, t);
    case _ =>
  }

  lemma ReclaimedIsUnseen<N, D>(s: State<N, D>, n: N)
    requires Inv(s) && Enabled(s, Reclaim(n))
    ensures forall r | r in s.readers :: n !in Nodes(s.readers[r].begun)
    ensures n in s.heap && n !in Nodes(s.published) && n !in s.unlinked && n !in OrphanNodes(s.orphans)
  {}

  lemma FreedTreeIsUnseen<N, D>(s: State<N, D>, j: nat, t: Version<N, D>)
    requires Inv(s) && Enabled(s, FreeTree(j, t))
    ensures forall r | r in s.readers :: Nodes(t) !! Nodes(s.readers[r].begun)
    ensures Nodes(t) <= s.heap.Keys
    ensures Nodes(t) !! Nodes(s.published) && Nodes(t) !! s.unlinked && Nodes(t) !! s.callbacks.Keys
    ensures Nodes(t) !! OrphanNodes(s.orphans - {j})
  {
    hide Intact, OnRoute, Nodes;
    WalkedIsTree(s, j, t);
    TreeUnseen(s, j);
    OrphansWithout(s.orphans, j);
    assert forall n | n in Nodes(t) :: n in OrphanNodes(s.orphans);
  }

  // What is freed was allocated, belongs neither to the published tree nor to any running lookup, and is not
  // also owed to another callback or another tree.
  lemma FreesOnlyGarbage<N, D>(s: State<N, D>, e: Event<N, D>)
    requires Inv(s) && Enabled(s, e)
    ensures Frees(s, e) <= s.heap.Keys && Frees(s, e) !! Nodes(s.published)
    ensures forall r | r in s.readers :: Frees(s, e) !! Nodes(s.readers[r].begun)
    ensures Frees(s, e) !! Apply(s, e).unlinked && Frees(s, e) !! Apply(s, e).callbacks.Keys
    ensures Frees(s, e) !! OrphanNodes(Apply(s, e).orphans)
  {
    hide Inv, Nodes, OrphanNodes, Intact;
    match e
    case Reclaim(n) => ReclaimedIsUnseen(s, n);
    case FreeTree(j, t) => FreedTreeIsUnseen(s, j, t);
    case _ =>
  }

  // ---------------------------------------------------------------------------
  // All garbage goes

  // What is next for a swapped-out tree: a step that is enabled, or the end of a reader that is waited for.
  ghost predicate NextForTree<N, D>(s: State<N, D>, j: nat)
    requires j in s.orphans
  {
    match s.orphans[j].waits
    case None => Enabled(s, Synchronize(j))
    case Some(waits) => Enabled(s, FreeTree(j, s.orphans[j].tree)) || exists r :: r in s.readers && r in waits
  }

  // The same for an allocated node outside the published tree.
  ghost predicate NextFor<N, D>(s: State<N, D>, n: N) {
    || Enabled(s, CallRcu(n))
    || (n in s.callbacks && (Enabled(s, Reclaim(n)) || exists r :: r in s.readers && r in s.callbacks[n]))
    || (exists j :: j in s.orphans && n in Nodes(s.orphans[j].tree) && NextForTree(s, j))
  }

  lemma TreeNeverStuck<N, D>(s: State<N, D>, j: nat)
    requires TreesIntact(s) && j in s.orphans
    ensures NextForTree(s, j)
  {
    hide Intact;
  }

  // No garbage waits for anything but its own readers, however many others are running.
  lemma GarbageNeverStuck<N, D>(s: State<N, D>, n: N)
    requires Inv(s) && n in s.heap && n !in Nodes(s.published)
    ensures NextFor(s, n)
  {
    hide TreesIntact, ReadersSafe, Nodes, NextForTree;
    if n !in s.unlinked && n !in s.callbacks {
      assert n in OrphanNodes(s.orphans);
      var j :| j in s.orphans && n in Nodes(s.orphans[j].tree);
      TreeNeverStuck(s, j);
    }
  }

  // Nobody is waited for who began after the wait did.
  ghost predicate WaitsForElders<N, D>(s: State<N, D>) {
    && (forall n, r | n in s.callbacks && r in s.callbacks[n] :: r < s.born)
    && (forall j, r | j in s.orphans && s.orphans[j].waits.Some? && r in s.orphans[j].waits.value :: r < s.born)
  }

  lemma WaitsForEldersStep<N, D>(s: State<N, D>, e: Event<N, D>)
    requires WaitsForElders(s) && Enabled(s, e) && forall r | r in s.readers :: r < s.born
    ensures WaitsForElders(Apply(s, e))
  {
    hide Intact, Nodes, PublishedHeap, CellsOf, Visited, IsTree;
  }

  // A wait that has begun only ever loses readers.
  lemma WaitsShrink<N, D>(s: State<N, D>, e: Event<N, D>)
    requires WaitsForElders(s) && Enabled(s, e)
    ensures forall n | n in s.callbacks && n in Apply(s, e).callbacks && e != CallRcu(n) ::
              Apply(s, e).callbacks[n] * Apply(s, e).readers.Keys <= s.callbacks[n] * s.readers.Keys
    ensures forall j | j in s.orphans && j in Apply(s, e).orphans && s.orphans[j].waits.Some? ::
              && Apply(s, e).orphans[j].waits == s.orphans[j].waits
              && s.orphans[j].waits.value * Apply(s, e).readers.Keys <= s.orphans[j].waits.value * s.readers.Keys
  {
    hide Intact, Nodes, PublishedHeap, CellsOf, Visited, IsTree;
  }

  // How many steps it takes to give back all that has been given up.
  ghost function StepsToClean<N, D>(s: State<N, D>): nat {
    2 * |s.unlinked| + |s.callbacks| + |s.orphans| + |Unwaited(s.orphans)|
  }

  ghost function Unwaited<N, D>(orphans: map<nat, Orphan<N, D>>): set<nat> {
    set j | j in orphans && orphans[j].waits.None?
  }

  ghost predicate Cleans<N, D>(e: Event<N, D>) {
    e.CallRcu? || e.Reclaim? || e.Synchronize? || e.FreeTree?
  }

  lemma SetWithout<T>(a: set<T>, x: T)
    requires x in a
    ensures |a - {x}| == |a| - 1
  {}

  lemma MapWithout<K, V>(m: map<K, V>, k: K)
    requires k in m
    ensures |m - {k}| == |m| - 1
  {
    assert (m - {k}).Keys == m.Keys - {k};
    assert |m.Keys| == |m| && |(m - {k}).Keys| == |m - {k}|;
  }

  lemma MapWith<K, V>(m: map<K, V>, k: K, v: V)
    ensures |m[k := v]| == |m| + if k in m then 0 else 1
  {
    assert m[k := v].Keys == m.Keys + {k};
    assert |m.Keys| == |m| && |m[k := v].Keys| == |m[k := v]|;
  }

  lemma CallRcuCounts<N, D>(s: State<N, D>, n: N)
    requires n in s.unlinked && n !in s.callbacks
    ensures StepsToClean(Apply(s, CallRcu(n))) == StepsToClean(s) - 1
  {
    hide Unwaited;
    SetWithout(s.unlinked, n);
    MapWith(s.callbacks, n, s.readers.Keys);
  }

  lemma ReclaimCounts<N, D>(s: State<N, D>, n: N)
    requires Enabled(s, Reclaim(n))
    ensures StepsToClean(Apply(s, Reclaim(n))) == StepsToClean(s) - 1
  {
    hide Unwaited;
    MapWithout(s.callbacks, n);
  }

  lemma SynchronizeCounts<N, D>(s: State<N, D>, j: nat)
    requires Enabled(s, Synchronize(j))
    ensures StepsToClean(Apply(s, Synchronize(j))) == StepsToClean(s) - 1
  {
    var waiting := s.orphans[j].(waits := Some(s.readers.Keys));
    MapWith(s.orphans, j, waiting);
    SetWithout(Unwaited(s.orphans), j);
    assert Unwaited(s.orphans[j := waiting]) == Unwaited(s.orphans) - {j};
  }

  lemma FreeTreeCounts<N, D>(s: State<N, D>, j: nat, t: Version<N, D>)
    requires Enabled(s, FreeTree(j, t))
    ensures StepsToClean(Apply(s, FreeTree(j, t))) == StepsToClean(s) - 1
  {
    hide Intact, Nodes;
    MapWithout(s.orphans, j);
    assert Unwaited(s.orphans - {j}) == Unwaited(s.orphans);
  }

  lemma CallRcuIsNew<N, D>(s: State<N, D>, n: N)
    requires Partitioned(s) && Enabled(s, CallRcu(n))
    ensures n in s.unlinked && n !in s.callbacks
  {}

  // Each of the four background steps brings the clean heap one step nearer, and a lookup never puts it off.
  lemma CleaningCounts<N, D>(s: State<N, D>, e: Event<N, D>)
    requires Inv(s) && Enabled(s, e) && !e.Publish? && !e.Swap?
    ensures StepsToClean(Apply(s, e)) == StepsToClean(s) - if Cleans(e) then 1 else 0
  {
    hide Enabled, Partitioned, TreesIntact, ReadersSafe, StepsToClean;
    match e
    case CallRcu(n) => CallRcuIsNew(s, n); CallRcuCounts(s, n);
    case Reclaim(n) => ReclaimCounts(s, n);
    case Synchronize(j) => SynchronizeCounts(s, j);
    case FreeTree(j, t) => FreeTreeCounts(s, j, t);
    case _ => ReaderStepCounts(s, e);
  }

  lemma ReaderStepCounts<N, D>(s: State<N, D>, e: Event<N, D>)
    requires Enabled(s, e) && (e.Begin? || e.Look? || e.Move? || e.End?)
    ensures StepsToClean(Apply(s, e)) == StepsToClean(s)
  {}

  // With no such step left to do, nothing is allocated but the published tree.
  lemma CleanHeap<N, D>(s: State<N, D>)
    requires Inv(s)
    ensures StepsToClean(s) == 0 <==> s.heap.Keys == Nodes(s.published)
  {
    hide TreesIntact, ReadersSafe, Nodes, StepsToClean;
    CountsAreZero(s);
    if s.unlinked == {} && s.callbacks == map[] && s.orphans == map[] {
      assert OrphanNodes(s.orphans) == {};
      assert s.heap.Keys == Nodes(s.published);
    } else if n :| n in s.unlinked {
      assert n in s.heap.Keys && n !in Nodes(s.published);
    } else if n :| n in s.callbacks.Keys {
      assert n in s.heap.Keys && n !in Nodes(s.published);
    } else {
      assert s.callbacks == map[];
      var j :| j in s.orphans;
      OrphanHasNode(s, j);
      assert s.orphans[j].root in s.heap.Keys;
      assert s.orphans[j].root !in Nodes(s.published);
    }
  }

  lemma OrphanHasNode<N, D>(s: State<N, D>, j: nat)
    requires TreesIntact(s) && j in s.orphans
    ensures s.orphans[j].root in OrphanNodes(s.orphans) && s.orphans[j].root in Nodes(s.orphans[j].tree)
  {
    hide Intact, PrefixClosed;
    var t, n := s.orphans[j].tree, s.orphans[j].root;
    assert [] in t && t[[]].node == n;
    assert n in Nodes(s.orphans[j].tree);
  }

  lemma CountsAreZero<N, D>(s: State<N, D>)
    ensures StepsToClean(s) == 0 <==> s.unlinked == {} && s.callbacks == map[] && s.orphans == map[]
  {}

  // ---------------------------------------------------------------------------
  // Whole runs

  ghost predicate Run<N, D>(states: seq<State<N, D>>, events: seq<Event<N, D>>) {
    && |states| == |events| + 1
    && Init(states[0])
    && forall i | 0 <= i < |events| :: Enabled(states[i], events[i]) && states[i + 1] == Apply(states[i], events[i])
  }

  lemma {:induction false} RunInv<N, D>(states: seq<State<N, D>>, events: seq<Event<N, D>>, i: nat)
    requires Run(states, events) && i < |states|
    ensures Inv(states[i])
  {
    if i == 0 {
      InitInv(states[0]);
    } else {
      RunInv(states, events, i - 1);
      Keep(states[i - 1], events[i - 1]);
    }
  }

  lemma {:induction false} RunWaitsForElders<N, D>(states: seq<State<N, D>>, events: seq<Event<N, D>>, i: nat)
    requires Run(states, events) && i < |states|
    ensures WaitsForElders(states[i])
  {
    hide Enabled, Apply, Inv;
    if i > 0 {
      RunWaitsForElders(states, events, i - 1);
      RunInv(states, events, i - 1);
      YoungerThanBorn(states[i - 1]);
      WaitsForEldersStep(states[i - 1], events[i - 1]);
    }
  }

  lemma YoungerThanBorn<N, D>(s: State<N, D>)
    requires Inv(s)
    ensures forall r | r in s.readers :: r < s.born
  {}

  ghost function CleaningSteps<N, D>(events: seq<Event<N, D>>): nat {
    if events == [] then 0
    else
      var n := |events| - 1;
      CleaningSteps(events[..n]) + if Cleans(events[n]) then 1 else 0
  }

  // Between two writes, reclamation takes at most StepsToClean steps, and when it has taken them all, the heap is
  // the published tree.
  lemma {:induction false} CleaningEnds<N, D>(states: seq<State<N, D>>, events: seq<Event<N, D>>, i: nat, j: nat)
    requires Run(states, events) && i <= j < |states|
    requires forall l | i <= l < j :: !events[l].Publish? && !events[l].Swap?
    ensures StepsToClean(states[j]) + CleaningSteps(events[i..j]) == StepsToClean(states[i])
    ensures CleaningSteps(events[i..j]) == StepsToClean(states[i]) <==>
            states[j].heap.Keys == Nodes(states[j].published)
    decreases j
  {
    hide Enabled, Apply, Init, Inv, StepsToClean, Cleans, Nodes;
    RunInv(states, events, j);
    CleanHeap(states[j]);
    if i < j {
      CleaningEnds(states, events, i, j - 1);
      RunInv(states, events, j - 1);
      CleaningCounts(states[j - 1], events[j - 1]);
      assert events[i..j][..j - 1 - i] == events[i..j - 1];
    }
  }

  lemma ReaderContinues<N, D>(s: State<N, D>, e: Event<N, D>, r: nat)
    requires Enabled(s, e) && r < s.born && r in Apply(s, e).readers
    ensures r in s.readers
    ensures Apply(s, e).readers[r].begun == s.readers[r].begun && Apply(s, e).readers[r].key == s.readers[r].key
  {}

  lemma BornStep<N, D>(s: State<N, D>, e: Event<N, D>)
    requires Enabled(s, e)
    ensures s.born <= Apply(s, e).born
  {}

  lemma {:induction false} BornGrows<N, D>(states: seq<State<N, D>>, events: seq<Event<N, D>>, i: nat, j: nat)
    requires Run(states, events) && i <= j < |states|
    ensures states[i].born <= states[j].born
    decreases j
  {
    hide Enabled, Apply, Init;
    if i < j {
      BornGrows(states, events, i, j - 1);
      BornStep(states[j - 1], events[j - 1]);
    }
  }

  lemma BeginRecords<N, D>(s: State<N, D>, k: Path)
    ensures Apply(s, Begin(k)).born == s.born + 1
    ensures s.born in Apply(s, Begin(k)).readers
    ensures Apply(s, Begin(k)).readers[s.born].begun == s.published
    ensures Apply(s, Begin(k)).readers[s.born].key == k
  {}

  lemma {:induction false} ReaderKeepsSnapshot<N, D>(states: seq<State<N, D>>, events: seq<Event<N, D>>,
                                                     i: nat, j: nat, k: Path)
    requires Run(states, events) && i < j < |states| && events[i] == Begin(k)
    requires states[i].born in states[j].readers
    ensures states[j].readers[states[i].born].begun == states[i].published
    ensures states[j].readers[states[i].born].key == k
    decreases j
  {
    hide Enabled, Apply, Init;
    BeginRecords(states[i], k);
    if j > i + 1 {
      BornGrows(states, events, i + 1, j - 1);
      ReaderContinues(states[j - 1], events[j - 1], states[i].born);
      ReaderKeepsSnapshot(states, events, i, j - 1, k);
    }
  }

  // Whatever is published, swapped, retired and freed while a lookup runs, the lookup sees the trie exactly as
  // it was when it dereferenced the root: the same node at every depth, or none, and the same contents.
  lemma LookupSeesOneVersion<N, D>(states: seq<State<N, D>>, events: seq<Event<N, D>>,
                                   i: nat, j: nat, k: Path, v: Version<N, D>)
    requires Run(states, events) && i < j < |states| && events[i] == Begin(k)
    requires Intact(states[i].heap, v) && NodeAt(v, []) == states[i].root
    requires states[i].born in states[j].readers
    ensures var rd := states[j].readers[states[i].born];
            && rd.depth <= |k|
            && rd.cursor == NodeAt(v, k[..rd.depth])
            && forall l | 0 <= l < |rd.looks| ::
                 rd.looks[l].0 <= |k| && k[..rd.looks[l].0] in v && rd.looks[l].1 == v[k[..rd.looks[l].0]].data
  {
    RunInv(states, events, i);
    RunInv(states, events, j);
    PublishedIsHeap(states[i], v);
    ReaderKeepsSnapshot(states, events, i, j, k);
    assert ReaderSafe(states[j].heap, states[j].callbacks, states[j].orphans, states[i].born,
                      states[j].readers[states[i].born]);
  }

  // Which lookups are running is told by the events: those that have begun and not ended.
  ghost predicate Running<N, D>(states: seq<State<N, D>>, events: seq<Event<N, D>>, i: nat, j: nat, r: nat)
    requires j <= |events| < |states|
  {
    i < j && events[i].Begin? && states[i].born == r && forall l | i < l < j :: events[l] != End(r)
  }

  lemma ReadersStep<N, D>(s: State<N, D>, e: Event<N, D>, r: nat)
    requires Enabled(s, e)
    ensures r in Apply(s, e).readers <==> (r in s.readers && e != End(r)) || (e.Begin? && r == s.born)
  {
    hide Intact, PublishedHeap, Visited, CellsOf, IsTree, Nodes;
  }

  lemma {:induction false} RunningReaders<N, D>(states: seq<State<N, D>>, events: seq<Event<N, D>>, j: nat, r: nat)
    requires Run(states, events) && j < |states|
    ensures r in states[j].readers <==> exists i :: 0 <= i < j && Running(states, events, i, j, r)
  {
    hide Enabled, Apply;
    if j == 0 {
      hide Init;
      NoReadersAtFirst(states[0]);
    } else {
      var p := j - 1;
      RunningReaders(states, events, p, r);
      ReadersStep(states[p], events[p], r);
      if i: nat :| i < p && Running(states, events, i, p, r) {
        assert events[p] != End(r) ==> Running(states, events, i, j, r);
      }
      if i: nat :| i < j && Running(states, events, i, j, r) {
        assert i < j - 1 ==> Running(states, events, i, j - 1, r);
        if i < j - 1 {
          NotYetEnded(states, events, i, j);
        }
      }
      if events[j - 1].Begin? && r == states[j - 1].born {
        assert Running(states, events, j - 1, j, r);
      }
    }
  }

  lemma NotYetEnded<N, D>(states: seq<State<N, D>>, events: seq<Event<N, D>>, i: nat, j: nat)
    requires j <= |events| < |states| && i < j - 1 && Running(states, events, i, j, states[i].born)
    ensures events[j - 1] != End(states[i].born)
  {}

  lemma NoReadersAtFirst<N, D>(s: State<N, D>)
    requires Init(s)
    ensures s.readers == map[]
  {}

  ghost function Moves<N, D>(events: seq<Event<N, D>>, r: nat): nat {
    if events == [] then 0
    else
      var n := |events| - 1;
      Moves(events[..n], r) + if events[n] == Move(r) then 1 else 0
  }

  ghost function Looks<N, D>(events: seq<Event<N, D>>, r: nat): nat {
    if events == [] then 0
    else
      var n := |events| - 1;
      Looks(events[..n], r) + if events[n] == Look(r) then 1 else 0
  }

  lemma ReaderStepsOnce<N, D>(s: State<N, D>, e: Event<N, D>, r: nat)
    requires Enabled(s, e) && r < s.born && r in s.readers && r in Apply(s, e).readers
    ensures Apply(s, e).readers[r].depth == s.readers[r].depth + if e == Move(r) then 1 else 0
    ensures |Apply(s, e).readers[r].looks| == |s.readers[r].looks| + if e == Look(r) then 1 else 0
  {
    hide Intact, PublishedHeap, Visited, CellsOf, IsTree, Nodes;
  }

  // A lookup is as deep as it has made moves, and has as many readings as it has made looks.
  lemma {:induction false} LookupTakesItsSteps<N, D>(states: seq<State<N, D>>, events: seq<Event<N, D>>,
                                                     i: nat, j: nat, k: Path)
    requires Run(states, events) && i < j < |states| && events[i] == Begin(k)
    requires states[i].born in states[j].readers
    ensures var r := states[i].born;
            && states[j].readers[r].depth == Moves(events[i + 1..j], r)
            && |states[j].readers[r].looks| == Looks(events[i + 1..j], r)
    decreases j
  {
    hide Enabled, Apply, Init;
    BeginStarts(states[i], k);
    if j > i + 1 {
      BornGrows(states, events, i + 1, j - 1);
      ReaderContinues(states[j - 1], events[j - 1], states[i].born);
      LookupTakesItsSteps(states, events, i, j - 1, k);
      ReaderStepsOnce(states[j - 1], events[j - 1], states[i].born);
      assert events[i + 1..j][..j - 1 - (i + 1)] == events[i + 1..j - 1];
    }
  }

  lemma BeginStarts<N, D>(s: State<N, D>, k: Path)
    ensures var s' := Apply(s, Begin(k));
            && s'.born == s.born + 1 && s.born in s'.readers
            && s'.readers[s.born].depth == 0 && s'.readers[s.born].looks == []
  {}

  // And each look reads the node that the version of the beginning has at the depth reached.
  lemma EachLookReadsItsNode<N, D>(states: seq<State<N, D>>, events: seq<Event<N, D>>, i: nat, l: nat, k: Path,
                                   v: Version<N, D>)
    requires Run(states, events) && i < l < |events| && events[i] == Begin(k) && events[l] == Look(states[i].born)
    requires Intact(states[i].heap, v) && NodeAt(v, []) == states[i].root
    ensures var r := states[i].born;
            && r in states[l].readers && r in states[l + 1].readers
            && var d := states[l].readers[r].depth;
            && d <= |k| && k[..d] in v
            && states[l + 1].readers[r].looks == states[l].readers[r].looks + [(d, v[k[..d]].data)]
  {
    hide Inv, Init, Apply, Intact;
    assert Enabled(states[l], events[l]);
    LookupSeesOneVersion(states, events, i, l, k, v);
    RunInv(states, events, i);
    RunInv(states, events, l);
    PublishedIsHeap(states[i], v);
    ReaderKeepsSnapshot(states, events, i, l, k);
    LookReads(states[l], states[i].born);
  }

  lemma LookReads<N, D>(s: State<N, D>, r: nat)
    requires Inv(s) && Enabled(s, Look(r))
    ensures var rd, s' := s.readers[r], Apply(s, Look(r));
            && r in s'.readers && rd.depth <= |rd.key| && rd.key[..rd.depth] in rd.begun
            && s'.readers[r].looks == rd.looks + [(rd.depth, rd.begun[rd.key[..rd.depth]].data)]
  {
    hide Partitioned, TreesIntact, Intact;
    assert ReaderSafe(s.heap, s.callbacks, s.orphans, r, s.readers[r]);
    CursorCell(s.heap, s.readers[r]);
  }

  // An address is freed at most once for each time it is handed out.
  lemma {:induction false} StaysFreed<N, D>(states: seq<State<N, D>>, events: seq<Event<N, D>>, i: nat, j: nat, n: N)
    requires Run(states, events) && i < j < |states| && n in Frees(states[i], events[i])
    requires forall l | i < l < j :: n !in Allocates(states[l], events[l])
    ensures n !in states[j].heap
    decreases j
  {
    hide Enabled, Apply, Init, Inv, Frees, Allocates, Partition;
    RunInv(states, events, j - 1);
    FreesOnlyGarbage(states[j - 1], events[j - 1]);
    HeapKeysStep(states[j - 1], events[j - 1]);
    if j > i + 1 {
      StaysFreed(states, events, i, j - 1, n);
    }
  }

  lemma FreedOnce<N, D>(states: seq<State<N, D>>, events: seq<Event<N, D>>, i: nat, j: nat, n: N)
    requires Run(states, events) && i < j < |events|
    requires n in Frees(states[i], events[i]) && n in Frees(states[j], events[j])
    ensures exists l :: i < l < j && n in Allocates(states[l], events[l])
  {
    if forall l | i < l < j :: n !in Allocates(states[l], events[l]) {
      StaysFreed(states, events, i, j, n);
      RunInv(states, events, j);
      FreesOnlyGarbage(states[j], events[j]);
    }
  }
}
