// The filter never refuses what comes from outside: whatever its state, every command, packet and message is
// accepted, every queued task can be run, and what has to be built for it can be built in memory that is free.
module FirewallInputs {
  import opened Bits
  import opened Trie
  import opened Rcu
  import opened Bogon
  import opened HopCount
  import opened Firewall
  import HistoryTable
  import Reclaim

  // ---------------------------------------------------------------------------
  // Free memory

  lemma {:induction false} FreshName(used: set<nat>) returns (n: nat)
    ensures forall m | m in used :: m < n
  {
    if used == {} {
      n := 0;
    } else {
      var m :| m in used;
      var k := FreshName(used - {m});
      n := if m < k then k else m + 1;
      assert used == (used - {m}) + {m};
    }
  }

  lemma FreshNames(used: set<nat>, count: nat) returns (names: seq<nat>)
    ensures |names| == count && Distinct(names) && forall i | 0 <= i < |names| :: names[i] !in used
  {
    var n := FreshName(used);
    names := seq(count, i => n + i);
  }

  // A tree of free nodes with given routes and data.
  lemma {:induction false} FreshTree<D>(keys: set<Path>, data: map<Path, D>, used: set<nat>)
    returns (v: Version<nat, D>)
    requires keys <= data.Keys
    ensures v.Keys == keys && Unshared(v) && Nodes(v) !! used && forall p | p in v :: v[p].data == data[p]
  {
    if keys == {} {
      v := map[];
    } else {
      var p :| p in keys;
      var n := FreshName(used);
      var w := FreshTree(keys - {p}, data, used + {n});
      v := w[p := Slot(n, data[p])];
      assert keys == (keys - {p}) + {p};
      forall m | m in Nodes(v) ensures m == n || m in Nodes(w) {
        var q :| q in v && v[q].node == m;
        assert q != p ==> w[q].node == m;
      }
      assert forall q | q in w :: w[q].node in Nodes(w);
    }
  }

  lemma ClosureHasPrefixes(s: set<Path>, p: Path)
    requires p in {[]} + Closure(s) && p != []
    ensures p[..|p| - 1] in {[]} + Closure(s)
  {
    var k, e :| k in s && 0 <= e <= |k| && p == k[..e];
    assert k[..e][..e - 1] == k[..e - 1];
  }

  // ---------------------------------------------------------------------------
  // What is accepted

  lemma CommandsAccepted<N, M>(s: State<N, M>, id: nat, p: Packet, value: bool, t: Sighting, a: Announcement)
    ensures Enabled(s, SetAttack(value)) && Enabled(s, LearnRead(t))
    ensures id !in s.jobs ==> Enabled(s, OfPacket(id, Arrive(p)))
    ensures t in s.hooks ==> Enabled(s, LearnEnqueue(t))
    ensures a in s.outbox ==> Enabled(s, Deliver(a))
  {}

  lemma WorkAccepted(s: State<nat, nat>, t: Sighting)
    requires t in s.tasks
    ensures exists names :: Enabled(s, Work(t, names))
  {
    hide Key, Learned;
    var names := FreshNames(s.hcf.heap.Keys, KEY_BITS + 1);
    assert Enabled(s, Work(t, names));
  }

  lemma TreeMayBeSwappedIn<D>(h: Reclaim.State<nat, D>, routes: set<Path>, data: map<Path, D>)
    returns (j: nat, v: Version<nat, D>)
    requires {[]} + Closure(routes) <= data.Keys
    ensures v.Keys == {[]} + Closure(routes) && (forall p | p in v :: v[p].data == data[p])
    ensures Reclaim.Enabled(h, Reclaim.Swap(j, v))
  {
    hide Closure;
    v := FreshTree({[]} + Closure(routes), data, h.heap.Keys);
    j := FreshName(h.orphans.Keys);
    forall p | p in v && p != [] ensures p[..|p| - 1] in v {
      ClosureHasPrefixes(routes, p);
    }
  }

  lemma LoadAccepted(s: State<nat, nat>, list: seq<Prefix>)
    requires WellFormed(list)
    ensures exists j, t :: Enabled(s, LoadBogon(list, j, t))
  {
    hide Closure, Routes, Reclaim.Enabled;
    var routes := Routes(list);
    var data := map p | p in {[]} + Closure(routes) :: p in routes;
    var j, t := TreeMayBeSwappedIn(s.bogon, routes, data);
    assert Enabled(s, LoadBogon(list, j, t));
  }

  lemma KeysAreLong(rows: seq<Entry>, k: Path)
    requires k in Replayed(rows)
    ensures |k| == KEY_BITS
  {
    ReplayedIsLast(rows, k);
  }

  lemma LeavesOfClosure(v: Version<nat, Info>, known: Known)
    requires v.Keys == {[]} + Closure(known.Keys) && forall k | k in known :: |k| == KEY_BITS
    requires forall k | k in known && k in v :: v[k].data == known[k]
    ensures Leaves(v, KEY_BITS) == known && Pruned(v, KEY_BITS)
  {
    forall p ensures p in v && |p| == KEY_BITS <==> p in known {
      if p in v && |p| == KEY_BITS {
        var k, e :| k in known.Keys && 0 <= e <= |k| && p == k[..e];
        assert k[..e] == k;
      }
      if p in known {
        assert p[..|p|] == p;
      }
    }
    assert Leaves(v, KEY_BITS) == known;
  }

  lemma ReplayAccepted(s: State<nat, nat>, rows: seq<Entry>)
    requires rows in s.replays
    ensures exists j, t :: Enabled(s, Replay(rows, j, t))
  {
    hide Closure, Reclaim.Enabled, Replayed, Leaves, Pruned;
    var known := Replayed(rows);
    var data := map p | p in {[]} + Closure(known.Keys) :: if p in known then known[p] else BLANK;
    var j, t := TreeMayBeSwappedIn(s.hcf, known.Keys, data);
    forall k | k in known ensures |k| == KEY_BITS {
      KeysAreLong(rows, k);
    }
    LeavesOfClosure(t, known);
    assert Enabled(s, Replay(rows, j, t));
  }

  lemma {:induction false} StoreMayBeListed(store: map<Word, Info>) returns (rows: seq<Entry>)
    ensures ListsStore(rows, store)
    decreases |store|
  {
    hide ListsStore;
    if store.Keys == {} {
      rows := [];
      assert store == map[];
      HistoryTable.NoRows(store);
    } else {
      var ip :| ip in store;
      var rest := store - {ip};
      assert store.Keys == rest.Keys + {ip} && |rest.Keys| == |rest| && |store.Keys| == |store|;
      var front := StoreMayBeListed(rest);
      HistoryTable.OneMoreRow(front, rest, ip, store[ip]);
      rows := front + [Entry(ip, store[ip].ttl, store[ip].hc)];
      assert rest[ip := store[ip]] == store;
    }
  }

  lemma StoreReadAccepted<N, M>(s: State<N, M>)
    ensures exists rows :: Enabled(s, StoreRead(rows))
  {
    hide ListsStore;
    var rows := StoreMayBeListed(s.store);
    assert Enabled(s, StoreRead(rows));
  }
}
