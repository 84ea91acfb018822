// The arithmetic of hop-count filtering (kernel/src/hcf.c) and the answers it gives on an abstract map from
// 24-bit keys to what was learned.
module HopCount {
  import opened Bits

  datatype Info = Info(ttl: Byte, hc: Byte)

  type Known = map<Path, Info>

  const KEY_BITS: nat := 24

  // What kzalloc leaves in a node.
  const BLANK := Info(0, 0)

  // The trie is indexed by ip >> 8.
  function Key(ip: Word): (k: Path)
    ensures |k| == KEY_BITS
  {
    PathOf(ip, KEY_BITS)
  }

  // hcf_get_initial_ttl
  function InitialTtl(ttl: Byte): Byte {
    if ttl <= 64 then 64 else if ttl <= 128 then 128 else 255
  }

  function HopsTravelled(ttl: Byte): Byte {
    InitialTtl(ttl) - ttl
  }

  function Learned(ttl: Byte): Info {
    Info(ttl, HopsTravelled(ttl))
  }

  function Abs(x: int): nat {
    if x < 0 then -x else x
  }

  // The comparison at the end of hcf_lookup_tree: 1 for a match, 0 for a mismatch.
  function Judge(ttl: Byte, storedHc: Byte): int {
    if Abs(HopsTravelled(ttl) - storedHc) <= 2 then 1 else 0
  }

  // hcf_lookup_tree on the abstract map: -1 stands for an unknown /24.
  function Answer(known: Known, ip: Word, ttl: Byte): int {
    if Key(ip) in known then Judge(ttl, known[Key(ip)].hc) else -1
  }

  // The packet arrives with more hops left than the next smaller initial value allows.
  predicate Recoverable(initial: Byte, hops: Byte) {
    hops <= initial && (initial == 64 || (initial == 128 && hops < 64) || (initial == 255 && hops < 127))
  }

  // That is exactly when the hop count is recovered.
  lemma HopsRecovered(initial: Byte, hops: Byte)
    requires initial in {64, 128, 255} && hops <= initial
    ensures HopsTravelled(initial - hops) == hops <==> Recoverable(initial, hops)
  {}

  // A packet sent with initial TTL i1 over h1 hops teaches the /24; a later one with i2 over h2 hops is
  // accepted exactly when the distances differ by at most two.
  lemma LearnThenLookup(known: Known, source: Word, i1: Byte, h1: Byte, source': Word, i2: Byte, h2: Byte)
    requires Recoverable(i1, h1) && Recoverable(i2, h2)
    requires ShiftRight(source, 8) == ShiftRight(source', 8)
    ensures Answer(known[Key(source) := Learned(i1 - h1)], source', i2 - h2) == (if Abs(h1 - h2) <= 2 then 1 else 0)
  {
    SameKeySamePath(source, source');
    HopsRecovered(i1, h1);
    HopsRecovered(i2, h2);
  }

  // Learning one /24 changes no answer about another.
  lemma LearnOther(known: Known, source: Word, info: Info, source': Word, ttl: Byte)
    requires ShiftRight(source, 8) != ShiftRight(source', 8)
    ensures Answer(known[Key(source) := info], source', ttl) == Answer(known, source', ttl)
  {
    SameKeySamePath(source, source');
  }

  // ---------------------------------------------------------------------------
  // A history message

  datatype Entry = Entry(ip: Word, ttl: Byte, hc: Byte)

  // The map that a history message describes; a later entry for the same /24 wins.
  function Replayed(entries: seq<Entry>): Known {
    if entries == [] then map[]
    else
      var last := entries[|entries| - 1];
      Replayed(entries[..|entries| - 1])[Key(last.ip) := Info(last.ttl, last.hc)]
  }

  lemma ReplayedStep(entries: seq<Entry>, i: nat)
    requires i < |entries|
    ensures Replayed(entries[..i + 1]) ==
            Replayed(entries[..i])[Key(entries[i].ip) := Info(entries[i].ttl, entries[i].hc)]
  {
    assert entries[..i + 1][..i] == entries[..i];
  }

  // Every key comes from the last entry that names it.
  lemma {:induction false} ReplayedIsLast(entries: seq<Entry>, k: Path)
    ensures k in Replayed(entries) <==> exists i :: 0 <= i < |entries| && Key(entries[i].ip) == k
    ensures k in Replayed(entries) ==>
              exists i :: 0 <= i < |entries| && Key(entries[i].ip) == k
                          && Replayed(entries)[k] == Info(entries[i].ttl, entries[i].hc)
                          && forall j | i < j < |entries| :: Key(entries[j].ip) != k
  {
    if entries != [] {
      var n := |entries| - 1;
      var front, last := entries[..n], entries[n];
      ReplayedIsLast(front, k);
      if Key(last.ip) == k {
        assert Replayed(entries)[k] == Info(last.ttl, last.hc);
      } else if k in Replayed(front) {
        var i :| 0 <= i < |front| && Key(front[i].ip) == k && Replayed(front)[k] == Info(front[i].ttl, front[i].hc)
                 && forall j | i < j < |front| :: Key(front[j].ip) != k;
        assert entries[i] == front[i];
        forall j | i < j < |entries| ensures Key(entries[j].ip) != k {
          if j < n {
            assert entries[j] == front[j];
          }
        }
      } else {
        forall i | 0 <= i < |entries| ensures Key(entries[i].ip) != k {
          if i < n {
            assert entries[i] == front[i];
          }
        }
      }
    }
  }

  // ---------------------------------------------------------------------------
  // Draining the work queue

  // A packet that a worker learns from
  datatype Sighting = Sighting(ip: Word, ttl: Byte)

  // The workers run one after the other, in whatever order the queue hands the tasks out.
  function Drained(known: Known, order: seq<Sighting>): Known {
    if order == [] then known
    else
      var last := order[|order| - 1];
      Drained(known, order[..|order| - 1])[Key(last.ip) := Learned(last.ttl)]
  }

  ghost function KeysOf(tasks: multiset<Sighting>): set<Path> {
    set t | t in tasks :: Key(t.ip)
  }

  lemma {:induction false} DrainedKeys(known: Known, order: seq<Sighting>)
    ensures Drained(known, order).Keys == known.Keys + KeysOf(multiset(order))
  {
    if order == [] {
      assert KeysOf(multiset(order)) == {};
    } else {
      var n := |order| - 1;
      var front, last := order[..n], order[n];
      DrainedKeys(known, front);
      assert order == front + [last];
      assert KeysOf(multiset(order)) == KeysOf(multiset(front)) + {Key(last.ip)};
    }
  }

  // The order of the queue cannot change which /24s are known afterwards.
  lemma AnyOrderSameKeys(known: Known, a: seq<Sighting>, b: seq<Sighting>)
    requires multiset(a) == multiset(b)
    ensures Drained(known, a).Keys == Drained(known, b).Keys
  {
    DrainedKeys(known, a);
    DrainedKeys(known, b);
  }

  // The last task that names the key is at i.
  ghost predicate LastNamed(order: seq<Sighting>, k: Path, i: nat) {
    i < |order| && Key(order[i].ip) == k && forall j | i < j < |order| :: Key(order[j].ip) != k
  }

  lemma LastOfFront(order: seq<Sighting>, k: Path, i: nat)
    requires order != [] && Key(order[|order| - 1].ip) != k && LastNamed(order[..|order| - 1], k, i)
    ensures LastNamed(order, k, i) && order[i] == order[..|order| - 1][i]
  {
    hide Key;
    var front := order[..|order| - 1];
    forall j | i < j < |order| ensures Key(order[j].ip) != k {
      assert j < |front| ==> order[j] == front[j];
    }
  }

  lemma KeysOfFront(order: seq<Sighting>)
    requires order != []
    ensures KeysOf(multiset(order)) == KeysOf(multiset(order[..|order| - 1])) + {Key(order[|order| - 1].ip)}
  {
    hide Key;
    assert order == order[..|order| - 1] + [order[|order| - 1]];
  }

  // A touched key gets the value of the last of its own tasks, an untouched one keeps what it had.
  lemma {:induction false} DrainedValues(known: Known, order: seq<Sighting>, k: Path)
    ensures k in KeysOf(multiset(order)) ==>
              && k in Drained(known, order)
              && exists i: nat :: i < |order| && LastNamed(order, k, i)
                                  && Drained(known, order)[k] == Learned(order[i].ttl)
    ensures k !in KeysOf(multiset(order)) ==>
              (k in Drained(known, order) <==> k in known) && (k in known ==> Drained(known, order)[k] == known[k])
  {
    hide Key, Learned, KeysOf, LastNamed;
    if order == [] {
      NoKeys();
    } else {
      var n := |order| - 1;
      DrainedValues(known, order[..n], k);
      KeysOfFront(order);
      if Key(order[n].ip) == k {
        LastIsNamed(order);
      } else if k in KeysOf(multiset(order[..n])) {
        var i: nat :| i < n && LastNamed(order[..n], k, i)
                      && Drained(known, order[..n])[k] == Learned(order[..n][i].ttl);
        LastOfFront(order, k, i);
      }
    }
  }

  lemma NoKeys()
    ensures KeysOf(multiset([])) == {}
  {}

  lemma LastIsNamed(order: seq<Sighting>)
    requires order != []
    ensures LastNamed(order, Key(order[|order| - 1].ip), |order| - 1)
  {
    hide Key;
  }
}
