// The bogon prefix trie (kernel/src/bogon.c): loading a list of prefixes into a fresh trie, and looking an
// address up in it.  Allocation succeeds and prefix lengths are at most 32.
module Bogon {
  import opened Bits
  import opened Trie

  // struct lfw_ip_prefix, with the address in host byte order
  datatype Prefix = Prefix(ip: Word, len: Byte)

  ghost predicate WellFormed(prefixes: seq<Prefix>) {
    forall i | 0 <= i < |prefixes| :: prefixes[i].len <= IPV4_BITS
  }

  // What a list of prefixes means: RFC 4632, section 3.1.
  ghost predicate Covers(p: Prefix, ip: Word)
    requires p.len <= IPV4_BITS
  {
    GetMasked(ip, p.len) == GetMasked(p.ip, p.len)
  }

  ghost predicate Covered(prefixes: seq<Prefix>, ip: Word)
    requires WellFormed(prefixes)
  {
    exists i :: 0 <= i < |prefixes| && Covers(prefixes[i], ip)
  }

  lemma CoveredMeans(list: Option<seq<Prefix>>, ip: Word)
    ensures list.Some? && WellFormed(list.value) ==>
              (Covered(list.value, ip) <==>
               exists i :: 0 <= i < |list.value| && list.value[i].len <= IPV4_BITS
                           && GetMasked(ip, list.value[i].len) == GetMasked(list.value[i].ip, list.value[i].len))
  {
    hide GetMasked;
  }

  // The same without masks: the network numbers are equal.
  lemma CoversArithmetic(p: Prefix, ip: Word)
    requires p.len <= IPV4_BITS
    ensures Covers(p, ip) <==> ip / Pow2(IPV4_BITS - p.len) == p.ip / Pow2(IPV4_BITS - p.len)
  {
    hide GetMasked, Pow2;
    var w := Pow2(IPV4_BITS - p.len);
    MaskedArithmetic(ip, p.len);
    MaskedArithmetic(p.ip, p.len);
    SameMultiple(ip / w, p.ip / w, w);
  }

  lemma SameMultiple(x: int, y: int, w: nat)
    requires w > 0
    ensures x * w == y * w <==> x == y
  {
    if x < y {
      assert (x + 1) * w <= y * w;
    } else if y < x {
      assert (y + 1) * w <= x * w;
    }
  }

  function RouteOf(p: Prefix): (r: Path)
    requires p.len <= IPV4_BITS
    ensures |r| == p.len
  {
    PathOf(p.ip, p.len)
  }

  ghost function Routes(prefixes: seq<Prefix>): set<Path>
    requires WellFormed(prefixes)
  {
    set i | 0 <= i < |prefixes| :: RouteOf(prefixes[i])
  }

  // The trie of a list: its nodes are the root and the prefix closure of the listed bit strings, and the
  // marked nodes are exactly the listed strings.
  ghost predicate Loaded<N>(v: Version<N, bool>, prefixes: seq<Prefix>)
    requires WellFormed(prefixes)
  {
    && v.Keys == {[]} + Closure(Routes(prefixes))
    && forall p | p in v :: v[p].data <==> p in Routes(prefixes)
  }

  // ---------------------------------------------------------------------------
  // What follows for the shape of the trie

  lemma RoutesStep(prefixes: seq<Prefix>, i: nat)
    requires WellFormed(prefixes) && i < |prefixes|
    ensures WellFormed(prefixes[..i]) && WellFormed(prefixes[..i + 1])
    ensures Routes(prefixes[..i + 1]) == Routes(prefixes[..i]) + {RouteOf(prefixes[i])}
  {}

  lemma LoadedStep<N>(v: Version<N, bool>, prefixes: seq<Prefix>, i: nat, k: Path, w: Version<N, bool>)
    requires WellFormed(prefixes) && i < |prefixes| && WellFormed(prefixes[..i]) && k == RouteOf(prefixes[i])
    requires Loaded(v, prefixes[..i]) && Grown(v, k, |k|, false, w)
    ensures k in w && WellFormed(prefixes[..i + 1]) && Loaded(Mark(w, k, true), prefixes[..i + 1])
  {
    hide Prefixes, Routes, Closure;
    assert k[..|k|] == k;
    PrefixMembership(k, k);
    RoutesStep(prefixes, i);
    ClosureAdd(Routes(prefixes[..i]), k);
    var x := Mark(w, k, true);
    assert x.Keys == w.Keys;
    forall p | p in x ensures x[p].data <==> p in Routes(prefixes[..i + 1]) {
      InClosure(Routes(prefixes[..i]), p);
    }
  }

  // The routes that prefix i adds to those of the prefixes before it, for each of which a node is created.
  ghost function Added(prefixes: seq<Prefix>, i: nat): set<Path>
    requires WellFormed(prefixes) && i < |prefixes|
  {
    Prefixes(RouteOf(prefixes[i])) - ({[]} + Closure(Routes(prefixes[..i])))
  }

  lemma AddedCount<N>(v: Version<N, bool>, w: Version<N, bool>, prefixes: seq<Prefix>, i: nat)
    requires WellFormed(prefixes) && i < |prefixes|
    requires WellFormed(prefixes[..i]) && WellFormed(prefixes[..i + 1])
    requires Loaded(v, prefixes[..i]) && Loaded(w, prefixes[..i + 1])
    ensures |w| == |v| + |Added(prefixes, i)|
  {
    hide Prefixes, Routes, Closure;
    RoutesStep(prefixes, i);
    ClosureAdd(Routes(prefixes[..i]), RouteOf(prefixes[i]));
    assert w.Keys == v.Keys + Added(prefixes, i) && v.Keys !! Added(prefixes, i);
    assert |w.Keys| == |w| && |v.Keys| == |v|;
  }

  lemma InClosure(s: set<Path>, p: Path)
    ensures p in s ==> p in Closure(s)
  {
    assert p == p[..|p|];
  }

  // A node without children is a listed prefix: an unmarked node below the root always leads further, so no
  // lookup can end at an unmarked node of depth 32.
  lemma UnmarkedLeadsOn<N>(v: Version<N, bool>, prefixes: seq<Prefix>, p: Path)
    requires WellFormed(prefixes) && Loaded(v, prefixes) && p in v && p != [] && !v[p].data
    ensures |p| < IPV4_BITS && (p + [false] in v || p + [true] in v)
  {
    var r, e :| r in Routes(prefixes) && 0 <= e <= |r| && p == r[..e];
    assert r == r[..|r|];
    assert e < |r|;
    ListedRoute(prefixes, r);
    assert r[..e + 1] == p + [r[e]];
    assert r[..e + 1] in Closure(Routes(prefixes));
  }

  lemma ListedRoute(prefixes: seq<Prefix>, r: Path)
    requires WellFormed(prefixes) && r in Routes(prefixes)
    ensures |r| <= IPV4_BITS
  {}

  // Masking and descending agree: an address is covered exactly when its route meets a marked node.
  lemma CoveredIsMarked<N>(v: Version<N, bool>, prefixes: seq<Prefix>, ip: Word)
    requires WellFormed(prefixes) && Loaded(v, prefixes)
    ensures Covered(prefixes, ip) <==>
            exists e :: 0 <= e <= IPV4_BITS && PathOf(ip, IPV4_BITS)[..e] in v && v[PathOf(ip, IPV4_BITS)[..e]].data
  {
    var k := PathOf(ip, IPV4_BITS);
    if Covered(prefixes, ip) {
      var i :| 0 <= i < |prefixes| && Covers(prefixes[i], ip);
      var p := prefixes[i];
      SamePrefixSamePath(ip, p.ip, p.len);
      PathPrefix(ip, p.len, IPV4_BITS);
      assert k[..p.len] == RouteOf(p);
      assert RouteOf(p) in Routes(prefixes);
      InClosure(Routes(prefixes), RouteOf(p));
      assert k[..p.len] in v;
    }
    if e: nat :| e <= IPV4_BITS && k[..e] in v && v[k[..e]].data {
      assert k[..e] in Routes(prefixes);
      var i :| 0 <= i < |prefixes| && RouteOf(prefixes[i]) == k[..e];
      PathPrefix(ip, e, IPV4_BITS);
      SamePrefixSamePath(ip, prefixes[i].ip, e);
      assert Covers(prefixes[i], ip);
    }
  }

  // The walk has met no marked node above level e, and there is nothing at level e: no prefix covers the address.
  lemma DeadEnd<N>(v: Version<N, bool>, prefixes: seq<Prefix>, ip: Word, e: nat)
    requires WellFormed(prefixes) && Loaded(v, prefixes) && IsTree(v) && e <= IPV4_BITS
    requires PathOf(ip, IPV4_BITS)[..e] !in v
    requires forall d | 0 <= d < e && PathOf(ip, IPV4_BITS)[..d] in v :: !v[PathOf(ip, IPV4_BITS)[..d]].data
    ensures !Covered(prefixes, ip)
  {
    hide PathOf, Loaded, PrefixClosed;
    CoveredIsMarked(v, prefixes, ip);
    var k := PathOf(ip, IPV4_BITS);
    forall d: nat | d <= IPV4_BITS && k[..d] in v ensures !v[k[..d]].data {
      if e <= d {
        BeyondEnd(v, k, d, e);
      }
    }
  }

  lemma Marked<N>(v: Version<N, bool>, prefixes: seq<Prefix>, ip: Word, e: nat)
    requires WellFormed(prefixes) && Loaded(v, prefixes) && e <= IPV4_BITS
    requires PathOf(ip, IPV4_BITS)[..e] in v && v[PathOf(ip, IPV4_BITS)[..e]].data
    ensures Covered(prefixes, ip)
  {
    hide PathOf, Loaded;
    CoveredIsMarked(v, prefixes, ip);
  }

  // A walk of 32 levels that has met no marked node above the last one ends at a marked node.
  lemma LastIsMarked<N>(v: Version<N, bool>, prefixes: seq<Prefix>, ip: Word)
    requires WellFormed(prefixes) && Loaded(v, prefixes) && PathOf(ip, IPV4_BITS) in v
    ensures v[PathOf(ip, IPV4_BITS)].data
  {
    hide Loaded;
    var k := PathOf(ip, IPV4_BITS);
    if !v[k].data {
      UnmarkedLeadsOn(v, prefixes, k);
    }
  }

  // ---------------------------------------------------------------------------
  // Only the set of prefixes matters

  ghost predicate SamePrefix(p: Prefix, q: Prefix)
    requires p.len <= IPV4_BITS && q.len <= IPV4_BITS
  {
    p.len == q.len && GetMasked(p.ip, p.len) == GetMasked(q.ip, q.len)
  }

  ghost predicate Within(a: seq<Prefix>, b: seq<Prefix>)
    requires WellFormed(a) && WellFormed(b)
  {
    forall i | 0 <= i < |a| :: exists j :: 0 <= j < |b| && SamePrefix(a[i], b[j])
  }

  lemma RoutesWithin(a: seq<Prefix>, b: seq<Prefix>)
    requires WellFormed(a) && WellFormed(b) && Within(a, b)
    ensures Routes(a) <= Routes(b)
  {
    forall r | r in Routes(a) ensures r in Routes(b) {
      var i :| 0 <= i < |a| && RouteOf(a[i]) == r;
      var j :| 0 <= j < |b| && SamePrefix(a[i], b[j]);
      SamePrefixSamePath(a[i].ip, b[j].ip, a[i].len);
      assert RouteOf(b[j]) == r;
    }
  }

  // Two lists with the same prefixes, in any order and any number of times, load equal tries.
  lemma OrderAndRepetitionIrrelevant<N>(a: seq<Prefix>, b: seq<Prefix>, v: Version<N, bool>, w: Version<N, bool>)
    requires WellFormed(a) && WellFormed(b) && Within(a, b) && Within(b, a) && Loaded(v, a) && Loaded(w, b)
    ensures v.Keys == w.Keys && forall p | p in v :: v[p].data == w[p].data
  {
    hide Routes, Closure;
    RoutesWithin(a, b);
    RoutesWithin(b, a);
    assert Routes(a) == Routes(b);
  }

  // A prefix inside a shorter listed one changes no answer.
  lemma NestedPrefixIrrelevant(prefixes: seq<Prefix>, extra: Prefix, i: nat, ip: Word)
    requires WellFormed(prefixes) && extra.len <= IPV4_BITS && i < |prefixes|
    requires prefixes[i].len <= extra.len && Covers(prefixes[i], extra.ip)
    ensures WellFormed(prefixes + [extra])
    ensures Covered(prefixes + [extra], ip) <==> Covered(prefixes, ip)
  {
    var more, p := prefixes + [extra], prefixes[i];
    if Covers(extra, ip) {
      SamePrefixSamePath(ip, extra.ip, extra.len);
      PathPrefix(ip, p.len, extra.len);
      PathPrefix(extra.ip, p.len, extra.len);
      SamePrefixSamePath(ip, extra.ip, p.len);
      assert Covers(p, ip);
    }
    if Covered(more, ip) {
      var j :| 0 <= j < |more| && Covers(more[j], ip);
      assert j < |prefixes| ==> Covers(prefixes[j], ip);
    }
    if Covered(prefixes, ip) {
      var j :| 0 <= j < |prefixes| && Covers(prefixes[j], ip);
      assert more[j] == prefixes[j];
    }
  }
}
