// What holds in every reachable state of Firewall: verdicts, learning, announcing and replaying.
module FirewallSafety {
  import opened Bits
  import opened Trie
  import opened Rcu
  import opened Bogon
  import opened HopCount
  import opened Firewall
  import Reclaim

  // ---------------------------------------------------------------------------
  // Verdicts

  // The published bogon trie is the trie of the list.
  ghost predicate ListOk<M>(v: Version<M, bool>, list: Option<seq<Prefix>>) {
    match list
    case None => v == map[]
    case Some(prefixes) => WellFormed(prefixes) && Loaded(v, prefixes)
  }

  ghost predicate Blocked(list: Option<seq<Prefix>>, ip: Word) {
    list.Some? && WellFormed(list.value) && Covered(list.value, ip)
  }

  // The verdict that the filter owes a packet, given the list, the flag and the map it has seen.
  ghost predicate VerdictOk(p: Packet, drop: bool, seen: Seen) {
    match seen
    case Ignored => !(p.isIpv4 && p.isTcp) && !drop
    case ByBogon(list) => p.isIpv4 && p.isTcp && Blocked(list, p.source) && drop
    case Calm(list) => p.isIpv4 && p.isTcp && !Blocked(list, p.source) && !drop
    case ByHops(list, known) =>
      && p.isIpv4 && p.isTcp && !Blocked(list, p.source)
      && (drop <==> Answer(known, p.source, p.ttl) < 1)
  }

  // A scan of the bogon trie that has found nothing yet.
  ghost predicate BogonScanOk<M>(rd: Reclaim.Reader<M, bool>, ip: Word, looked: bool, list: Option<seq<Prefix>>) {
    && rd.key == PathOf(ip, IPV4_BITS) && ListOk(rd.begun, list) && rd.cursor.Some?
    && forall d | 0 <= d <= |rd.key| && (d < rd.depth || (d == rd.depth && looked)) && rd.key[..d] in rd.begun ::
         !rd.begun[rd.key[..d]].data
  }

  ghost predicate HopScanOk<N>(rd: Reclaim.Reader<N, Info>, ip: Word, known: Known) {
    && rd.key == Key(ip) && rd.cursor.Some? && known == Leaves(rd.begun, KEY_BITS)
  }

  ghost predicate JobOk<N, M>(job: Job, hops: map<nat, Reclaim.Reader<N, Info>>,
                              bogons: map<nat, Reclaim.Reader<M, bool>>)
  {
    var p := job.packet;
    match job.phase
    case Arrived => p.isIpv4 && p.isTcp
    case BogonScan(r, looked, list) =>
      p.isIpv4 && p.isTcp && r in bogons && BogonScanOk(bogons[r], p.source, looked, list)
    case NotBogon(list) => p.isIpv4 && p.isTcp && !Blocked(list, p.source)
    case UnderAttack(list) => p.isIpv4 && p.isTcp && !Blocked(list, p.source)
    case HopScan(r, list, known) =>
      p.isIpv4 && p.isTcp && !Blocked(list, p.source) && r in hops && HopScanOk(hops[r], p.source, known)
    case Done(drop, seen) => VerdictOk(p, drop, seen)
  }

  ghost function BogonReader(job: Job): Option<nat> {
    if job.phase.BogonScan? then Some(job.phase.reader) else None
  }

  ghost function HopReader(job: Job): Option<nat> {
    if job.phase.HopScan? then Some(job.phase.reader) else None
  }

  // Every packet is in order, and no two packets share a lookup.
  ghost predicate JobsOk<N, M>(jobs: map<nat, Job>, hops: map<nat, Reclaim.Reader<N, Info>>,
                               bogons: map<nat, Reclaim.Reader<M, bool>>)
  {
    && (forall id | id in jobs :: JobOk(jobs[id], hops, bogons))
    && (forall i, j | i in jobs && j in jobs && i != j ::
          BogonReader(jobs[i]).Some? ==> BogonReader(jobs[i]) != BogonReader(jobs[j]))
    && (forall i, j | i in jobs && j in jobs && i != j ::
          HopReader(jobs[i]).Some? ==> HopReader(jobs[i]) != HopReader(jobs[j]))
  }

  ghost predicate Keeps<D>(before: map<nat, D>, after: map<nat, D>, except: Option<nat>) {
    forall r | r in before && Some(r) != except :: r in after && after[r] == before[r]
  }

  // One packet moves on; the lookups of the others are left alone.
  lemma OnePacketMoves<N, M>(jobs: map<nat, Job>, id: nat, job: Job,
                             hops: map<nat, Reclaim.Reader<N, Info>>, bogons: map<nat, Reclaim.Reader<M, bool>>,
                             hops': map<nat, Reclaim.Reader<N, Info>>, bogons': map<nat, Reclaim.Reader<M, bool>>)
    requires JobsOk(jobs, hops, bogons) && JobOk(job, hops', bogons')
    requires Keeps(hops, hops', if id in jobs then HopReader(jobs[id]) else None)
    requires Keeps(bogons, bogons', if id in jobs then BogonReader(jobs[id]) else None)
    requires BogonReader(job).Some? ==>
               BogonReader(job).value !in bogons || (id in jobs && BogonReader(job) == BogonReader(jobs[id]))
    requires HopReader(job).Some? ==>
               HopReader(job).value !in hops || (id in jobs && HopReader(job) == HopReader(jobs[id]))
    ensures JobsOk(jobs[id := job], hops', bogons')
  {
    hide BogonScanOk, HopScanOk, VerdictOk, Blocked;
    forall i | i in jobs && i != id ensures JobOk(jobs[i], hops', bogons') {
      assert JobOk(jobs[i], hops, bogons);
    }
    forall i | i in jobs && i != id
      ensures BogonReader(job).Some? ==> BogonReader(job) != BogonReader(jobs[i])
      ensures HopReader(job).Some? ==> HopReader(job) != HopReader(jobs[i])
    {
      assert JobOk(jobs[i], hops, bogons);
    }
  }

  // ---------------------------------------------------------------------------
  // What a lookup may conclude

  lemma NothingFound<M>(rd: Reclaim.Reader<M, bool>, ip: Word, list: Option<seq<Prefix>>, e: nat)
    requires rd.key == PathOf(ip, IPV4_BITS) && ListOk(rd.begun, list) && IsTree(rd.begun)
    requires e <= IPV4_BITS && rd.key[..e] !in rd.begun
    requires forall d | 0 <= d < e && rd.key[..d] in rd.begun :: !rd.begun[rd.key[..d]].data
    ensures !Blocked(list, ip)
  {
    hide PathOf, Loaded, Covered, PrefixClosed;
    if list.Some? {
      DeadEnd(rd.begun, list.value, ip, e);
    }
  }

  // ---------------------------------------------------------------------------
  // The invariant

  // Every pair of initial distance and hop count is the one that the TTL stands for.
  ghost predicate Consistent(known: Known) {
    forall k | k in known :: known[k].hc == HopsTravelled(known[k].ttl)
  }

  ghost predicate RowsOk(rows: seq<Entry>, store: map<Word, Info>) {
    forall i | 0 <= i < |rows| :: rows[i].ip in store && rows[i].hc == HopsTravelled(rows[i].ttl)
  }

  // A known /24 is in the store or on its way to it.
  ghost predicate Backed(k: Path, store: map<Word, Info>, outbox: multiset<Announcement>) {
    (exists ip :: ip in store && Key(ip) == k) || (exists a :: a in outbox && Key(a.ip) == k)
  }

  ghost predicate LearnOk(known: Known, store: map<Word, Info>, outbox: multiset<Announcement>,
                          replays: multiset<seq<Entry>>)
  {
    && Consistent(known)
    && (forall ip | ip in store :: store[ip].hc == HopsTravelled(store[ip].ttl))
    && (forall a | a in outbox :: a.info.hc == HopsTravelled(a.info.ttl))
    && (forall k | k in known :: Backed(k, store, outbox))
    && (forall rows | rows in replays :: RowsOk(rows, store))
  }

  // Since the last replay each newly known /24 has been announced once, and nothing else has been.
  ghost predicate AnnouncedOk(known: Known, announced: multiset<Path>, base: set<Path>) {
    && base <= known.Keys
    && forall k :: announced[k] == if k in known && k !in base then 1 else 0
  }

  ghost function KnownTo<N, M>(s: State<N, M>): Known {
    Leaves(s.hcf.published, KEY_BITS)
  }

  ghost predicate TriesOk<N, M>(s: State<N, M>) {
    && Reclaim.Inv(s.hcf) && Reclaim.Inv(s.bogon)
    && (s.hcf.published == map[] || Pruned(s.hcf.published, KEY_BITS))
    && ListOk(s.bogon.published, s.loaded)
  }

  ghost predicate Inv<N, M>(s: State<N, M>) {
    && TriesOk(s)
    && JobsOk(s.jobs, s.hcf.readers, s.bogon.readers)
    && LearnOk(KnownTo(s), s.store, s.outbox, s.replays)
    && AnnouncedOk(KnownTo(s), s.announced, s.base)
  }

  // ---------------------------------------------------------------------------
  // Steps of a packet

  lemma ReaderFacts<N, D>(t: Reclaim.State<N, D>, r: nat)
    requires Reclaim.Inv(t) && r in t.readers
    ensures r < t.born && IsTree(t.readers[r].begun) && Reclaim.OnRoute(t.readers[r])
    ensures Intact(t.heap, t.readers[r].begun)
  {}

  lemma LookFacts<N, D>(t: Reclaim.State<N, D>, r: nat)
    requires Reclaim.Inv(t) && Reclaim.Enabled(t, Reclaim.Look(r))
    ensures var rd, t' := t.readers[r], Reclaim.Apply(t, Reclaim.Look(r));
            && Reclaim.Inv(t') && t'.published == t.published && r in t'.readers
            && rd.depth <= |rd.key| && rd.key[..rd.depth] in rd.begun
            && Read(t, r) == rd.begun[rd.key[..rd.depth]].data
            && t'.readers[r].key == rd.key && t'.readers[r].depth == rd.depth
            && t'.readers[r].begun == rd.begun && t'.readers[r].cursor == rd.cursor
            && Keeps(t.readers, t'.readers, Some(r))
  {
    hide Intact, Reclaim.Inv, IsTree;
    ReaderFacts(t, r);
    Reclaim.CursorCell(t.heap, t.readers[r]);
    Reclaim.Keep(t, Reclaim.Look(r));
  }

  lemma MoveFacts<N, D>(t: Reclaim.State<N, D>, r: nat)
    requires Reclaim.Inv(t) && Reclaim.Enabled(t, Reclaim.Move(r))
    ensures var rd, t' := t.readers[r], Reclaim.Apply(t, Reclaim.Move(r));
            && Reclaim.Inv(t') && t'.published == t.published && r in t'.readers
            && IsTree(rd.begun) && rd.depth < |rd.key|
            && t'.readers[r].key == rd.key && t'.readers[r].depth == rd.depth + 1 && t'.readers[r].begun == rd.begun
            && t'.readers[r].cursor == NodeAt(rd.begun, rd.key[..rd.depth + 1])
            && Keeps(t.readers, t'.readers, Some(r))
  {
    hide Intact, Reclaim.Inv;
    ReaderFacts(t, r);
    Reclaim.MoveOnRoute(t, r);
    Reclaim.Keep(t, Reclaim.Move(r));
  }

  lemma BeginFacts<N, D>(t: Reclaim.State<N, D>, k: Path)
    requires Reclaim.Inv(t)
    ensures var t' := Reclaim.Apply(t, Reclaim.Begin(k));
            && Reclaim.Inv(t') && t'.published == t.published && t.born in t'.readers && t.born !in t.readers
            && t'.readers[t.born] == Reclaim.Reader(k, 0, t.root, [], t.published)
            && Keeps(t.readers, t'.readers, None)
  {
    Reclaim.Keep(t, Reclaim.Begin(k));
  }

  lemma EndFacts<N, D>(t: Reclaim.State<N, D>, r: nat)
    requires Reclaim.Inv(t) && r in t.readers
    ensures Reclaim.Inv(EndReader(t, r)) && EndReader(t, r).published == t.published
    ensures Keeps(t.readers, EndReader(t, r).readers, Some(r))
  {
    Reclaim.Keep(t, Reclaim.End(r));
  }

  lemma NullRootFacts<N, D>(t: Reclaim.State<N, D>)
    requires Reclaim.Inv(t) && t.root.None?
    ensures t.published == map[]
  {
    Reclaim.NullRoot(t);
  }

  // What a step of a packet has to leave behind.
  ghost predicate PacketGood<N, M>(s: State<N, M>, s': State<N, M>) {
    && Reclaim.Inv(s'.hcf) && Reclaim.Inv(s'.bogon)
    && s'.hcf.published == s.hcf.published && s'.bogon.published == s.bogon.published
    && JobsOk(s'.jobs, s'.hcf.readers, s'.bogon.readers)
  }

  lemma KeepsAll<D>(m: map<nat, D>, except: Option<nat>)
    ensures Keeps(m, m, except)
  {}

  lemma KeepsChain<D>(a: map<nat, D>, b: map<nat, D>, c: map<nat, D>, except: Option<nat>)
    requires Keeps(a, b, except) && Keeps(b, c, except)
    ensures Keeps(a, c, except)
  {}

  lemma KeepArrive<N, M>(s: State<N, M>, id: nat, p: Packet)
    requires Inv(s) && id !in s.jobs
    ensures PacketGood(s, PacketApply(s, id, Arrive(p)))
  {
    hide Reclaim.Inv, BogonScanOk, HopScanOk, Blocked;
    KeepsAll(s.hcf.readers, None);
    KeepsAll(s.bogon.readers, None);
    OnePacketMoves(s.jobs, id, Job(p, if p.isIpv4 && p.isTcp then Arrived else Done(false, Ignored)),
                   s.hcf.readers, s.bogon.readers, s.hcf.readers, s.bogon.readers);
  }

  lemma KeepBogonBegin<N, M>(s: State<N, M>, id: nat)
    requires Inv(s) && PacketEnabled(s, id, BogonBegin)
    ensures PacketGood(s, PacketApply(s, id, BogonBegin))
  {
    hide LearnOk, AnnouncedOk, Reclaim.Inv, HopScanOk, Loaded, Covered, PathOf;
    var job, s' := s.jobs[id], PacketApply(s, id, BogonBegin);
    var k := PathOf(job.packet.source, IPV4_BITS);
    assert JobOk(job, s.hcf.readers, s.bogon.readers);
    KeepsAll(s.hcf.readers, None);
    KeepsAll(s.bogon.readers, None);
    if s.bogon.root.None? {
      NullRootFacts(s.bogon);
      EmptyTrieBlocksNothing(s.bogon.published, s.loaded, job.packet.source);
    } else {
      BeginFacts(s.bogon, k);
    }
    OnePacketMoves(s.jobs, id, s'.jobs[id], s.hcf.readers, s.bogon.readers, s'.hcf.readers, s'.bogon.readers);
  }

  lemma EmptyTrieBlocksNothing<M>(v: Version<M, bool>, list: Option<seq<Prefix>>, ip: Word)
    requires ListOk(v, list) && v == map[]
    ensures list.None? && !Blocked(list, ip)
  {}

  lemma KeepBogonLook<N, M>(s: State<N, M>, id: nat)
    requires Inv(s) && PacketEnabled(s, id, BogonLook)
    ensures PacketGood(s, PacketApply(s, id, BogonLook))
  {
    hide LearnOk, AnnouncedOk, Reclaim.Inv, HopScanOk, Loaded, Covered, PathOf, Reclaim.Apply, Reclaim.Enabled,
         Intact, EndReader, Read;
    var job, s' := s.jobs[id], PacketApply(s, id, BogonLook);
    assert JobOk(job, s.hcf.readers, s.bogon.readers);
    var r, list := job.phase.reader, job.phase.list;
    var rd := s.bogon.readers[r];
    LookFacts(s.bogon, r);
    var t := Reclaim.Apply(s.bogon, Reclaim.Look(r));
    KeepsAll(s.hcf.readers, None);
    if Read(s.bogon, r) {
      Marked(rd.begun, list.value, job.packet.source, rd.depth);
      EndFacts(t, r);
      KeepsChain(s.bogon.readers, t.readers, EndReader(t, r).readers, Some(r));
    }
    OnePacketMoves(s.jobs, id, s'.jobs[id], s.hcf.readers, s.bogon.readers, s'.hcf.readers, s'.bogon.readers);
  }

  lemma KeepBogonMove<N, M>(s: State<N, M>, id: nat)
    requires Inv(s) && PacketEnabled(s, id, BogonMove)
    ensures PacketGood(s, PacketApply(s, id, BogonMove))
  {
    hide LearnOk, AnnouncedOk, Reclaim.Inv, HopScanOk, Loaded, Covered, PathOf, Reclaim.Apply, Reclaim.Enabled,
         Intact, EndReader, IsTree;
    var job, s' := s.jobs[id], PacketApply(s, id, BogonMove);
    assert JobOk(job, s.hcf.readers, s.bogon.readers);
    var r, list := job.phase.reader, job.phase.list;
    var rd := s.bogon.readers[r];
    MoveFacts(s.bogon, r);
    var t := Reclaim.Apply(s.bogon, Reclaim.Move(r));
    KeepsAll(s.hcf.readers, None);
    if t.readers[r].cursor.None? {
      NothingFound(rd, job.packet.source, list, rd.depth + 1);
      EndFacts(t, r);
      KeepsChain(s.bogon.readers, t.readers, EndReader(t, r).readers, Some(r));
    }
    OnePacketMoves(s.jobs, id, s'.jobs[id], s.hcf.readers, s.bogon.readers, s'.hcf.readers, s'.bogon.readers);
  }

  lemma NoMarkAnywhere<M>(rd: Reclaim.Reader<M, bool>, ip: Word, list: Option<seq<Prefix>>)
    requires BogonScanOk(rd, ip, true, list) && rd.depth == IPV4_BITS
    ensures !Blocked(list, ip)
  {
    hide PathOf, Loaded, Covered;
    if list.Some? {
      CoveredIsMarked(rd.begun, list.value, ip);
    }
  }

  lemma KeepBogonEnd<N, M>(s: State<N, M>, id: nat)
    requires Inv(s) && PacketEnabled(s, id, BogonEnd)
    ensures PacketGood(s, PacketApply(s, id, BogonEnd))
  {
    hide LearnOk, AnnouncedOk, Reclaim.Inv, HopScanOk, Loaded, Covered, PathOf, EndReader, BogonScanOk;
    var job, s' := s.jobs[id], PacketApply(s, id, BogonEnd);
    assert JobOk(job, s.hcf.readers, s.bogon.readers);
    var r := job.phase.reader;
    NoMarkAnywhere(s.bogon.readers[r], job.packet.source, job.phase.list);
    EndFacts(s.bogon, r);
    KeepsAll(s.hcf.readers, None);
    OnePacketMoves(s.jobs, id, s'.jobs[id], s.hcf.readers, s.bogon.readers, s'.hcf.readers, s'.bogon.readers);
  }

  // But lfw_lookup_bg_tree never gets past its loop without a hit: its result 0 is never returned.
  lemma NeverResultZero<N, M>(s: State<N, M>, id: nat)
    requires Inv(s) && id in s.jobs && s.jobs[id].phase.BogonScan? && s.jobs[id].phase.looked
    ensures s.bogon.readers[s.jobs[id].phase.reader].depth < IPV4_BITS
  {
    hide Reclaim.Inv, HopScanOk, Loaded, Covered, PathOf;
    var job := s.jobs[id];
    assert JobOk(job, s.hcf.readers, s.bogon.readers);
    var rd := s.bogon.readers[job.phase.reader];
    ReaderFacts(s.bogon, job.phase.reader);
    assert rd.key[..IPV4_BITS] == rd.key;
    if rd.key in rd.begun {
      LastIsMarked(rd.begun, job.phase.list.value, job.packet.source);
    }
  }

  lemma KeepReadFlag<N, M>(s: State<N, M>, id: nat)
    requires Inv(s) && PacketEnabled(s, id, ReadFlag)
    ensures PacketGood(s, PacketApply(s, id, ReadFlag))
  {
    hide LearnOk, AnnouncedOk, Reclaim.Inv, HopScanOk, BogonScanOk, Blocked;
    var s' := PacketApply(s, id, ReadFlag);
    assert JobOk(s.jobs[id], s.hcf.readers, s.bogon.readers);
    KeepsAll(s.hcf.readers, None);
    KeepsAll(s.bogon.readers, None);
    OnePacketMoves(s.jobs, id, s'.jobs[id], s.hcf.readers, s.bogon.readers, s'.hcf.readers, s'.bogon.readers);
  }

  lemma KeepHopBegin<N, M>(s: State<N, M>, id: nat)
    requires Inv(s) && PacketEnabled(s, id, HopBegin)
    ensures PacketGood(s, PacketApply(s, id, HopBegin))
  {
    hide LearnOk, AnnouncedOk, Reclaim.Inv, BogonScanOk, Blocked, Key;
    var job, s' := s.jobs[id], PacketApply(s, id, HopBegin);
    assert JobOk(job, s.hcf.readers, s.bogon.readers);
    KeepsAll(s.hcf.readers, None);
    KeepsAll(s.bogon.readers, None);
    if s.hcf.root.None? {
      NullRootFacts(s.hcf);
    } else {
      BeginFacts(s.hcf, Key(job.packet.source));
    }
    OnePacketMoves(s.jobs, id, s'.jobs[id], s.hcf.readers, s.bogon.readers, s'.hcf.readers, s'.bogon.readers);
  }

  lemma UnknownKey<N>(rd: Reclaim.Reader<N, Info>, e: nat)
    requires IsTree(rd.begun) && e <= |rd.key| == KEY_BITS && rd.key[..e] !in rd.begun
    ensures rd.key !in Leaves(rd.begun, KEY_BITS)
  {
    assert rd.key[..KEY_BITS] == rd.key;
    BeyondEnd(rd.begun, rd.key, KEY_BITS, e);
  }

  lemma KeepHopMove<N, M>(s: State<N, M>, id: nat)
    requires Inv(s) && PacketEnabled(s, id, HopMove)
    ensures PacketGood(s, PacketApply(s, id, HopMove))
  {
    hide LearnOk, AnnouncedOk, Reclaim.Inv, BogonScanOk, Blocked, Key, Reclaim.Apply, Reclaim.Enabled, Intact,
         EndReader, IsTree, Leaves;
    var job, s' := s.jobs[id], PacketApply(s, id, HopMove);
    assert JobOk(job, s.hcf.readers, s.bogon.readers);
    var r := job.phase.reader;
    var rd := s.hcf.readers[r];
    MoveFacts(s.hcf, r);
    var t := Reclaim.Apply(s.hcf, Reclaim.Move(r));
    KeepsAll(s.bogon.readers, None);
    if t.readers[r].cursor.None? {
      UnknownKey(rd, rd.depth + 1);
      EndFacts(t, r);
      KeepsChain(s.hcf.readers, t.readers, EndReader(t, r).readers, Some(r));
    } else {
      assert s.jobs[id := job] == s.jobs;
    }
    OnePacketMoves(s.jobs, id, s'.jobs[id], s.hcf.readers, s.bogon.readers, s'.hcf.readers, s'.bogon.readers);
  }

  lemma KeepHopLook<N, M>(s: State<N, M>, id: nat)
    requires Inv(s) && PacketEnabled(s, id, HopLook)
    ensures PacketGood(s, PacketApply(s, id, HopLook))
  {
    hide LearnOk, AnnouncedOk, Reclaim.Inv, BogonScanOk, Blocked, Key, Reclaim.Apply, Reclaim.Enabled, Intact,
         EndReader, IsTree, Read;
    var job, s' := s.jobs[id], PacketApply(s, id, HopLook);
    assert JobOk(job, s.hcf.readers, s.bogon.readers);
    var r := job.phase.reader;
    var rd := s.hcf.readers[r];
    LookFacts(s.hcf, r);
    assert rd.key[..KEY_BITS] == rd.key;
    EndFacts(s.hcf, r);
    KeepsAll(s.bogon.readers, None);
    OnePacketMoves(s.jobs, id, s'.jobs[id], s.hcf.readers, s.bogon.readers, s'.hcf.readers, s'.bogon.readers);
  }

  lemma KeepPacket<N, M>(s: State<N, M>, id: nat, e: PacketEvent)
    requires Inv(s) && PacketEnabled(s, id, e)
    ensures PacketGood(s, PacketApply(s, id, e))
  {
    hide Inv, PacketGood, PacketEnabled, PacketApply;
    match e
    case Arrive(p) => ArriveIsNew(s, id, p); KeepArrive(s, id, p);
    case BogonBegin => KeepBogonBegin(s, id);
    case BogonLook => KeepBogonLook(s, id);
    case BogonMove => KeepBogonMove(s, id);
    case BogonEnd => KeepBogonEnd(s, id);
    case ReadFlag => KeepReadFlag(s, id);
    case HopBegin => KeepHopBegin(s, id);
    case HopMove => KeepHopMove(s, id);
    case HopLook => KeepHopLook(s, id);
  }

  lemma ArriveIsNew<N, M>(s: State<N, M>, id: nat, p: Packet)
    requires PacketEnabled(s, id, Arrive(p))
    ensures id !in s.jobs
  {}

  ghost predicate SameRest<N, M>(s: State<N, M>, s': State<N, M>) {
    && s'.attack == s.attack && s'.hooks == s.hooks && s'.tasks == s.tasks && s'.outbox == s.outbox
    && s'.store == s.store && s'.replays == s.replays && s'.loaded == s.loaded
    && s'.announced == s.announced && s'.base == s.base
  }

  lemma SetPhaseLeavesRest<N, M>(s: State<N, M>, id: nat)
    requires id in s.jobs
    ensures forall phase :: SameRest(s, SetPhase(s, id, phase))
  {}

  // A packet touches nothing but its own lookups.
  lemma PacketLeavesRest<N, M>(s: State<N, M>, id: nat, e: PacketEvent)
    requires PacketEnabled(s, id, e)
    ensures SameRest(s, PacketApply(s, id, e))
  {
    hide Reclaim.Apply, Reclaim.Enabled, EndReader, Read, Leaves, SetPhase, Key, PathOf, Judge;
    if id in s.jobs {
      SetPhaseLeavesRest(s, id);
    }
  }

  // ---------------------------------------------------------------------------
  // Steps of the writers

  lemma WriterLeavesReaders<N, D>(t: Reclaim.State<N, D>, e: Reclaim.Event<N, D>)
    requires Reclaim.Enabled(t, e) && (IsBackground(e) || e.Publish? || e.Swap?)
    ensures Reclaim.Apply(t, e).readers == t.readers
    ensures IsBackground(e) ==> Reclaim.Apply(t, e).published == t.published
  {}

  lemma PublishUpdates<N>(t: Reclaim.State<N, Info>, k: Path, leaf: Info, names: seq<N>)
    requires |k| == KEY_BITS && Pruned(t.published, KEY_BITS) && PrefixClosed(t.published)
    requires Reclaim.Enabled(t, Reclaim.Publish(k, leaf, BLANK, names))
    ensures var w := Reclaim.Apply(t, Reclaim.Publish(k, leaf, BLANK, names)).published;
            Leaves(w, KEY_BITS) == Leaves(t.published, KEY_BITS)[k := leaf] && Pruned(w, KEY_BITS)
  {
    hide Pruned, PathCopy, PublishedHeap, Visited;
    PathCopyLeaves(t.published, k, leaf, BLANK, names);
    PathCopyPruned(t.published, k, leaf, BLANK, names);
  }

  // hcf_register_ip_work: the key is learned, and announced exactly if it was not known.
  lemma WorkUpdates<N, M>(s: State<N, M>, t: Sighting, names: seq<N>)
    requires Inv(s) && Enabled(s, Work(t, names)) && s.hcf.root.Some?
    ensures KnownTo(Worked(s, t, names)) == KnownTo(s)[Key(t.ip) := Learned(t.ttl)]
    ensures Walk(s.hcf.heap, s.hcf.root, Key(t.ip), KEY_BITS).None? <==> Key(t.ip) !in KnownTo(s)
    ensures Pruned(Worked(s, t, names).hcf.published, KEY_BITS)
    ensures Reclaim.Inv(Worked(s, t, names).hcf) && Worked(s, t, names).hcf.readers == s.hcf.readers
  {
    hide Key, Walk, Pruned, Leaves, JobsOk, LearnOk, AnnouncedOk, Reclaim.Inv, ListOk, Reclaim.Apply,
         Reclaim.Enabled, Learned, PrefixClosed;
    RootFacts(s.hcf);
    Reclaim.Keep(s.hcf, Publication(t, names));
    WriterLeavesReaders(s.hcf, Publication(t, names));
    PublishUpdates(s.hcf, Key(t.ip), Learned(t.ttl), names);
    WalkEnds(s.hcf, Key(t.ip));
  }

  // The pointers lead to the end of the path exactly if the key is known.
  lemma WalkEnds<N>(t: Reclaim.State<N, Info>, k: Path)
    requires Reclaim.Inv(t) && |k| == KEY_BITS
    ensures Walk(t.heap, t.root, k, KEY_BITS).None? <==> k !in Leaves(t.published, KEY_BITS)
  {
    hide Intact;
    assert k[..KEY_BITS] == k;
    WalkFollowsRoute(t.heap, t.published, k, KEY_BITS);
  }

  lemma RootFacts<N, D>(t: Reclaim.State<N, D>)
    requires Reclaim.Inv(t)
    ensures PrefixClosed(t.published) && (t.root.Some? ==> t.published != map[])
  {}

  lemma LearnAfterWork(known: Known, t: Sighting, store: map<Word, Info>, outbox: multiset<Announcement>,
                       replays: multiset<seq<Entry>>)
    requires LearnOk(known, store, outbox, replays)
    ensures Key(t.ip) in known ==> LearnOk(known[Key(t.ip) := Learned(t.ttl)], store, outbox, replays)
    ensures LearnOk(known[Key(t.ip) := Learned(t.ttl)], store,
                    outbox + multiset{Announcement(t.ip, Learned(t.ttl))}, replays)
  {}

  lemma LearnAfterDelivery(known: Known, store: map<Word, Info>, outbox: multiset<Announcement>,
                           replays: multiset<seq<Entry>>, a: Announcement)
    requires LearnOk(known, store, outbox, replays) && a in outbox
    ensures LearnOk(known, if a.ip in store then store else store[a.ip := a.info], outbox - multiset{a}, replays)
  {}

  // Storing one announcement, whether it is inserted or ignored, loses no known /24.
  lemma DeliveryKeepsLearning<N, M>(s: State<N, M>, a: Announcement)
    requires LearnOk(KnownTo(s), s.store, s.outbox, s.replays) && Enabled(s, Deliver(a))
    ensures var s' := Apply(s, Deliver(a));
            KnownTo(s') == KnownTo(s) && LearnOk(KnownTo(s'), s'.store, s'.outbox, s'.replays)
  {
    hide LearnOk, Leaves;
    LearnAfterDelivery(KnownTo(s), s.store, s.outbox, s.replays, a);
  }

  lemma RowsOfStore(rows: seq<Entry>, store: map<Word, Info>)
    requires ListsStore(rows, store) && forall ip | ip in store :: store[ip].hc == HopsTravelled(store[ip].ttl)
    ensures RowsOk(rows, store)
  {}

  lemma LearnAfterReplay(rows: seq<Entry>, store: map<Word, Info>, outbox: multiset<Announcement>,
                         replays: multiset<seq<Entry>>)
    requires RowsOk(rows, store) && forall ip | ip in store :: store[ip].hc == HopsTravelled(store[ip].ttl)
    requires forall a | a in outbox :: a.info.hc == HopsTravelled(a.info.ttl)
    requires forall r | r in replays :: RowsOk(r, store)
    ensures LearnOk(Replayed(rows), store, outbox, replays - multiset{rows})
  {
    hide Key, Replayed;
    forall k | k in Replayed(rows)
      ensures Backed(k, store, outbox) && Replayed(rows)[k].hc == HopsTravelled(Replayed(rows)[k].ttl)
    {
      ReplayedIsLast(rows, k);
      var i :| 0 <= i < |rows| && Key(rows[i].ip) == k && Replayed(rows)[k] == Info(rows[i].ttl, rows[i].hc)
               && forall j | i < j < |rows| :: Key(rows[j].ip) != k;
      assert rows[i].ip in store;
    }
  }

  lemma AnnouncedAfterWork(known: Known, announced: multiset<Path>, base: set<Path>, k: Path, info: Info)
    requires AnnouncedOk(known, announced, base)
    ensures k in known ==> AnnouncedOk(known[k := info], announced, base)
    ensures k !in known ==> AnnouncedOk(known[k := info], announced + multiset{k}, base)
  {}

  // ---------------------------------------------------------------------------
  // Every step keeps the invariant

  lemma StepPacket<N, M>(s: State<N, M>, id: nat, e: PacketEvent)
    requires Inv(s) && PacketEnabled(s, id, e)
    ensures Inv(PacketApply(s, id, e))
  {
    hide Reclaim.Inv, ListOk, Pruned, JobsOk, LearnOk, AnnouncedOk, PacketApply, PacketEnabled, Leaves;
    KeepPacket(s, id, e);
    PacketLeavesRest(s, id, e);
  }

  lemma StepLearn<N, M>(s: State<N, M>, e: Event<N, M>)
    requires Inv(s) && Enabled(s, e) && (e.LearnRead? || e.LearnEnqueue? || e.SetAttack? || e.Deliver? || e.StoreRead?)
    ensures Inv(Apply(s, e))
  {
    hide Reclaim.Inv, ListOk, Pruned, JobsOk, AnnouncedOk, Leaves;
    match e
    case Deliver(a) => DeliveryKeepsLearning(s, a);
    case StoreRead(rows) => RowsOfStore(rows, s.store);
    case _ =>
  }

  lemma StepWork<N, M>(s: State<N, M>, t: Sighting, names: seq<N>)
    requires Inv(s) && Enabled(s, Work(t, names))
    ensures Inv(Apply(s, Work(t, names)))
  {
    hide Reclaim.Inv, ListOk, Pruned, JobsOk, LearnOk, AnnouncedOk, Leaves, Key, Walk, Learned;
    if s.hcf.root.Some? {
      WorkUpdates(s, t, names);
      LearnAfterWork(KnownTo(s), t, s.store, s.outbox, s.replays);
      AnnouncedAfterWork(KnownTo(s), s.announced, s.base, Key(t.ip), Learned(t.ttl));
    }
  }

  lemma StepReplay<N, M>(s: State<N, M>, rows: seq<Entry>, j: nat, t: Version<N, Info>)
    requires Inv(s) && Enabled(s, Replay(rows, j, t))
    ensures Inv(Apply(s, Replay(rows, j, t)))
  {
    hide Reclaim.Inv, ListOk, Pruned, JobsOk, Leaves, Replayed, RowsOk;
    Reclaim.Keep(s.hcf, Reclaim.Swap(j, t));
    WriterLeavesReaders(s.hcf, Reclaim.Swap(j, t));
    assert RowsOk(rows, s.store);
    LearnAfterReplay(rows, s.store, s.outbox, s.replays);
  }

  lemma StepLoad<N, M>(s: State<N, M>, list: seq<Prefix>, j: nat, t: Version<M, bool>)
    requires Inv(s) && Enabled(s, LoadBogon(list, j, t))
    ensures Inv(Apply(s, LoadBogon(list, j, t)))
  {
    hide Reclaim.Inv, Pruned, JobsOk, LearnOk, AnnouncedOk, Leaves, Loaded;
    Reclaim.Keep(s.bogon, Reclaim.Swap(j, t));
    WriterLeavesReaders(s.bogon, Reclaim.Swap(j, t));
  }

  lemma StepBackground<N, M>(s: State<N, M>, e: Event<N, M>)
    requires Inv(s) && Enabled(s, e) && (e.HcfBackground? || e.BogonBackground?)
    ensures Inv(Apply(s, e))
  {
    hide Reclaim.Inv, ListOk, Pruned, JobsOk, LearnOk, AnnouncedOk, Leaves, Reclaim.Apply, Reclaim.Enabled;
    match e
    case HcfBackground(b) =>
      Reclaim.Keep(s.hcf, b);
      WriterLeavesReaders(s.hcf, b);
    case BogonBackground(b) =>
      Reclaim.Keep(s.bogon, b);
      WriterLeavesReaders(s.bogon, b);
  }

  lemma Step<N, M>(s: State<N, M>, e: Event<N, M>)
    requires Inv(s) && Enabled(s, e)
    ensures Inv(Apply(s, e))
  {
    hide Inv, PacketApply, PacketEnabled, Worked, Reclaim.Apply, Reclaim.Enabled;
    match e
    case OfPacket(id, step) => StepPacket(s, id, step);
    case Work(t, names) => StepWork(s, t, names);
    case Replay(rows, j, t) => StepReplay(s, rows, j, t);
    case LoadBogon(list, j, t) => StepLoad(s, list, j, t);
    case HcfBackground(_) => StepBackground(s, e);
    case BogonBackground(_) => StepBackground(s, e);
    case _ => StepLearn(s, e);
  }

  // The state after module load, given the address of the root node of the hop-count trie.
  ghost function Booted<N, M>(root: N): State<N, M> {
    var v: Version<N, Info> := map[[] := Slot(root, BLANK)];
    State(Reclaim.State(map[root := Cell(None, None, BLANK)], Some(root), map[], 0, {}, map[], map[], v),
          Reclaim.State(map[], None, map[], 0, {}, map[], map[], map[]),
          false, map[], multiset{}, multiset{}, multiset{}, map[], multiset{}, None, multiset{}, {})
  }

  lemma BootedIsInit<N, M>(root: N)
    ensures Init(Booted<N, M>(root))
  {
    var v: Version<N, Info> := map[[] := Slot(root, BLANK)];
    assert v.Keys == {[]};
    assert CellsOf(v) == map[root := Cell(None, None, BLANK)];
    var none: Version<M, bool> := map[];
    assert CellsOf(none) == map[];
  }

  lemma OnlyRoot<N>(v: Version<N, Info>)
    requires v.Keys == {[]}
    ensures Leaves(v, KEY_BITS) == map[] && Pruned(v, KEY_BITS)
  {}

  lemma InitOk<N, M>(s: State<N, M>)
    requires Init(s)
    ensures Inv(s)
  {
    hide Reclaim.Inv, Reclaim.Init, Pruned;
    Reclaim.InitInv(s.hcf);
    Reclaim.InitInv(s.bogon);
    OnlyRoot(s.hcf.published);
  }

  ghost predicate Run<N, M>(states: seq<State<N, M>>, events: seq<Event<N, M>>) {
    && |states| == |events| + 1 && Init(states[0])
    && forall i | 0 <= i < |events| :: Enabled(states[i], events[i]) && states[i + 1] == Apply(states[i], events[i])
  }

  lemma {:induction false} RunOk<N, M>(states: seq<State<N, M>>, events: seq<Event<N, M>>, i: nat)
    requires Run(states, events) && i < |states|
    ensures Inv(states[i])
  {
    hide Inv, Enabled, Apply, Init;
    if i == 0 {
      InitOk(states[0]);
    } else {
      RunOk(states, events, i - 1);
      Step(states[i - 1], events[i - 1]);
    }
  }
}
