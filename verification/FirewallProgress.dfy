// No packet ever waits: the filter hook has a next step until it has its verdict, and each step brings it nearer.
module FirewallProgress {
  import opened Bits
  import opened Trie
  import opened Rcu
  import opened Bogon
  import opened HopCount
  import opened Firewall
  import opened FirewallSafety
  import FirewallRuns
  import Reclaim

  lemma CursorIsAllocated<N, D>(t: Reclaim.State<N, D>, r: nat)
    requires Reclaim.Inv(t) && r in t.readers && t.readers[r].cursor.Some?
    ensures Reclaim.Enabled(t, Reclaim.Look(r)) && t.readers[r].depth <= |t.readers[r].key|
    ensures t.readers[r].depth < |t.readers[r].key| ==> Reclaim.Enabled(t, Reclaim.Move(r))
  {
    hide Reclaim.Inv;
    Reclaim.ReadersNeverDangle(t, r);
    ReaderFacts(t, r);
  }

  // The nodes that a lookup asks for are always allocated, so the packet always has a step to take.
  lemma PacketNeverStuck<N, M>(s: State<N, M>, id: nat) returns (e: PacketEvent)
    requires Inv(s) && id in s.jobs && !s.jobs[id].phase.Done?
    ensures !e.Arrive? && PacketEnabled(s, id, e)
  {
    hide Reclaim.Inv, Reclaim.Enabled, BogonScanOk, HopScanOk, ListOk, LearnOk, AnnouncedOk, Blocked;
    var job := s.jobs[id];
    assert JobOk(job, s.hcf.readers, s.bogon.readers);
    match job.phase
    case Arrived => e := BogonBegin;
    case BogonScan(r, looked, list) =>
      BogonCursor(s.bogon, r, job.packet.source, looked, list);
      if looked {
        NeverResultZero(s, id);
        e := BogonMove;
      } else {
        e := BogonLook;
      }
    case NotBogon(_) => e := ReadFlag;
    case UnderAttack(_) => e := HopBegin;
    case HopScan(r, _, known) =>
      HopCursor(s.hcf, r, job.packet.source, known);
      e := if s.hcf.readers[r].depth < KEY_BITS then HopMove else HopLook;
  }

  lemma BogonCursor<M>(t: Reclaim.State<M, bool>, r: nat, ip: Word, looked: bool, list: Option<seq<Prefix>>)
    requires Reclaim.Inv(t) && r in t.readers && BogonScanOk(t.readers[r], ip, looked, list)
    ensures Reclaim.Enabled(t, Reclaim.Look(r)) && t.readers[r].depth <= IPV4_BITS
    ensures t.readers[r].depth < IPV4_BITS ==> Reclaim.Enabled(t, Reclaim.Move(r))
  {
    hide Reclaim.Inv, Reclaim.Enabled, ListOk;
    CursorIsAllocated(t, r);
  }

  lemma HopCursor<N>(t: Reclaim.State<N, Info>, r: nat, ip: Word, known: Known)
    requires Reclaim.Inv(t) && r in t.readers && HopScanOk(t.readers[r], ip, known)
    ensures Reclaim.Enabled(t, Reclaim.Look(r)) && t.readers[r].depth <= KEY_BITS
    ensures t.readers[r].depth < KEY_BITS ==> Reclaim.Enabled(t, Reclaim.Move(r))
  {
    hide Reclaim.Inv, Reclaim.Enabled, Leaves;
    CursorIsAllocated(t, r);
  }

  // ---------------------------------------------------------------------------
  // How many steps a packet has left at most

  ghost function DepthOf<N, D>(readers: map<nat, Reclaim.Reader<N, D>>, r: nat): nat {
    if r in readers then readers[r].depth else 0
  }

  ghost function Left(limit: nat, depth: nat): nat {
    if depth <= limit then limit - depth else 0
  }

  const MOST_STEPS: nat := 96

  ghost function StepsLeft<N, M>(s: State<N, M>, phase: Phase): (n: nat)
    ensures n <= MOST_STEPS && (n == 0 <==> phase.Done?)
  {
    match phase
    case Arrived => MOST_STEPS
    case BogonScan(r, looked, _) =>
      29 + 2 * Left(IPV4_BITS, DepthOf(s.bogon.readers, r)) + if looked then 0 else 1
    case NotBogon(_) => 28
    case UnderAttack(_) => 27
    case HopScan(r, _, _) => 1 + Left(KEY_BITS, DepthOf(s.hcf.readers, r))
    case Done(_, _) => 0
  }

  lemma BogonBeginCounts<N, M>(s: State<N, M>, id: nat)
    requires PacketEnabled(s, id, BogonBegin)
    ensures var s' := PacketApply(s, id, BogonBegin);
            id in s.jobs && id in s'.jobs && StepsLeft(s', s'.jobs[id].phase) < StepsLeft(s, s.jobs[id].phase)
  {
    hide PathOf;
  }

  lemma BogonLookCounts<N, M>(s: State<N, M>, id: nat)
    requires PacketEnabled(s, id, BogonLook)
    ensures var s' := PacketApply(s, id, BogonLook);
            id in s.jobs && id in s'.jobs && StepsLeft(s', s'.jobs[id].phase) < StepsLeft(s, s.jobs[id].phase)
  {
    hide EndReader, Read;
  }

  lemma ShortStepCounts<N, M>(s: State<N, M>, id: nat, e: PacketEvent)
    requires PacketEnabled(s, id, e) && (e.BogonEnd? || e.ReadFlag?)
    ensures var s' := PacketApply(s, id, e);
            id in s.jobs && id in s'.jobs && StepsLeft(s', s'.jobs[id].phase) < StepsLeft(s, s.jobs[id].phase)
  {
    hide EndReader;
  }

  lemma BogonMoveCounts<N, M>(s: State<N, M>, id: nat)
    requires Inv(s) && PacketEnabled(s, id, BogonMove)
    ensures var s' := PacketApply(s, id, BogonMove);
            id in s.jobs && id in s'.jobs && StepsLeft(s', s'.jobs[id].phase) < StepsLeft(s, s.jobs[id].phase)
  {
    hide EndReader, Inv, Reclaim.Apply, Reclaim.Enabled;
    MoveDeepens(s.bogon, s.jobs[id].phase.reader);
    KeyLength(s, id);
  }

  lemma MoveDeepens<N, D>(t: Reclaim.State<N, D>, r: nat)
    requires Reclaim.Enabled(t, Reclaim.Move(r))
    ensures var t' := Reclaim.Apply(t, Reclaim.Move(r));
            && r in t.readers && r in t'.readers && t'.readers[r].depth == t.readers[r].depth + 1
            && t.readers[r].depth < |t.readers[r].key|
  {}

  lemma KeyLength<N, M>(s: State<N, M>, id: nat)
    requires Inv(s) && id in s.jobs
    ensures var phase := s.jobs[id].phase;
            && (phase.BogonScan? ==>
                  phase.reader in s.bogon.readers && |s.bogon.readers[phase.reader].key| == IPV4_BITS)
            && (phase.HopScan? ==> phase.reader in s.hcf.readers && |s.hcf.readers[phase.reader].key| == KEY_BITS)
  {
    hide Reclaim.Inv, ListOk, LearnOk, AnnouncedOk, Blocked, Leaves;
    assert JobOk(s.jobs[id], s.hcf.readers, s.bogon.readers);
  }

  lemma HopBeginCounts<N, M>(s: State<N, M>, id: nat)
    requires PacketEnabled(s, id, HopBegin)
    ensures var s' := PacketApply(s, id, HopBegin);
            id in s.jobs && id in s'.jobs && StepsLeft(s', s'.jobs[id].phase) < StepsLeft(s, s.jobs[id].phase)
  {
    hide EndReader, Read, Key, Leaves;
  }

  lemma HopMoveCounts<N, M>(s: State<N, M>, id: nat)
    requires Inv(s) && PacketEnabled(s, id, HopMove)
    ensures var s' := PacketApply(s, id, HopMove);
            id in s.jobs && id in s'.jobs && StepsLeft(s', s'.jobs[id].phase) < StepsLeft(s, s.jobs[id].phase)
  {
    hide EndReader, Inv, Reclaim.Apply, Reclaim.Enabled;
    MoveDeepens(s.hcf, s.jobs[id].phase.reader);
    KeyLength(s, id);
  }

  lemma HopLookCounts<N, M>(s: State<N, M>, id: nat)
    requires PacketEnabled(s, id, HopLook)
    ensures var s' := PacketApply(s, id, HopLook);
            id in s.jobs && id in s'.jobs && StepsLeft(s', s'.jobs[id].phase) < StepsLeft(s, s.jobs[id].phase)
  {
    hide EndReader, Read, Judge;
  }

  // Every step of a packet brings its verdict nearer.
  lemma PacketStepCounts<N, M>(s: State<N, M>, id: nat, e: PacketEvent)
    requires Inv(s) && PacketEnabled(s, id, e) && !e.Arrive?
    ensures var s' := PacketApply(s, id, e);
            id in s.jobs && id in s'.jobs && StepsLeft(s', s'.jobs[id].phase) < StepsLeft(s, s.jobs[id].phase)
  {
    hide Inv, PacketEnabled, PacketApply, StepsLeft;
    match e
    case BogonMove => BogonMoveCounts(s, id);
    case HopBegin => HopBeginCounts(s, id);
    case HopMove => HopMoveCounts(s, id);
    case HopLook => HopLookCounts(s, id);
    case BogonBegin => BogonBeginCounts(s, id);
    case BogonLook => BogonLookCounts(s, id);
    case _ => ShortStepCounts(s, id, e);
  }

  // ---------------------------------------------------------------------------
  // Nothing else sets a packet back

  // A step of one packet touches no other lookup.
  ghost predicate LookupsKept<N, M>(s: State<N, M>, s': State<N, M>, id: nat) {
    && Keeps(s.hcf.readers, s'.hcf.readers, if id in s.jobs then HopReader(s.jobs[id]) else None)
    && Keeps(s.bogon.readers, s'.bogon.readers, if id in s.jobs then BogonReader(s.jobs[id]) else None)
  }

  // And no other packet.
  ghost predicate Alone<N, M>(s: State<N, M>, s': State<N, M>, id: nat) {
    LookupsKept(s, s', id) && forall i | i in s.jobs && i != id :: i in s'.jobs && s'.jobs[i] == s.jobs[i]
  }

  lemma LookupsKeptShort<N, M>(s: State<N, M>, id: nat, e: PacketEvent)
    requires PacketEnabled(s, id, e) && (e.Arrive? || e.ReadFlag?)
    ensures LookupsKept(s, PacketApply(s, id, e), id)
  {}

  lemma MoveAndEndKeep<N, D>(t: Reclaim.State<N, D>, r: nat)
    requires Reclaim.Enabled(t, Reclaim.Move(r))
    ensures var t' := Reclaim.Apply(t, Reclaim.Move(r));
            && Keeps(t.readers, t'.readers, Some(r))
            && r in t'.readers && Keeps(t.readers, EndReader(t', r).readers, Some(r))
  {}

  lemma LookAndEndKeep<N, D>(t: Reclaim.State<N, D>, r: nat)
    requires Reclaim.Enabled(t, Reclaim.Look(r))
    ensures var t' := Reclaim.Apply(t, Reclaim.Look(r));
            && Keeps(t.readers, t'.readers, Some(r))
            && r in t'.readers && Keeps(t.readers, EndReader(t', r).readers, Some(r))
  {}

  lemma BothTries<N, M>(s: State<N, M>)
    requires Inv(s)
    ensures Reclaim.Inv(s.hcf) && Reclaim.Inv(s.bogon)
  {
    hide Reclaim.Inv;
  }

  lemma LookupsKeptBogonBegin<N, M>(s: State<N, M>, id: nat)
    requires Inv(s) && PacketEnabled(s, id, BogonBegin)
    ensures LookupsKept(s, PacketApply(s, id, BogonBegin), id)
  {
    hide Reclaim.Inv, JobsOk, LearnOk, AnnouncedOk, ListOk, Reclaim.Apply, PathOf;
    BeginFacts(s.bogon, PathOf(s.jobs[id].packet.source, IPV4_BITS));
  }

  lemma LookupsKeptHopBegin<N, M>(s: State<N, M>, id: nat)
    requires Inv(s) && PacketEnabled(s, id, HopBegin)
    ensures LookupsKept(s, PacketApply(s, id, HopBegin), id)
  {
    hide Reclaim.Inv, TriesOk, JobsOk, LearnOk, AnnouncedOk, Reclaim.Apply, Key, Leaves, KnownTo;
    BothTries(s);
    BeginFacts(s.hcf, Key(s.jobs[id].packet.source));
  }

  lemma LookupsKeptBogonLook<N, M>(s: State<N, M>, id: nat)
    requires PacketEnabled(s, id, BogonLook)
    ensures LookupsKept(s, PacketApply(s, id, BogonLook), id)
  {
    hide Reclaim.Apply, Reclaim.Enabled, EndReader, Read, Keeps, Leaves;
    LookAndEndKeep(s.bogon, s.jobs[id].phase.reader);
    KeepsAll(s.hcf.readers, None);
  }

  lemma LookupsKeptBogonMove<N, M>(s: State<N, M>, id: nat)
    requires PacketEnabled(s, id, BogonMove)
    ensures LookupsKept(s, PacketApply(s, id, BogonMove), id)
  {
    hide Reclaim.Apply, Reclaim.Enabled, EndReader, Keeps, Leaves;
    MoveAndEndKeep(s.bogon, s.jobs[id].phase.reader);
    KeepsAll(s.hcf.readers, None);
  }

  lemma LookupsKeptBogonEnd<N, M>(s: State<N, M>, id: nat)
    requires PacketEnabled(s, id, BogonEnd)
    ensures LookupsKept(s, PacketApply(s, id, BogonEnd), id)
  {
    hide Read, Judge;
  }

  lemma LookupsKeptHopMove<N, M>(s: State<N, M>, id: nat)
    requires PacketEnabled(s, id, HopMove)
    ensures LookupsKept(s, PacketApply(s, id, HopMove), id)
  {
    hide Reclaim.Apply, Reclaim.Enabled, EndReader, Keeps, Leaves;
    MoveAndEndKeep(s.hcf, s.jobs[id].phase.reader);
    KeepsAll(s.bogon.readers, None);
  }

  lemma LookupsKeptHopLook<N, M>(s: State<N, M>, id: nat)
    requires PacketEnabled(s, id, HopLook)
    ensures LookupsKept(s, PacketApply(s, id, HopLook), id)
  {
    hide Read, Judge;
  }

  lemma PacketKeepsLookups<N, M>(s: State<N, M>, id: nat, e: PacketEvent)
    requires Inv(s) && PacketEnabled(s, id, e)
    ensures LookupsKept(s, PacketApply(s, id, e), id)
  {
    hide Inv, PacketEnabled, PacketApply, LookupsKept;
    match e
    case BogonBegin => LookupsKeptBogonBegin(s, id);
    case BogonLook => LookupsKeptBogonLook(s, id);
    case BogonMove => LookupsKeptBogonMove(s, id);
    case BogonEnd => LookupsKeptBogonEnd(s, id);
    case HopBegin => LookupsKeptHopBegin(s, id);
    case HopMove => LookupsKeptHopMove(s, id);
    case HopLook => LookupsKeptHopLook(s, id);
    case _ => LookupsKeptShort(s, id, e);
  }

  lemma PacketIsAlone<N, M>(s: State<N, M>, id: nat, e: PacketEvent)
    requires Inv(s) && PacketEnabled(s, id, e)
    ensures Alone(s, PacketApply(s, id, e), id)
  {
    hide Inv, PacketEnabled, PacketApply, LookupsKept, FirewallRuns.PhaseStep;
    PacketKeepsLookups(s, id, e);
    if e.Arrive? {
      FirewallRuns.ArrivalsKeepJobs(s, id, e.packet);
    } else {
      FirewallRuns.PacketMoves(s, id, e);
    }
  }

  lemma OtherPacketsLeaveIt<N, M>(s: State<N, M>, other: nat, e: PacketEvent, id: nat)
    requires Inv(s) && PacketEnabled(s, other, e) && id in s.jobs && id != other
    ensures var s' := PacketApply(s, other, e);
            id in s'.jobs && s'.jobs[id] == s.jobs[id]
            && StepsLeft(s', s.jobs[id].phase) == StepsLeft(s, s.jobs[id].phase)
  {
    hide PacketApply, PacketEnabled, Reclaim.Inv, LearnOk, AnnouncedOk, ListOk, JobOk;
    PacketIsAlone(s, other, e);
    KeyLength(s, id);
  }

  lemma WorkedLeavesReaders<N, M>(s: State<N, M>, t: Sighting, names: seq<N>)
    requires Enabled(s, Work(t, names))
    ensures Worked(s, t, names).hcf.readers == s.hcf.readers && Worked(s, t, names).bogon == s.bogon
  {
    hide Reclaim.Apply, Reclaim.Enabled, Key, Walk, Learned, Publication;
    if s.hcf.root.Some? {
      PublishLeavesReaders(s.hcf, t, names);
    }
  }

  lemma WorkLeavesReaders<N, M>(s: State<N, M>, t: Sighting, names: seq<N>)
    requires Enabled(s, Work(t, names))
    ensures var s' := Apply(s, Work(t, names));
            s'.hcf.readers == s.hcf.readers && s'.bogon.readers == s.bogon.readers
  {
    hide Enabled, Worked;
    WorkedLeavesReaders(s, t, names);
  }

  lemma PublishLeavesReaders<N>(h: Reclaim.State<N, Info>, t: Sighting, names: seq<N>)
    requires Reclaim.Enabled(h, Publication(t, names))
    ensures Reclaim.Apply(h, Publication(t, names)).readers == h.readers
  {
    hide Key, Learned;
  }

  lemma SwapsLeaveReaders<N, M>(s: State<N, M>, e: Event<N, M>)
    requires Enabled(s, e) && (e.Replay? || e.LoadBogon?)
    ensures Apply(s, e).hcf.readers == s.hcf.readers && Apply(s, e).bogon.readers == s.bogon.readers
  {
    hide Reclaim.Apply, Reclaim.Enabled, Leaves, Loaded, Replayed, Pruned;
    if e.Replay? {
      WriterLeavesReaders(s.hcf, Reclaim.Swap(e.job, e.tree));
    } else {
      WriterLeavesReaders(s.bogon, Reclaim.Swap(e.job, e.loadedTree));
    }
  }

  lemma BackgroundLeavesReaders<N, M>(s: State<N, M>, e: Event<N, M>)
    requires Enabled(s, e) && (e.HcfBackground? || e.BogonBackground?)
    ensures Apply(s, e).hcf.readers == s.hcf.readers && Apply(s, e).bogon.readers == s.bogon.readers
  {
    hide Reclaim.Apply, Reclaim.Enabled;
    if e.HcfBackground? {
      WriterLeavesReaders(s.hcf, e.hcfEvent);
    } else {
      WriterLeavesReaders(s.bogon, e.bogonEvent);
    }
  }

  lemma WritersLeaveReaders<N, M>(s: State<N, M>, e: Event<N, M>)
    requires Enabled(s, e) && !e.OfPacket?
    ensures Apply(s, e).hcf.readers == s.hcf.readers && Apply(s, e).bogon.readers == s.bogon.readers
  {
    hide Enabled, Apply;
    match e
    case Work(t, names) => WorkLeavesReaders(s, t, names);
    case Replay(_, _, _) => SwapsLeaveReaders(s, e);
    case LoadBogon(_, _, _) => SwapsLeaveReaders(s, e);
    case HcfBackground(_) => BackgroundLeavesReaders(s, e);
    case BogonBackground(_) => BackgroundLeavesReaders(s, e);
    case _ => FirewallRuns.LearningKeepsJobs(s, e);
  }

  ghost predicate IsStepOf<N, M>(e: Event<N, M>, id: nat) {
    e.OfPacket? && e.id == id
  }

  lemma OneStep<N, M>(s: State<N, M>, e: Event<N, M>, id: nat)
    requires Inv(s) && Enabled(s, e) && id in s.jobs
    ensures var s' := Apply(s, e);
            && id in s'.jobs
            && StepsLeft(s', s'.jobs[id].phase) + (if IsStepOf(e, id) then 1 else 0) <= StepsLeft(s, s.jobs[id].phase)
  {
    hide Inv, PacketApply, PacketEnabled, StepsLeft, Worked;
    if e.OfPacket? {
      if e.id == id {
        FirewallRuns.ArrivesOnce(s, id, e.step);
        PacketStepCounts(s, id, e.step);
      } else {
        OtherPacketsLeaveIt(s, e.id, e.step, id);
      }
    } else {
      FirewallRuns.OthersKeepJobs(s, e);
      WritersLeaveReaders(s, e);
      SameReadersSameCount(s, Apply(s, e), s.jobs[id].phase);
    }
  }

  lemma SameReadersSameCount<N, M>(s: State<N, M>, s': State<N, M>, phase: Phase)
    requires s'.hcf.readers == s.hcf.readers && s'.bogon.readers == s.bogon.readers
    ensures StepsLeft(s', phase) == StepsLeft(s, phase)
  {}

  ghost function StepsTaken<N, M>(events: seq<Event<N, M>>, id: nat): nat {
    if events == [] then 0
    else
      var n := |events| - 1;
      StepsTaken(events[..n], id) + if IsStepOf(events[n], id) then 1 else 0
  }

  // The filter hook is wait-free: in every run, whatever publications, replays, loads, reclamation and other
  // packets come in between, a packet has its verdict after at most MOST_STEPS steps of its own.
  lemma {:induction false} VerdictWithin<N, M>(states: seq<State<N, M>>, events: seq<Event<N, M>>, m: nat, j: nat,
                                               id: nat, p: Packet)
    requires Run(states, events) && m < j < |states| && events[m] == OfPacket(id, Arrive(p))
    ensures id in states[j].jobs
    ensures StepsTaken(events[m + 1..j], id) + StepsLeft(states[j], states[j].jobs[id].phase) <= MOST_STEPS
    decreases j
  {
    hide Inv, Enabled, Apply, Init, StepsLeft;
    if j == m + 1 {
      FirewallRuns.ArrivalSaw(states, events, m, id, p);
    } else {
      VerdictWithin(states, events, m, j - 1, id, p);
      RunOk(states, events, j - 1);
      OneStep(states[j - 1], events[j - 1], id);
      assert events[m + 1..j][..j - 1 - (m + 1)] == events[m + 1..j - 1];
    }
  }
}
