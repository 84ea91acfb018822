// The two tries of the whole filter: what happens to each of them in a run of Firewall is a run of Reclaim, and every
// lookup that is running belongs to a packet.
module FirewallTries {
  import opened Bits
  import opened Trie
  import opened Rcu
  import opened Bogon
  import opened HopCount
  import opened Firewall
  import opened FirewallSafety
  import opened FirewallRuns
  import opened FirewallProgress
  import Reclaim

  // ---------------------------------------------------------------------------
  // Which steps of a trie a step of the filter takes

  ghost function HcfEvents<N, M>(s: State<N, M>, e: Event<N, M>): seq<Reclaim.Event<N, Info>> {
    match e
    case OfPacket(id, HopBegin) =>
      if id in s.jobs && s.hcf.root.Some? then [Reclaim.Begin(Key(s.jobs[id].packet.source))] else []
    case OfPacket(id, HopMove) =>
      if id in s.jobs && s.jobs[id].phase.HopScan? then
        var r := s.jobs[id].phase.reader;
        if Reclaim.Enabled(s.hcf, Reclaim.Move(r)) && Reclaim.Moved(s.hcf, r).cursor.None?
        then [Reclaim.Move(r), Reclaim.End(r)] else [Reclaim.Move(r)]
      else []
    case OfPacket(id, HopLook) =>
      if id in s.jobs && s.jobs[id].phase.HopScan?
      then [Reclaim.Look(s.jobs[id].phase.reader), Reclaim.End(s.jobs[id].phase.reader)] else []
    case Work(t, names) => if s.hcf.root.Some? then [Publication(t, names)] else []
    case Replay(_, j, t) => [Reclaim.Swap(j, t)]
    case HcfBackground(b) => [b]
    case _ => []
  }

  ghost function BogonEvents<N, M>(s: State<N, M>, e: Event<N, M>): seq<Reclaim.Event<M, bool>> {
    match e
    case OfPacket(id, BogonBegin) =>
      if id in s.jobs && s.bogon.root.Some?
      then [Reclaim.Begin(PathOf(s.jobs[id].packet.source, IPV4_BITS))] else []
    case OfPacket(id, BogonLook) =>
      if id in s.jobs && s.jobs[id].phase.BogonScan? then
        var r := s.jobs[id].phase.reader;
        if Reclaim.Enabled(s.bogon, Reclaim.Look(r)) && Read(s.bogon, r)
        then [Reclaim.Look(r), Reclaim.End(r)] else [Reclaim.Look(r)]
      else []
    case OfPacket(id, BogonMove) =>
      if id in s.jobs && s.jobs[id].phase.BogonScan? then
        var r := s.jobs[id].phase.reader;
        if Reclaim.Enabled(s.bogon, Reclaim.Move(r)) && Reclaim.Moved(s.bogon, r).cursor.None?
        then [Reclaim.Move(r), Reclaim.End(r)] else [Reclaim.Move(r)]
      else []
    case OfPacket(id, BogonEnd) =>
      if id in s.jobs && s.jobs[id].phase.BogonScan? then [Reclaim.End(s.jobs[id].phase.reader)] else []
    case LoadBogon(_, j, t) => [Reclaim.Swap(j, t)]
    case BogonBackground(b) => [b]
    case _ => []
  }

  // From t, these events are enabled one after the other and lead to t'.
  ghost predicate Chain<N, D>(t: Reclaim.State<N, D>, es: seq<Reclaim.Event<N, D>>, t': Reclaim.State<N, D>)
    decreases |es|
  {
    if es == [] then t' == t
    else Reclaim.Enabled(t, es[0]) && Chain(Reclaim.Apply(t, es[0]), es[1..], t')
  }

  lemma ChainOfOne<N, D>(t: Reclaim.State<N, D>, e: Reclaim.Event<N, D>)
    requires Reclaim.Enabled(t, e)
    ensures Chain(t, [e], Reclaim.Apply(t, e))
  {
    hide Reclaim.Enabled, Reclaim.Apply;
    assert [e][1..] == [];
  }

  lemma ChainOfTwo<N, D>(t: Reclaim.State<N, D>, e: Reclaim.Event<N, D>, f: Reclaim.Event<N, D>)
    requires Reclaim.Enabled(t, e) && Reclaim.Enabled(Reclaim.Apply(t, e), f)
    ensures Chain(t, [e, f], Reclaim.Apply(Reclaim.Apply(t, e), f))
  {
    hide Reclaim.Enabled, Reclaim.Apply;
    assert [e, f][1..] == [f];
    ChainOfOne(Reclaim.Apply(t, e), f);
  }

  lemma MoveThenEnd<N, D>(t: Reclaim.State<N, D>, r: nat)
    requires Reclaim.Enabled(t, Reclaim.Move(r))
    ensures var t' := Reclaim.Apply(t, Reclaim.Move(r));
            && r in t'.readers && t'.readers[r] == Reclaim.Moved(t, r)
            && Chain(t, [Reclaim.Move(r)], t') && Chain(t, [Reclaim.Move(r), Reclaim.End(r)], EndReader(t', r))
  {
    ChainOfOne(t, Reclaim.Move(r));
    ChainOfTwo(t, Reclaim.Move(r), Reclaim.End(r));
  }

  lemma LookThenEnd<N, D>(t: Reclaim.State<N, D>, r: nat)
    requires Reclaim.Enabled(t, Reclaim.Look(r))
    ensures var t' := Reclaim.Apply(t, Reclaim.Look(r));
            && r in t'.readers && EndReader(t', r) == EndReader(t, r)
            && Chain(t, [Reclaim.Look(r)], t') && Chain(t, [Reclaim.Look(r), Reclaim.End(r)], EndReader(t', r))
  {
    ChainOfOne(t, Reclaim.Look(r));
    ChainOfTwo(t, Reclaim.Look(r), Reclaim.End(r));
    assert t.readers[r := Reclaim.Looked(t, r)] - {r} == t.readers - {r};
  }

  lemma ChainOfNone<N, D>(t: Reclaim.State<N, D>)
    ensures Chain(t, [], t)
  {}

  ghost predicate Projects<N, M>(s: State<N, M>, e: Event<N, M>)
    requires Enabled(s, e)
  {
    && Chain(s.hcf, HcfEvents(s, e), Apply(s, e).hcf)
    && Chain(s.bogon, BogonEvents(s, e), Apply(s, e).bogon)
  }

  lemma ProjectsShort<N, M>(s: State<N, M>, id: nat, e: PacketEvent)
    requires PacketEnabled(s, id, e) && (e.Arrive? || e.ReadFlag?)
    ensures Projects(s, OfPacket(id, e))
  {
    hide Chain, Reclaim.Apply, Reclaim.Enabled;
    ChainOfNone(s.hcf);
    ChainOfNone(s.bogon);
  }

  lemma ProjectsBogonBegin<N, M>(s: State<N, M>, id: nat)
    requires PacketEnabled(s, id, BogonBegin)
    ensures Projects(s, OfPacket(id, BogonBegin))
  {
    hide Chain, Reclaim.Apply, PathOf;
    ChainOfNone(s.hcf);
    ChainOfNone(s.bogon);
    ChainOfOne(s.bogon, Reclaim.Begin(PathOf(s.jobs[id].packet.source, IPV4_BITS)));
  }

  lemma ProjectsBogonLook<N, M>(s: State<N, M>, id: nat)
    requires PacketEnabled(s, id, BogonLook)
    ensures Projects(s, OfPacket(id, BogonLook))
  {
    hide Chain, Reclaim.Apply, EndReader, Reclaim.Moved, Read, Leaves, Judge;
    ChainOfNone(s.hcf);
    LookThenEnd(s.bogon, s.jobs[id].phase.reader);
  }

  lemma ProjectsBogonMove<N, M>(s: State<N, M>, id: nat)
    requires PacketEnabled(s, id, BogonMove)
    ensures Projects(s, OfPacket(id, BogonMove))
  {
    hide Chain, Reclaim.Apply, EndReader, Reclaim.Moved, Read, Leaves, Judge;
    ChainOfNone(s.hcf);
    MoveThenEnd(s.bogon, s.jobs[id].phase.reader);
  }

  lemma ProjectsBogonEnd<N, M>(s: State<N, M>, id: nat)
    requires PacketEnabled(s, id, BogonEnd)
    ensures Projects(s, OfPacket(id, BogonEnd))
  {
    hide Chain, Reclaim.Apply;
    ChainOfNone(s.hcf);
    ChainOfOne(s.bogon, Reclaim.End(s.jobs[id].phase.reader));
  }

  lemma ProjectsHopBegin<N, M>(s: State<N, M>, id: nat)
    requires PacketEnabled(s, id, HopBegin)
    ensures Projects(s, OfPacket(id, HopBegin))
  {
    hide Chain, Reclaim.Apply, Key, Leaves;
    ChainOfNone(s.bogon);
    ChainOfNone(s.hcf);
    ChainOfOne(s.hcf, Reclaim.Begin(Key(s.jobs[id].packet.source)));
  }

  lemma ProjectsHopMove<N, M>(s: State<N, M>, id: nat)
    requires PacketEnabled(s, id, HopMove)
    ensures Projects(s, OfPacket(id, HopMove))
  {
    hide Chain, Reclaim.Apply, EndReader, Reclaim.Moved, Read, Leaves, Judge;
    ChainOfNone(s.bogon);
    MoveThenEnd(s.hcf, s.jobs[id].phase.reader);
  }

  lemma ProjectsHopLook<N, M>(s: State<N, M>, id: nat)
    requires PacketEnabled(s, id, HopLook)
    ensures Projects(s, OfPacket(id, HopLook))
  {
    hide Chain, Reclaim.Apply, EndReader, Reclaim.Moved, Read, Leaves, Judge;
    ChainOfNone(s.bogon);
    LookThenEnd(s.hcf, s.jobs[id].phase.reader);
  }

  lemma ProjectsWork<N, M>(s: State<N, M>, t: Sighting, names: seq<N>)
    requires Enabled(s, Work(t, names))
    ensures Projects(s, Work(t, names))
  {
    hide Chain, Reclaim.Apply, Reclaim.Enabled, Key, Walk, Learned, Publication;
    ChainOfNone(s.bogon);
    ChainOfNone(s.hcf);
    if s.hcf.root.Some? {
      ChainOfOne(s.hcf, Publication(t, names));
    }
  }

  lemma ProjectsWrites<N, M>(s: State<N, M>, e: Event<N, M>)
    requires Enabled(s, e) && (e.Replay? || e.LoadBogon? || e.HcfBackground? || e.BogonBackground?)
    ensures Projects(s, e)
  {
    hide Chain, Reclaim.Apply, Reclaim.Enabled, Leaves, Loaded, Replayed, Pruned;
    ChainOfNone(s.bogon);
    ChainOfNone(s.hcf);
    match e
    case Replay(_, j, t) => ChainOfOne(s.hcf, Reclaim.Swap(j, t));
    case LoadBogon(_, j, t) => ChainOfOne(s.bogon, Reclaim.Swap(j, t));
    case HcfBackground(b) => ChainOfOne(s.hcf, b);
    case BogonBackground(b) => ChainOfOne(s.bogon, b);
  }

  lemma ProjectsLearning<N, M>(s: State<N, M>, e: Event<N, M>)
    requires Enabled(s, e) && (e.LearnRead? || e.LearnEnqueue? || e.Deliver? || e.StoreRead? || e.SetAttack?)
    ensures Projects(s, e)
  {
    hide Chain, Enabled, Apply;
    LearningKeepsJobs(s, e);
    ChainOfNone(s.hcf);
    ChainOfNone(s.bogon);
  }

  lemma PacketProjects<N, M>(s: State<N, M>, id: nat, e: PacketEvent)
    requires PacketEnabled(s, id, e)
    ensures Projects(s, OfPacket(id, e))
  {
    hide PacketEnabled, PacketApply, Projects;
    match e
    case BogonBegin => ProjectsBogonBegin(s, id);
    case BogonLook => ProjectsBogonLook(s, id);
    case BogonMove => ProjectsBogonMove(s, id);
    case BogonEnd => ProjectsBogonEnd(s, id);
    case HopBegin => ProjectsHopBegin(s, id);
    case HopMove => ProjectsHopMove(s, id);
    case HopLook => ProjectsHopLook(s, id);
    case _ => ProjectsShort(s, id, e);
  }

  // Every step of the filter is, for each of the two tries, a step of Reclaim, two of them, or none.
  lemma StepProjects<N, M>(s: State<N, M>, e: Event<N, M>)
    requires Enabled(s, e)
    ensures Projects(s, e)
  {
    hide PacketEnabled, PacketApply, Projects, Apply, Worked;
    match e
    case OfPacket(id, step) => PacketProjects(s, id, step);
    case Work(t, names) => ProjectsWork(s, t, names);
    case Replay(_, _, _) => ProjectsWrites(s, e);
    case LoadBogon(_, _, _) => ProjectsWrites(s, e);
    case HcfBackground(_) => ProjectsWrites(s, e);
    case BogonBackground(_) => ProjectsWrites(s, e);
    case _ => ProjectsLearning(s, e);
  }

  // ---------------------------------------------------------------------------
  // Runs

  ghost function Flat<T>(pieces: seq<seq<T>>): seq<T> {
    if pieces == [] then [] else Flat(pieces[..|pieces| - 1]) + pieces[|pieces| - 1]
  }

  lemma {:induction false} ExtendRun<N, D>(rs: seq<Reclaim.State<N, D>>, es: seq<Reclaim.Event<N, D>>,
                                           more: seq<Reclaim.Event<N, D>>, t: Reclaim.State<N, D>)
    returns (longer: seq<Reclaim.State<N, D>>)
    requires Reclaim.Run(rs, es) && Chain(rs[|es|], more, t)
    ensures Reclaim.Run(longer, es + more) && rs <= longer && longer[|es + more|] == t
    decreases |more|
  {
    hide Reclaim.Enabled, Reclaim.Apply, Reclaim.Init;
    if more == [] {
      assert es + more == es;
      longer := rs;
    } else {
      var next := Reclaim.Apply(rs[|es|], more[0]);
      assert Reclaim.Run(rs + [next], es + [more[0]]);
      longer := ExtendRun(rs + [next], es + [more[0]], more[1..], t);
      assert es + [more[0]] + more[1..] == es + more;
    }
  }

  // States that are joined by chains of steps lie on one run.
  lemma {:induction false} Stitch<N, D>(ts: seq<Reclaim.State<N, D>>, pieces: seq<seq<Reclaim.Event<N, D>>>)
    returns (rs: seq<Reclaim.State<N, D>>)
    requires |ts| == |pieces| + 1 && Reclaim.Init(ts[0])
    requires forall i | 0 <= i < |pieces| :: Chain(ts[i], pieces[i], ts[i + 1])
    ensures Reclaim.Run(rs, Flat(pieces))
    ensures forall i | 0 <= i < |ts| :: |Flat(pieces[..i])| < |rs| && rs[|Flat(pieces[..i])|] == ts[i]
    decreases |pieces|
  {
    hide Reclaim.Run, Reclaim.Init, Chain, Flat;
    var n := |pieces|;
    assert pieces[..n] == pieces;
    if n == 0 {
      rs := [ts[0]];
      RunOfNone(ts[0]);
    } else {
      var front := pieces[..n - 1];
      assert front[..n - 1] == front;
      var shorter := Stitch(ts[..n], front);
      FlatLast(pieces);
      RunSize(shorter, Flat(front));
      rs := ExtendRun(shorter, Flat(front), pieces[n - 1], ts[n]);
      RunSize(rs, Flat(pieces));
      forall i | 0 <= i < |ts| ensures |Flat(pieces[..i])| < |rs| && rs[|Flat(pieces[..i])|] == ts[i] {
        if i < n {
          assert front[..i] == pieces[..i];
          assert shorter[|Flat(front[..i])|] == ts[..n][i];
        }
      }
    }
  }

  lemma RunOfNone<N, D>(t: Reclaim.State<N, D>)
    requires Reclaim.Init(t)
    ensures Reclaim.Run([t], Flat([])) && Flat<Reclaim.Event<N, D>>([]) == []
  {
    hide Reclaim.Init;
  }

  lemma FlatLast<T>(pieces: seq<seq<T>>)
    requires pieces != []
    ensures Flat(pieces) == Flat(pieces[..|pieces| - 1]) + pieces[|pieces| - 1]
  {}

  lemma RunSize<N, D>(rs: seq<Reclaim.State<N, D>>, es: seq<Reclaim.Event<N, D>>)
    requires Reclaim.Run(rs, es)
    ensures |rs| == |es| + 1
  {
    hide Reclaim.Init, Reclaim.Enabled, Reclaim.Apply;
  }

  ghost function HcfPieces<N, M>(states: seq<State<N, M>>, events: seq<Event<N, M>>): seq<seq<Reclaim.Event<N, Info>>>
    requires |events| <= |states|
  {
    seq(|events|, i requires 0 <= i < |events| => HcfEvents(states[i], events[i]))
  }

  ghost function BogonPieces<N, M>(states: seq<State<N, M>>, events: seq<Event<N, M>>): seq<seq<Reclaim.Event<M, bool>>>
    requires |events| <= |states|
  {
    seq(|events|, i requires 0 <= i < |events| => BogonEvents(states[i], events[i]))
  }

  // In every run of the filter the hop-count trie goes through a run of Reclaim, whose events are told by those of
  // the filter, and so does the bogon trie.  What is proved of the runs of Reclaim holds of both tries.
  lemma HcfRuns<N, M>(states: seq<State<N, M>>, events: seq<Event<N, M>>) returns (rs: seq<Reclaim.State<N, Info>>)
    requires Run(states, events)
    ensures var pieces := HcfPieces(states, events);
            && Reclaim.Run(rs, Flat(pieces))
            && forall i | 0 <= i < |states| :: |Flat(pieces[..i])| < |rs| && rs[|Flat(pieces[..i])|] == states[i].hcf
  {
    hide Enabled, Apply, Chain, HcfEvents, BogonEvents, Reclaim.Init, Reclaim.Run, Flat;
    var ts := seq(|states|, i requires 0 <= i < |states| => states[i].hcf);
    forall i | 0 <= i < |events| ensures Chain(ts[i], HcfPieces(states, events)[i], ts[i + 1]) {
      StepProjects(states[i], events[i]);
    }
    rs := Stitch(ts, HcfPieces(states, events));
    assert forall i | 0 <= i < |states| :: ts[i] == states[i].hcf;
  }

  lemma BogonRuns<N, M>(states: seq<State<N, M>>, events: seq<Event<N, M>>) returns (rs: seq<Reclaim.State<M, bool>>)
    requires Run(states, events)
    ensures var pieces := BogonPieces(states, events);
            && Reclaim.Run(rs, Flat(pieces))
            && forall i | 0 <= i < |states| :: |Flat(pieces[..i])| < |rs| && rs[|Flat(pieces[..i])|] == states[i].bogon
  {
    hide Enabled, Apply, Chain, HcfEvents, BogonEvents, Reclaim.Init, Reclaim.Run, Flat;
    var ts := seq(|states|, i requires 0 <= i < |states| => states[i].bogon);
    forall i | 0 <= i < |events| ensures Chain(ts[i], BogonPieces(states, events)[i], ts[i + 1]) {
      StepProjects(states[i], events[i]);
    }
    rs := Stitch(ts, BogonPieces(states, events));
    assert forall i | 0 <= i < |states| :: ts[i] == states[i].bogon;
  }

  // ---------------------------------------------------------------------------
  // Every lookup has its packet

  ghost predicate HopOwned<N, M>(s: State<N, M>) {
    forall r | r in s.hcf.readers :: exists id :: id in s.jobs && HopReader(s.jobs[id]) == Some(r)
  }

  ghost predicate BogonOwned<N, M>(s: State<N, M>) {
    forall r | r in s.bogon.readers :: exists id :: id in s.jobs && BogonReader(s.jobs[id]) == Some(r)
  }

  // A packet's step leaves no lookup behind: those that are running were running and are not the packet's, or are
  // the packet's now.
  ghost predicate NoneLeft<N, M>(s: State<N, M>, s': State<N, M>, id: nat) {
    && id in s'.jobs
    && (forall r | r in s'.hcf.readers ::
          (r in s.hcf.readers && !(id in s.jobs && HopReader(s.jobs[id]) == Some(r)))
          || HopReader(s'.jobs[id]) == Some(r))
    && (forall r | r in s'.bogon.readers ::
          (r in s.bogon.readers && !(id in s.jobs && BogonReader(s.jobs[id]) == Some(r)))
          || BogonReader(s'.jobs[id]) == Some(r))
  }

  lemma NoneLeftBogonBegin<N, M>(s: State<N, M>, id: nat)
    requires PacketEnabled(s, id, BogonBegin)
    ensures NoneLeft(s, PacketApply(s, id, BogonBegin), id)
  {
    hide Read, Judge, Key, PathOf, Leaves;
  }

  lemma NoneLeftBogonLook<N, M>(s: State<N, M>, id: nat)
    requires PacketEnabled(s, id, BogonLook)
    ensures NoneLeft(s, PacketApply(s, id, BogonLook), id)
  {
    hide Read, Judge, Key, PathOf, Leaves;
  }

  lemma NoneLeftBogonMove<N, M>(s: State<N, M>, id: nat)
    requires PacketEnabled(s, id, BogonMove)
    ensures NoneLeft(s, PacketApply(s, id, BogonMove), id)
  {
    hide Read, Judge, Key, PathOf, Leaves;
  }

  lemma NoneLeftBogonEnd<N, M>(s: State<N, M>, id: nat)
    requires PacketEnabled(s, id, BogonEnd)
    ensures NoneLeft(s, PacketApply(s, id, BogonEnd), id)
  {
    hide Read, Judge, Key, PathOf, Leaves;
  }

  lemma NoneLeftReadFlag<N, M>(s: State<N, M>, id: nat)
    requires PacketEnabled(s, id, ReadFlag)
    ensures NoneLeft(s, PacketApply(s, id, ReadFlag), id)
  {
    hide Read, Judge, Key, PathOf, Leaves;
  }

  lemma NoneLeftHopBegin<N, M>(s: State<N, M>, id: nat)
    requires PacketEnabled(s, id, HopBegin)
    ensures NoneLeft(s, PacketApply(s, id, HopBegin), id)
  {
    hide Read, Judge, Key, PathOf, Leaves;
  }

  lemma NoneLeftHopMove<N, M>(s: State<N, M>, id: nat)
    requires PacketEnabled(s, id, HopMove)
    ensures NoneLeft(s, PacketApply(s, id, HopMove), id)
  {
    hide Read, Judge, Key, PathOf, Leaves;
  }

  lemma NoneLeftHopLook<N, M>(s: State<N, M>, id: nat)
    requires PacketEnabled(s, id, HopLook)
    ensures NoneLeft(s, PacketApply(s, id, HopLook), id)
  {
    hide Read, Judge, Key, PathOf, Leaves;
  }

  lemma NoneLeftArrive<N, M>(s: State<N, M>, id: nat, p: Packet)
    requires PacketEnabled(s, id, Arrive(p))
    ensures NoneLeft(s, PacketApply(s, id, Arrive(p)), id)
  {}

  lemma PacketLeavesNone<N, M>(s: State<N, M>, id: nat, e: PacketEvent)
    requires PacketEnabled(s, id, e)
    ensures NoneLeft(s, PacketApply(s, id, e), id)
  {
    hide PacketEnabled, PacketApply, NoneLeft;
    match e
    case Arrive(p) => NoneLeftArrive(s, id, p);
    case BogonBegin => NoneLeftBogonBegin(s, id);
    case BogonLook => NoneLeftBogonLook(s, id);
    case BogonMove => NoneLeftBogonMove(s, id);
    case BogonEnd => NoneLeftBogonEnd(s, id);
    case ReadFlag => NoneLeftReadFlag(s, id);
    case HopBegin => NoneLeftHopBegin(s, id);
    case HopMove => NoneLeftHopMove(s, id);
    case HopLook => NoneLeftHopLook(s, id);
  }

  lemma OwnedAfterPacket<N, M>(s: State<N, M>, s': State<N, M>, id: nat)
    requires HopOwned(s) && BogonOwned(s) && NoneLeft(s, s', id) && Alone(s, s', id)
    ensures HopOwned(s') && BogonOwned(s')
  {
    hide LookupsKept, HopReader, BogonReader;
    forall r | r in s'.hcf.readers ensures exists i :: i in s'.jobs && HopReader(s'.jobs[i]) == Some(r) {
      if HopReader(s'.jobs[id]) != Some(r) {
        var i :| i in s.jobs && HopReader(s.jobs[i]) == Some(r);
        assert i in s'.jobs && s'.jobs[i] == s.jobs[i];
      }
    }
    forall r | r in s'.bogon.readers ensures exists i :: i in s'.jobs && BogonReader(s'.jobs[i]) == Some(r) {
      if BogonReader(s'.jobs[id]) != Some(r) {
        var i :| i in s.jobs && BogonReader(s.jobs[i]) == Some(r);
        assert i in s'.jobs && s'.jobs[i] == s.jobs[i];
      }
    }
  }

  lemma OwnedStep<N, M>(s: State<N, M>, e: Event<N, M>)
    requires Inv(s) && Enabled(s, e) && HopOwned(s) && BogonOwned(s)
    ensures HopOwned(Apply(s, e)) && BogonOwned(Apply(s, e))
  {
    hide Inv, PacketEnabled, PacketApply, Alone, NoneLeft, HopOwned, BogonOwned;
    if e.OfPacket? {
      PacketIsAlone(s, e.id, e.step);
      PacketLeavesNone(s, e.id, e.step);
      OwnedAfterPacket(s, Apply(s, e), e.id);
    } else {
      OthersKeepJobs(s, e);
      WritersLeaveReaders(s, e);
      SameJobsSameOwners(s, Apply(s, e));
    }
  }

  lemma SameJobsSameOwners<N, M>(s: State<N, M>, s': State<N, M>)
    requires HopOwned(s) && BogonOwned(s)
    requires s'.jobs == s.jobs && s'.hcf.readers == s.hcf.readers && s'.bogon.readers == s.bogon.readers
    ensures HopOwned(s') && BogonOwned(s')
  {}

  lemma OwnedAtFirst<N, M>(s: State<N, M>)
    requires Init(s)
    ensures HopOwned(s) && BogonOwned(s)
  {}

  // In every run each lookup that is running is that of a packet in the middle of it.
  lemma {:induction false} EveryLookupHasItsPacket<N, M>(states: seq<State<N, M>>, events: seq<Event<N, M>>, j: nat)
    requires Run(states, events) && j < |states|
    ensures HopOwned(states[j]) && BogonOwned(states[j])
  {
    hide Inv, Enabled, Apply, Init, HopOwned, BogonOwned;
    if j == 0 {
      OwnedAtFirst(states[0]);
    } else {
      EveryLookupHasItsPacket(states, events, j - 1);
      RunOk(states, events, j - 1);
      OwnedStep(states[j - 1], events[j - 1]);
    }
  }

  // So once all packets have their verdicts, no lookup runs, and reclamation waits for nobody.
  lemma NobodyLooksOnceAllAreDone<N, M>(states: seq<State<N, M>>, events: seq<Event<N, M>>, j: nat)
    requires Run(states, events) && j < |states|
    requires forall id | id in states[j].jobs :: states[j].jobs[id].phase.Done?
    ensures states[j].hcf.readers == map[] && states[j].bogon.readers == map[]
  {
    hide Run;
    EveryLookupHasItsPacket(states, events, j);
    assert states[j].hcf.readers.Keys == {} && states[j].bogon.readers.Keys == {};
  }
}
