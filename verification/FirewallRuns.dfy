// Whole runs of the filter: what a verdict depends on, what an attack freezes, and what a replay keeps.
module FirewallRuns {
  import opened Bits
  import opened Trie
  import opened Bogon
  import opened HopCount
  import opened Firewall
  import opened FirewallSafety
  import Rcu
  import Reclaim

  // ---------------------------------------------------------------------------
  // What a packet has seen, and when

  // The list, the flag and the map were current at some moments between two states, in this order.
  ghost predicate SawList<N, M>(states: seq<State<N, M>>, from: nat, to: nat, list: Option<seq<Prefix>>)
    requires to < |states|
  {
    exists a :: from <= a <= to && states[a].loaded == list
  }

  ghost predicate SawFlag<N, M>(states: seq<State<N, M>>, from: nat, to: nat, list: Option<seq<Prefix>>, flag: bool)
    requires to < |states|
  {
    exists a, b :: from <= a <= b <= to && states[a].loaded == list && states[b].attack == flag
  }

  ghost predicate SawHops<N, M>(states: seq<State<N, M>>, from: nat, to: nat, list: Option<seq<Prefix>>, known: Known)
    requires to < |states|
  {
    exists a, b, c :: from <= a <= b <= c <= to
                      && states[a].loaded == list && states[b].attack && KnownTo(states[c]) == known
  }

  ghost predicate Saw<N, M>(states: seq<State<N, M>>, from: nat, to: nat, phase: Phase)
    requires to < |states|
  {
    match phase
    case Arrived => true
    case BogonScan(_, _, list) => SawList(states, from, to, list)
    case NotBogon(list) => SawList(states, from, to, list)
    case UnderAttack(list) => SawFlag(states, from, to, list, true)
    case HopScan(_, list, known) => SawHops(states, from, to, list, known)
    case Done(_, Ignored) => true
    case Done(_, ByBogon(list)) => SawList(states, from, to, list)
    case Done(_, Calm(list)) => SawFlag(states, from, to, list, false)
    case Done(_, ByHops(list, known)) => SawHops(states, from, to, list, known)
  }

  // How one step changes the phase of one packet.
  ghost predicate PhaseStep<N, M>(s: State<N, M>, before: Phase, after: Phase) {
    match after
    case Arrived => false
    case BogonScan(_, _, list) => (before.Arrived? && list == s.loaded) || (before.BogonScan? && before.list == list)
    case NotBogon(list) => (before.Arrived? && list == s.loaded) || (before.BogonScan? && before.list == list)
    case UnderAttack(list) => before.NotBogon? && before.list == list && s.attack
    case HopScan(_, list, known) => before.UnderAttack? && before.list == list && known == KnownTo(s)
    case Done(_, Ignored) => false
    case Done(_, ByBogon(list)) => before.BogonScan? && before.list == list
    case Done(_, Calm(list)) => before.NotBogon? && before.list == list && !s.attack
    case Done(_, ByHops(list, known)) =>
      || (before.UnderAttack? && before.list == list && known == KnownTo(s))
      || (before.HopScan? && before.list == list && before.known == known)
  }

  // The packet of `id` may have changed its phase, and no other job is touched.
  ghost predicate OneMoves<N, M>(s: State<N, M>, s': State<N, M>, id: nat) {
    && id in s.jobs && id in s'.jobs
    && (s'.jobs == s.jobs || (s'.jobs == s.jobs[id := s.jobs[id].(phase := s'.jobs[id].phase)]
                             && PhaseStep(s, s.jobs[id].phase, s'.jobs[id].phase)))
  }

  lemma MovesBogonBegin<N, M>(s: State<N, M>, id: nat)
    requires PacketEnabled(s, id, BogonBegin)
    ensures OneMoves(s, PacketApply(s, id, BogonBegin), id)
  {
    hide Reclaim.Apply, Reclaim.Enabled, EndReader, Read, PathOf, Key, Judge, Leaves;
  }

  lemma MovesBogonLook<N, M>(s: State<N, M>, id: nat)
    requires PacketEnabled(s, id, BogonLook)
    ensures OneMoves(s, PacketApply(s, id, BogonLook), id)
  {
    hide Reclaim.Apply, Reclaim.Enabled, EndReader, Read, PathOf, Key, Judge, Leaves;
  }

  lemma MovesBogonMove<N, M>(s: State<N, M>, id: nat)
    requires PacketEnabled(s, id, BogonMove)
    ensures OneMoves(s, PacketApply(s, id, BogonMove), id)
  {
    hide Reclaim.Apply, Reclaim.Enabled, EndReader, Read, PathOf, Key, Judge, Leaves;
  }

  lemma MovesBogonEnd<N, M>(s: State<N, M>, id: nat)
    requires PacketEnabled(s, id, BogonEnd)
    ensures OneMoves(s, PacketApply(s, id, BogonEnd), id)
  {
    hide Reclaim.Apply, Reclaim.Enabled, EndReader, Read, PathOf, Key, Judge, Leaves;
  }

  lemma MovesReadFlag<N, M>(s: State<N, M>, id: nat)
    requires PacketEnabled(s, id, ReadFlag)
    ensures OneMoves(s, PacketApply(s, id, ReadFlag), id)
  {}

  lemma MovesHopBegin<N, M>(s: State<N, M>, id: nat)
    requires PacketEnabled(s, id, HopBegin)
    ensures OneMoves(s, PacketApply(s, id, HopBegin), id)
  {
    hide Reclaim.Apply, Reclaim.Enabled, EndReader, Read, PathOf, Key, Judge, Leaves;
  }

  lemma MovesHopMove<N, M>(s: State<N, M>, id: nat)
    requires PacketEnabled(s, id, HopMove)
    ensures OneMoves(s, PacketApply(s, id, HopMove), id)
  {
    hide Reclaim.Apply, Reclaim.Enabled, EndReader, Read, PathOf, Key, Judge, Leaves;
  }

  lemma MovesHopLook<N, M>(s: State<N, M>, id: nat)
    requires PacketEnabled(s, id, HopLook)
    ensures OneMoves(s, PacketApply(s, id, HopLook), id)
  {
    hide Reclaim.Apply, Reclaim.Enabled, EndReader, Read, PathOf, Key, Judge, Leaves;
  }

  lemma PacketMoves<N, M>(s: State<N, M>, id: nat, e: PacketEvent)
    requires PacketEnabled(s, id, e) && !e.Arrive?
    ensures OneMoves(s, PacketApply(s, id, e), id)
  {
    hide PacketEnabled, PacketApply, OneMoves;
    match e
    case BogonBegin => MovesBogonBegin(s, id);
    case BogonLook => MovesBogonLook(s, id);
    case BogonMove => MovesBogonMove(s, id);
    case BogonEnd => MovesBogonEnd(s, id);
    case ReadFlag => MovesReadFlag(s, id);
    case HopBegin => MovesHopBegin(s, id);
    case HopMove => MovesHopMove(s, id);
    case HopLook => MovesHopLook(s, id);
  }

  lemma WorkKeepsJobs<N, M>(s: State<N, M>, t: Sighting, names: seq<N>)
    requires Enabled(s, Work(t, names))
    ensures Apply(s, Work(t, names)).jobs == s.jobs
  {
    hide Reclaim.Apply, Enabled, Key, Rcu.Walk, Publication, Learned;
  }

  lemma LearningKeepsJobs<N, M>(s: State<N, M>, e: Event<N, M>)
    requires Enabled(s, e) && (e.LearnRead? || e.LearnEnqueue? || e.Deliver? || e.StoreRead? || e.SetAttack?)
    ensures Apply(s, e).jobs == s.jobs && Apply(s, e).hcf == s.hcf && Apply(s, e).bogon == s.bogon
  {
    hide Enabled;
    match e
    case LearnRead(t) => assert Apply(s, LearnRead(t)) == if s.attack then s else s.(hooks := s.hooks + multiset{t});
    case SetAttack(value) => assert Apply(s, SetAttack(value)) == s.(attack := value);
    case StoreRead(rows) => assert Apply(s, StoreRead(rows)) == s.(replays := s.replays + multiset{rows});
    case _ =>
  }

  lemma TriesKeepJobs<N, M>(s: State<N, M>, e: Event<N, M>)
    requires Enabled(s, e) && (e.Replay? || e.LoadBogon? || e.HcfBackground? || e.BogonBackground?)
    ensures Apply(s, e).jobs == s.jobs
  {
    hide Enabled, Reclaim.Apply, Reclaim.Enabled, Leaves;
  }

  lemma OthersKeepJobs<N, M>(s: State<N, M>, e: Event<N, M>)
    requires Enabled(s, e) && !e.OfPacket?
    ensures Apply(s, e).jobs == s.jobs
  {
    hide Enabled, Apply;
    match e
    case Work(t, names) => WorkKeepsJobs(s, t, names);
    case Replay(_, _, _) => TriesKeepJobs(s, e);
    case LoadBogon(_, _, _) => TriesKeepJobs(s, e);
    case HcfBackground(_) => TriesKeepJobs(s, e);
    case BogonBackground(_) => TriesKeepJobs(s, e);
    case _ => LearningKeepsJobs(s, e);
  }

  lemma JobsStep<N, M>(s: State<N, M>, e: Event<N, M>, id: nat)
    requires Enabled(s, e) && id in s.jobs
    ensures var s' := Apply(s, e);
            && id in s'.jobs && s'.jobs[id].packet == s.jobs[id].packet
            && (s'.jobs[id].phase == s.jobs[id].phase || PhaseStep(s, s.jobs[id].phase, s'.jobs[id].phase))
  {
    hide PhaseStep, PacketApply, PacketEnabled, Worked;
    if e.OfPacket? {
      if e.step.Arrive? {
        ArrivalsKeepJobs(s, e.id, e.step.packet);
      } else {
        PacketMoves(s, e.id, e.step);
      }
    } else {
      OthersKeepJobs(s, e);
    }
  }

  lemma ArrivesOnce<N, M>(s: State<N, M>, id: nat, e: PacketEvent)
    requires PacketEnabled(s, id, e) && id in s.jobs
    ensures !e.Arrive?
  {}

  lemma ArrivalsKeepJobs<N, M>(s: State<N, M>, id: nat, p: Packet)
    requires PacketEnabled(s, id, Arrive(p))
    ensures forall i | i in s.jobs :: i in PacketApply(s, id, Arrive(p)).jobs
                                      && PacketApply(s, id, Arrive(p)).jobs[i] == s.jobs[i]
  {}

  lemma SawStep<N, M>(states: seq<State<N, M>>, from: nat, to: nat, before: Phase, after: Phase)
    requires from <= to && to + 1 < |states| && Saw(states, from, to, before)
    requires after == before || PhaseStep(states[to], before, after)
    ensures Saw(states, from, to + 1, after)
  {}

  lemma {:induction false} JobSaw<N, M>(states: seq<State<N, M>>, events: seq<Event<N, M>>, m: nat, j: nat,
                                        id: nat, p: Packet)
    requires Run(states, events) && m < j < |states| && events[m] == OfPacket(id, Arrive(p))
    ensures id in states[j].jobs && states[j].jobs[id].packet == p
    ensures Saw(states, m + 1, j, states[j].jobs[id].phase)
    decreases j
  {
    hide Enabled, Apply, Init, Saw;
    assert Enabled(states[m], events[m]);
    if j == m + 1 {
      ArrivalSaw(states, events, m, id, p);
    } else {
      JobSaw(states, events, m, j - 1, id, p);
      JobsStep(states[j - 1], events[j - 1], id);
      SawStep(states, m + 1, j - 1, states[j - 1].jobs[id].phase, states[j].jobs[id].phase);
    }
  }

  lemma ArrivalSaw<N, M>(states: seq<State<N, M>>, events: seq<Event<N, M>>, m: nat, id: nat, p: Packet)
    requires m + 1 < |states| && m < |events| && events[m] == OfPacket(id, Arrive(p))
    requires Enabled(states[m], events[m]) && states[m + 1] == Apply(states[m], events[m])
    ensures id in states[m + 1].jobs && states[m + 1].jobs[id].packet == p
    ensures Saw(states, m + 1, m + 1, states[m + 1].jobs[id].phase)
  {}

  // ---------------------------------------------------------------------------
  // The verdict

  ghost predicate Dropped(list: Option<seq<Prefix>>, attack: bool, known: Known, p: Packet) {
    p.isIpv4 && p.isTcp && (Blocked(list, p.source) || (attack && Answer(known, p.source, p.ttl) < 1))
  }

  // The rule in full.
  lemma DroppedRule(list: Option<seq<Prefix>>, attack: bool, known: Known, p: Packet)
    ensures Dropped(list, attack, known, p) <==>
            && p.isIpv4 && p.isTcp
            && (Blocked(list, p.source)
                || (attack
                    && (Key(p.source) !in known || !(-2 <= HopsTravelled(p.ttl) - known[Key(p.source)].hc <= 2))))
  {
    hide Key, HopsTravelled, Blocked;
  }

  lemma Moments<N, M>(states: seq<State<N, M>>, from: nat, to: nat, p: Packet, phase: Phase)
    returns (a: nat, b: nat, c: nat)
    requires from <= to < |states| && phase.Done? && Saw(states, from, to, phase)
    requires VerdictOk(p, phase.drop, phase.seen)
    ensures from <= a <= b <= c <= to
    ensures phase.drop <==> Dropped(states[a].loaded, states[b].attack, KnownTo(states[c]), p)
  {
    hide Answer, Blocked, KnownTo;
    a, b, c := from, from, from;
    match phase.seen
    case Ignored =>
    case ByBogon(list) =>
      a :| from <= a <= to && states[a].loaded == list;
      b, c := a, a;
    case Calm(list) =>
      a, b :| from <= a <= b <= to && states[a].loaded == list && states[b].attack == false;
      c := b;
    case ByHops(list, known) =>
      a, b, c :| from <= a <= b <= c <= to
                 && states[a].loaded == list && states[b].attack && KnownTo(states[c]) == known;
  }

  lemma FinishedOk<N, M>(s: State<N, M>, id: nat)
    requires Inv(s) && id in s.jobs && s.jobs[id].phase.Done?
    ensures VerdictOk(s.jobs[id].packet, s.jobs[id].phase.drop, s.jobs[id].phase.seen)
  {
    hide TriesOk, LearnOk, AnnouncedOk, VerdictOk;
    assert JobOk(s.jobs[id], s.hcf.readers, s.bogon.readers);
  }

  // Every finished packet of every run: it was dropped exactly if the bogon list current at some moment after
  // its arrival covers its source, or the attack flag was set at a later moment and the map current at a still
  // later one does not know its /24 at a similar distance.
  lemma VerdictOfRun<N, M>(states: seq<State<N, M>>, events: seq<Event<N, M>>, m: nat, j: nat, id: nat, p: Packet)
    returns (a: nat, b: nat, c: nat)
    requires Run(states, events) && m < j < |states| && events[m] == OfPacket(id, Arrive(p))
    requires id in states[j].jobs && states[j].jobs[id].phase.Done?
    ensures m < a <= b <= c <= j
    ensures states[j].jobs[id].phase.drop <==>
            && p.isIpv4 && p.isTcp
            && (Blocked(states[a].loaded, p.source)
                || (states[b].attack
                    && (Key(p.source) !in KnownTo(states[c])
                        || !(-2 <= HopsTravelled(p.ttl) - KnownTo(states[c])[Key(p.source)].hc <= 2))))
  {
    hide Enabled, Apply, Init, Inv, Dropped, VerdictOk, Saw, KnownTo, Key, HopsTravelled, Blocked;
    JobSaw(states, events, m, j, id, p);
    RunOk(states, events, j);
    FinishedOk(states[j], id);
    a, b, c := Moments(states, m + 1, j, p, states[j].jobs[id].phase);
    DroppedRule(states[a].loaded, states[b].attack, KnownTo(states[c]), p);
  }

  // ---------------------------------------------------------------------------
  // Under attack nothing is learned

  // The steps that may change a verdict while the attack flag is set and no learning is under way.
  ghost predicate Disturbs<N, M>(e: Event<N, M>) {
    e.Replay? || e.LoadBogon? || (e.SetAttack? && !e.value)
  }

  ghost predicate Quiet<N, M>(s: State<N, M>) {
    s.attack && s.hooks == multiset{} && s.tasks == multiset{}
  }

  lemma ReaderStepsKeepPublished<N, D>(t: Reclaim.State<N, D>, e: Reclaim.Event<N, D>)
    requires Reclaim.Enabled(t, e) && !e.Publish? && !e.Swap?
    ensures Reclaim.Apply(t, e).published == t.published
  {}

  lemma PacketKeepsTries<N, M>(s: State<N, M>, id: nat, e: PacketEvent)
    requires Inv(s) && PacketEnabled(s, id, e)
    ensures PacketApply(s, id, e).hcf.published == s.hcf.published
  {
    hide Inv, PacketEnabled, PacketApply, JobsOk, Reclaim.Inv;
    KeepPacket(s, id, e);
  }

  lemma QuietStep<N, M>(s: State<N, M>, e: Event<N, M>)
    requires Inv(s) && Enabled(s, e) && Quiet(s) && !Disturbs(e)
    ensures Quiet(Apply(s, e)) && Apply(s, e).loaded == s.loaded && KnownTo(Apply(s, e)) == KnownTo(s)
  {
    hide Inv, PacketEnabled, PacketApply, Reclaim.Apply, Reclaim.Enabled, Leaves, ListsStore;
    match e
    case OfPacket(id, step) =>
      PacketKeepsTries(s, id, step);
      PacketLeavesRest(s, id, step);
    case HcfBackground(b) => ReaderStepsKeepPublished(s.hcf, b);
    case _ =>
  }

  lemma {:induction false} QuietRun<N, M>(states: seq<State<N, M>>, events: seq<Event<N, M>>, i: nat, j: nat)
    requires Run(states, events) && i <= j < |states| && Quiet(states[i])
    requires forall l | i <= l < j :: !Disturbs(events[l])
    ensures Quiet(states[j]) && states[j].loaded == states[i].loaded && KnownTo(states[j]) == KnownTo(states[i])
    decreases j
  {
    hide Inv, Enabled, Apply, Init, Quiet, KnownTo;
    if i < j {
      QuietRun(states, events, i, j - 1);
      RunOk(states, events, j - 1);
      QuietStep(states[j - 1], events[j - 1]);
    }
  }

  // While the flag stays set, once every learn hook that read it as clear and every queued task is done, the
  // verdict on a packet depends on nothing but its source and its TTL, until a replay, a load or a flag change.
  lemma VerdictsFrozen<N, M>(states: seq<State<N, M>>, events: seq<Event<N, M>>, i: nat, m: nat, j: nat,
                             id: nat, p: Packet)
    requires Run(states, events) && i <= m < j < |states| && Quiet(states[i])
    requires forall l | i <= l < j :: !Disturbs(events[l])
    requires events[m] == OfPacket(id, Arrive(p)) && id in states[j].jobs && states[j].jobs[id].phase.Done?
    ensures states[j].jobs[id].phase.drop <==>
            && p.isIpv4 && p.isTcp
            && (Blocked(states[i].loaded, p.source)
                || Key(p.source) !in KnownTo(states[i])
                || !(-2 <= HopsTravelled(p.ttl) - KnownTo(states[i])[Key(p.source)].hc <= 2))
  {
    hide Enabled, Apply, Init, KnownTo, Key, HopsTravelled, Blocked;
    var a, b, c := VerdictOfRun(states, events, m, j, id, p);
    QuietRun(states, events, i, a);
    QuietRun(states, events, i, b);
    QuietRun(states, events, i, c);
  }

  // ---------------------------------------------------------------------------
  // Learning, announcing, storing and replaying

  // Every known /24 is in the store or on its way to it, and hop counts are those that the TTLs stand for.
  lemma KnownIsBacked<N, M>(states: seq<State<N, M>>, events: seq<Event<N, M>>, i: nat, k: Path)
    requires Run(states, events) && i < |states| && k in KnownTo(states[i])
    ensures Backed(k, states[i].store, states[i].outbox)
    ensures KnownTo(states[i])[k].hc == HopsTravelled(KnownTo(states[i])[k].ttl)
  {
    RunOk(states, events, i);
  }

  // Between two replays each newly known /24 is announced exactly once, and no other is.
  lemma AnnouncedOnce<N, M>(states: seq<State<N, M>>, events: seq<Event<N, M>>, i: nat, k: Path)
    requires Run(states, events) && i < |states|
    ensures states[i].announced[k] == if k in KnownTo(states[i]) && k !in states[i].base then 1 else 0
  {
    RunOk(states, events, i);
  }

  ghost predicate Names(store: map<Word, Info>, k: Path) {
    exists ip :: ip in store && Key(ip) == k
  }

  lemma RowsNameStore(rows: seq<Entry>, store: map<Word, Info>, k: Path)
    requires ListsStore(rows, store)
    ensures k in Replayed(rows) <==> Names(store, k)
    ensures k in Replayed(rows) ==> exists ip :: ip in store && Key(ip) == k && Replayed(rows)[k] == store[ip]
  {
    hide Key, Replayed;
    ReplayedIsLast(rows, k);
    if ip :| ip in store && Key(ip) == k {
      var i :| 0 <= i < |rows| && rows[i].ip == ip;
    }
    if k in Replayed(rows) {
      var i :| 0 <= i < |rows| && Key(rows[i].ip) == k && Replayed(rows)[k] == Info(rows[i].ttl, rows[i].hc);
      assert rows[i].ip in store;
    }
  }

  lemma ReplayPublishesRows<N, M>(s: State<N, M>, rows: seq<Entry>, job: nat, tree: Version<N, Info>)
    requires Enabled(s, Replay(rows, job, tree))
    ensures KnownTo(Apply(s, Replay(rows, job, tree))) == Replayed(rows)
  {
    hide Leaves, Pruned, Replayed, Reclaim.Enabled;
  }

  lemma ReadListsStore<N, M>(s: State<N, M>, rows: seq<Entry>)
    requires Enabled(s, StoreRead(rows))
    ensures ListsStore(rows, s.store)
  {}

  // A replay leaves a /24 known exactly if the store named it when the rows were read, whatever has been learned,
  // announced or stored since.
  lemma ReplayKeepsExactly<N, M>(states: seq<State<N, M>>, events: seq<Event<N, M>>, i: nat, j: nat,
                                 rows: seq<Entry>, job: nat, tree: Version<N, Info>, k: Path)
    requires Run(states, events) && i < j < |events|
    requires events[i] == StoreRead(rows) && events[j] == Replay(rows, job, tree)
    ensures k in KnownTo(states[j + 1]) <==> Names(states[i].store, k)
    ensures k in KnownTo(states[j + 1]) ==>
              exists ip :: ip in states[i].store && Key(ip) == k && KnownTo(states[j + 1])[k] == states[i].store[ip]
  {
    hide Init, Enabled, Apply, KnownTo, ListsStore, Replayed, Key, Names;
    assert Enabled(states[i], events[i]) && Enabled(states[j], events[j]);
    assert states[j + 1] == Apply(states[j], events[j]);
    ReadListsStore(states[i], rows);
    ReplayPublishesRows(states[j], rows, job, tree);
    RowsNameStore(rows, states[i].store, k);
  }

  // The replay forgets nothing exactly if the store named, when the rows were read, all that is known when they
  // are replayed.
  lemma ReplayForgetsNothing<N, M>(states: seq<State<N, M>>, events: seq<Event<N, M>>, i: nat, j: nat,
                                   rows: seq<Entry>, job: nat, tree: Version<N, Info>)
    requires Run(states, events) && i < j < |events|
    requires events[i] == StoreRead(rows) && events[j] == Replay(rows, job, tree)
    ensures KnownTo(states[j]).Keys <= KnownTo(states[j + 1]).Keys <==>
            forall k | k in KnownTo(states[j]) :: Names(states[i].store, k)
  {
    hide Init, Enabled, Apply, KnownTo, Names;
    forall k ensures k in KnownTo(states[j + 1]) <==> Names(states[i].store, k) {
      ReplayKeepsExactly(states, events, i, j, rows, job, tree, k);
    }
  }

  // So rows that were read while nothing was on its way to the store keep, whenever they are replayed, every /24
  // that was known when they were read.
  lemma ReplayNeverForgets<N, M>(states: seq<State<N, M>>, events: seq<Event<N, M>>, i: nat, j: nat,
                                 rows: seq<Entry>, job: nat, tree: Version<N, Info>, k: Path)
    requires Run(states, events) && i < j < |events|
    requires events[i] == StoreRead(rows) && events[j] == Replay(rows, job, tree)
    requires states[i].outbox == multiset{} && k in KnownTo(states[i])
    ensures k in KnownTo(states[j + 1])
  {
    hide Init, Enabled, Apply, KnownTo, Key;
    KnownIsBacked(states, events, i, k);
    ReplayKeepsExactly(states, events, i, j, rows, job, tree, k);
  }

  // ---------------------------------------------------------------------------
  // Draining the queue

  // The tasks that workers ran, in the order in which they got the mutex.
  ghost function WorkOrder<N, M>(events: seq<Event<N, M>>): seq<Sighting> {
    if events == [] then []
    else
      var n := |events| - 1;
      WorkOrder(events[..n]) + if events[n].Work? then [events[n].sighting] else []
  }

  // The tasks that learn hooks queued.
  ghost function Queued<N, M>(events: seq<Event<N, M>>): seq<Sighting> {
    if events == [] then []
    else
      var n := |events| - 1;
      Queued(events[..n]) + if events[n].LearnEnqueue? then [events[n].sighting] else []
  }

  ghost predicate HasRoot<N, M>(s: State<N, M>) {
    s.hcf.published != map[]
  }

  lemma WorkOrderStep<N, M>(events: seq<Event<N, M>>, i: nat, j: nat)
    requires i < j <= |events|
    ensures WorkOrder(events[i..j]) ==
            if events[j - 1].Work? then WorkOrder(events[i..j - 1]) + [events[j - 1].sighting]
            else WorkOrder(events[i..j - 1])
  {
    assert events[i..j][..j - 1 - i] == events[i..j - 1];
  }

  lemma QueuedStep<N, M>(events: seq<Event<N, M>>, i: nat, j: nat)
    requires i < j <= |events|
    ensures Queued(events[i..j]) ==
            if events[j - 1].LearnEnqueue? then Queued(events[i..j - 1]) + [events[j - 1].sighting]
            else Queued(events[i..j - 1])
  {
    assert events[i..j][..j - 1 - i] == events[i..j - 1];
  }

  lemma NothingDrained<N, M>(known: Known, events: seq<Event<N, M>>)
    requires events == []
    ensures WorkOrder(events) == [] == Queued(events) && Drained(known, WorkOrder(events)) == known
  {}

  lemma DrainedStep(known: Known, order: seq<Sighting>, t: Sighting)
    ensures Drained(known, order + [t]) == Drained(known, order)[Key(t.ip) := Learned(t.ttl)]
  {}

  lemma WorkStep<N, M>(s: State<N, M>, t: Sighting, names: seq<N>)
    requires Inv(s) && Enabled(s, Work(t, names)) && HasRoot(s)
    ensures var s' := Apply(s, Work(t, names));
            HasRoot(s') && KnownTo(s') == KnownTo(s)[Key(t.ip) := Learned(t.ttl)]
  {
    hide Inv, Worked, Key, Learned, Reclaim.Enabled, Rcu.Walk;
    RootOfPublished(s);
    WorkUpdates(s, t, names);
    LeavesOfNothing(Worked(s, t, names).hcf.published, Key(t.ip));
  }

  lemma RootOfPublished<N, M>(s: State<N, M>)
    requires Inv(s) && HasRoot(s)
    ensures s.hcf.root.Some?
  {}

  lemma LeavesOfNothing<N>(v: Version<N, Info>, k: Path)
    requires k in Leaves(v, KEY_BITS)
    ensures v != map[]
  {}

  // Every other step that is not a replay leaves the map alone.
  lemma NoWorkStep<N, M>(s: State<N, M>, e: Event<N, M>)
    requires Inv(s) && Enabled(s, e) && !e.Work? && !e.Replay?
    ensures Apply(s, e).hcf.published == s.hcf.published
  {
    hide Inv, Enabled, Apply;
    match e
    case OfPacket(id, step) => PacketStepKeepsTries(s, id, step);
    case LoadBogon(_, _, _) => BogonWritersKeepHcf(s, e);
    case BogonBackground(_) => BogonWritersKeepHcf(s, e);
    case HcfBackground(b) => BackgroundKeepsPublished(s, b);
    case _ => LearningKeepsJobs(s, e);
  }

  lemma PacketStepKeepsTries<N, M>(s: State<N, M>, id: nat, e: PacketEvent)
    requires Inv(s) && Enabled(s, OfPacket(id, e))
    ensures Apply(s, OfPacket(id, e)).hcf.published == s.hcf.published
  {
    hide Inv, PacketEnabled, PacketApply;
    PacketKeepsTries(s, id, e);
  }

  lemma BogonWritersKeepHcf<N, M>(s: State<N, M>, e: Event<N, M>)
    requires Enabled(s, e) && (e.LoadBogon? || e.BogonBackground?)
    ensures Apply(s, e).hcf == s.hcf
  {
    hide Enabled, Reclaim.Apply, Reclaim.Enabled;
  }

  lemma BackgroundKeepsPublished<N, M>(s: State<N, M>, b: Reclaim.Event<N, Info>)
    requires Enabled(s, HcfBackground(b))
    ensures Apply(s, HcfBackground(b)).hcf.published == s.hcf.published
  {
    hide Reclaim.Apply, Reclaim.Enabled;
    ReaderStepsKeepPublished(s.hcf, b);
  }

  lemma ReplayedHasRoot<N, M>(s: State<N, M>, e: Event<N, M>)
    requires Enabled(s, e) && e.Replay?
    ensures HasRoot(Apply(s, e))
  {
    hide Reclaim.Enabled, Leaves, Closure, Replayed;
    assert [] in e.tree;
  }

  // The trie always has a root.
  lemma {:induction false} AlwaysRooted<N, M>(states: seq<State<N, M>>, events: seq<Event<N, M>>, i: nat)
    requires Run(states, events) && i < |states|
    ensures HasRoot(states[i])
  {
    hide Inv, Enabled, Apply;
    if i > 0 {
      var s, e := states[i - 1], events[i - 1];
      AlwaysRooted(states, events, i - 1);
      RunOk(states, events, i - 1);
      if e.Replay? {
        ReplayedHasRoot(s, e);
      } else if e.Work? {
        WorkStep(s, e.sighting, e.names);
      } else {
        NoWorkStep(s, e);
      }
    }
  }

  // Between replays the map is what the executed work makes of it, item by item, whatever else goes on.
  lemma {:induction false} WorkDrains<N, M>(states: seq<State<N, M>>, events: seq<Event<N, M>>, i: nat, j: nat)
    requires Run(states, events) && i <= j < |states|
    requires forall l | i <= l < j :: !events[l].Replay?
    ensures KnownTo(states[j]) == Drained(KnownTo(states[i]), WorkOrder(events[i..j]))
    decreases j
  {
    hide Inv, Enabled, Apply, Init, KnownTo, Key, Learned, HasRoot, WorkOrder, Drained;
    if i < j {
      var s, e := states[j - 1], events[j - 1];
      WorkDrains(states, events, i, j - 1);
      RunOk(states, events, j - 1);
      WorkOrderStep(events, i, j);
      if e.Work? {
        AlwaysRooted(states, events, j - 1);
        WorkStep(s, e.sighting, e.names);
        DrainedStep(KnownTo(states[i]), WorkOrder(events[i..j - 1]), e.sighting);
      } else {
        NoWorkStep(s, e);
        SamePublishedSameKnown(s, states[j]);
      }
    } else {
      NothingDrained(KnownTo(states[i]), events[i..j]);
    }
  }

  lemma SamePublishedSameKnown<N, M>(s: State<N, M>, s': State<N, M>)
    requires s'.hcf.published == s.hcf.published
    ensures KnownTo(s') == KnownTo(s)
  {}

  // Learn hooks add tasks, workers take them, and nothing else touches the queue.
  lemma TasksStep<N, M>(s: State<N, M>, e: Event<N, M>)
    requires Enabled(s, e)
    ensures Apply(s, e).tasks ==
            if e.LearnEnqueue? then s.tasks + multiset{e.sighting}
            else if e.Work? then s.tasks - multiset{e.sighting}
            else s.tasks
    ensures e.Work? ==> e.sighting in s.tasks
  {
    hide PacketEnabled, PacketApply, Reclaim.Apply, Reclaim.Enabled, Leaves, ListsStore, Rcu.Walk;
    if e.OfPacket? {
      PacketLeavesRest(s, e.id, e.step);
    }
  }

  lemma Balance<T>(start: multiset<T>, now: multiset<T>, gone: seq<T>, come: seq<T>, t: T)
    requires now + multiset(gone) == start + multiset(come) && t in now
    ensures now - multiset{t} + multiset(gone + [t]) == start + multiset(come)
  {
    assert multiset(gone + [t]) == multiset(gone) + multiset{t};
    assert now - multiset{t} + multiset{t} == now;
    assert now - multiset{t} + (multiset(gone) + multiset{t}) == (now - multiset{t} + multiset{t}) + multiset(gone);
  }

  // One step of a balance: more comes, or one thing that is here goes.
  lemma Conserved<T>(start: multiset<T>, now: multiset<T>, gone: seq<T>, come: seq<T>, more: seq<T>, out: Option<T>,
                     now': multiset<T>, gone': seq<T>, come': seq<T>)
    requires now + multiset(gone) == start + multiset(come) && come' == come + more
    requires out.None? ==> gone' == gone && now' == now + multiset(more)
    requires out.Some? ==> more == [] && out.value in now && gone' == gone + [out.value]
                           && now' == now - multiset{out.value}
    ensures now' + multiset(gone') == start + multiset(come')
  {
    if out.Some? {
      assert come' == come;
      Balance(start, now, gone, come, out.value);
    } else {
      assert multiset(come + more) == multiset(come) + multiset(more);
      assert now + multiset(more) + multiset(gone) == now + multiset(gone) + multiset(more);
      assert start + multiset(come) + multiset(more) == start + (multiset(come) + multiset(more));
    }
  }

  // No task is lost or run twice: what is queued in the end, together with what was run, is what was queued in the
  // beginning, together with what was added.
  lemma {:induction false} TasksConserved<N, M>(states: seq<State<N, M>>, events: seq<Event<N, M>>, i: nat, j: nat)
    requires Run(states, events) && i <= j < |states|
    ensures states[j].tasks + multiset(WorkOrder(events[i..j])) == states[i].tasks + multiset(Queued(events[i..j]))
    decreases j
  {
    hide Enabled, Apply, Init, WorkOrder, Queued, Drained;
    if i < j {
      TasksConserved(states, events, i, j - 1);
      WorkOrderStep(events, i, j);
      QueuedStep(events, i, j);
      TasksStep(states[j - 1], events[j - 1]);
      var e, order, queued := events[j - 1], WorkOrder(events[i..j - 1]), Queued(events[i..j - 1]);
      Conserved(states[i].tasks, states[j - 1].tasks, order, queued,
                if e.LearnEnqueue? then [e.sighting] else [], if e.Work? then Some(e.sighting) else None,
                states[j].tasks, WorkOrder(events[i..j]), Queued(events[i..j]));
    } else {
      NothingDrained(map[], events[i..j]);
    }
  }

  // Whenever the queue is empty, the /24s known are those known at any earlier moment since the last replay, those
  // of the work queued then and those of the work queued since, in whatever order it was done, and nothing else.
  lemma QueueDrained<N, M>(states: seq<State<N, M>>, events: seq<Event<N, M>>, i: nat, j: nat)
    requires Run(states, events) && i <= j < |states| && states[j].tasks == multiset{}
    requires forall l | i <= l < j :: !events[l].Replay?
    ensures KnownTo(states[j]).Keys ==
            KnownTo(states[i]).Keys + KeysOf(states[i].tasks + multiset(Queued(events[i..j])))
  {
    hide Inv, Enabled, Apply, Init, KnownTo, Drained;
    WorkDrains(states, events, i, j);
    TasksConserved(states, events, i, j);
    DrainedKeys(KnownTo(states[i]), WorkOrder(events[i..j]));
  }
}
