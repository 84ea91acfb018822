// The whole filter as a transition system: packets in the filter hook (kernel/src/hooks.c), the attack flag
// (kernel/src/state.c), learning, the history store and its replay (kernel/src/hcf.c, src/nl/hcf.cpp), on top
// of the two tries of Reclaim.  Every child pointer that a packet follows and every node that it reads is a step
// of its own, so loads, learning, replays, flag changes and reclamation may happen between any two of them.
module Firewall {
  import opened Bits
  import opened Trie
  import opened Rcu
  import opened Bogon
  import opened HopCount
  import Reclaim

  // ---------------------------------------------------------------------------
  // Packets in the filter hook

  datatype Packet = Packet(isIpv4: bool, isTcp: bool, source: Word, ttl: Byte)

  // What a verdict was based on: the bogon list, and the map of hop counts, that were published when the
  // respective lookup began.
  datatype Seen =
    | Ignored
    | ByBogon(list: Option<seq<Prefix>>)
    | Calm(list: Option<seq<Prefix>>)
    | ByHops(list: Option<seq<Prefix>>, known: Known)

  // `list` and `known` are history variables; no step depends on them.
  datatype Phase =
    | Arrived
    | BogonScan(reader: nat, looked: bool, list: Option<seq<Prefix>>)
    | NotBogon(list: Option<seq<Prefix>>)
    | UnderAttack(list: Option<seq<Prefix>>)
    | HopScan(reader: nat, list: Option<seq<Prefix>>, known: Known)
    | Done(drop: bool, seen: Seen)

  datatype Job = Job(packet: Packet, phase: Phase)

  // A learned /24 on its way to the store
  datatype Announcement = Announcement(ip: Word, info: Info)

  datatype State<N, M> = State(
    hcf: Reclaim.State<N, Info>,
    bogon: Reclaim.State<M, bool>,
    attack: bool,
    jobs: map<nat, Job>,
    hooks: multiset<Sighting>,           // learn hooks that have read the flag as clear
    tasks: multiset<Sighting>,           // queued work
    outbox: multiset<Announcement>,
    store: map<Word, Info>,              // the history table
    replays: multiset<seq<Entry>>,       // rows read from the store, on their way to the kernel
    // history variables
    loaded: Option<seq<Prefix>>,         // the list behind the published bogon trie
    announced: multiset<Path>,           // keys announced since the last replay
    base: set<Path>                      // keys known right after the last replay
  )

  // ---------------------------------------------------------------------------
  // Steps of a packet

  ghost function SetPhase<N, M>(s: State<N, M>, id: nat, phase: Phase): State<N, M>
    requires id in s.jobs
  {
    s.(jobs := s.jobs[id := s.jobs[id].(phase := phase)])
  }

  datatype PacketEvent =
    | Arrive(packet: Packet)
    | BogonBegin
    | BogonLook
    | BogonMove
    | BogonEnd
    | ReadFlag
    | HopBegin
    | HopMove
    | HopLook

  ghost predicate PacketEnabled<N, M>(s: State<N, M>, id: nat, e: PacketEvent) {
    match e
    case Arrive(_) => id !in s.jobs
    case BogonBegin => id in s.jobs && s.jobs[id].phase.Arrived?
    case BogonLook =>
      && id in s.jobs && s.jobs[id].phase.BogonScan? && !s.jobs[id].phase.looked
      && Reclaim.Enabled(s.bogon, Reclaim.Look(s.jobs[id].phase.reader))
    case BogonMove =>
      && id in s.jobs && s.jobs[id].phase.BogonScan? && s.jobs[id].phase.looked
      && Reclaim.Enabled(s.bogon, Reclaim.Move(s.jobs[id].phase.reader))
    case BogonEnd =>
      && id in s.jobs && s.jobs[id].phase.BogonScan? && s.jobs[id].phase.looked
      && s.jobs[id].phase.reader in s.bogon.readers
      && s.bogon.readers[s.jobs[id].phase.reader].depth == IPV4_BITS
    case ReadFlag => id in s.jobs && s.jobs[id].phase.NotBogon?
    case HopBegin => id in s.jobs && s.jobs[id].phase.UnderAttack?
    case HopMove =>
      && id in s.jobs && s.jobs[id].phase.HopScan?
      && Reclaim.Enabled(s.hcf, Reclaim.Move(s.jobs[id].phase.reader))
    case HopLook =>
      && id in s.jobs && s.jobs[id].phase.HopScan?
      && Reclaim.Enabled(s.hcf, Reclaim.Look(s.jobs[id].phase.reader))
      && s.hcf.readers[s.jobs[id].phase.reader].depth == KEY_BITS
  }

  ghost function Read<N, D>(t: Reclaim.State<N, D>, r: nat): D
    requires Reclaim.Enabled(t, Reclaim.Look(r))
  {
    t.heap[t.readers[r].cursor.value].data
  }

  ghost function EndReader<N, D>(t: Reclaim.State<N, D>, r: nat): Reclaim.State<N, D>
    requires r in t.readers
  {
    Reclaim.Apply(t, Reclaim.End(r))
  }

  ghost function PacketApply<N, M>(s: State<N, M>, id: nat, e: PacketEvent): State<N, M>
    requires PacketEnabled(s, id, e)
  {
    match e
    case Arrive(p) =>
      s.(jobs := s.jobs[id := Job(p, if p.isIpv4 && p.isTcp then Arrived else Done(false, Ignored))])
    case BogonBegin =>
      // a null root is the -1 of lfw_lookup_bg_tree, which is not a hit
      if s.bogon.root.None? then SetPhase(s, id, NotBogon(s.loaded))
      else
        SetPhase(s, id, BogonScan(s.bogon.born, false, s.loaded))
          .(bogon := Reclaim.Apply(s.bogon, Reclaim.Begin(PathOf(s.jobs[id].packet.source, IPV4_BITS))))
    case BogonLook =>
      var phase := s.jobs[id].phase;
      var t := Reclaim.Apply(s.bogon, Reclaim.Look(phase.reader));
      if Read(s.bogon, phase.reader) then
        SetPhase(s, id, Done(true, ByBogon(phase.list))).(bogon := EndReader(t, phase.reader))
      else SetPhase(s, id, phase.(looked := true)).(bogon := t)
    case BogonMove =>
      var phase := s.jobs[id].phase;
      var t := Reclaim.Apply(s.bogon, Reclaim.Move(phase.reader));
      if t.readers[phase.reader].cursor.None? then
        SetPhase(s, id, NotBogon(phase.list)).(bogon := EndReader(t, phase.reader))
      else SetPhase(s, id, phase.(looked := false)).(bogon := t)
    case BogonEnd =>
      var phase := s.jobs[id].phase;
      SetPhase(s, id, NotBogon(phase.list)).(bogon := EndReader(s.bogon, phase.reader))
    case ReadFlag =>
      var list := s.jobs[id].phase.list;
      SetPhase(s, id, if s.attack then UnderAttack(list) else Done(false, Calm(list)))
    case HopBegin =>
      var list, known := s.jobs[id].phase.list, Leaves(s.hcf.published, KEY_BITS);
      if s.hcf.root.None? then SetPhase(s, id, Done(true, ByHops(list, known)))
      else
        SetPhase(s, id, HopScan(s.hcf.born, list, known))
          .(hcf := Reclaim.Apply(s.hcf, Reclaim.Begin(Key(s.jobs[id].packet.source))))
    case HopMove =>
      var phase := s.jobs[id].phase;
      var t := Reclaim.Apply(s.hcf, Reclaim.Move(phase.reader));
      if t.readers[phase.reader].cursor.None? then
        SetPhase(s, id, Done(true, ByHops(phase.list, phase.known))).(hcf := EndReader(t, phase.reader))
      else s.(hcf := t)
    case HopLook =>
      var phase := s.jobs[id].phase;
      var info := Read(s.hcf, phase.reader);
      SetPhase(s, id, Done(Judge(s.jobs[id].packet.ttl, info.hc) < 1, ByHops(phase.list, phase.known)))
        .(hcf := EndReader(s.hcf, phase.reader))
  }

  // ---------------------------------------------------------------------------
  // Everything else

  datatype Event<N, M> =
    | OfPacket(id: nat, step: PacketEvent)
    | LearnRead(sighting: Sighting)                           // the learn hook reads the flag
    | LearnEnqueue(sighting: Sighting)
    | Work(sighting: Sighting, names: seq<N>)                 // a worker, under the mutex
    | Deliver(announcement: Announcement)
    | StoreRead(rows: seq<Entry>)
    | Replay(rows: seq<Entry>, job: nat, tree: Version<N, Info>)
    | LoadBogon(list: seq<Prefix>, job: nat, loadedTree: Version<M, bool>)
    | SetAttack(value: bool)
    | HcfBackground(hcfEvent: Reclaim.Event<N, Info>)         // call_rcu, grace periods, frees
    | BogonBackground(bogonEvent: Reclaim.Event<M, bool>)

  ghost predicate IsBackground<N, D>(e: Reclaim.Event<N, D>) {
    e.CallRcu? || e.Reclaim? || e.Synchronize? || e.FreeTree?
  }

  // The rows of the table, each once, in any order.
  ghost predicate ListsStore(rows: seq<Entry>, store: map<Word, Info>) {
    && (forall i | 0 <= i < |rows| :: rows[i].ip in store && store[rows[i].ip] == Info(rows[i].ttl, rows[i].hc))
    && (forall ip | ip in store :: exists i :: 0 <= i < |rows| && rows[i].ip == ip)
    && (forall i, j | 0 <= i < j < |rows| :: rows[i].ip != rows[j].ip)
  }

  ghost function Publication<N>(t: Sighting, names: seq<N>): Reclaim.Event<N, Info> {
    Reclaim.Publish(Key(t.ip), Learned(t.ttl), BLANK, names)
  }

  ghost predicate Enabled<N, M>(s: State<N, M>, e: Event<N, M>) {
    match e
    case OfPacket(id, step) => PacketEnabled(s, id, step)
    case LearnRead(_) => true
    case LearnEnqueue(t) => t in s.hooks
    case Work(t, names) => t in s.tasks && (s.hcf.root.Some? ==> Reclaim.Enabled(s.hcf, Publication(t, names)))
    case Deliver(a) => a in s.outbox
    case StoreRead(rows) => ListsStore(rows, s.store)
    case Replay(rows, j, t) =>
      && rows in s.replays && Pruned(t, KEY_BITS) && Leaves(t, KEY_BITS) == Replayed(rows)
      && Reclaim.Enabled(s.hcf, Reclaim.Swap(j, t))
    case LoadBogon(list, j, t) =>
      WellFormed(list) && Loaded(t, list) && Reclaim.Enabled(s.bogon, Reclaim.Swap(j, t))
    case SetAttack(_) => true
    case HcfBackground(b) => IsBackground(b) && Reclaim.Enabled(s.hcf, b)
    case BogonBackground(b) => IsBackground(b) && Reclaim.Enabled(s.bogon, b)
  }

  ghost function Worked<N, M>(s: State<N, M>, t: Sighting, names: seq<N>): State<N, M>
    requires Enabled(s, Work(t, names))
  {
    var rest := s.tasks - multiset{t};
    if s.hcf.root.None? then s.(tasks := rest)
    else
      var s' := s.(tasks := rest, hcf := Reclaim.Apply(s.hcf, Publication(t, names)));
      // nodes_created > 0: the first loop stops before the end of the path
      if Walk(s.hcf.heap, s.hcf.root, Key(t.ip), KEY_BITS).None? then
        s'.(outbox := s.outbox + multiset{Announcement(t.ip, Learned(t.ttl))},
            announced := s.announced + multiset{Key(t.ip)})
      else s'
  }

  ghost function Apply<N, M>(s: State<N, M>, e: Event<N, M>): State<N, M>
    requires Enabled(s, e)
  {
    match e
    case OfPacket(id, step) => PacketApply(s, id, step)
    case LearnRead(t) => if s.attack then s else s.(hooks := s.hooks + multiset{t})
    case LearnEnqueue(t) => s.(hooks := s.hooks - multiset{t}, tasks := s.tasks + multiset{t})
    case Work(t, names) => Worked(s, t, names)
    case Deliver(a) =>
      s.(outbox := s.outbox - multiset{a}, store := if a.ip in s.store then s.store else s.store[a.ip := a.info])
    case StoreRead(rows) => s.(replays := s.replays + multiset{rows})
    case Replay(rows, j, t) =>
      s.(replays := s.replays - multiset{rows}, hcf := Reclaim.Apply(s.hcf, Reclaim.Swap(j, t)),
         announced := multiset{}, base := Leaves(t, KEY_BITS).Keys)
    case LoadBogon(list, j, t) =>
      s.(bogon := Reclaim.Apply(s.bogon, Reclaim.Swap(j, t)), loaded := Some(list))
    case SetAttack(value) => s.(attack := value)
    case HcfBackground(b) => s.(hcf := Reclaim.Apply(s.hcf, b))
    case BogonBackground(b) => s.(bogon := Reclaim.Apply(s.bogon, b))
  }

  // After module load: an empty hop-count trie with its root node, a bogon tree without a root, no attack.
  ghost predicate Init<N, M>(s: State<N, M>) {
    && Reclaim.Init(s.hcf) && s.hcf.published.Keys == {[]}
    && Reclaim.Init(s.bogon) && s.bogon.published == map[]
    && !s.attack && s.jobs == map[] && s.hooks == s.tasks == multiset{} && s.outbox == multiset{}
    && s.store == map[] && s.replays == multiset{}
    && s.loaded == None && s.announced == multiset{} && s.base == {}
  }
}
