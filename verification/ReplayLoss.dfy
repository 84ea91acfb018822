// How a replay makes the filter forget a /24: a run in which the rows are read before the /24 is learned, announced
// and stored, and replayed afterwards.  There is such a run for every sighting.
module ReplayLoss {
  import opened Bits
  import opened Trie
  import opened Rcu
  import opened HopCount
  import opened Firewall
  import opened FirewallSafety
  import opened FirewallRuns
  import Reclaim

  type FwState = State<nat, nat>
  type FwEvent = Event<nat, nat>

  // The new nodes are 1 to 25; the root node is 0.
  ghost function NewNodes(): (names: seq<nat>)
    ensures |names| == KEY_BITS + 1 && forall i | 0 <= i < |names| :: names[i] == i + 1
  {
    seq(KEY_BITS + 1, i => i + 1)
  }

  ghost function EmptyTree(): Version<nat, Info> {
    map[[] := Slot(KEY_BITS + 2, BLANK)]
  }

  // The rows have been read, and one task is queued.
  ghost function OneQueued(t: Sighting): FwState {
    Booted<nat, nat>(0).(replays := multiset{[]}, tasks := multiset{t})
  }

  lemma UntilQueued(t: Sighting) returns (states: seq<FwState>, events: seq<FwEvent>)
    ensures Run(states, events) && |events| == 3 && events[0] == StoreRead([]) && states[3] == OneQueued(t)
    ensures Inv(OneQueued(t))
  {
    hide Init, Inv, Worked, PacketApply, PacketEnabled, Reclaim.Apply, Reclaim.Enabled, Leaves, Pruned;
    var s0 := Booted<nat, nat>(0);
    BootedIsInit<nat, nat>(0);
    var s1 := s0.(replays := multiset{[]});
    var s2 := s1.(hooks := multiset{t});
    assert s1 == Apply(s0, StoreRead([]));
    assert s2 == Apply(s1, LearnRead(t));
    assert OneQueued(t) == Apply(s2, LearnEnqueue(t));
    states := [s0, s1, s2, OneQueued(t)];
    events := [StoreRead([]), LearnRead(t), LearnEnqueue(t)];
    RunOk(states, events, 3);
  }

  lemma NothingKnown(t: Sighting)
    ensures HasRoot(OneQueued(t)) && KnownTo(OneQueued(t)) == map[] && OneQueued(t).hcf.heap.Keys == {0}
    ensures OneQueued(t).hcf.root.Some?
  {
    hide Leaves;
    OnlyRoot(OneQueued(t).hcf.published);
  }

  lemma MayWork(t: Sighting)
    ensures Enabled(OneQueued(t), Work(t, NewNodes()))
  {
    hide Key, Learned;
    NothingKnown(t);
  }

  ghost function Announced(t: Sighting): FwState {
    MayWork(t);
    Apply(OneQueued(t), Work(t, NewNodes()))
  }

  lemma IsAnnounced(t: Sighting)
    ensures Enabled(OneQueued(t), Work(t, NewNodes())) && Announced(t) == Apply(OneQueued(t), Work(t, NewNodes()))
  {
    hide Enabled, Apply, OneQueued;
    MayWork(t);
  }

  lemma AnnouncedState(t: Sighting)
    requires Inv(OneQueued(t))
    ensures var s := Announced(t);
            && Key(t.ip) in KnownTo(s) && s.outbox == multiset{Announcement(t.ip, Learned(t.ttl))}
            && s.store == map[] && s.replays == multiset{[]}
            && s.hcf.orphans == map[] && s.hcf.heap.Keys == {0} + (set n | n in NewNodes())
  {
    hide Inv, Key, Learned, KnownTo, HasRoot, Walk, Reclaim.Enabled, Reclaim.Apply;
    MayWork(t);
    NothingKnown(t);
    WorkStep(OneQueued(t), t, NewNodes());
    WorkUpdates(OneQueued(t), t, NewNodes());
    PublicationCells(OneQueued(t).hcf, t, NewNodes());
  }

  lemma PublicationCells(h: Reclaim.State<nat, Info>, t: Sighting, names: seq<nat>)
    requires Reclaim.Enabled(h, Publication(t, names))
    ensures var h' := Reclaim.Apply(h, Publication(t, names));
            h'.orphans == h.orphans && h'.heap.Keys == h.heap.Keys + (set n | n in names)
  {
    hide Key, Learned;
    Reclaim.PublishKeys(h, Key(t.ip), Learned(t.ttl), BLANK, names);
  }

  ghost function Stored(t: Sighting): FwState {
    Announced(t).(outbox := multiset{}, store := map[t.ip := Learned(t.ttl)])
  }

  lemma StoredState(t: Sighting)
    requires Inv(OneQueued(t))
    ensures var e := Deliver(Announcement(t.ip, Learned(t.ttl)));
            Enabled(Announced(t), e) && Apply(Announced(t), e) == Stored(t)
    ensures Key(t.ip) in KnownTo(Stored(t)) && Names(Stored(t).store, Key(t.ip)) && Stored(t).outbox == multiset{}
  {
    hide Inv, Key, Learned, Announced, Worked, Leaves;
    AnnouncedState(t);
  }

  lemma MayReplay(t: Sighting)
    requires Inv(OneQueued(t))
    ensures Enabled(Stored(t), Replay([], 0, EmptyTree()))
  {
    hide Inv, Key, Learned, Announced, KnownTo;
    AnnouncedState(t);
    OnlyRoot(EmptyTree());
    assert Nodes(EmptyTree()) == {KEY_BITS + 2};
  }

  // A run of six steps in which the rows are read first and replayed last, and a /24 that is known and stored
  // when they are replayed, with nothing under way, is unknown afterwards.
  ghost predicate Forgets(states: seq<FwState>, events: seq<FwEvent>, k: Path) {
    && Run(states, events) && |events| == 6
    && events[0] == StoreRead([]) && events[5] == Replay([], 0, EmptyTree())
    && k in KnownTo(states[5]) && Names(states[5].store, k) && states[5].outbox == multiset{}
    && k !in KnownTo(states[6])
  }

  // There is such a run for the /24 of every sighting.
  lemma ReplayForgets(t: Sighting)
    ensures exists states, events :: Forgets(states, events, Key(t.ip))
  {
    hide Init, Inv, Enabled, Apply, OneQueued, Stored, Announced, KnownTo, Key, Learned, Names;
    var states, events := UntilQueued(t);
    IsAnnounced(t);
    StoredState(t);
    MayReplay(t);
    var replay: FwEvent := Replay([], 0, EmptyTree());
    ReplayPublishesRows(Stored(t), [], 0, EmptyTree());
    assert Replayed([]) == map[];
    states := states + [Announced(t), Stored(t), Apply(Stored(t), replay)];
    events := events + [Work(t, NewNodes()), Deliver(Announcement(t.ip, Learned(t.ttl))), replay];
    assert Forgets(states, events, Key(t.ip));
  }
}
