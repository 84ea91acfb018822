// The state of the filter as its past tells it: the flag, the list, the store, the learn hooks under way, the
// announcements under way and the rows under way are determined by the events of a run.
module FirewallHistory {
  import opened Bits
  import opened Trie
  import opened Bogon
  import opened HopCount
  import opened Firewall
  import opened FirewallSafety
  import opened FirewallRuns
  import Rcu
  import Reclaim

  // ---------------------------------------------------------------------------
  // The attack flag and the prefix list

  lemma ModeStep<N, M>(s: State<N, M>, e: Event<N, M>)
    requires Enabled(s, e)
    ensures Apply(s, e).attack == if e.SetAttack? then e.value else s.attack
    ensures Apply(s, e).loaded == if e.LoadBogon? then Some(e.list) else s.loaded
  {
    hide PacketEnabled, PacketApply, Reclaim.Apply, Reclaim.Enabled, Leaves, ListsStore, Rcu.Walk;
    if e.OfPacket? {
      PacketLeavesRest(s, e.id, e.step);
    }
  }

  lemma AtFirst<N, M>(s: State<N, M>)
    requires Init(s)
    ensures !s.attack && s.loaded == None && s.store == map[] && s.replays == multiset{} && s.base == {}
  {
    hide Reclaim.Init;
  }

  // The flag is what the last command made it, and clear before the first: event l is the last command before
  // state j, or l is -1 and there has been none.
  lemma {:induction false} FlagOfRun<N, M>(states: seq<State<N, M>>, events: seq<Event<N, M>>, l: int, j: nat)
    requires Run(states, events) && j < |states| && (l == -1 || 0 <= l < j)
    requires (l >= 0 ==> events[l].SetAttack?) && forall m | l < m < j :: !events[m].SetAttack?
    ensures states[j].attack == if l < 0 then false else events[l].value
    decreases j
  {
    hide Enabled, Apply, Init;
    if j == 0 {
      AtFirst(states[0]);
    } else {
      ModeStep(states[j - 1], events[j - 1]);
      if l < j - 1 {
        FlagOfRun(states, events, l, j - 1);
      }
    }
  }

  // The list is that of the last load, and there is none before the first.
  lemma {:induction false} ListOfRun<N, M>(states: seq<State<N, M>>, events: seq<Event<N, M>>, l: int, j: nat)
    requires Run(states, events) && j < |states| && (l == -1 || 0 <= l < j)
    requires (l >= 0 ==> events[l].LoadBogon?) && forall m | l < m < j :: !events[m].LoadBogon?
    ensures states[j].loaded == if l < 0 then None else Some(events[l].list)
    decreases j
  {
    hide Enabled, Apply, Init;
    if j == 0 {
      AtFirst(states[0]);
    } else {
      ModeStep(states[j - 1], events[j - 1]);
      if l < j - 1 {
        ListOfRun(states, events, l, j - 1);
      }
    }
  }

  // ---------------------------------------------------------------------------
  // The store

  ghost predicate Delivers<N, M>(e: Event<N, M>, ip: Word) {
    e.Deliver? && e.announcement.ip == ip
  }

  lemma StoreStep<N, M>(s: State<N, M>, e: Event<N, M>, ip: Word)
    requires Enabled(s, e)
    ensures ip in s.store ==> ip in Apply(s, e).store && Apply(s, e).store[ip] == s.store[ip]
    ensures ip !in s.store && Delivers(e, ip) ==>
              ip in Apply(s, e).store && Apply(s, e).store[ip] == e.announcement.info
    ensures ip !in s.store && !Delivers(e, ip) ==> ip !in Apply(s, e).store
  {
    hide PacketEnabled, PacketApply, Reclaim.Apply, Reclaim.Enabled, Leaves, ListsStore, Rcu.Walk;
    if e.OfPacket? {
      PacketLeavesRest(s, e.id, e.step);
    }
  }

  // What is stored for an address stays.
  lemma {:induction false} StoreKeeps<N, M>(states: seq<State<N, M>>, events: seq<Event<N, M>>, i: nat, j: nat,
                                            ip: Word)
    requires Run(states, events) && i <= j < |states| && ip in states[i].store
    ensures ip in states[j].store && states[j].store[ip] == states[i].store[ip]
    decreases j
  {
    hide Enabled, Apply, Init;
    if i < j {
      StoreKeeps(states, events, i, j - 1, ip);
      StoreStep(states[j - 1], events[j - 1], ip);
    }
  }

  // An address is stored exactly if it has been delivered, and with what the first delivery said: event l is the
  // first delivery before state j, or l is -1 and there has been none.
  lemma {:induction false} StoreIsFirstDelivery<N, M>(states: seq<State<N, M>>, events: seq<Event<N, M>>, l: int,
                                                      j: nat, ip: Word)
    requires Run(states, events) && j < |states| && (l == -1 || (0 <= l < j && Delivers(events[l], ip)))
    requires forall m | 0 <= m < (if l < 0 then j else l) :: !Delivers(events[m], ip)
    ensures if l < 0 then ip !in states[j].store
            else ip in states[j].store && states[j].store[ip] == events[l].announcement.info
    decreases j
  {
    hide Enabled, Apply, Init, Delivers;
    if j == 0 {
      AtFirst(states[0]);
    } else {
      StoreStep(states[j - 1], events[j - 1], ip);
      StoreIsFirstDelivery(states, events, if l < j - 1 then l else -1, j - 1, ip);
    }
  }

  // ---------------------------------------------------------------------------
  // Learn hooks

  // The packets whose learn hook read the flag as clear.
  ghost function Noticed<N, M>(states: seq<State<N, M>>, events: seq<Event<N, M>>, i: nat, j: nat): seq<Sighting>
    requires i <= j <= |events| < |states|
    decreases j
  {
    if i == j then []
    else
      Noticed(states, events, i, j - 1) + NoticedOf(states[j - 1], events[j - 1])
  }

  lemma HooksStep<N, M>(s: State<N, M>, e: Event<N, M>)
    requires Enabled(s, e)
    ensures Apply(s, e).hooks ==
            if e.LearnEnqueue? then s.hooks - multiset{e.sighting} else s.hooks + multiset(NoticedOf(s, e))
    ensures e.LearnEnqueue? ==> e.sighting in s.hooks && NoticedOf(s, e) == []
  {
    hide PacketEnabled, PacketApply, Reclaim.Apply, Reclaim.Enabled, Leaves, ListsStore, Rcu.Walk;
    if e.OfPacket? {
      PacketLeavesRest(s, e.id, e.step);
    }
  }

  ghost function NoticedOf<N, M>(s: State<N, M>, e: Event<N, M>): seq<Sighting> {
    if e.LearnRead? && !s.attack then [e.sighting] else []
  }

  // The hooks under way are those that read the flag as clear and have not queued their task yet.
  lemma {:induction false} HooksConserved<N, M>(states: seq<State<N, M>>, events: seq<Event<N, M>>, i: nat, j: nat)
    requires Run(states, events) && i <= j < |states|
    ensures states[j].hooks + multiset(Queued(events[i..j])) ==
            states[i].hooks + multiset(Noticed(states, events, i, j))
    decreases j
  {
    hide Enabled, Apply, Init, Queued, NoticedOf;
    if i < j {
      var s, e := states[j - 1], events[j - 1];
      HooksConserved(states, events, i, j - 1);
      QueuedStep(events, i, j);
      HooksStep(s, e);
      Conserved(states[i].hooks, s.hooks, Queued(events[i..j - 1]), Noticed(states, events, i, j - 1), NoticedOf(s, e),
                if e.LearnEnqueue? then Some(e.sighting) else None,
                states[j].hooks, Queued(events[i..j]), Noticed(states, events, i, j));
    } else {
      NothingDrained(map[], events[i..j]);
    }
  }

  // Under attack no hook starts to learn.
  lemma {:induction false} NobodyNotices<N, M>(states: seq<State<N, M>>, events: seq<Event<N, M>>, i: nat, j: nat)
    requires i <= j <= |events| < |states| && forall l | i <= l < j :: states[l].attack
    ensures Noticed(states, events, i, j) == []
    decreases j
  {
    if i < j {
      NobodyNotices(states, events, i, j - 1);
    }
  }

  lemma NoLearningUnderAttack<N, M>(states: seq<State<N, M>>, events: seq<Event<N, M>>, i: nat, j: nat)
    requires Run(states, events) && i <= j < |states| && forall l | i <= l < j :: states[l].attack
    ensures states[j].hooks + multiset(Queued(events[i..j])) == states[i].hooks
  {
    hide Enabled, Apply, Init, Queued;
    HooksConserved(states, events, i, j);
    NobodyNotices(states, events, i, j);
  }

  // ---------------------------------------------------------------------------
  // Announcements

  // What workers announce: each /24 that was unknown when its task was run.
  ghost function News<N, M>(states: seq<State<N, M>>, events: seq<Event<N, M>>, i: nat, j: nat): seq<Announcement>
    requires i <= j <= |events| < |states|
    decreases j
  {
    if i == j then []
    else News(states, events, i, j - 1) + NewsOf(states[j - 1], events[j - 1])
  }

  ghost function NewsOf<N, M>(s: State<N, M>, e: Event<N, M>): seq<Announcement> {
    if e.Work? && Key(e.sighting.ip) !in KnownTo(s)
    then [Announcement(e.sighting.ip, Info(e.sighting.ttl, HopsTravelled(e.sighting.ttl)))]
    else []
  }

  ghost function Received<N, M>(events: seq<Event<N, M>>): seq<Announcement> {
    if events == [] then []
    else
      var n := |events| - 1;
      Received(events[..n]) + if events[n].Deliver? then [events[n].announcement] else []
  }

  lemma ReceivedStep<N, M>(events: seq<Event<N, M>>, i: nat, j: nat)
    requires i < j <= |events|
    ensures Received(events[i..j]) ==
            if events[j - 1].Deliver? then Received(events[i..j - 1]) + [events[j - 1].announcement]
            else Received(events[i..j - 1])
  {
    assert events[i..j][..j - 1 - i] == events[i..j - 1];
  }

  lemma WorkOutbox<N, M>(s: State<N, M>, t: Sighting, names: seq<N>)
    requires Inv(s) && Enabled(s, Work(t, names)) && HasRoot(s)
    ensures Apply(s, Work(t, names)).outbox == s.outbox + multiset(NewsOf(s, Work(t, names)))
  {
    hide Inv, Key, Reclaim.Enabled, Reclaim.Apply, Rcu.Walk, KnownTo, HopsTravelled;
    RootOfPublished(s);
    WorkUpdates(s, t, names);
  }

  lemma OutboxStep<N, M>(s: State<N, M>, e: Event<N, M>)
    requires Enabled(s, e) && !e.Work?
    ensures Apply(s, e).outbox == if e.Deliver? then s.outbox - multiset{e.announcement} else s.outbox
    ensures e.Deliver? ==> e.announcement in s.outbox
  {
    hide PacketEnabled, PacketApply, Reclaim.Apply, Reclaim.Enabled, Leaves, ListsStore;
    if e.OfPacket? {
      PacketLeavesRest(s, e.id, e.step);
    }
  }

  // No announcement is lost, made up or delivered twice.
  lemma {:induction false} NewsConserved<N, M>(states: seq<State<N, M>>, events: seq<Event<N, M>>, i: nat, j: nat)
    requires Run(states, events) && i <= j < |states|
    ensures states[j].outbox + multiset(Received(events[i..j])) ==
            states[i].outbox + multiset(News(states, events, i, j))
    decreases j
  {
    hide Enabled, Apply, Init, Inv, Received, NewsOf, HasRoot, Key, HopsTravelled;
    if i < j {
      var s, e := states[j - 1], events[j - 1];
      NewsConserved(states, events, i, j - 1);
      RunOk(states, events, j - 1);
      AlwaysRooted(states, events, j - 1);
      ReceivedStep(events, i, j);
      NewsStep(s, e);
      Conserved(states[i].outbox, s.outbox, Received(events[i..j - 1]), News(states, events, i, j - 1), NewsOf(s, e),
                if e.Deliver? then Some(e.announcement) else None,
                states[j].outbox, Received(events[i..j]), News(states, events, i, j));
    } else {
      assert events[i..j] == [];
      NothingReceived(events[i..j]);
    }
  }

  lemma NewsStep<N, M>(s: State<N, M>, e: Event<N, M>)
    requires Inv(s) && Enabled(s, e) && HasRoot(s)
    ensures Apply(s, e).outbox ==
            if e.Deliver? then s.outbox - multiset{e.announcement} else s.outbox + multiset(NewsOf(s, e))
    ensures e.Deliver? ==> e.announcement in s.outbox && NewsOf(s, e) == []
  {
    hide Enabled, Apply, Inv, HasRoot, Key, KnownTo;
    if e.Work? {
      WorkOutbox(s, e.sighting, e.names);
    } else {
      OutboxStep(s, e);
    }
  }

  lemma NothingReceived<N, M>(events: seq<Event<N, M>>)
    requires events == []
    ensures Received(events) == []
  {}

  ghost function CountOf(news: seq<Announcement>, k: Path): nat {
    if news == [] then 0
    else
      var n := |news| - 1;
      CountOf(news[..n], k) + if Key(news[n].ip) == k then 1 else 0
  }

  lemma CountAppend(news: seq<Announcement>, more: seq<Announcement>, k: Path)
    requires |more| <= 1
    ensures CountOf(news + more, k) == CountOf(news, k) + if |more| == 1 && Key(more[0].ip) == k then 1 else 0
  {
    hide Key;
    if |more| == 1 {
      assert (news + more)[..|news|] == news;
    } else {
      assert news + more == news;
    }
  }

  // Between two replays each /24 that becomes known is announced exactly once, and no other is.
  lemma {:induction false} EachNewsOnce<N, M>(states: seq<State<N, M>>, events: seq<Event<N, M>>, i: nat, j: nat,
                                              k: Path)
    requires Run(states, events) && i <= j < |states| && forall l | i <= l < j :: !events[l].Replay?
    ensures CountOf(News(states, events, i, j), k) ==
            if k in KnownTo(states[j]) && k !in KnownTo(states[i]) then 1 else 0
    ensures k in KnownTo(states[i]) ==> k in KnownTo(states[j])
    decreases j
  {
    hide Enabled, Apply, Init, Inv, Key, KnownTo;
    if i < j {
      var s, e := states[j - 1], events[j - 1];
      EachNewsOnce(states, events, i, j - 1, k);
      RunOk(states, events, j - 1);
      CountAppend(News(states, events, i, j - 1), NewsOf(s, e), k);
      if e.Work? {
        AlwaysRooted(states, events, j - 1);
        WorkStep(s, e.sighting, e.names);
      } else {
        NoWorkStep(s, e);
        SamePublishedSameKnown(s, states[j]);
      }
    }
  }

  lemma ReplaySetsBase<N, M>(s: State<N, M>, e: Event<N, M>)
    requires Enabled(s, e) && e.Replay?
    ensures Apply(s, e).base == KnownTo(Apply(s, e)).Keys
  {
    hide Enabled, Reclaim.Enabled, Leaves, Replayed, Pruned, Rcu.CellsOf;
  }

  lemma BaseStep<N, M>(s: State<N, M>, e: Event<N, M>)
    requires Enabled(s, e)
    ensures Apply(s, e).base == if e.Replay? then KnownTo(Apply(s, e)).Keys else s.base
  {
    hide PacketEnabled, PacketApply, Reclaim.Apply, Reclaim.Enabled, Leaves, ListsStore, Rcu.Walk, Replayed, Pruned,
         KnownTo;
    if e.OfPacket? {
      PacketLeavesRest(s, e.id, e.step);
    } else if e.Replay? {
      ReplaySetsBase(s, e);
    }
  }

  // What counts as known before: the keys known right after the last replay, or none.
  lemma {:induction false} BaseOfRun<N, M>(states: seq<State<N, M>>, events: seq<Event<N, M>>, l: int, j: nat)
    requires Run(states, events) && j < |states| && (l == -1 || 0 <= l < j)
    requires (l >= 0 ==> events[l].Replay?) && forall m | l < m < j :: !events[m].Replay?
    ensures states[j].base == if l < 0 then {} else KnownTo(states[l + 1]).Keys
    decreases j
  {
    hide Enabled, Apply, Init, KnownTo;
    if j == 0 {
      AtFirst(states[0]);
    } else {
      BaseStep(states[j - 1], events[j - 1]);
      if l < j - 1 {
        BaseOfRun(states, events, l, j - 1);
      }
    }
  }

  // ---------------------------------------------------------------------------
  // Rows under way

  ghost function RowsRead<N, M>(events: seq<Event<N, M>>): seq<seq<Entry>> {
    if events == [] then []
    else
      var n := |events| - 1;
      RowsRead(events[..n]) + if events[n].StoreRead? then [events[n].rows] else []
  }

  ghost function RowsReplayed<N, M>(events: seq<Event<N, M>>): seq<seq<Entry>> {
    if events == [] then []
    else
      var n := |events| - 1;
      RowsReplayed(events[..n]) + if events[n].Replay? then [events[n].rows] else []
  }

  lemma RowsStep<N, M>(s: State<N, M>, e: Event<N, M>)
    requires Enabled(s, e)
    ensures Apply(s, e).replays ==
            if e.StoreRead? then s.replays + multiset{e.rows}
            else if e.Replay? then s.replays - multiset{e.rows}
            else s.replays
    ensures e.Replay? ==> e.rows in s.replays
  {
    hide PacketEnabled, PacketApply, Reclaim.Apply, Reclaim.Enabled, Leaves, ListsStore, Rcu.Walk, Replayed, Pruned;
    if e.OfPacket? {
      PacketLeavesRest(s, e.id, e.step);
    }
  }

  // Rows are replayed as they were read, and each reading at most once.
  lemma {:induction false} RowsConserved<N, M>(states: seq<State<N, M>>, events: seq<Event<N, M>>, j: nat)
    requires Run(states, events) && j < |states|
    ensures states[j].replays + multiset(RowsReplayed(events[..j])) == multiset(RowsRead(events[..j]))
  {
    hide Enabled, Apply, Init;
    AtFirst(states[0]);
    if j > 0 {
      RowsConserved(states, events, j - 1);
      RowsStep(states[j - 1], events[j - 1]);
      assert events[..j][..j - 1] == events[..j - 1];
    }
  }
}
