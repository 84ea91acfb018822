// The two netfilter hooks (kernel/src/hooks.c), the mode flag they consult (kernel/src/state.c) and the work
// that the learn hook queues (kernel/src/hcf.c), as code over the two tries.
module Hooks {
  import opened Bits
  import opened Trie
  import opened Bogon
  import opened BogonTree
  import opened HopCount
  import opened HcfTree
  import opened Firewall
  import FirewallRuns

  // struct lfw_state
  class LfwState {
    var underAttack: bool

    constructor (underAttack: bool)
      ensures this.underAttack == underAttack
    {
      this.underAttack := underAttack;
    }

    constructor CopyOf(model: LfwState)
      ensures underAttack == model.underAttack
    {
      underAttack := model.underAttack;
    }
  }

  // The published state object; a change swaps in a changed copy and never writes a published one.
  class Mode {
    var state: LfwState
    var callbacks: seq<LfwState>  // handed to kfree_rcu

    // lfw_init_state
    constructor ()
      ensures fresh(state) && !state.underAttack && callbacks == []
    {
      state := new LfwState(false);
      callbacks := [];
    }

    // lfw_state_is_under_attack
    method IsUnderAttack() returns (result: bool)
      ensures result == state.underAttack
    {
      var st := state;
      result := st.underAttack;
    }

    // lfw_state_set_under_attack
    method SetUnderAttack(newValue: bool)
      modifies this
      ensures fresh(state) && state.underAttack == newValue
      ensures callbacks == old(callbacks) + [old(state)] && unchanged(old(state))
    {
      var oldState := state;
      var newState := new LfwState.CopyOf(oldState);
      newState.underAttack := newValue;
      state := newState;
      callbacks := callbacks + [oldState];
    }
  }

  lemma TreeIsAllocated(b: BgState)
    ensures forall n | n in Nodes(b.version) :: allocated(n)
  {
    assert forall p | p in b.version :: allocated(b.version[p].node);
  }

  twostate lemma BogonsKept(b: BgState)
    requires old(b.Valid()) && unchanged(b) && unchanged(b.tree) && forall n | n in Nodes(b.version) :: unchanged(n)
    ensures b.Valid()
  {
    hide IsTree, Loaded;
  }

  // What a worker does with its task, and what it tells the listeners.
  method Register(hcf: HcfState, task: Sighting) returns (said: seq<Announcement>)
    requires hcf.Valid()
    modifies hcf
    ensures hcf.Valid()
    ensures old(hcf.tree) == null ==> unchanged(hcf) && said == []
    ensures old(hcf.tree) != null ==>
              && hcf.Contents() == old(hcf.Contents())[Key(task.ip) := Learned(task.ttl)]
              && said == if Key(task.ip) in old(hcf.Contents()) then [] else [Announcement(task.ip, Learned(task.ttl))]
  {
    hide Key, Leaves, HcfTree.Worked, HcfTree.Publishes, HcfTree.Depicts, HcfState.Valid;
    var created, announced, _, _ := hcf.RegisterIpWork(task.ip, task.ttl);
    said := [];
    if announced.Some? {
      said := [Announcement(announced.value.0, Info(announced.value.1, announced.value.2))];
    }
  }

  // struct hcf_add_node_task on the unbound workqueue is a Sighting in `queue`.
  class Filter {
    const mode: Mode
    const bogons: BgState
    const hcf: HcfState
    var queue: multiset<Sighting>
    var outbox: seq<Announcement>

    ghost predicate Valid()
      reads this, mode, mode.state, bogons, bogons.tree, Nodes(bogons.version), hcf, Nodes(hcf.version)
    {
      bogons.Valid() && hcf.Valid()
    }

    constructor ()
      ensures Valid() && bogons.loaded == None && !mode.state.underAttack && hcf.Contents() == map[]
      ensures queue == multiset{} && outbox == []
    {
      mode := new Mode();
      bogons := new BgState();
      hcf := new HcfState();
      queue, outbox := multiset{}, [];
    }

    // lfw_filter_ipv4_hook_fn
    method FilterIpv4Hook(p: Packet) returns (drop: bool)
      requires Valid()
      ensures drop <==>
              && p.isIpv4 && p.isTcp
              && ((bogons.loaded.Some? && Covered(bogons.loaded.value, p.source))
                  || (mode.state.underAttack
                      && (Key(p.source) !in hcf.Contents()
                          || !(-2 <= HopsTravelled(p.ttl) - hcf.Contents()[Key(p.source)].hc <= 2))))
    {
      if !p.isIpv4 {
        return false;
      }
      if !p.isTcp {
        return false;
      }
      var bogon := bogons.LookupBgTree(p.source);
      if bogon > 0 {
        return true;
      }
      var underAttack := mode.IsUnderAttack();
      if underAttack {
        var hops := hcf.LookupTree(p.source, p.ttl);
        if hops < 1 {
          return true;
        }
      }
      return false;
    }

    // lfw_hc_learn_ipv4_hook_fn and hcf_register_ip; every packet is accepted.
    method LearnIpv4Hook(p: Packet)
      modifies this`queue
      ensures queue == old(queue) +
              if p.isIpv4 && p.isTcp && !mode.state.underAttack then multiset{Sighting(p.source, p.ttl)} else multiset{}
    {
      if !p.isIpv4 {
        return;
      }
      if !p.isTcp {
        return;
      }
      var underAttack := mode.IsUnderAttack();
      if underAttack {
        return;
      }
      queue := queue + multiset{Sighting(p.source, p.ttl)};
    }

    // A worker takes any queued task.
    method RunTask(task: Sighting)
      requires Valid() && task in queue
      modifies this, hcf
      ensures Valid() && queue == old(queue) - multiset{task}
      ensures old(hcf.tree) == null ==> unchanged(hcf) && outbox == old(outbox)
      ensures old(hcf.tree) != null ==> hcf.Contents() == old(hcf.Contents())[Key(task.ip) := Learned(task.ttl)]
      ensures old(hcf.tree) != null ==>
                outbox == old(outbox) +
                if Key(task.ip) in old(hcf.Contents()) then [] else [Announcement(task.ip, Learned(task.ttl))]
    {
      hide Key, Learned, BgState.Valid, HcfState.Valid, HcfState.Contents, Nodes;
      TreeIsAllocated(bogons);
      assert forall n | n in Nodes(bogons.version) :: n as object != hcf && n as object != this;
      assert forall n | n in Nodes(hcf.version) :: n as object != this;
      var said := Register(hcf, task);
      assert forall n | n in Nodes(hcf.version) :: n as object != this;
      queue, outbox := queue - multiset{task}, outbox + said;
      BogonsKept(bogons);
    }
  }
}
