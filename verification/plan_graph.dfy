/** `create_configuration`: the tasks of a plan and which of them require which. */
module PlanGraph {
  import opened Strings
  import opened Wrappers

  /** A node of the deployment; `changedDisks` and `changedFs`: some disk or file system is new or updated. */
  datatype Node = Node(hostname: string, systemState: string, hasStorage: bool, disks: nat,
                       changedDisks: bool, changedFs: bool, profile: string)

  /**
   * `profiles`: the distro names of the os-profiles that are initial. `service`: the state of the
   * cobbler-service, if there is one. `newNetwork`: the management network is new or changed.
   */
  datatype Model = Model(nodes: seq<Node>, profiles: seq<string>, service: Option<string>, newNetwork: bool)

  /** A task; nodes and profiles are given by their place among the new nodes and the initial profiles. */
  datatype Task =
    | Udev(n: nat) | Lvm(n: nat) | Kickstart(n: nat) | Bootloader(n: nat) | Configure
    | Import(p: nat) | AddProfile(p: nat) | Register(n: nat) | WaitPxe(n: nat) | WaitNode(n: nat)

  /** `_new_states` */
  predicate IsNewState(state: string) {
    state in ["Initial", "Applying", "Updated"]
  }

  /** `_get_new_node_systems` */
  function NewNodes(nodes: seq<Node>): (found: seq<Node>)
    ensures forall n | n in found :: IsNewState(n.systemState)
  {
    if nodes == [] then []
    else
      var before, n := NewNodes(nodes[..|nodes| - 1]), nodes[|nodes| - 1];
      if IsNewState(n.systemState) then before + [n] else before
  }

  /** The new nodes are those in one of the three states, in model order. */
  lemma {:induction false} NewNodesExact(nodes: seq<Node>, n: Node)
    ensures multiset(NewNodes(nodes))[n] ==
      if n.systemState == "Initial" || n.systemState == "Applying" || n.systemState == "Updated"
      then multiset(nodes)[n] else 0
  {
    if nodes != [] {
      var front, last := nodes[..|nodes| - 1], nodes[|nodes| - 1];
      assert nodes == front + [last];
      NewNodesExact(front, n);
    }
  }

  /** Taking one more node into the model appends it to the new ones, or changes nothing. */
  lemma NewNodesInOrder(nodes: seq<Node>, last: Node)
    ensures NewNodes(nodes + [last]) == NewNodes(nodes) ||
            (NewNodes(nodes + [last]) == NewNodes(nodes) + [last] && last in NewNodes([last]))
  {
    assert (nodes + [last])[..|nodes|] == nodes;
    assert [last][..0] == [];
  }

  /** The condition under which the LVM snippet of a node is generated. */
  predicate HasLvmTask(n: Node) {
    n.hasStorage && (IsNewState(n.systemState) || n.changedDisks || n.changedFs) && n.disks > 0
  }

  function KickstartTasks(k: nat): (tasks: seq<Task>)
    ensures |tasks| == k && forall i | 0 <= i < k :: tasks[i] == Kickstart(i)
  {
    seq(k, i requires 0 <= i < k => Kickstart(i))
  }

  function RegisterTasks(k: nat): (tasks: seq<Task>)
    ensures |tasks| == k && forall i | 0 <= i < k :: tasks[i] == Register(i)
  {
    seq(k, i requires 0 <= i < k => Register(i))
  }

  function ProfileTasks(p: nat): seq<Task> {
    if p == 0 then [] else ProfileTasks(p - 1) + [Import(p - 1), AddProfile(p - 1)]
  }

  /** The tasks of `_generate_cobbler_records`. */
  function Records(profiles: nat, nodes: nat): seq<Task> {
    ProfileTasks(profiles) + RegisterTasks(nodes)
  }

  /** `profile_tasks.get(name)`: a later profile of the same name has replaced an earlier one. */
  function ProfileOf(profiles: seq<string>, name: string): Option<nat> {
    if profiles == [] then None
    else if profiles[|profiles| - 1] == name then Some(|profiles| - 1)
    else ProfileOf(profiles[..|profiles| - 1], name)
  }

  /** Which task requires which, when there is a service. */
  ghost predicate Requires(nodes: seq<Node>, profiles: seq<string>, a: Task, b: Task) {
    || (a.AddProfile? && b.Import? && a.p == b.p < |profiles|)
    || (a.Register? && b.AddProfile? && a.n < |nodes| && ProfileOf(profiles, nodes[a.n].profile) == Some(b.p))
    || (b.Kickstart? && b.n < |nodes| && |Records(|profiles|, |nodes|)| == |nodes|
        && a == Records(|profiles|, |nodes|)[b.n])
    || (a.WaitNode? && b.WaitPxe? && a.n == b.n < |nodes|)
  }

  /** `tasks` in the order of the returned list; `requires_` holds (a, b) when a requires b. */
  class Plan {
    var tasks: seq<Task>
    var requires_: set<(Task, Task)>

    constructor ()
      ensures tasks == [] && requires_ == {}
    {
      tasks, requires_ := [], {};
    }

    /** `_add_udev_network_tasks` and the loop that adds the LVM snippet tasks. */
    method AddSnippetTasks(nodes: seq<Node>) returns (reconfigure: bool)
      modifies this`tasks
      ensures forall t :: t in tasks <==> (t in old(tasks) || (t.Udev? && t.n < |nodes|)
                                          || (t.Lvm? && t.n < |nodes| && HasLvmTask(nodes[t.n])))
      ensures reconfigure <==> exists n | n in nodes :: n.hasStorage && Contains("Initial", n.systemState)
    {
      for i := 0 to |nodes|
        invariant forall t :: t in tasks <==> t in old(tasks) || (t.Udev? && t.n < i)
      {
        tasks := tasks + [Udev(i)];
      }
      reconfigure := false;
      for i := 0 to |nodes|
        invariant forall t :: t in tasks <==> (t in old(tasks) || (t.Udev? && t.n < |nodes|)
                                              || (t.Lvm? && t.n < i && HasLvmTask(nodes[t.n])))
        invariant reconfigure <==>
          exists k | 0 <= k < i :: nodes[k].hasStorage && Contains("Initial", nodes[k].systemState)
      {
        assert nodes[i] in nodes;
        if !nodes[i].hasStorage {
          continue;
        }
        var generate := false;
        if IsNewState(nodes[i].systemState) || nodes[i].changedDisks {
          generate := true;
        } else {
          generate := nodes[i].changedFs;
        }
        if Contains("Initial", nodes[i].systemState) {
          reconfigure := true;
        }
        if generate && nodes[i].disks > 0 {
          tasks := tasks + [Lvm(i)];
        }
      }
    }

    /** `_generate_cobbler_kickstart` */
    method MakeKickstarts(nodes: seq<Node>) returns (made: seq<Task>)
      ensures made == KickstartTasks(|nodes|)
    {
      made := [];
      for i := 0 to |nodes|
        invariant made == KickstartTasks(i)
      {
        made := made + [Kickstart(i)];
      }
    }

    /** The profile loop of `_generate_cobbler_records`. */
    method MakeProfiles(profiles: seq<string>) returns (made: seq<Task>, profileTasks: map<string, nat>)
      modifies this`requires_
      ensures made == ProfileTasks(|profiles|)
      ensures forall a, b :: (a, b) in requires_ <==>
        (a, b) in old(requires_) || (a.AddProfile? && b.Import? && a.p == b.p < |profiles|)
      ensures forall name ::
        ProfileOf(profiles, name) == if name in profileTasks then Some(profileTasks[name]) else None
    {
      made, profileTasks := [], map[];
      for i := 0 to |profiles|
        invariant made == ProfileTasks(i)
        invariant forall a, b :: (a, b) in requires_ <==>
          (a, b) in old(requires_) || (a.AddProfile? && b.Import? && a.p == b.p < i)
        invariant forall name ::
          ProfileOf(profiles[..i], name) == if name in profileTasks then Some(profileTasks[name]) else None
      {
        assert profiles[..i + 1][..i] == profiles[..i];
        made := made + [Import(i), AddProfile(i)];
        profileTasks := profileTasks[profiles[i] := i];
        requires_ := requires_ + {(AddProfile(i), Import(i))};
      }
      assert profiles[..|profiles|] == profiles;
    }

    /** `_generate_cobbler_records` */
    method MakeRecords(nodes: seq<Node>, profiles: seq<string>) returns (made: seq<Task>)
      modifies this`requires_
      ensures made == Records(|profiles|, |nodes|)
      ensures forall a, b :: (a, b) in requires_ <==> ((a, b) in old(requires_)
        || (a.AddProfile? && b.Import? && a.p == b.p < |profiles|)
        || (a.Register? && b.AddProfile? && a.n < |nodes| && ProfileOf(profiles, nodes[a.n].profile) == Some(b.p)))
    {
      var profileTasks;
      made, profileTasks := MakeProfiles(profiles);
      ghost var known := requires_;
      for i := 0 to |nodes|
        invariant made == Records(|profiles|, i)
        invariant forall a, b :: (a, b) in requires_ <==> ((a, b) in known
          || (a.Register? && b.AddProfile? && a.n < i && ProfileOf(profiles, nodes[a.n].profile) == Some(b.p)))
      {
        if nodes[i].profile in profileTasks {
          requires_ := requires_ + {(Register(i), AddProfile(profileTasks[nodes[i].profile]))};
        }
        made := made + [Register(i)];
      }
    }

    /** Pairing the registrations with the kickstart files, by place in the two lists. */
    method Pair(records: seq<Task>, kickstarts: seq<Task>)
      modifies this`requires_
      ensures forall a, b :: (a, b) in requires_ <==> ((a, b) in old(requires_)
        || (|records| == |kickstarts| && exists i | 0 <= i < |records| :: a == records[i] && b == kickstarts[i]))
    {
      if |records| == |kickstarts| {
        for i := 0 to |records|
          invariant forall a, b :: (a, b) in requires_ <==> ((a, b) in old(requires_)
            || exists k | 0 <= k < i :: a == records[k] && b == kickstarts[k])
        {
          requires_ := requires_ + {(records[i], kickstarts[i])};
        }
      }
    }

    /** `_add_node_wait` */
    method AddNodeWaits(nodes: seq<Node>)
      modifies this
      ensures forall t :: t in tasks <==> t in old(tasks) || ((t.WaitNode? || t.WaitPxe?) && t.n < |nodes|)
      ensures forall a, b :: (a, b) in requires_ <==>
        (a, b) in old(requires_) || (a.WaitNode? && b.WaitPxe? && a.n == b.n < |nodes|)
    {
      for i := 0 to |nodes|
        invariant forall t :: t in tasks <==> t in old(tasks) || ((t.WaitNode? || t.WaitPxe?) && t.n < i)
        invariant forall a, b :: (a, b) in requires_ <==>
          (a, b) in old(requires_) || (a.WaitNode? && b.WaitPxe? && a.n == b.n < i)
      {
        requires_ := requires_ + {(WaitNode(i), WaitPxe(i))};
        tasks := tasks + [WaitNode(i), WaitPxe(i)];
      }
    }

    /** `_generate_bootloader_fragments` */
    method AddBootloaders(nodes: seq<Node>)
      modifies this`tasks
      ensures forall t :: t in tasks <==> t in old(tasks) || (t.Bootloader? && t.n < |nodes| && nodes[t.n].disks > 0)
    {
      for i := 0 to |nodes|
        invariant forall t :: t in tasks <==> t in old(tasks) || (t.Bootloader? && t.n < i && nodes[t.n].disks > 0)
      {
        if nodes[i].disks == 0 {
          continue;
        }
        tasks := tasks + [Bootloader(i)];
      }
    }

    /** What `create_configuration` adds when there is a cobbler-service in the given state. */
    method AddServiceTasks(nodes: seq<Node>, profiles: seq<string>, state: string, reconfigure: bool)
      requires requires_ == {}
      modifies this
      ensures forall t :: t in tasks <==> (t in old(tasks) || FromService(nodes, profiles, t)
                                          || (t == Configure && (IsNewState(state) || reconfigure)))
      ensures forall a, b :: (a, b) in requires_ <==> Requires(nodes, profiles, a, b)
    {
      var kickstarts := MakeKickstarts(nodes);
      tasks := tasks + kickstarts;
      AddBootloaders(nodes);
      if IsNewState(state) || reconfigure {
        tasks := tasks + [Configure];
      }
      var records := MakeRecords(nodes, profiles);
      Pair(records, kickstarts);
      tasks := tasks + records;
      AddNodeWaits(nodes);
      ServiceTasks(nodes, profiles);
    }

    /** `create_configuration` on an empty plan. */
    method CreateConfiguration(m: Model)
      requires tasks == [] && requires_ == {}
      modifies this
      ensures forall t :: t in tasks <==> InPlan(m, t)
      ensures forall a, b :: (a, b) in requires_ <==> m.service.Some? && Requires(NewNodes(m.nodes), m.profiles, a, b)
    {
      var nodes := NewNodes(m.nodes);
      var reconfigure := AddSnippetTasks(nodes);
      if m.service.Some? {
        AddServiceTasks(nodes, m.profiles, m.service.value, m.newNetwork || reconfigure);
      }
      assert forall n: nat | n < |nodes| :: nodes[n] in nodes;
    }
  }

  ghost predicate FromService(nodes: seq<Node>, profiles: seq<string>, t: Task) {
    || (t.Kickstart? && t.n < |nodes|)
    || (t.Bootloader? && t.n < |nodes| && nodes[t.n].disks > 0)
    || ((t.Import? || t.AddProfile?) && t.p < |profiles|)
    || ((t.Register? || t.WaitPxe? || t.WaitNode?) && t.n < |nodes|)
  }

  lemma ServiceTasks(nodes: seq<Node>, profiles: seq<string>)
    ensures forall t :: t in KickstartTasks(|nodes|) <==> t.Kickstart? && t.n < |nodes|
    ensures forall t :: t in Records(|profiles|, |nodes|) <==>
      ((t.Import? || t.AddProfile?) && t.p < |profiles|) || (t.Register? && t.n < |nodes|)
  {
    RecordsExact(|profiles|, |nodes|);
    var kickstarts := KickstartTasks(|nodes|);
    forall t
      ensures t in kickstarts <==> t.Kickstart? && t.n < |nodes|
    {
      if t.Kickstart? && t.n < |nodes| {
        assert kickstarts[t.n] == t;
      }
    }
  }

  /** Which tasks a plan has. */
  ghost predicate InPlan(m: Model, t: Task) {
    var nodes := NewNodes(m.nodes);
    match t
    case Udev(n) => n < |nodes|
    case Lvm(n) => n < |nodes| && nodes[n].hasStorage && nodes[n].disks > 0
    case Kickstart(n) => m.service.Some? && n < |nodes|
    case Bootloader(n) => m.service.Some? && n < |nodes| && nodes[n].disks > 0
    case Configure =>
      m.service.Some? && (IsNewState(m.service.value) || m.newNetwork
                          || exists n | n in nodes :: n.hasStorage && Contains("Initial", n.systemState))
    case Import(p) => m.service.Some? && p < |m.profiles|
    case AddProfile(p) => m.service.Some? && p < |m.profiles|
    case Register(n) => m.service.Some? && n < |nodes|
    case WaitPxe(n) => m.service.Some? && n < |nodes|
    case WaitNode(n) => m.service.Some? && n < |nodes|
  }

  lemma {:induction false} ProfileTasksExact(p: nat)
    ensures |ProfileTasks(p)| == 2 * p
    ensures forall t :: t in ProfileTasks(p) <==> (t.Import? || t.AddProfile?) && t.p < p
  {
    if p > 0 {
      ProfileTasksExact(p - 1);
    }
  }

  /** Two tasks for each profile and one for each node. */
  lemma RecordsExact(p: nat, n: nat)
    ensures |Records(p, n)| == 2 * p + n
    ensures forall t :: t in Records(p, n) <==> ((t.Import? || t.AddProfile?) && t.p < p) || (t.Register? && t.n < n)
  {
    ProfileTasksExact(p);
    var registers := RegisterTasks(n);
    forall t
      ensures t in registers <==> t.Register? && t.n < n
    {
      if t.Register? && t.n < n {
        assert registers[t.n] == t;
      }
    }
  }

  // ---------- properties of the graph ----------

  lemma {:induction false} NewNodeAt(nodes: seq<Node>, n: Node)
    requires n in nodes && (n.systemState == "Initial" || n.systemState == "Applying" || n.systemState == "Updated")
    ensures n in NewNodes(nodes)
  {
    assert n in multiset(nodes);
    NewNodesExact(nodes, n);
    assert n in multiset(NewNodes(nodes));
  }

  /**
   * With a service, every node of the model in one of the new states is taken through all steps, its boot
   * snippet if it has disks; the wait for it requires the wait for its PXE boot.
   */
  lemma NewNodeIsInstalled(m: Model, node: Node) returns (i: nat)
    requires m.service.Some? && node in m.nodes
    requires node.systemState == "Initial" || node.systemState == "Applying" || node.systemState == "Updated"
    ensures i < |NewNodes(m.nodes)| && NewNodes(m.nodes)[i] == node
    ensures InPlan(m, Udev(i)) && InPlan(m, Kickstart(i)) && InPlan(m, Register(i))
    ensures InPlan(m, WaitPxe(i)) && InPlan(m, WaitNode(i))
    ensures InPlan(m, Lvm(i)) <==> node.hasStorage && node.disks > 0
    ensures InPlan(m, Bootloader(i)) <==> node.disks > 0
    ensures Requires(NewNodes(m.nodes), m.profiles, WaitNode(i), WaitPxe(i))
  {
    NewNodeAt(m.nodes, node);
    i :| 0 <= i < |NewNodes(m.nodes)| && NewNodes(m.nodes)[i] == node;
  }

  /** Nothing is planned for any other node, and without a service no more than the snippets. */
  lemma OnlyNewNodesArePlanned(m: Model, t: Task)
    requires InPlan(m, t)
    ensures t.Udev? || t.Lvm? || t.Kickstart? || t.Bootloader? || t.Register? || t.WaitPxe? || t.WaitNode? ==>
      t.n < |NewNodes(m.nodes)|
    ensures t.Import? || t.AddProfile? ==> t.p < |m.profiles|
    ensures m.service.None? ==> t.Udev? || t.Lvm?
  {
  }

  /** Cobbler is configured again for a new service, a changed network, or a new node with storage. */
  lemma ConfiguredIff(m: Model)
    ensures InPlan(m, Configure) <==>
            (m.service.Some?
             && (IsNewState(m.service.value) || m.newNetwork
                 || exists n | n in m.nodes ::
                      IsNewState(n.systemState) && n.hasStorage && Contains("Initial", n.systemState)))
  {
    forall n
      ensures n in NewNodes(m.nodes) <==> n in m.nodes && IsNewState(n.systemState)
    {
      NewNodesExact(m.nodes, n);
      assert n in NewNodes(m.nodes) <==> n in multiset(NewNodes(m.nodes));
      assert n in m.nodes <==> n in multiset(m.nodes);
    }
  }

  function Rank(t: Task): nat {
    match t
    case Register(_) => 2
    case AddProfile(_) => 1
    case WaitNode(_) => 1
    case _ => 0
  }

  /** The requirements of kickstart files come from registrations, and only if no profile is initial. */
  lemma PairingShape(nodes: seq<Node>, profiles: seq<string>, a: Task, b: Task)
    requires b.Kickstart?
    ensures Requires(nodes, profiles, a, b) <==> profiles == [] && b.n < |nodes| && a == Register(b.n)
  {
    RecordsExact(|profiles|, |nodes|);
    if profiles == [] {
      assert Records(0, |nodes|) == RegisterTasks(|nodes|);
    }
  }

  lemma RankFalls(nodes: seq<Node>, profiles: seq<string>, a: Task, b: Task)
    requires Requires(nodes, profiles, a, b)
    ensures Rank(b) < Rank(a)
  {
    if b.Kickstart? {
      PairingShape(nodes, profiles, a, b);
    }
  }

  /** A chain of tasks, each requiring the next. */
  ghost predicate Chain(nodes: seq<Node>, profiles: seq<string>, path: seq<Task>) {
    |path| >= 2 && forall i | 0 <= i < |path| - 1 :: Requires(nodes, profiles, path[i], path[i + 1])
  }

  lemma {:induction false} ChainFalls(nodes: seq<Node>, profiles: seq<string>, path: seq<Task>)
    requires Chain(nodes, profiles, path)
    ensures Rank(path[|path| - 1]) < Rank(path[0])
  {
    RankFalls(nodes, profiles, path[0], path[1]);
    if |path| > 2 {
      var rest := path[1..];
      forall i | 0 <= i < |rest| - 1
        ensures Requires(nodes, profiles, rest[i], rest[i + 1])
      {
        assert Requires(nodes, profiles, path[i + 1], path[i + 1 + 1]);
      }
      ChainFalls(nodes, profiles, rest);
    }
  }

  /** No plan has a cycle: no task requires itself, directly or through others. */
  lemma Acyclic(nodes: seq<Node>, profiles: seq<string>, path: seq<Task>)
    requires Chain(nodes, profiles, path)
    ensures path[0] != path[|path| - 1]
  {
    ChainFalls(nodes, profiles, path);
  }

  /** A requirement joins two tasks of the plan. */
  lemma RequirementsArePlanned(m: Model, a: Task, b: Task)
    requires m.service.Some? && Requires(NewNodes(m.nodes), m.profiles, a, b)
    ensures InPlan(m, a) && InPlan(m, b)
  {
    if b.Kickstart? {
      PairingShape(NewNodes(m.nodes), m.profiles, a, b);
    } else if b.AddProfile? {
      ProfileOfExact(m.profiles, NewNodes(m.nodes)[a.n].profile);
    }
  }

  lemma {:induction false} ProfileOfExact(profiles: seq<string>, name: string)
    ensures ProfileOf(profiles, name).Some? <==> name in profiles
    ensures ProfileOf(profiles, name).Some? ==>
      ProfileOf(profiles, name).value < |profiles| && profiles[ProfileOf(profiles, name).value] == name
  {
    if profiles != [] {
      ProfileOfExact(profiles[..|profiles| - 1], name);
    }
  }

  /**
   * A registration requires a profile of the plan if and only if the plan creates the profile that the
   * node uses, and through it requires the import of that very distribution.
   */
  lemma RegistrationRequiresImport(nodes: seq<Node>, profiles: seq<string>, n: nat)
    requires n < |nodes|
    ensures nodes[n].profile in profiles <==> exists p: nat :: Requires(nodes, profiles, Register(n), AddProfile(p))
    ensures forall p: nat | Requires(nodes, profiles, Register(n), AddProfile(p)) ::
      p < |profiles| && profiles[p] == nodes[n].profile
      && Chain(nodes, profiles, [Register(n), AddProfile(p), Import(p)])
  {
    ProfileOfExact(profiles, nodes[n].profile);
    if nodes[n].profile in profiles {
      assert Requires(nodes, profiles, Register(n), AddProfile(ProfileOf(profiles, nodes[n].profile).value));
    }
    forall p: nat | Requires(nodes, profiles, Register(n), AddProfile(p))
      ensures Chain(nodes, profiles, [Register(n), AddProfile(p), Import(p)])
    {
      assert Requires(nodes, profiles, AddProfile(p), Import(p));
    }
  }

  /**
   * Registrations wait for kickstart files if and only if no profile is initial; then each waits for the
   * file of its own node. With an initial profile nothing orders a registration after its kickstart file.
   */
  lemma PairingIffNoProfile(nodes: seq<Node>, profiles: seq<string>, n: nat)
    requires n < |nodes|
    ensures (exists b: Task :: b.Kickstart? && Requires(nodes, profiles, Register(n), b)) <==> profiles == []
    ensures forall b: Task | b.Kickstart? && Requires(nodes, profiles, Register(n), b) :: b == Kickstart(n)
  {
    PairingShape(nodes, profiles, Register(n), Kickstart(n));
    forall b: Task | b.Kickstart? && Requires(nodes, profiles, Register(n), b)
      ensures b == Kickstart(n) && profiles == []
    {
      PairingShape(nodes, profiles, Register(n), b);
    }
  }
}
