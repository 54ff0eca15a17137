/** `_add_system_callback`: registering a node for installation, cut off anywhere and repeated. */
module Registration {
  import opened Wrappers
  import opened Cobbler

  /** The keyword arguments of the callback; `interfaces` maps device names to settings. */
  datatype Params = Params(name: string, profile: string, hostname: string, kickstart: string,
                           interfaces: map<string, Iface>, virt: Fields)

  /** A registration is given a name, a profile and interfaces; its virt data never names the comment. */
  predicate WellFormed(p: Params) {
    p.name != "" && p.profile != "" && p.interfaces != map[] && Comment !in p.virt
  }

  /** Empty arguments are deleted. */
  function Truthy(s: string): Option<string> {
    if s == "" then None else Some(s)
  }

  function TruthyArgs(args: Fields): Fields {
    map k | k in args && args[k] != "" :: args[k]
  }

  /** The settings copied into the first edit. */
  function Base(p: Params): Fields {
    TruthyArgs(map[Profile := p.profile, Hostname := p.hostname, Kickstart := p.kickstart])
  }

  /** The names of the interfaces in the iteration order of the dictionary. */
  ghost predicate Orders(order: seq<string>, p: Params) {
    && (forall i :: i in order <==> i in p.interfaces)
    && (forall a, b | 0 <= a < b < |order| :: order[a] != order[b])
  }

  /** The edit for an interface; the first edit also carries the settings of the system. */
  function EditOf(p: Params, order: seq<string>, e: nat): Command
    requires e < |order| && order[e] in p.interfaces
  {
    EditSystem(p.name, if e == 0 then Base(p) + p.virt else map[], order[e], p.interfaces[order[e]].settings)
  }

  function CommandAt(p: Params, order: seq<string>, k: nat): Command
    requires k < |order| + 3 && forall i | i in order :: i in p.interfaces
  {
    if k == 0 then RemoveSystem(p.name)
    else if k == 1 then Command.AddSystem(Truthy(p.name), Truthy(p.profile))
    else if k < |order| + 2 then
      assert order[k - 2] in order;
      EditOf(p, order, k - 2)
    else SyncSystems
  }

  /** All commands of a registration. */
  function Commands(p: Params, order: seq<string>): (cmds: seq<Command>)
    requires forall i | i in order :: i in p.interfaces
    ensures |cmds| == |order| + 3 && forall k: nat | k < |cmds| :: cmds[k] == CommandAt(p, order, k)
  {
    seq(|order| + 3, k requires 0 <= k < |order| + 3 => CommandAt(p, order, k))
  }

  /** The table after the first `k` commands; the first command that fails ends the callback. */
  function RunTo(t: Table, cmds: seq<Command>, k: nat): (Table, bool)
    requires k <= |cmds|
  {
    if k == 0 then (t, true)
    else
      var (t1, ok) := RunTo(t, cmds, k - 1);
      if ok then Exec(t1, cmds[k - 1]) else (t1, false)
  }

  function Run(t: Table, cmds: seq<Command>): (Table, bool) {
    RunTo(t, cmds, |cmds|)
  }

  lemma {:induction false} FailureStays(t: Table, cmds: seq<Command>, j: nat, k: nat)
    requires j <= k <= |cmds| && !RunTo(t, cmds, j).1
    ensures RunTo(t, cmds, k) == RunTo(t, cmds, j)
  {
    if k > j {
      FailureStays(t, cmds, j, k - 1);
    }
  }

  // ---------- the callback ----------

  ghost predicate AllDelivered(rpc: nat -> Rpc, from: nat, to: nat) {
    forall k: nat | from <= k < to :: rpc(k) == Delivered
  }

  datatype Outcome = Done | Raised | TypeError

  class Plugin {
    const server: Server

    constructor (server: Server)
      ensures this.server == server
    {
      this.server := server;
    }

    /** The edits: one for each interface, the first with the settings and the virt data of the system. */
    method EditCommands(p: Params, order: seq<string>) returns (edits: seq<Command>)
      requires Orders(order, p) && order != []
      ensures |edits| == |order|
      ensures forall e: nat | e < |order| :: edits[e] == CommandAt(p, order, e + 2)
    {
      assert forall e | 0 <= e < |order| :: order[e] in order;
      edits := [];
      for e := 0 to |order|
        invariant |edits| == e
        invariant forall d | 0 <= d < e ::
          edits[d] == EditSystem(p.name, map[], order[d], p.interfaces[order[d]].settings)
      {
        edits := edits + [EditSystem(p.name, map[], order[e], p.interfaces[order[e]].settings)];
      }
      var fields := Base(p);
      if p.virt != map[] {
        fields := fields + p.virt;
      }
      assert Base(p) + map[] == Base(p);
      edits := edits[0 := edits[0].(fields := fields)];
    }

    /** `_do_cobbler_mco` for command `k`, those before it having succeeded. */
    method Send(ghost before: Table, ghost cmds: seq<Command>, ghost k: nat, c: Command, rpc: Rpc)
      returns (ok: bool, ghost sent: nat)
      requires k < |cmds| && cmds[k] == c && RunTo(before, cmds, k) == (server.systems, true)
      modifies server
      ensures ok <==> rpc == Delivered && RunTo(before, cmds, k + 1).1
      ensures sent <= k + 1 && server.systems == RunTo(before, cmds, sent).0
      ensures ok ==> sent == k + 1
    {
      ok := server.Mco(c, rpc);
      sent := if rpc == LostBefore then k else k + 1;
    }

    /** The edits, in the order of the interfaces; `at` is the one that failed. */
    method SendEdits(ghost before: Table, ghost cmds: seq<Command>, edits: seq<Command>, rpc: nat -> Rpc)
      returns (ok: bool, ghost sent: nat, ghost at: nat)
      requires |cmds| == |edits| + 3 && (forall e: nat | e < |edits| :: edits[e] == cmds[e + 2])
      requires RunTo(before, cmds, 2) == (server.systems, true)
      modifies server
      ensures ok ==> AllDelivered(rpc, 2, |edits| + 2) && sent == |edits| + 2 && RunTo(before, cmds, sent).1
      ensures !ok ==> at < |cmds| && (rpc(at) != Delivered || !RunTo(before, cmds, at + 1).1)
      ensures sent <= |edits| + 2 && server.systems == RunTo(before, cmds, sent).0
    {
      ok, sent, at := true, 2, 2;
      for e := 0 to |edits|
        invariant ok && sent == e + 2 && RunTo(before, cmds, e + 2) == (server.systems, true)
        invariant AllDelivered(rpc, 2, e + 2)
      {
        ok, sent := Send(before, cmds, e + 2, edits[e], rpc(e + 2));
        if !ok {
          at := e + 2;
          return;
        }
      }
    }

    /** The remote commands in turn; `at` is the one that failed. */
    method SendAll(ghost cmds: seq<Command>, remove: Command, add: Command, edits: seq<Command>, rpc: nat -> Rpc)
      returns (ok: bool, ghost sent: nat, ghost at: nat)
      requires |cmds| == |edits| + 3 && cmds[0] == remove && cmds[1] == add && cmds[|edits| + 2] == SyncSystems
      requires forall e: nat | e < |edits| :: edits[e] == cmds[e + 2]
      modifies server
      ensures ok ==> AllDelivered(rpc, 0, |cmds|) && sent == |cmds| && RunTo(old(server.systems), cmds, sent).1
      ensures !ok ==> at < |cmds| && (rpc(at) != Delivered || !RunTo(old(server.systems), cmds, at + 1).1)
      ensures sent <= |cmds| && server.systems == RunTo(old(server.systems), cmds, sent).0
    {
      ghost var before := server.systems;
      at := 0;
      ok, sent := Send(before, cmds, 0, remove, rpc(0));
      if !ok {
        return;
      }
      at := 1;
      ok, sent := Send(before, cmds, 1, add, rpc(1));
      if !ok {
        return;
      }
      ok, sent, at := SendEdits(before, cmds, edits, rpc);
      if !ok {
        return;
      }
      at := |edits| + 2;
      ok, sent := Send(before, cmds, |edits| + 2, SyncSystems, rpc(|edits| + 2));
    }

    /**
     * `_add_system_callback`, after the backup of the logs; `rpc` says how each remote command ends and
     * `sent` how many took effect. Without interfaces the loop over None raises before anything is sent.
     */
    method AddSystem(p: Params, order: seq<string>, rpc: nat -> Rpc) returns (r: Outcome, ghost sent: nat)
      requires Orders(order, p)
      modifies server
      ensures r == TypeError <==> p.interfaces == map[]
      ensures r == TypeError ==> sent == 0
      ensures r == Done <==> p.interfaces != map[] && AllDelivered(rpc, 0, |order| + 3)
                             && Run(old(server.systems), Commands(p, order)).1
      ensures r == Done ==> sent == |order| + 3
      ensures sent <= |order| + 3 && server.systems == RunTo(old(server.systems), Commands(p, order), sent).0
    {
      sent := 0;
      if p.interfaces == map[] {
        return TypeError, sent;
      }
      OrderNotEmpty(p, order);
      var edits := EditCommands(p, order);
      ghost var cmds := Commands(p, order);
      var remove, add := RemoveSystem(p.name), Command.AddSystem(Truthy(p.name), Truthy(p.profile));
      ghost var before := server.systems;
      var ok;
      ghost var at;
      ok, sent, at := SendAll(cmds, remove, add, edits, rpc);
      if !ok && rpc(at) == Delivered {
        FailureStays(before, cmds, at + 1, |cmds|);
      }
      r := if ok then Done else Raised;
    }

    /** `_remove_from_cobbler` */
    method RemoveFromCobbler(hostname: string, removal: Rpc, sync: Rpc) returns (ok: bool)
      modifies server
      ensures ok <==> removal == Delivered && sync == Delivered
      ensures server.systems == if removal == LostBefore then old(server.systems) else old(server.systems) - {hostname}
    {
      ok := server.Mco(RemoveSystem(hostname), removal);
      if ok {
        ok := server.Mco(SyncSystems, sync);
      }
    }
  }

  lemma OrderNotEmpty(p: Params, order: seq<string>)
    requires Orders(order, p) && p.interfaces != map[]
    ensures order != [] && forall i | 0 <= i < |order| :: order[i] in p.interfaces
  {
    var name :| name in p.interfaces;
    assert name in order;
    assert forall i | 0 <= i < |order| :: order[i] in order;
  }

  // ---------- the record that a registration builds ----------

  /** What the registration is to leave: the settings that are not empty, the virt data, and the interfaces. */
  function Target(p: Params): Record {
    Record(Base(p) + p.virt, p.interfaces)
  }

  function Taken(p: Params, names: seq<string>): map<string, Iface> {
    map i | i in p.interfaces && i in names :: p.interfaces[i]
  }

  /** The system's record after the first `k` commands, at least one. */
  function Stage(p: Params, order: seq<string>, k: nat): Option<Record>
    requires 1 <= k <= |order| + 3
  {
    if k == 1 then None
    else if k == 2 then Some(Record(map[Profile := p.profile], map[]))
    else Some(Record(Target(p).fields, Taken(p, order[..if k - 2 <= |order| then k - 2 else |order|])))
  }

  lemma TakenSnoc(p: Params, order: seq<string>, e: nat)
    requires Orders(order, p) && e < |order| && order[e] in p.interfaces
    ensures Taken(p, order[..e])[order[e] := p.interfaces[order[e]]] == Taken(p, order[..e + 1])
    ensures order[e] !in Taken(p, order[..e])
  {
    assert order[..e + 1] == order[..e] + [order[e]];
  }

  lemma FieldsAfterFirst(p: Params)
    requires WellFormed(p)
    ensures map[Profile := p.profile] + (Base(p) + p.virt) == Base(p) + p.virt
    ensures Comment !in Base(p) + p.virt
  {
    assert Profile in Base(p);
  }

  /** The first edit of a fresh record. */
  lemma EditFresh(profile: string, fields: Fields, iface: string, settings: map<string, string>)
    requires map[Profile := profile] + fields == fields
    ensures Edited(Record(map[Profile := profile], map[]), fields, iface, settings)
            == Record(fields, map[iface := Iface(settings)])
  {
    assert map[] + settings == settings;
  }

  /** A later edit, of an interface that is new. */
  lemma EditNew(r: Record, iface: string, settings: map<string, string>)
    requires iface !in r.interfaces
    ensures Edited(r, map[], iface, settings) == Record(r.fields, r.interfaces[iface := Iface(settings)])
  {
    assert map[] + settings == settings;
    assert r.fields + map[] == r.fields;
  }

  /** Each edit adds its interface and leaves the earlier ones. */
  lemma EditStage(p: Params, order: seq<string>, e: nat)
    requires Orders(order, p) && WellFormed(p) && e < |order| && order[e] in p.interfaces
    ensures ExecRecord(Stage(p, order, e + 2), EditOf(p, order, e)) == Effect(Stage(p, order, e + 3), true)
  {
    var settings := p.interfaces[order[e]].settings;
    TakenSnoc(p, order, e);
    if e == 0 {
      FirstEdit(p, order);
    } else {
      EditNew(Stage(p, order, e + 2).value, order[e], settings);
    }
  }

  lemma FirstEdit(p: Params, order: seq<string>)
    requires Orders(order, p) && WellFormed(p) && order != [] && order[0] in p.interfaces
    ensures ExecRecord(Stage(p, order, 2), EditOf(p, order, 0)) == Effect(Stage(p, order, 3), true)
  {
    var settings := p.interfaces[order[0]].settings;
    assert Taken(p, order[..0]) == map[];
    TakenSnoc(p, order, 0);
    FieldsAfterFirst(p);
    EditFresh(p.profile, Target(p).fields, order[0], settings);
  }

  /** Command `k` takes the record from stage `k` to the next. */
  predicate StepsAt(p: Params, order: seq<string>, k: nat)
    requires 1 <= k < |order| + 3 && forall i | i in order :: i in p.interfaces
  {
    ExecRecord(Stage(p, order, k), CommandAt(p, order, k)) == Effect(Stage(p, order, k + 1), true)
  }

  lemma AddStage(p: Params, order: seq<string>, k: nat)
    requires Orders(order, p) && WellFormed(p) && k == 1
    ensures StepsAt(p, order, k)
  {
  }

  lemma EditCommand(p: Params, order: seq<string>, e: nat)
    requires Orders(order, p) && e < |order|
    ensures order[e] in p.interfaces && CommandAt(p, order, e + 2) == EditOf(p, order, e)
  {
    assert order[e] in order;
  }

  lemma EditCommandStage(p: Params, order: seq<string>, e: nat, k: nat)
    requires Orders(order, p) && WellFormed(p) && e < |order| && k == e + 2
    ensures StepsAt(p, order, k)
  {
    EditCommand(p, order, e);
    EditStage(p, order, e);
  }

  lemma SyncStage(p: Params, order: seq<string>, k: nat)
    requires Orders(order, p) && WellFormed(p) && k == |order| + 2
    ensures StepsAt(p, order, k)
  {
  }

  /** The record goes from stage to stage. */
  lemma StageStep(p: Params, order: seq<string>, k: nat)
    requires Orders(order, p) && WellFormed(p) && 1 <= k < |order| + 3
    ensures StepsAt(p, order, k)
  {
    if k == 1 {
      AddStage(p, order, k);
    } else if k == |order| + 2 {
      SyncStage(p, order, k);
    } else {
      EditCommandStage(p, order, k - 2, k);
    }
  }

  lemma LastStage(p: Params, order: seq<string>)
    requires Orders(order, p)
    requires order != []
    ensures Stage(p, order, |order| + 2) == Stage(p, order, |order| + 3) == Some(Target(p))
  {
    assert order[..|order|] == order;
    assert Taken(p, order) == p.interfaces;
  }

  /** `t1` is `t` but for the named system, whose record is `r`. */
  ghost predicate Differs(t: Table, t1: Table, name: string, r: Option<Record>) {
    Find(t1, name) == r && forall n | n != name :: Find(t1, n) == Find(t, n)
  }

  /** A command for one system: its record moves on, the others stay. */
  lemma CommandStep(t: Table, before: Table, name: string, r: Option<Record>, c: Command)
    requires Differs(t, before, name, r) && (SystemOf(c) == Some(name) || c.SyncSystems?)
    ensures Exec(before, c).1 == ExecRecord(r, c).ok
    ensures Differs(t, Exec(before, c).0, name, ExecRecord(r, c).record)
  {
    if !c.SyncSystems? {
      OwnRecord(before, c, name);
      forall n | n != name
        ensures Find(Exec(before, c).0, n) == Find(t, n)
      {
        OthersKept(before, c, n);
      }
    }
  }

  /** The next command of a run. */
  lemma RunStep(t: Table, cmds: seq<Command>, k: nat, name: string, r: Option<Record>, next: Effect)
    requires k < |cmds| && (SystemOf(cmds[k]) == Some(name) || cmds[k].SyncSystems?)
    requires RunTo(t, cmds, k).1 && Differs(t, RunTo(t, cmds, k).0, name, r) && ExecRecord(r, cmds[k]) == next
    ensures RunTo(t, cmds, k + 1).1 == next.ok && Differs(t, RunTo(t, cmds, k + 1).0, name, next.record)
  {
    CommandStep(t, RunTo(t, cmds, k).0, name, r, cmds[k]);
  }

  lemma OwnCommands(p: Params, order: seq<string>, k: nat)
    requires Orders(order, p) && p.name != "" && k < |order| + 3
    ensures SystemOf(CommandAt(p, order, k)) == Some(p.name) || CommandAt(p, order, k).SyncSystems?
  {
  }

  predicate Steps(r: Option<Record>, c: Command, next: Option<Record>) {
    ExecRecord(r, c) == Effect(next, true)
  }

  /** The commands all are of one system, and step through the records `rs` from any record before. */
  ghost predicate Chain(cmds: seq<Command>, name: string, rs: seq<Option<Record>>) {
    && |rs| == |cmds| + 1 && cmds != [] && (forall r :: Steps(r, cmds[0], rs[1]))
    && (forall j | 0 <= j < |cmds| :: SystemOf(cmds[j]) == Some(name) || cmds[j].SyncSystems?)
    && (forall j | 1 <= j < |cmds| :: Steps(rs[j], cmds[j], rs[j + 1]))
  }

  /** A run follows the records that its commands step through. */
  lemma {:induction false} RunFollows(t: Table, cmds: seq<Command>, name: string, rs: seq<Option<Record>>, k: nat)
    requires Chain(cmds, name, rs) && 1 <= k <= |cmds|
    ensures RunTo(t, cmds, k).1 && Differs(t, RunTo(t, cmds, k).0, name, rs[k])
  {
    if k == 1 {
      assert Steps(Find(t, name), cmds[0], rs[1]);
      RunStep(t, cmds, 0, name, Find(t, name), Effect(rs[1], true));
    } else {
      RunFollows(t, cmds, name, rs, k - 1);
      RunStep(t, cmds, k - 1, name, rs[k - 1], Effect(rs[k], true));
    }
  }

  function Stages(p: Params, order: seq<string>): (rs: seq<Option<Record>>)
    ensures |rs| == |order| + 4 && forall k | 1 <= k < |rs| :: rs[k] == Stage(p, order, k)
  {
    [None] + seq(|order| + 3, k requires 0 <= k < |order| + 3 => Stage(p, order, k + 1))
  }

  lemma StagesChain(p: Params, order: seq<string>)
    requires Orders(order, p) && WellFormed(p)
    ensures Chain(Commands(p, order), p.name, Stages(p, order))
  {
    var cmds, rs := Commands(p, order), Stages(p, order);
    assert forall r :: Steps(r, cmds[0], rs[1]);
    forall j: nat | j < |cmds|
      ensures SystemOf(cmds[j]) == Some(p.name) || cmds[j].SyncSystems?
      ensures 1 <= j ==> Steps(rs[j], cmds[j], rs[j + 1])
    {
      OwnCommands(p, order, j);
      if 1 <= j {
        StageStep(p, order, j);
      }
    }
  }

  /** From any table, the first `k` commands succeed, build stage `k`, and leave the other systems alone. */
  lemma StageReached(t: Table, p: Params, order: seq<string>, k: nat)
    requires Orders(order, p) && WellFormed(p) && 1 <= k <= |order| + 3
    ensures RunTo(t, Commands(p, order), k).1
    ensures Differs(t, RunTo(t, Commands(p, order), k).0, p.name, Stage(p, order, k))
  {
    StagesChain(p, order);
    RunFollows(t, Commands(p, order), p.name, Stages(p, order), k);
  }

  predicate FoundIn(a: Table, b: Table, n: string) {
    Find(a, n) == Find(b, n)
  }

  lemma SameTable(a: Table, b: Table)
    requires forall n :: FoundIn(a, b, n)
    ensures a == b
  {
    assert forall n | n in a :: FoundIn(a, b, n);
    assert forall n | n in b :: FoundIn(a, b, n);
  }

  lemma ReplacedSame(a: Table, b: Table, name: string, r: Record)
    requires forall n | n != name :: Find(a, n) == Find(b, n)
    ensures a[name := r] == b[name := r]
  {
    var a1, b1 := a[name := r], b[name := r];
    forall n: string
      ensures FoundIn(a1, b1, n)
    {
      assert n != name ==> Find(a, n) == Find(b, n);
    }
    SameTable(a1, b1);
  }

  /** A registration that is not cut off: exactly the target record, whatever was in the table before. */
  lemma RegistersTarget(t: Table, p: Params, order: seq<string>)
    requires Orders(order, p) && WellFormed(p)
    ensures Run(t, Commands(p, order)) == (t[p.name := Target(p)], true)
  {
    OrderNotEmpty(p, order);
    StageReached(t, p, order, |order| + 3);
    LastStage(p, order);
    var after := Run(t, Commands(p, order)).0;
    ReplacedSame(after, t, p.name, Target(p));
    assert after[p.name := Target(p)] == after;
  }

  /** What a setting of the registered system is: the virt data's value, or the argument unless it is empty. */
  ghost predicate Holds(fields: Fields, key: Setting, virt: Fields, argument: string) {
    && (key in fields <==> key in virt || argument != "")
    && (key in fields ==> fields[key] == if key in virt then virt[key] else argument)
  }

  /** The record that a registration leaves, setting by setting and interface by interface. */
  lemma RegisteredRecord(t: Table, p: Params, order: seq<string>, key: Setting)
    requires Orders(order, p) && WellFormed(p)
    ensures p.name in Run(t, Commands(p, order)).0
    ensures var fields := Run(t, Commands(p, order)).0[p.name].fields;
      match key
      case Profile => Holds(fields, key, p.virt, p.profile)
      case Hostname => Holds(fields, key, p.virt, p.hostname)
      case Kickstart => Holds(fields, key, p.virt, p.kickstart)
      case Comment => key !in fields
      case Other(_) => (key in fields <==> key in p.virt) && (key in fields ==> fields[key] == p.virt[key])
    ensures Run(t, Commands(p, order)).0[p.name].interfaces == p.interfaces
  {
    RegistersTarget(t, p, order);
  }

  /**
   * Retry: a registration cut off after any number of its commands and run again, with the interfaces
   * in any other order, ends as if it had run once.
   */
  lemma RetryConverges(t: Table, p: Params, order: seq<string>, k: nat, again: seq<string>)
    requires Orders(order, p) && Orders(again, p) && WellFormed(p) && k <= |order| + 3
    ensures Run(RunTo(t, Commands(p, order), k).0, Commands(p, again)) == (t[p.name := Target(p)], true)
  {
    var cut := RunTo(t, Commands(p, order), k).0;
    RegistersTarget(cut, p, again);
    if k > 0 {
      StageReached(t, p, order, k);
    }
    ReplacedSame(cut, t, p.name, Target(p));
  }

  /** Without a name or a profile Cobbler refuses the second command, and the system stays removed. */
  lemma NeedsNameAndProfile(t: Table, p: Params, order: seq<string>)
    requires Orders(order, p) && p.interfaces != map[] && Comment !in p.virt
    ensures Run(t, Commands(p, order)).1 <==> p.name != "" && p.profile != ""
    ensures p.name == "" || p.profile == "" ==> Run(t, Commands(p, order)).0 == t - {p.name}
  {
    if p.name != "" && p.profile != "" {
      RegistersTarget(t, p, order);
    } else {
      var removed := t - {p.name};
      assert RunTo(t, Commands(p, order), 1) == Exec(t, RemoveSystem(p.name)) by {
        assert RunTo(t, Commands(p, order), 0) == (t, true);
      }
      assert Exec(t, RemoveSystem(p.name)) == (removed, true);
      OthersKept(removed, CommandAt(p, order, 1), "");
      assert !Exec(removed, CommandAt(p, order, 1)).1;
      FailureStays(t, Commands(p, order), 2, |order| + 3);
    }
  }

  /** Every interface is named by exactly one command of the registration, with its own settings. */
  lemma EachInterfaceEditedOnce(p: Params, order: seq<string>, name: string)
    requires Orders(order, p) && name in p.interfaces
    ensures exists k: nat :: k < |order| + 3 && Edits(p, order, k, name)
              && CommandAt(p, order, k).settings == p.interfaces[name].settings
              && forall j: nat | j < |order| + 3 :: Edits(p, order, j, name) ==> j == k
  {
    assert name in order;
    var e: nat :| e < |order| && order[e] == name;
    assert Edits(p, order, e + 2, name);
    forall j: nat | j < |order| + 3 && Edits(p, order, j, name)
      ensures j == e + 2
    {
      assert order[j - 2] == order[e];
    }
  }

  ghost predicate Edits(p: Params, order: seq<string>, k: nat, name: string)
    requires Orders(order, p) && k < |order| + 3
  {
    CommandAt(p, order, k).EditSystem? && CommandAt(p, order, k).iface == name
  }

  /** No command of a registration sets the comment. */
  lemma NoCommentArgs(p: Params, order: seq<string>, k: nat)
    requires Orders(order, p) && Comment !in p.virt && k < |order| + 3
    ensures CommandAt(p, order, k).EditSystem? ==> Comment !in CommandAt(p, order, k).fields
  {
  }
}
