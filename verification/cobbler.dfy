/** Cobbler's table of systems, the commands of the MCollective agent on it, and the install trigger. */
module Cobbler {
  import opened Wrappers

  /** The settings of a system that the plugin names, and all others. */
  datatype Setting = Profile | Hostname | Kickstart | Comment | Other(name: string)

  type Fields = map<Setting, string>

  datatype Iface = Iface(settings: map<string, string>)

  /** A system record: its own settings, and its interfaces. */
  datatype Record = Record(fields: Fields, interfaces: map<string, Iface>)

  type Table = map<string, Record>

  const PXE_BOOTED: string := "PXE_BOOTED"

  /** The arguments of an edit are split into the options of the system and those of the interface it names. */
  datatype Command =
    | RemoveSystem(system: string)
    | AddSystem(newSystem: Option<string>, profile: Option<string>)
    | EditSystem(system: string, fields: Fields, iface: string, settings: map<string, string>)
    | SyncSystems

  function SystemOf(c: Command): Option<string> {
    match c
    case RemoveSystem(system) => Some(system)
    case AddSystem(system, _) => system
    case EditSystem(system, _, _, _) => Some(system)
    case SyncSystems => None
  }

  /** Editing merges the options into the record, and creates the interface if it is new. */
  function Edited(r: Record, fields: Fields, iface: string, settings: map<string, string>): Record {
    var known := if iface in r.interfaces then r.interfaces[iface].settings else map[];
    Record(r.fields + fields, r.interfaces[iface := Iface(known + settings)])
  }

  /** The record that a command leaves, and whether Cobbler accepts the command. */
  datatype Effect = Effect(record: Option<Record>, ok: bool)

  /**
   * A command on the record of its own system. Removing an unknown system succeeds; adding needs a
   * profile and an unused name; editing needs the system.
   */
  function ExecRecord(r: Option<Record>, c: Command): Effect {
    match c
    case RemoveSystem(_) => Effect(None, true)
    case AddSystem(_, profile) =>
      if r.Some? || profile.None? then Effect(r, false)
      else Effect(Some(Record(map[Profile := profile.value], map[])), true)
    case EditSystem(_, fields, iface, settings) =>
      if r.None? then Effect(r, false) else Effect(Some(Edited(r.value, fields, iface, settings)), true)
    case SyncSystems => Effect(r, true)
  }

  function Find(t: Table, name: string): Option<Record> {
    if name in t then Some(t[name]) else None
  }

  function Put(t: Table, name: string, r: Option<Record>): Table {
    match r
    case None => t - {name}
    case Some(record) => t[name := record]
  }

  /** A command on the whole table; without a system name only sync is accepted. */
  function Exec(t: Table, c: Command): (Table, bool) {
    match SystemOf(c)
    case None => (t, c.SyncSystems?)
    case Some(name) =>
      var e := ExecRecord(Find(t, name), c);
      (Put(t, name, e.record), e.ok)
  }

  /** `has_pxe_completed`: the system is found with the comment. */
  predicate PxeCompleted(r: Option<Record>) {
    r.Some? && Comment in r.value.fields && r.value.fields[Comment] == PXE_BOOTED
  }

  /** The pre-install trigger, `install_pre_pxe.run`. */
  function FireTrigger(t: Table, objectType: string, name: string): Table {
    if objectType == "system" && name in t
    then t[name := t[name].(fields := t[name].fields[Comment := PXE_BOOTED])]
    else t
  }

  /** How a remote command ends: delivered, or with an error before or after it took effect. */
  datatype Rpc = Delivered | LostBefore | LostAfter

  /** The Cobbler server, driven through MCollective. */
  class Server {
    var systems: Table

    constructor (systems: Table)
      ensures this.systems == systems
    {
      this.systems := systems;
    }

    /** `_do_cobbler_mco`: an error of the transport or of Cobbler raises. */
    method Mco(c: Command, rpc: Rpc) returns (ok: bool)
      modifies this
      ensures ok <==> rpc == Delivered && Exec(old(systems), c).1
      ensures systems == if rpc == LostBefore then old(systems) else Exec(old(systems), c).0
    {
      if rpc == LostBefore {
        return false;
      }
      var accepted := false;
      match c {
        case RemoveSystem(system) =>
          systems := systems - {system};
          accepted := true;
        case AddSystem(system, profile) =>
          if system.Some? && system.value !in systems && profile.Some? {
            systems := systems[system.value := Record(map[Profile := profile.value], map[])];
            accepted := true;
          }
        case EditSystem(system, fields, iface, settings) =>
          if system in systems {
            systems := systems[system := Edited(systems[system], fields, iface, settings)];
            accepted := true;
          }
        case SyncSystems => accepted := true;
      }
      assert systems == Exec(old(systems), c).0;
      return accepted && rpc == Delivered;
    }

    /** `install_pre_pxe.run` */
    method RunInstallTrigger(objectType: string, name: string)
      modifies this
      ensures systems == FireTrigger(old(systems), objectType, name)
    {
      if objectType == "system" && name in systems {
        var r := systems[name];
        systems := systems[name := Record(r.fields[Comment := PXE_BOOTED], r.interfaces)];
      }
    }
  }

  // ---------- what commands do ----------

  /** Which commands Cobbler accepts. */
  lemma AcceptedExactly(t: Table, c: Command)
    ensures Exec(t, c).1 <==>
            match c
            case RemoveSystem(_) => true
            case AddSystem(system, profile) => system.Some? && system.value !in t && profile.Some?
            case EditSystem(system, _, _, _) => system in t
            case SyncSystems => true
  {
  }

  /** An edit, setting by setting: the options given, and what was there otherwise; other interfaces stay. */
  lemma EditExact(t: Table, c: Command, key: Setting, iface: string, option: string)
    requires c.EditSystem? && c.system in t
    ensures c.system in Exec(t, c).0
    ensures var r, r1 := t[c.system], Exec(t, c).0[c.system];
      && (key in r1.fields <==> key in r.fields || key in c.fields)
      && (key in r1.fields ==> r1.fields[key] == if key in c.fields then c.fields[key] else r.fields[key])
      && (iface in r1.interfaces <==> iface in r.interfaces || iface == c.iface)
      && (iface != c.iface && iface in r.interfaces ==> r1.interfaces[iface] == r.interfaces[iface])
    ensures var known, now := t[c.system].interfaces, Exec(t, c).0[c.system].interfaces[c.iface].settings;
      && (option in now <==> option in c.settings || (c.iface in known && option in known[c.iface].settings))
      && (option in c.settings ==> now[option] == c.settings[option])
      && (option in now && option !in c.settings ==> now[option] == known[c.iface].settings[option])
  {
  }

  /** A new system has its profile and nothing else; a removed one is gone. */
  lemma AddRemoveExact(t: Table, c: Command)
    requires Exec(t, c).1
    ensures c.AddSystem? ==> Exec(t, c).0 == t[c.newSystem.value := Record(map[Profile := c.profile.value], map[])]
    ensures c.RemoveSystem? ==> Exec(t, c).0 == t - {c.system}
    ensures c.SyncSystems? ==> Exec(t, c).0 == t
  {
  }

  // ---------- what commands keep ----------

  /** A command changes no system but its own, and never fails half-way. */
  lemma OthersKept(t: Table, c: Command, name: string)
    requires SystemOf(c) != Some(name)
    ensures Find(Exec(t, c).0, name) == Find(t, name)
    ensures !Exec(t, c).1 ==> Exec(t, c).0 == t
  {
    if SystemOf(c).Some? && SystemOf(c).value in t {
      assert t[SystemOf(c).value := t[SystemOf(c).value]] == t;
    }
  }

  lemma OwnRecord(t: Table, c: Command, name: string)
    requires SystemOf(c) == Some(name)
    ensures Find(Exec(t, c).0, name) == ExecRecord(Find(t, name), c).record
    ensures Exec(t, c).1 == ExecRecord(Find(t, name), c).ok
  {
  }

  /** The comment set aside: what the registration itself puts into a record. */
  function Bare(r: Option<Record>): Option<Record> {
    match r
    case None => None
    case Some(record) => Some(record.(fields := record.fields - {Comment}))
  }

  /** Commands that do not speak of the comment work the same with the comment set aside, and keep it. */
  lemma CommentApart(r: Option<Record>, c: Command)
    requires c.EditSystem? ==> Comment !in c.fields
    ensures Bare(ExecRecord(r, c).record) == ExecRecord(Bare(r), c).record
    ensures ExecRecord(r, c).ok == ExecRecord(Bare(r), c).ok
    ensures PxeCompleted(ExecRecord(r, c).record) ==> PxeCompleted(r)
  {
    if c.EditSystem? && r.Some? {
      assert (r.value.fields + c.fields) - {Comment} == (r.value.fields - {Comment}) + c.fields;
    }
    if c.AddSystem? && r.None? && c.profile.Some? {
      var fields := map[Profile := c.profile.value];
      assert fields - {Comment} == fields;
    }
  }

  /** The trigger sets the comment and nothing else. */
  lemma TriggerOnlyComments(t: Table, name: string, other: string)
    ensures Bare(Find(FireTrigger(t, "system", name), other)) == Bare(Find(t, other))
    ensures PxeCompleted(Find(FireTrigger(t, "system", name), other)) ==> other == name || PxeCompleted(Find(t, other))
    ensures name in t ==> PxeCompleted(Find(FireTrigger(t, "system", name), name))
    ensures name in t ==> FireTrigger(t, "system", name)[name].fields[Comment] == "PXE_BOOTED"
  {
    if name in t {
      assert t[name].fields[Comment := PXE_BOOTED] - {Comment} == t[name].fields - {Comment};
    }
  }
}
