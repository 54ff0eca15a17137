/** What the generated RHEL 7 partition snippet does when it runs on a node. */
module PartitionMeaning {
  import opened Strings
  import opened Wrappers
  import opened DiskModel
  import opened Shell
  import opened Partition
  import Sizes

  // ---------- the devices that a disk of the model denotes ----------

  /** The first of the three links that exists. */
  function ItemOf(h: Host, u: string): string {
    if h.ls(Mpath, u) != "" then h.ls(Mpath, u)
    else if h.ls(Cciss, u) != "" then h.ls(Cciss, u)
    else h.ls(Scsi, u)
  }

  function DeviceOf(h: Host, d: Disk): string {
    if UuidOnDisk(d) then ItemOf(h, d.uuid.value) else h.lsName(d.name)
  }

  function DriveOf(h: Host, d: Disk): string {
    if UuidOnDisk(d) then
      var u := d.uuid.value;
      if h.find(Mpath, u) != "" && h.find(Mpath, u) != "disk/by-id/" then h.find(Mpath, u)
      else if h.find(Cciss, u) != "" && h.find(Cciss, u) != "disk/by-id/" then h.find(Cciss, u)
      else h.find(Scsi, u)
    else d.name
  }

  /** The drives of the bootable disks, in model order. */
  function BootDrives(h: Host, disks: seq<Disk>): seq<string> {
    if disks == [] then []
    else
      var before, d := BootDrives(h, disks[..|disks| - 1]), disks[|disks| - 1];
      if d.bootable then before + [DriveOf(h, d)] else before
  }

  /** The multipath partitions of the last bootable disk that has a UUID. */
  function BootLinks(h: Host, disks: seq<Disk>): seq<string> {
    if disks == [] then []
    else
      var d := disks[|disks| - 1];
      if d.bootable && UuidOnDisk(d) then h.partLinks(d.uuid.value) else BootLinks(h, disks[..|disks| - 1])
  }

  function LastDrive(h: Host, disks: seq<Disk>): string {
    if disks == [] then ""
    else
      var d := disks[|disks| - 1];
      if d.bootable then DriveOf(h, d) else LastDrive(h, disks[..|disks| - 1])
  }

  function DiskTable(h: Host, all: Uuids, disks: seq<Disk>): map<string, string> {
    if disks == [] then map[]
    else
      var before, d := DiskTable(h, all, disks[..|disks| - 1]), disks[|disks| - 1];
      if Skipped(all, d) then before else before[d.itemId := DeviceOf(h, d)]
  }

  /** A disk that is not skipped has a UUID but no block device on the node. */
  predicate Missing(h: Host, all: Uuids, d: Disk) {
    UuidOnDisk(d) && !Skipped(all, d) && !h.isBlock(DeviceOf(h, d))
  }

  // ---------- the first loop ----------

  /** One round of the first loop, in one step. */
  function Round(h: Host, all: Uuids, st: State, d: Disk): State {
    var listed :=
      if Skipped(all, d) then st
      else
        var st1 := st.(list := st.list[d.itemId := DeviceOf(h, d)]);
        if UuidOnDisk(d) then st1.(item := DeviceOf(h, d), exited := Missing(h, all, d)) else st1;
    if listed.exited || !d.bootable then listed
    else
      var cleared := listed.(drive := DriveOf(h, d), clearDevs := listed.clearDevs + "," + DriveOf(h, d));
      if UuidOnDisk(d) then cleared.(parts := PartText(h.partLinks(d.uuid.value))) else cleared
  }

  lemma ListRuns(h: Host, all: Uuids, st: State, d: Disk)
    requires !st.exited
    ensures Run(h, DiskListCmds(all, d), st) == Round(h, all, st, d.(bootable := false))
  {
    if Skipped(all, d) {
    } else if UuidOnDisk(d) {
      var u := d.uuid.value;
      var a, b, c := ListItem(Mpath, u), ListItemIfEmpty(Cciss, u), ListItemIfEmpty(Scsi, u);
      var store, check := StoreItem(d.itemId), RequireBlock(d.itemId, u);
      RunThree(h, a, b, c, st);
      RunAppend(h, [a, b, c], [store, check], st);
      var found := st.(item := ItemOf(h, u));
      assert Run(h, [a, b, c], st) == found;
      assert [store, check] == [store] + [check];
      RunAppend(h, [store], [check], found);
      RunOne(h, store, found);
      RunOne(h, check, Step(h, found, store));
      assert Step(h, found, store) == found.(list := st.list[d.itemId := ItemOf(h, u)]);
    } else {
      RunOne(h, StoreNamed(d.itemId, d.name), st);
    }
  }

  lemma ClearRuns(h: Host, st: State, d: Disk)
    requires !st.exited
    ensures Run(h, ClearpartCmds(d) + [AppendDrive], st) ==
            (var cleared := st.(drive := DriveOf(h, d), clearDevs := st.clearDevs + "," + DriveOf(h, d));
             if UuidOnDisk(d) then cleared.(parts := PartText(h.partLinks(d.uuid.value))) else cleared)
  {
    RunAppend(h, ClearpartCmds(d), [AppendDrive], st);
    if UuidOnDisk(d) {
      var u := d.uuid.value;
      var a, b, c := FindDrive(Mpath, u), FindDriveIfUnset(Cciss, u), FindDriveIfUnset(Scsi, u);
      RunAppend(h, [FindParts(u)], [a, b, c], st);
      RunOne(h, FindParts(u), st);
      var st1 := Step(h, st, FindParts(u));
      RunThree(h, a, b, c, st1);
      RunOne(h, AppendDrive, st1.(drive := DriveOf(h, d)));
    } else {
      RunOne(h, SetDrive(d.name), st);
      RunOne(h, AppendDrive, st.(drive := d.name));
    }
  }

  lemma RoundRuns(h: Host, node: Node, all: Uuids, st: State, d: Disk)
    requires !st.exited
    ensures Run(h, FirstLoopCmds(node, all, d), st) == Round(h, all, st, d)
  {
    var listed := Run(h, DiskListCmds(all, d), st);
    ListRuns(h, all, st, d);
    RunAppend(h, DiskListCmds(all, d), if Cleared(node, all, d) then ClearpartCmds(d) + [AppendDrive] else [], st);
    if d.bootable && !listed.exited {
      ClearRuns(h, listed, d);
    }
  }

  /** What every run of the first loop establishes: it stops at a missing disk, or it is complete. */
  ghost predicate FirstLoopDone(h: Host, all: Uuids, disks: seq<Disk>, st: State) {
    && st.wiped == [] && st.info == [] && st.unset == [] && st.groups == []
    && (st.exited <==> exists d | d in disks :: Missing(h, all, d))
    && (!st.exited ==>
      && st.list == DiskTable(h, all, disks)
      && st.clearDevs == CommaEach(BootDrives(h, disks))
      && st.parts == PartText(BootLinks(h, disks))
      && st.drive == LastDrive(h, disks))
  }

  lemma RoundKeeps(h: Host, all: Uuids, front: seq<Disk>, d: Disk, st: State)
    requires FirstLoopDone(h, all, front, st) && !st.exited
    ensures FirstLoopDone(h, all, front + [d], Round(h, all, st, d))
  {
    assert (front + [d])[..|front|] == front;
    CommaEachSnoc(BootDrives(h, front), DriveOf(h, d));
  }

  lemma StoppedKeeps(h: Host, all: Uuids, front: seq<Disk>, d: Disk, st: State)
    requires FirstLoopDone(h, all, front, st) && st.exited
    ensures FirstLoopDone(h, all, front + [d], st)
  {
    var e :| e in front && Missing(h, all, e);
    assert e in front + [d];
  }

  lemma NextDone(h: Host, all: Uuids, front: seq<Disk>, d: Disk, st: State, next: State)
    requires FirstLoopDone(h, all, front, st) && next == if st.exited then st else Round(h, all, st, d)
    ensures FirstLoopDone(h, all, front + [d], next)
  {
    if st.exited {
      StoppedKeeps(h, all, front, d, st);
    } else {
      RoundKeeps(h, all, front, d, st);
    }
  }

  /** The loop over one more disk. */
  lemma LoopSnoc(h: Host, node: Node, all: Uuids, front: seq<Disk>, d: Disk)
    ensures var st := Run(h, FirstLoop(node, all, front), INITIAL);
      Run(h, FirstLoop(node, all, front + [d]), INITIAL) == if st.exited then st else Round(h, all, st, d)
  {
    var st := Run(h, FirstLoop(node, all, front), INITIAL);
    assert (front + [d])[..|front|] == front;
    RunAppend(h, FirstLoop(node, all, front), FirstLoopCmds(node, all, d), INITIAL);
    if !st.exited {
      RoundRuns(h, node, all, st, d);
    }
  }

  lemma LoopStep(h: Host, node: Node, all: Uuids, front: seq<Disk>, d: Disk)
    requires FirstLoopDone(h, all, front, Run(h, FirstLoop(node, all, front), INITIAL))
    ensures FirstLoopDone(h, all, front + [d], Run(h, FirstLoop(node, all, front + [d]), INITIAL))
  {
    LoopSnoc(h, node, all, front, d);
    NextDone(h, all, front, d, Run(h, FirstLoop(node, all, front), INITIAL),
             Run(h, FirstLoop(node, all, front + [d]), INITIAL));
  }

  lemma NoRounds(h: Host, node: Node, all: Uuids)
    ensures FirstLoopDone(h, all, [], Run(h, FirstLoop(node, all, []), INITIAL))
  {
  }

  lemma {:induction false} FirstLoopRuns(h: Host, node: Node, all: Uuids, disks: seq<Disk>)
    ensures FirstLoopDone(h, all, disks, Run(h, FirstLoop(node, all, disks), INITIAL))
  {
    if disks == [] {
      NoRounds(h, node, all);
    } else {
      FirstLoopRuns(h, node, all, disks[..|disks| - 1]);
      LoopStep(h, node, all, disks[..|disks| - 1], disks[|disks| - 1]);
      assert disks[..|disks| - 1] + [disks[|disks| - 1]] == disks;
    }
  }

  // ---------- the second loop ----------

  function SizedLine(h: Host, drive: string, disk: string): Line {
    if AtLeastTwoTera(h.sectors(drive)) then Part("biosboot", "biosboot", Some(1), false, disk)
    else Part("extra", "ext4", Some(1), false, disk)
  }

  function BootLinesOf(h: Host, uefi: bool, drive: string, d: Disk): seq<Line> {
    [if uefi then Part("/boot/efi", "efi", Some(200), false, DeviceOf(h, d)) else SizedLine(h, drive, DeviceOf(h, d))]
    + [Part("/boot", "xfs", Some(1000), false, DeviceOf(h, d))]
  }

  function BootLines(h: Host, all: Uuids, uefi: bool, drive: string, disks: seq<Disk>): seq<Line> {
    if disks == [] then []
    else
      var before, d := BootLines(h, all, uefi, drive, disks[..|disks| - 1]), disks[|disks| - 1];
      if Skipped(all, d) || !d.bootable then before
      else
        before + BootLinesOf(h, uefi, drive, d)
  }

  /** `disk_list` holds every disk that is not skipped, under its own device. */
  ghost predicate Tabled(h: Host, all: Uuids, list: map<string, string>, disks: seq<Disk>) {
    forall d | d in disks && !Skipped(all, d) :: d.itemId in list && list[d.itemId] == DeviceOf(h, d)
  }

  /** The state after writing some lines. */
  function Wrote(st: State, lines: seq<Line>, unset: seq<string>): State {
    st.(info := st.info + lines, unset := st.unset + unset)
  }

  lemma WroteNothing(st: State)
    ensures Wrote(st, [], []) == st
  {
    assert st.info + [] == st.info && st.unset + [] == st.unset;
  }

  lemma WroteTwice(st: State, a: seq<Line>, u: seq<string>, b: seq<Line>, v: seq<string>)
    ensures Wrote(Wrote(st, a, u), b, v) == Wrote(st, a + b, u + v)
  {
    assert st.info + a + b == st.info + (a + b);
    assert st.unset + u + v == st.unset + (u + v);
  }

  lemma WroteMore(st: State, a: seq<Line>, u: seq<string>, b: seq<Line>)
    ensures Wrote(Wrote(st, a, u), b, []) == Wrote(st, a + b, u)
  {
    WroteTwice(st, a, u, b, []);
    assert u + [] == u;
  }

  lemma BootCmdsRun(h: Host, all: Uuids, uefi: bool, d: Disk, st: State)
    requires !st.exited && !Skipped(all, d) && d.bootable
    requires d.itemId in st.list && st.list[d.itemId] == DeviceOf(h, d)
    ensures Run(h, BootCmds(all, uefi, d), st) == Wrote(st, BootLinesOf(h, uefi, st.drive, d), [])
  {
    var first, boot := OptionalPartitions(d, uefi)[0], EchoPart("/boot", "xfs", Some(BOOT_SIZE), false, d.itemId);
    RunAppend(h, [first], [boot], st);
    RunOne(h, first, st);
    RunOne(h, boot, Step(h, st, first));
    WroteMore(st, [BootLinesOf(h, uefi, st.drive, d)[0]], [], [BootLinesOf(h, uefi, st.drive, d)[1]]);
    assert st.unset + [] == st.unset;
    assert OptionalPartitions(d, uefi) == [first];
  }

  lemma {:induction false} SecondLoopRuns(h: Host, all: Uuids, uefi: bool, disks: seq<Disk>, st: State)
    requires !st.exited && Tabled(h, all, st.list, disks)
    ensures Run(h, SecondLoop(all, uefi, disks), st) == Wrote(st, BootLines(h, all, uefi, st.drive, disks), [])
  {
    if disks == [] {
      WroteNothing(st);
    } else {
      var front, d := disks[..|disks| - 1], disks[|disks| - 1];
      SecondLoopRuns(h, all, uefi, front, st);
      RunAppend(h, SecondLoop(all, uefi, front), BootCmds(all, uefi, d), st);
      if d.bootable && !Skipped(all, d) {
        assert d in disks;
        var before := BootLines(h, all, uefi, st.drive, front);
        BootCmdsRun(h, all, uefi, d, Wrote(st, before, []));
        WroteMore(st, before, [], BootLinesOf(h, uefi, st.drive, d));
      }
    }
  }

  // ---------- the volume parts ----------

  function PvLines(h: Host, list: map<string, string>, rootDisks: seq<Disk>, vg: string): seq<Line> {
    if rootDisks == [] then []
    else
      var n := |rootDisks|;
      var key := rootDisks[n - 1].itemId;
      PvLines(h, list, rootDisks[..n - 1], vg)
      + [Part(PvId(n, vg), "", Some(1000), true, if key in list then list[key] else "")]
  }

  /** One line for each root disk, in order, with its own id and its own device. */
  lemma {:induction false} PvLinesExact(h: Host, list: map<string, string>, rootDisks: seq<Disk>, vg: string)
    ensures var lines := PvLines(h, list, rootDisks, vg);
      |lines| == |rootDisks| && forall i | 0 <= i < |lines| ::
        lines[i] == Part(PvIds(|rootDisks|, vg)[i], "", Some(1000), true,
                         if rootDisks[i].itemId in list then list[rootDisks[i].itemId] else "")
  {
    if rootDisks != [] {
      PvLinesExact(h, list, rootDisks[..|rootDisks| - 1], vg);
    }
  }

  function UnsetKey(list: map<string, string>, d: Disk): seq<string> {
    if d.itemId in list then [] else [d.itemId]
  }

  function UnsetKeys(list: map<string, string>, rootDisks: seq<Disk>): seq<string> {
    if rootDisks == [] then []
    else
      UnsetKeys(list, rootDisks[..|rootDisks| - 1]) + UnsetKey(list, rootDisks[|rootDisks| - 1])
  }

  function LogvolLines(cmds: seq<Cmd>): seq<Line>
    requires forall c | c in cmds :: c.EchoLogvol?
  {
    seq(|cmds|, i requires 0 <= i < |cmds| =>
      Logvol(cmds[i].mount, cmds[i].fsType, cmds[i].name, cmds[i].vg, cmds[i].megabytes, cmds[i].grow))
  }

  lemma PvRunsOne(h: Host, d: Disk, id: string, fsType: string, size: Option<int>, grow: bool, st: State)
    requires !st.exited
    ensures Run(h, [EchoPart(id, fsType, size, grow, d.itemId)], st)
            == Wrote(st, [Part(id, fsType, size, grow, Lookup(st, d.itemId))], UnsetKey(st.list, d))
  {
    RunOne(h, EchoPart(id, fsType, size, grow, d.itemId), st);
    assert st.unset + [] == st.unset;
  }

  lemma GroupRuns(h: Host, vg: string, ids: seq<string>, st: State)
    requires !st.exited
    ensures Run(h, [EchoVolgroup(vg, ids)], st) == Wrote(st, [Volgroup(vg, ids)], [])
  {
    RunOne(h, EchoVolgroup(vg, ids), st);
    assert st.unset + [] == st.unset;
  }

  lemma {:induction false} PvRuns(h: Host, rootDisks: seq<Disk>, vg: string, st: State)
    requires !st.exited
    ensures Run(h, PvCmds(rootDisks, vg), st)
            == Wrote(st, PvLines(h, st.list, rootDisks, vg), UnsetKeys(st.list, rootDisks))
  {
    if rootDisks == [] {
      WroteNothing(st);
    } else {
      var n := |rootDisks|;
      var front, d := rootDisks[..n - 1], rootDisks[n - 1];
      PvRuns(h, front, vg, st);
      RunAppend(h, PvCmds(front, vg), [EchoPart(PvId(n, vg), "", Some(1000), true, d.itemId)], st);
      var lines, unset := PvLines(h, st.list, front, vg), UnsetKeys(st.list, front);
      PvRunsOne(h, d, PvId(n, vg), "", Some(1000), true, Wrote(st, lines, unset));
      var line := Part(PvId(n, vg), "", Some(1000), true, Lookup(st, d.itemId));
      WroteTwice(st, lines, unset, [line], UnsetKey(st.list, d));
    }
  }

  lemma {:induction false} LogvolsRun(h: Host, cmds: seq<Cmd>, st: State)
    requires !st.exited && forall c | c in cmds :: c.EchoLogvol?
    ensures Run(h, cmds, st) == Wrote(st, LogvolLines(cmds), [])
  {
    assert st.unset + [] == st.unset;
    if cmds == [] {
      assert st.info + LogvolLines(cmds) == st.info;
    } else {
      assert cmds[0] in cmds && forall c | c in cmds[1..] :: c in cmds;
      LogvolsRun(h, cmds[1..], Step(h, st, cmds[0]));
      assert LogvolLines(cmds) == [LogvolLines(cmds)[0]] + LogvolLines(cmds[1..]);
    }
  }

  lemma {:induction false} LogvolCmdsKind(vg: VolumeGroup, fss: seq<FileSystem>, growRoot: bool)
    ensures LogvolCmds(vg, fss, growRoot).Ok? ==>
      forall c | c in LogvolCmds(vg, fss, growRoot).value :: c.EchoLogvol?
  {
    if fss != [] {
      LogvolCmdsKind(vg, fss[..|fss| - 1], growRoot);
    }
  }

  function VgLines(h: Host, list: map<string, string>, vg: VolumeGroup, rootDisks: seq<Disk>): seq<Line>
    requires LogvolCmds(vg, vg.fileSystems, true).Ok?
  {
    LogvolCmdsKind(vg, vg.fileSystems, true);
    PvLines(h, list, rootDisks, vg.vgName) + [Volgroup(vg.vgName, PvIds(|rootDisks|, vg.vgName))]
    + LogvolLines(LogvolCmds(vg, vg.fileSystems, true).value)
  }

  lemma VgRuns(h: Host, vg: VolumeGroup, rootDisks: seq<Disk>, st: State)
    requires !st.exited && VgCmds(vg, rootDisks).Ok?
    ensures Run(h, VgCmds(vg, rootDisks).value, st)
            == Wrote(st, VgLines(h, st.list, vg, rootDisks), UnsetKeys(st.list, rootDisks))
  {
    var ids := PvIds(|rootDisks|, vg.vgName);
    var pvs, group := PvCmds(rootDisks, vg.vgName), EchoVolgroup(vg.vgName, ids);
    var logvols := LogvolCmds(vg, vg.fileSystems, true).value;
    var pvLines, unset := PvLines(h, st.list, rootDisks, vg.vgName), UnsetKeys(st.list, rootDisks);
    LogvolCmdsKind(vg, vg.fileSystems, true);
    PvRuns(h, rootDisks, vg.vgName, st);
    var st1 := Wrote(st, pvLines, unset);
    RunAppend(h, pvs + [group], logvols, st);
    RunAppend(h, pvs, [group], st);
    GroupRuns(h, vg.vgName, ids, st1);
    WroteMore(st, pvLines, unset, [Volgroup(vg.vgName, ids)]);
    LogvolsRun(h, logvols, Wrote(st, pvLines + [Volgroup(vg.vgName, ids)], unset));
    WroteMore(st, pvLines + [Volgroup(vg.vgName, ids)], unset, LogvolLines(logvols));
  }

  /** The volgroup line lists exactly the physical volumes created before it, in order and distinct. */
  lemma VolgroupListsItsVolumes(h: Host, list: map<string, string>, vg: VolumeGroup, rootDisks: seq<Disk>)
    requires VgCmds(vg, rootDisks).Ok?
    ensures var lines, n := VgLines(h, list, vg, rootDisks), |rootDisks|;
      && |lines| > n && lines[n].Volgroup? && lines[n].vg == vg.vgName && |lines[n].ids| == n
      && (forall i | 0 <= i < n :: lines[i].Part? && lines[i].what == lines[n].ids[i])
      && (forall i, j | 0 <= i < j < n :: lines[n].ids[i] != lines[n].ids[j])
  {
    PvLinesExact(h, list, rootDisks, vg.vgName);
    PvIdsDistinct(|rootDisks|, vg.vgName);
  }

  function VolumeLines(h: Host, list: map<string, string>, node: Node, rootDisks: seq<Disk>, vgs: seq<VolumeGroup>)
    : seq<Line>
    requires VolumeParts(node, rootDisks, vgs).Ok?
  {
    if vgs == [] then []
    else
      var before, vg := VolumeLines(h, list, node, rootDisks, vgs[..|vgs| - 1]), vgs[|vgs| - 1];
      if Some(vg.vgName) != node.rootVg then before else before + VgLines(h, list, vg, rootDisks)
  }

  function VolumeUnset(list: map<string, string>, node: Node, rootDisks: seq<Disk>, vgs: seq<VolumeGroup>)
    : seq<string>
  {
    if vgs == [] then []
    else
      var before := VolumeUnset(list, node, rootDisks, vgs[..|vgs| - 1]);
      if Some(vgs[|vgs| - 1].vgName) != node.rootVg then before else before + UnsetKeys(list, rootDisks)
  }

  lemma {:induction false} VolumesRun(h: Host, node: Node, rootDisks: seq<Disk>, vgs: seq<VolumeGroup>, st: State)
    requires !st.exited && VolumeParts(node, rootDisks, vgs).Ok?
    ensures Run(h, VolumeParts(node, rootDisks, vgs).value, st)
            == Wrote(st, VolumeLines(h, st.list, node, rootDisks, vgs), VolumeUnset(st.list, node, rootDisks, vgs))
  {
    if vgs == [] {
      WroteNothing(st);
    } else {
      var front, vg := vgs[..|vgs| - 1], vgs[|vgs| - 1];
      VolumesRun(h, node, rootDisks, front, st);
      if Some(vg.vgName) == node.rootVg {
        var before, cmds := VolumeParts(node, rootDisks, front).value, VgCmds(vg, rootDisks).value;
        var lines := VolumeLines(h, st.list, node, rootDisks, front);
        var unset := VolumeUnset(st.list, node, rootDisks, front);
        RunAppend(h, before, cmds, st);
        VgRuns(h, vg, rootDisks, Wrote(st, lines, unset));
        WroteTwice(st, lines, unset, VgLines(h, st.list, vg, rootDisks), UnsetKeys(st.list, rootDisks));
      }
    }
  }

  // ---------- the whole run ----------

  /** The item ids of a node's disks are distinct, being keys of one collection of the model. */
  ghost predicate DistinctIds(disks: seq<Disk>) {
    forall i, j | 0 <= i < j < |disks| :: disks[i].itemId != disks[j].itemId
  }

  /** Names of devices and links hold no comma. */
  ghost predicate NoCommas(h: Host, disks: seq<Disk>) {
    && (forall d | d in disks && d.bootable :: ',' !in DriveOf(h, d))
    && (forall l | l in BootLinks(h, disks) :: ',' !in l)
  }

  lemma {:induction false} TableKeys(h: Host, all: Uuids, disks: seq<Disk>)
    requires DistinctIds(disks)
    ensures Tabled(h, all, DiskTable(h, all, disks), disks)
    ensures forall key :: key in DiskTable(h, all, disks) <==>
      exists d | d in disks :: d.itemId == key && !Skipped(all, d)
  {
    if disks != [] {
      TableKeys(h, all, disks[..|disks| - 1]);
      assert forall e :: e in disks <==> e in disks[..|disks| - 1] || e == disks[|disks| - 1];
    }
  }

  lemma {:induction false} BootDrivesPlain(h: Host, disks: seq<Disk>)
    requires forall d | d in disks && d.bootable :: ',' !in DriveOf(h, d)
    ensures forall x | x in BootDrives(h, disks) :: ',' !in x
  {
    if disks != [] {
      assert disks[|disks| - 1] in disks && forall d | d in disks[..|disks| - 1] :: d in disks;
      BootDrivesPlain(h, disks[..|disks| - 1]);
    }
  }

  /** The file that a complete run leaves. */
  function Output(h: Host, node: Node, all: Uuids, uefi: bool): seq<Line>
    requires VolumeParts(node, RootDisks(node), node.volumeGroups).Ok?
  {
    var drives := Join(BootDrives(h, node.disks), ",");
    [Clearpart(false, drives), Ignoredisk(drives), Zerombr]
    + BootLines(h, all, uefi, LastDrive(h, node.disks), node.disks)
    + VolumeLines(h, DiskTable(h, all, node.disks), node, RootDisks(node), node.volumeGroups)
  }

  lemma WipeRuns(h: Host, only: Option<string>, tableType: string, st: State)
    requires !st.exited
    ensures Run(h, [RemoveVgs(only), WipeDisks(tableType)], st)
            == st.(groups := st.groups + [only], table := tableType,
                   wiped := st.wiped + WipeList(st.clearDevs, st.parts))
  {
    assert [RemoveVgs(only), WipeDisks(tableType)] == [RemoveVgs(only)] + [WipeDisks(tableType)];
    RunAppend(h, [RemoveVgs(only)], [WipeDisks(tableType)], st);
    RunOne(h, RemoveVgs(only), st);
    RunOne(h, WipeDisks(tableType), st.(groups := st.groups + [only]));
  }

  lemma DrivesRun(h: Host, st: State)
    requires !st.exited
    ensures Run(h, [EchoClearpart(false), EchoIgnoredisk, EchoZerombr], st)
            == (var drives := StripComma(st.clearDevs);
                st.(info := [Clearpart(false, drives), Ignoredisk(drives), Zerombr]))
  {
    RunThree(h, EchoClearpart(false), EchoIgnoredisk, EchoZerombr, st);
  }

  lemma HeadRuns(h: Host, node: Node, all: Uuids, uefi: bool, st: State)
    requires !st.exited && st.wiped == [] && st.groups == []
    requires st.clearDevs == CommaEach(BootDrives(h, node.disks)) && st.parts == PartText(BootLinks(h, node.disks))
    requires NoCommas(h, node.disks)
    ensures Run(h, Head(node, all, uefi), st)
            == st.(groups := [if node.osReinstall then Some("vg_root") else None], table := TableType(uefi),
                   wiped := NonEmpty(BootDrives(h, node.disks)) + PartPaths(BootLinks(h, node.disks)),
                   info := (var drives := Join(BootDrives(h, node.disks), ",");
                            [Clearpart(false, drives), Ignoredisk(drives), Zerombr]))
  {
    var only := if node.osReinstall then Some("vg_root") else None;
    RunAppend(h, [RemoveVgs(only), WipeDisks(TableType(uefi))],
              [EchoClearpart(false), EchoIgnoredisk, EchoZerombr], st);
    WipeRuns(h, only, TableType(uefi), st);
    assert st.groups + [only] == [only];
    BootDrivesPlain(h, node.disks);
    WipeListExact(BootDrives(h, node.disks), BootLinks(h, node.disks));
    StripCommaIsJoin(BootDrives(h, node.disks));
    DrivesRun(h, st.(groups := [only], table := TableType(uefi),
                     wiped := st.wiped + WipeList(st.clearDevs, st.parts)));
  }

  /** A disk of the model that is missing on the node stops the snippet before it wipes or writes anything. */
  lemma MissingDiskStopsInTime(h: Host, node: Node, all: Uuids, uefi: bool)
    requires Snippet(node, all, uefi).Ok?
    requires exists d | d in node.disks :: Missing(h, all, d)
    ensures var st := Run(h, Snippet(node, all, uefi).value, INITIAL);
      st.exited && st.wiped == [] && st.info == [] && st.groups == []
  {
    var volumes := VolumeParts(node, RootDisks(node), node.volumeGroups).value;
    FirstLoopRuns(h, node, all, node.disks);
    RunAppend(h, FirstLoop(node, all, node.disks),
              Head(node, all, uefi) + (SecondLoop(all, uefi, node.disks) + volumes), INITIAL);
  }

  /** Otherwise the run is complete, and everything it does is determined by the model. */
  lemma SnippetRuns(h: Host, node: Node, all: Uuids, uefi: bool)
    requires Snippet(node, all, uefi).Ok? && DistinctIds(node.disks) && NoCommas(h, node.disks)
    requires !exists d | d in node.disks :: Missing(h, all, d)
    ensures var st := Run(h, Snippet(node, all, uefi).value, INITIAL);
      && !st.exited
      && st.groups == [if node.osReinstall then Some("vg_root") else None]
      && st.table == (if uefi then "gpt" else "msdos")
      && st.list == DiskTable(h, all, node.disks)
      && st.wiped == NonEmpty(BootDrives(h, node.disks)) + PartPaths(BootLinks(h, node.disks))
      && st.info == Output(h, node, all, uefi)
      && st.unset == VolumeUnset(st.list, node, RootDisks(node), node.volumeGroups)
  {
    var first, head := FirstLoop(node, all, node.disks), Head(node, all, uefi);
    var second := SecondLoop(all, uefi, node.disks);
    var volumes := VolumeParts(node, RootDisks(node), node.volumeGroups).value;
    FirstLoopRuns(h, node, all, node.disks);
    RunAppend(h, first, head + (second + volumes), INITIAL);
    var st1 := Run(h, first, INITIAL);
    RunAppend(h, head, second + volumes, st1);
    HeadRuns(h, node, all, uefi, st1);
    var st2 := Run(h, head, st1);
    RunAppend(h, second, volumes, st2);
    TableKeys(h, all, node.disks);
    SecondLoopRuns(h, all, uefi, node.disks, st2);
    VolumesRun(h, node, RootDisks(node), node.volumeGroups, Run(h, second, st2));
  }

  // ---------- consequences ----------

  lemma RootDisksAreDisks(node: Node)
    ensures forall d | d in RootDisks(node) :: d in node.disks
    ensures RootDisks(node) != [] ==> exists vg | vg in node.volumeGroups :: Some(vg.vgName) == node.rootVg
  {
    forall d | d in RootDisks(node)
      ensures d in node.disks && exists vg | vg in node.volumeGroups :: Some(vg.vgName) == node.rootVg
    {
      RootDisksExact(node, d);
    }
    if RootDisks(node) != [] {
      assert RootDisks(node)[0] in RootDisks(node);
    }
  }

  lemma {:induction false} UnsetKeysExact(list: map<string, string>, rootDisks: seq<Disk>)
    ensures UnsetKeys(list, rootDisks) == [] <==> forall d | d in rootDisks :: d.itemId in list
  {
    if rootDisks != [] {
      UnsetKeysExact(list, rootDisks[..|rootDisks| - 1]);
      assert forall e :: e in rootDisks <==> e in rootDisks[..|rootDisks| - 1] || e == rootDisks[|rootDisks| - 1];
    }
  }

  lemma {:induction false} VolumeUnsetExact(list: map<string, string>, node: Node, rootDisks: seq<Disk>,
                                            vgs: seq<VolumeGroup>)
    ensures VolumeUnset(list, node, rootDisks, vgs) == [] <==>
            (forall d | d in rootDisks :: d.itemId in list) || forall vg | vg in vgs :: Some(vg.vgName) != node.rootVg
  {
    if vgs != [] {
      VolumeUnsetExact(list, node, rootDisks, vgs[..|vgs| - 1]);
      UnsetKeysExact(list, rootDisks);
      assert forall vg :: vg in vgs <==> vg in vgs[..|vgs| - 1] || vg == vgs[|vgs| - 1];
    }
  }

  lemma SameDisk(disks: seq<Disk>, d: Disk, e: Disk)
    requires DistinctIds(disks) && d in disks && e in disks && d.itemId == e.itemId
    ensures d == e
  {
  }

  /**
   * A complete run reads an unassigned key of `disk_list` if and only if a root disk is skipped,
   * that is, has a UUID that is not unique among the nodes.
   */
  lemma UnsetReadIffSharedRootDisk(h: Host, node: Node, all: Uuids, uefi: bool)
    requires Snippet(node, all, uefi).Ok? && DistinctIds(node.disks) && NoCommas(h, node.disks)
    requires !exists d | d in node.disks :: Missing(h, all, d)
    ensures Run(h, Snippet(node, all, uefi).value, INITIAL).unset == [] <==>
            forall d | d in RootDisks(node) :: !Skipped(all, d)
  {
    SnippetRuns(h, node, all, uefi);
    var list := DiskTable(h, all, node.disks);
    TableKeys(h, all, node.disks);
    RootDisksAreDisks(node);
    VolumeUnsetExact(list, node, RootDisks(node), node.volumeGroups);
    forall d | d in RootDisks(node)
      ensures d.itemId in list <==> !Skipped(all, d)
    {
      if d.itemId in list {
        var e :| e in node.disks && e.itemId == d.itemId && !Skipped(all, e);
        SameDisk(node.disks, d, e);
      }
    }
  }

  /** After a complete run `disk_list` holds exactly the disks that are not skipped, each under its own device. */
  lemma KeysDenoteTheirDisks(h: Host, node: Node, all: Uuids, uefi: bool)
    requires Snippet(node, all, uefi).Ok? && DistinctIds(node.disks) && NoCommas(h, node.disks)
    requires !exists d | d in node.disks :: Missing(h, all, d)
    ensures var list := Run(h, Snippet(node, all, uefi).value, INITIAL).list;
      && (forall key :: key in list <==> exists d | d in node.disks :: d.itemId == key && !Skipped(all, d))
      && (forall d | d in node.disks && !Skipped(all, d) :: list[d.itemId] == DeviceOf(h, d))
  {
    SnippetRuns(h, node, all, uefi);
    TableKeys(h, all, node.disks);
  }

  ghost predicate OneBootDisk(disks: seq<Disk>, b: nat) {
    b < |disks| && disks[b].bootable && forall i | 0 <= i < |disks| && i != b :: !disks[i].bootable
  }

  lemma {:induction false} OneBootDrive(h: Host, disks: seq<Disk>, b: nat)
    requires OneBootDisk(disks, b)
    ensures BootDrives(h, disks) == [DriveOf(h, disks[b])] && LastDrive(h, disks) == DriveOf(h, disks[b])
    ensures BootLinks(h, disks) == if UuidOnDisk(disks[b]) then h.partLinks(disks[b].uuid.value) else []
  {
    var n := |disks| - 1;
    if b == n {
      NoBootDrive(h, disks[..n]);
    } else {
      OneBootDrive(h, disks[..n], b);
    }
  }

  lemma {:induction false} NoBootDrive(h: Host, disks: seq<Disk>)
    requires forall i | 0 <= i < |disks| :: !disks[i].bootable
    ensures BootDrives(h, disks) == [] && BootLinks(h, disks) == []
  {
    if disks != [] {
      NoBootDrive(h, disks[..|disks| - 1]);
    }
  }

  /**
   * The disks wiped are the one bootable disk and its multipath partitions, shared or not, and
   * whether or not the node is being reinstalled.
   */
  lemma WipedExact(h: Host, node: Node, all: Uuids, uefi: bool, b: nat)
    requires Snippet(node, all, uefi).Ok? && DistinctIds(node.disks) && NoCommas(h, node.disks)
    requires !exists d | d in node.disks :: Missing(h, all, d)
    requires OneBootDisk(node.disks, b) && DriveOf(h, node.disks[b]) != ""
    ensures Run(h, Snippet(node, all, uefi).value, INITIAL).wiped
            == [DriveOf(h, node.disks[b])]
               + if UuidOnDisk(node.disks[b]) then PartPaths(h.partLinks(node.disks[b].uuid.value)) else []
  {
    SnippetRuns(h, node, all, uefi);
    OneBootDrive(h, node.disks, b);
    NonEmptyAll([DriveOf(h, node.disks[b])]);
  }

  function SizeOneParts(lines: seq<Line>): seq<Line> {
    if lines == [] then []
    else
      var before, l := SizeOneParts(lines[..|lines| - 1]), lines[|lines| - 1];
      if l.Part? && l.size == Some(1) then before + [l] else before
  }

  lemma {:induction false} SizeOneAppend(a: seq<Line>, b: seq<Line>)
    ensures SizeOneParts(a + b) == SizeOneParts(a) + SizeOneParts(b)
  {
    if b == [] {
      assert a + b == a;
    } else {
      var n := |b| - 1;
      assert (a + b)[..|a| + n] == a + b[..n];
      SizeOneAppend(a, b[..n]);
    }
  }

  lemma {:induction false} NoSizeOne(lines: seq<Line>)
    requires forall l | l in lines :: !(l.Part? && l.size == Some(1))
    ensures SizeOneParts(lines) == []
  {
    if lines != [] {
      assert lines[|lines| - 1] in lines;
      NoSizeOne(lines[..|lines| - 1]);
    }
  }

  lemma {:induction false} VolumeLinesKind(h: Host, list: map<string, string>, node: Node, rootDisks: seq<Disk>,
                                           vgs: seq<VolumeGroup>)
    requires VolumeParts(node, rootDisks, vgs).Ok?
    ensures forall l | l in VolumeLines(h, list, node, rootDisks, vgs) :: !(l.Part? && l.size == Some(1))
  {
    if vgs != [] {
      VolumeLinesKind(h, list, node, rootDisks, vgs[..|vgs| - 1]);
      if Some(vgs[|vgs| - 1].vgName) == node.rootVg {
        VgLinesKind(h, list, vgs[|vgs| - 1], rootDisks);
      }
    }
  }

  lemma VgLinesKind(h: Host, list: map<string, string>, vg: VolumeGroup, rootDisks: seq<Disk>)
    requires VgCmds(vg, rootDisks).Ok?
    ensures forall l | l in VgLines(h, list, vg, rootDisks) :: !(l.Part? && l.size == Some(1))
  {
    LogvolCmdsKind(vg, vg.fileSystems, true);
    PvLinesExact(h, list, rootDisks, vg.vgName);
    assert forall l | l in PvLines(h, list, rootDisks, vg.vgName) :: l.size == Some(1000);
  }

  lemma OwnSizeOne(h: Host, uefi: bool, drive: string, d: Disk)
    ensures SizeOneParts(BootLinesOf(h, uefi, drive, d))
            == if uefi then [] else [SizedLine(h, drive, DeviceOf(h, d))]
  {
    var lines := BootLinesOf(h, uefi, drive, d);
    SizeOneAppend([lines[0]], [lines[1]]);
    assert lines == [lines[0]] + [lines[1]];
    assert [lines[0]][..0] == [] && [lines[1]][..0] == [];
    assert SizeOneParts([lines[1]]) == [] && SizeOneParts([lines[0]]) == if uefi then [] else [lines[0]];
  }

  lemma {:induction false} BootSizeOne(h: Host, all: Uuids, uefi: bool, drive: string, disks: seq<Disk>, b: nat)
    requires OneBootDisk(disks, b)
    ensures SizeOneParts(BootLines(h, all, uefi, drive, disks))
            == if uefi || Skipped(all, disks[b]) then [] else [SizedLine(h, drive, DeviceOf(h, disks[b]))]
  {
    var n := |disks| - 1;
    if b == n {
      NoBootLines(h, all, uefi, drive, disks[..n]);
      OwnSizeOne(h, uefi, drive, disks[b]);
      assert [] + BootLinesOf(h, uefi, drive, disks[b]) == BootLinesOf(h, uefi, drive, disks[b]);
    } else {
      BootSizeOne(h, all, uefi, drive, disks[..n], b);
    }
  }

  lemma {:induction false} NoBootLines(h: Host, all: Uuids, uefi: bool, drive: string, disks: seq<Disk>)
    requires forall i | 0 <= i < |disks| :: !disks[i].bootable
    ensures BootLines(h, all, uefi, drive, disks) == []
  {
    if disks != [] {
      NoBootLines(h, all, uefi, drive, disks[..|disks| - 1]);
    }
  }

  /**
   * With one bootable disk, the size test looks at the very disk that gets the partition: exactly one
   * 1 MB partition is written, on that disk, a biosboot one if and only if the disk has 2 TiB or more.
   * A shared boot disk gets none, and neither does UEFI.
   */
  lemma SizedPartitionExact(h: Host, node: Node, all: Uuids, uefi: bool, b: nat)
    requires Snippet(node, all, uefi).Ok? && DistinctIds(node.disks) && NoCommas(h, node.disks)
    requires !exists d | d in node.disks :: Missing(h, all, d)
    requires OneBootDisk(node.disks, b) && h.sectors(DriveOf(h, node.disks[b])) < 0x40_0000_0000_0000
    ensures var st := Run(h, Snippet(node, all, uefi).value, INITIAL);
      var d := node.disks[b];
      SizeOneParts(st.info) ==
        if uefi || Skipped(all, d) then []
        else if 512 * h.sectors(DriveOf(h, d)) >= 2 * 0x100_0000_0000
        then [Part("biosboot", "biosboot", Some(1), false, DeviceOf(h, d))]
        else [Part("extra", "ext4", Some(1), false, DeviceOf(h, d))]
  {
    SnippetRuns(h, node, all, uefi);
    OneBootDrive(h, node.disks, b);
    var d := node.disks[b];
    TwoTeraExact(h.sectors(DriveOf(h, d)));
    var drives := Join(BootDrives(h, node.disks), ",");
    var head := [Clearpart(false, drives), Ignoredisk(drives), Zerombr];
    var boot := BootLines(h, all, uefi, DriveOf(h, d), node.disks);
    var volumes := VolumeLines(h, DiskTable(h, all, node.disks), node, RootDisks(node), node.volumeGroups);
    VolumeLinesKind(h, DiskTable(h, all, node.disks), node, RootDisks(node), node.volumeGroups);
    SizeOneAppend(head + boot, volumes);
    SizeOneAppend(head, boot);
    NoSizeOne(head);
    NoSizeOne(volumes);
    BootSizeOne(h, all, uefi, DriveOf(h, d), node.disks, b);
  }

  // ---------- the logical volumes ----------

  /** A file system of the model that is to be mounted, with its volume group. */
  datatype Mount = Mount(vg: VolumeGroup, fs: FileSystem)

  predicate IsMounted(fs: FileSystem) {
    fs.mountPoint.Some? && fs.mountPoint.value != ""
  }

  /** The file systems with a mount point, in model order. */
  function Mounts(vg: VolumeGroup, fss: seq<FileSystem>): (mounts: seq<Mount>)
    ensures forall m :: m in mounts <==> m.vg == vg && m.fs in fss && IsMounted(m.fs)
  {
    if fss == [] then []
    else if IsMounted(fss[0]) then [Mount(vg, fss[0])] + Mounts(vg, fss[1..])
    else Mounts(vg, fss[1..])
  }

  function RootMounts(node: Node, vgs: seq<VolumeGroup>): (mounts: seq<Mount>)
    ensures forall m :: m in mounts <==>
      m.vg in vgs && Some(m.vg.vgName) == node.rootVg && m.fs in m.vg.fileSystems && IsMounted(m.fs)
  {
    if vgs == [] then []
    else if Some(vgs[0].vgName) == node.rootVg then Mounts(vgs[0], vgs[0].fileSystems) + RootMounts(node, vgs[1..])
    else RootMounts(node, vgs[1..])
  }

  lemma {:induction false} MountsSnoc(vg: VolumeGroup, front: seq<FileSystem>, last: FileSystem)
    ensures Mounts(vg, front + [last]) == Mounts(vg, front) + if IsMounted(last) then [Mount(vg, last)] else []
  {
    if front == [] {
      assert front + [last] == [last] && [last][1..] == [];
    } else {
      assert (front + [last])[1..] == front[1..] + [last];
      MountsSnoc(vg, front[1..], last);
    }
  }

  lemma {:induction false} RootMountsSnoc(node: Node, front: seq<VolumeGroup>, last: VolumeGroup)
    ensures RootMounts(node, front + [last])
            == RootMounts(node, front) + if Some(last.vgName) == node.rootVg then Mounts(last, last.fileSystems) else []
  {
    if front == [] {
      assert front + [last] == [last] && [last][1..] == [];
      assert Mounts(last, last.fileSystems) + [] == Mounts(last, last.fileSystems);
    } else {
      assert (front + [last])[1..] == front[1..] + [last];
      RootMountsSnoc(node, front[1..], last);
    }
  }

  /** The line of a file system: its mount point, type, name, volume group and megabytes; "/" may grow. */
  predicate IsLogvolOf(l: Line, m: Mount, rootGrows: bool) {
    && IsMounted(m.fs) && Sizes.ConvertToMb(m.fs.size).Ok? && l.Logvol?
    && l.mount == m.fs.mountPoint.value && l.fsType == m.fs.fsType
    && l.name == m.vg.itemId + "_" + m.fs.itemId && l.vg == m.vg.vgName
    && l.megabytes == Sizes.ConvertToMb(m.fs.size).value
    && (l.grow <==> rootGrows && m.fs.mountPoint.value == "/")
  }

  ghost predicate LogvolsOf(lines: seq<Line>, mounts: seq<Mount>, rootGrows: bool) {
    |lines| == |mounts| && forall i | 0 <= i < |lines| :: IsLogvolOf(lines[i], mounts[i], rootGrows)
  }

  /** The logvol lines among the lines of a file. */
  function Logvols(lines: seq<Line>): seq<Line> {
    if lines == [] then []
    else if lines[0].Logvol? then [lines[0]] + Logvols(lines[1..])
    else Logvols(lines[1..])
  }

  lemma {:induction false} LogvolsAppend(a: seq<Line>, b: seq<Line>)
    ensures Logvols(a + b) == Logvols(a) + Logvols(b)
  {
    if a == [] {
      assert a + b == b;
    } else {
      assert (a + b)[1..] == a[1..] + b;
      LogvolsAppend(a[1..], b);
    }
  }

  lemma {:induction false} NoLogvols(lines: seq<Line>)
    requires forall i | 0 <= i < |lines| :: !lines[i].Logvol?
    ensures Logvols(lines) == []
  {
    if lines != [] {
      NoLogvols(lines[1..]);
    }
  }

  lemma {:induction false} AllLogvols(lines: seq<Line>)
    requires forall i | 0 <= i < |lines| :: lines[i].Logvol?
    ensures Logvols(lines) == lines
  {
    if lines != [] {
      AllLogvols(lines[1..]);
      assert lines == [lines[0]] + lines[1..];
    }
  }

  lemma {:induction false} LogvolLinesExact(vg: VolumeGroup, fss: seq<FileSystem>, growRoot: bool)
    requires LogvolCmds(vg, fss, growRoot).Ok?
    ensures (forall c | c in LogvolCmds(vg, fss, growRoot).value :: c.EchoLogvol?)
    ensures LogvolsOf(LogvolLines(LogvolCmds(vg, fss, growRoot).value), Mounts(vg, fss), growRoot)
  {
    LogvolCmdsKind(vg, fss, growRoot);
    if fss != [] {
      var front, last := fss[..|fss| - 1], fss[|fss| - 1];
      assert fss == front + [last];
      LogvolSnoc(vg, front, last, growRoot);
      LogvolLinesExact(vg, front, growRoot);
      MountsSnoc(vg, front, last);
      if IsMounted(last) {
        LogvolsSnoc(LogvolLines(LogvolCmds(vg, front, growRoot).value), Mounts(vg, front),
                    LogvolLines(LogvolCmds(vg, fss, growRoot).value), Mount(vg, last), growRoot);
      }
    }
  }

  lemma LogvolSnoc(vg: VolumeGroup, front: seq<FileSystem>, last: FileSystem, growRoot: bool)
    requires LogvolCmds(vg, front + [last], growRoot).Ok?
    ensures LogvolCmds(vg, front, growRoot).Ok?
    ensures var cmds, before := LogvolCmds(vg, front + [last], growRoot).value, LogvolCmds(vg, front, growRoot).value;
      if !IsMounted(last) then cmds == before
      else
        && |cmds| == |before| + 1 && cmds[..|before|] == before && cmds[|before|].EchoLogvol?
        && var c := cmds[|before|];
           IsLogvolOf(Logvol(c.mount, c.fsType, c.name, c.vg, c.megabytes, c.grow), Mount(vg, last), growRoot)
  {
    assert (front + [last])[..|front|] == front;
  }

  lemma LogvolsSnoc(lines: seq<Line>, mounts: seq<Mount>, longer: seq<Line>, m: Mount, rootGrows: bool)
    requires LogvolsOf(lines, mounts, rootGrows) && |longer| == |lines| + 1
    requires (forall i | 0 <= i < |lines| :: longer[i] == lines[i]) && IsLogvolOf(longer[|lines|], m, rootGrows)
    ensures LogvolsOf(longer, mounts + [m], rootGrows)
  {
  }

  lemma VgLogvols(h: Host, list: map<string, string>, vg: VolumeGroup, rootDisks: seq<Disk>)
    requires VgCmds(vg, rootDisks).Ok?
    ensures LogvolsOf(Logvols(VgLines(h, list, vg, rootDisks)), Mounts(vg, vg.fileSystems), true)
  {
    LogvolLinesExact(vg, vg.fileSystems, true);
    PvLinesExact(h, list, rootDisks, vg.vgName);
    var head := PvLines(h, list, rootDisks, vg.vgName) + [Volgroup(vg.vgName, PvIds(|rootDisks|, vg.vgName))];
    var logvols := LogvolLines(LogvolCmds(vg, vg.fileSystems, true).value);
    LogvolsAppend(head, logvols);
    NoLogvols(head);
    AllLogvols(logvols);
  }

  lemma LogvolsConcat(a: seq<Line>, b: seq<Line>, ms: seq<Mount>, ns: seq<Mount>, rootGrows: bool)
    requires LogvolsOf(a, ms, rootGrows) && LogvolsOf(b, ns, rootGrows)
    ensures LogvolsOf(a + b, ms + ns, rootGrows)
  {
  }

  lemma {:induction false} VolumesLogvols(h: Host, list: map<string, string>, node: Node, rootDisks: seq<Disk>,
                                          vgs: seq<VolumeGroup>)
    requires VolumeParts(node, rootDisks, vgs).Ok?
    ensures LogvolsOf(Logvols(VolumeLines(h, list, node, rootDisks, vgs)), RootMounts(node, vgs), true)
  {
    if vgs != [] {
      var front, last := vgs[..|vgs| - 1], vgs[|vgs| - 1];
      assert vgs == front + [last];
      VolumesLogvols(h, list, node, rootDisks, front);
      RootMountsSnoc(node, front, last);
      if Some(last.vgName) == node.rootVg {
        var before, more := VolumeLines(h, list, node, rootDisks, front), VgLines(h, list, last, rootDisks);
        VgLogvols(h, list, last, rootDisks);
        LogvolsAppend(before, more);
        LogvolsConcat(Logvols(before), Logvols(more), RootMounts(node, front), Mounts(last, last.fileSystems), true);
      }
    }
  }

  lemma {:induction false} BootLinesKind(h: Host, all: Uuids, uefi: bool, drive: string, disks: seq<Disk>)
    ensures Logvols(BootLines(h, all, uefi, drive, disks)) == []
  {
    if disks != [] {
      var front, d := disks[..|disks| - 1], disks[|disks| - 1];
      BootLinesKind(h, all, uefi, drive, front);
      LogvolsAppend(BootLines(h, all, uefi, drive, front), BootLinesOf(h, uefi, drive, d));
      NoLogvols(BootLinesOf(h, uefi, drive, d));
    }
  }

  /**
   * The logical volumes that a complete run writes: one for each file system of the root volume group with a
   * mount point, in model order and no others, each with its own settings; only "/" grows.
   */
  lemma LogvolsExact(h: Host, node: Node, all: Uuids, uefi: bool)
    requires Snippet(node, all, uefi).Ok? && DistinctIds(node.disks) && NoCommas(h, node.disks)
    requires !exists d | d in node.disks :: Missing(h, all, d)
    ensures LogvolsOf(Logvols(Run(h, Snippet(node, all, uefi).value, INITIAL).info),
                      RootMounts(node, node.volumeGroups), true)
  {
    SnippetRuns(h, node, all, uefi);
    var drives := Join(BootDrives(h, node.disks), ",");
    var head := [Clearpart(false, drives), Ignoredisk(drives), Zerombr];
    var boot := BootLines(h, all, uefi, LastDrive(h, node.disks), node.disks);
    var volumes := VolumeLines(h, DiskTable(h, all, node.disks), node, RootDisks(node), node.volumeGroups);
    LogvolsAppend(head + boot, volumes);
    LogvolsAppend(head, boot);
    NoLogvols(head);
    BootLinesKind(h, all, uefi, LastDrive(h, node.disks), node.disks);
    VolumesLogvols(h, DiskTable(h, all, node.disks), node, RootDisks(node), node.volumeGroups);
    assert [] + [] + Logvols(volumes) == Logvols(volumes);
  }

  // ---------- when the generator fails ----------

  ghost predicate SizesRead(mounts: seq<Mount>) {
    forall m | m in mounts :: Sizes.ConvertToMb(m.fs.size).Ok?
  }

  lemma {:induction false} LogvolsFail(vg: VolumeGroup, fss: seq<FileSystem>, growRoot: bool)
    ensures LogvolCmds(vg, fss, growRoot).Ok? <==> SizesRead(Mounts(vg, fss))
  {
    if fss != [] {
      var front, last := fss[..|fss| - 1], fss[|fss| - 1];
      assert fss == front + [last];
      LogvolsFail(vg, front, growRoot);
      MountsSnoc(vg, front, last);
      assert forall m :: m in Mounts(vg, fss) <==> m in Mounts(vg, front) || (IsMounted(last) && m == Mount(vg, last));
    }
  }

  lemma {:induction false} VolumesFail(node: Node, rootDisks: seq<Disk>, vgs: seq<VolumeGroup>)
    ensures VolumeParts(node, rootDisks, vgs).Ok? <==> SizesRead(RootMounts(node, vgs))
  {
    if vgs != [] {
      var front, last := vgs[..|vgs| - 1], vgs[|vgs| - 1];
      assert vgs == front + [last];
      VolumesFail(node, rootDisks, front);
      RootMountsSnoc(node, front, last);
      LogvolsFail(last, last.fileSystems, true);
      if Some(last.vgName) == node.rootVg {
        var ms, ns := RootMounts(node, front), Mounts(last, last.fileSystems);
        assert forall m :: m in ms + ns <==> m in ms || m in ns;
      }
    }
  }

  /** A snippet is generated if and only if there is a root disk and the size of every mounted file system reads. */
  lemma GeneratedIff(node: Node, all: Uuids, uefi: bool)
    ensures Snippet(node, all, uefi) == Err(NoRootDisks) <==> RootDisks(node) == []
    ensures Snippet(node, all, uefi).Ok? <==> RootDisks(node) != [] && SizesRead(RootMounts(node, node.volumeGroups))
  {
    VolumesFail(node, RootDisks(node), node.volumeGroups);
  }
}
