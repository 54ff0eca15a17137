/** What the generated RHEL 6 partition snippet does when it runs on a node. */
module Rhel6Meaning {
  import opened Strings
  import opened Wrappers
  import opened DiskModel
  import opened Shell
  import opened Rhel6
  import Sizes
  import P = Partition
  import M = PartitionMeaning

  // ---------- the devices that a disk of the model denotes ----------

  /** Unlike on RHEL 7, the first of two links, and scsi before cciss. */
  function ItemOf(h: Host, u: string): string {
    if h.ls(Scsi, u) != "" then h.ls(Scsi, u) else h.ls(Cciss, u)
  }

  function DeviceOf(h: Host, d: Disk): string {
    if UuidOnDisk(d) then ItemOf(h, d.uuid.value) else h.lsName(d.name)
  }

  function DriveOf(h: Host, d: Disk): string {
    if UuidOnDisk(d) then
      var u := d.uuid.value;
      if h.find(Scsi, u) != "" then h.find(Scsi, u) else h.find(Cciss, u)
    else d.name
  }

  /** The drives of all disks that are not skipped, bootable or not. */
  function Drives(h: Host, all: Uuids, disks: seq<Disk>): seq<string> {
    if disks == [] then []
    else
      var before, d := Drives(h, all, disks[..|disks| - 1]), disks[|disks| - 1];
      if P.Skipped(all, d) then before else before + [DriveOf(h, d)]
  }

  function DiskTable(h: Host, all: Uuids, disks: seq<Disk>): map<string, string> {
    if disks == [] then map[]
    else
      var before, d := DiskTable(h, all, disks[..|disks| - 1]), disks[|disks| - 1];
      if P.Skipped(all, d) then before else before[d.itemId := DeviceOf(h, d)]
  }

  predicate Missing(h: Host, all: Uuids, d: Disk) {
    UuidOnDisk(d) && !P.Skipped(all, d) && !h.isBlock(DeviceOf(h, d))
  }

  // ---------- the first loop ----------

  /** One round of the loop, in one step. */
  function Round(h: Host, all: Uuids, st: State, d: Disk): State {
    if P.Skipped(all, d) then st
    else
      var listed := st.(item := if UuidOnDisk(d) then DeviceOf(h, d) else st.item,
                        list := st.list[d.itemId := DeviceOf(h, d)]);
      if Missing(h, all, d) then listed.(exited := true)
      else listed.(drive := DriveOf(h, d), clearDevs := st.clearDevs + "," + DriveOf(h, d))
  }

  lemma ListRuns(h: Host, d: Disk, st: State)
    requires !st.exited && UuidOnDisk(d)
    ensures var u := d.uuid.value;
      Run(h, [ListItem(Scsi, u), ListItemIfEmpty(Cciss, u), StoreItem(d.itemId)], st)
      == st.(item := DeviceOf(h, d), list := st.list[d.itemId := DeviceOf(h, d)])
  {
    var u := d.uuid.value;
    RunThree(h, ListItem(Scsi, u), ListItemIfEmpty(Cciss, u), StoreItem(d.itemId), st);
  }

  lemma DriveRuns(h: Host, d: Disk, st: State)
    requires !st.exited && UuidOnDisk(d)
    ensures var u := d.uuid.value;
      Run(h, [FindDrive(Scsi, u), FindDriveIfEmpty(Cciss, u), AppendDrive], st)
      == st.(drive := DriveOf(h, d), clearDevs := st.clearDevs + "," + DriveOf(h, d))
  {
    var u := d.uuid.value;
    RunThree(h, FindDrive(Scsi, u), FindDriveIfEmpty(Cciss, u), AppendDrive, st);
  }

  lemma RoundRuns(h: Host, all: Uuids, st: State, d: Disk)
    requires !st.exited
    ensures Run(h, DiskCmds(all, d), st) == Round(h, all, st, d)
  {
    if P.Skipped(all, d) {
    } else if UuidOnDisk(d) {
      var u := d.uuid.value;
      var list := [ListItem(Scsi, u), ListItemIfEmpty(Cciss, u), StoreItem(d.itemId)];
      var check, drive := RequireBlock(d.itemId, u), [FindDrive(Scsi, u), FindDriveIfEmpty(Cciss, u), AppendDrive];
      ListRuns(h, d, st);
      var listed := Run(h, list, st);
      RunAppend(h, list, [check] + drive, st);
      RunAppend(h, [check], drive, listed);
      RunOne(h, check, listed);
      if !Missing(h, all, d) {
        DriveRuns(h, d, listed);
      }
    } else {
      RunThree(h, StoreNamed(d.itemId, d.name), SetDrive(d.name), AppendDrive, st);
    }
  }

  ghost predicate FirstLoopDone(h: Host, all: Uuids, disks: seq<Disk>, st: State) {
    && st.wiped == [] && st.info == [] && st.unset == []
    && (st.exited <==> exists d | d in disks :: Missing(h, all, d))
    && (!st.exited ==> st.list == DiskTable(h, all, disks) && st.clearDevs == CommaEach(Drives(h, all, disks)))
  }

  lemma RoundKeeps(h: Host, all: Uuids, front: seq<Disk>, d: Disk, st: State)
    requires FirstLoopDone(h, all, front, st) && !st.exited
    ensures FirstLoopDone(h, all, front + [d], Round(h, all, st, d))
  {
    assert (front + [d])[..|front|] == front;
    CommaEachSnoc(Drives(h, all, front), DriveOf(h, d));
  }

  lemma StoppedKeeps(h: Host, all: Uuids, front: seq<Disk>, d: Disk, st: State)
    requires FirstLoopDone(h, all, front, st) && st.exited
    ensures FirstLoopDone(h, all, front + [d], st)
  {
    var e :| e in front && Missing(h, all, e);
    assert e in front + [d];
  }

  lemma NextDone(h: Host, all: Uuids, front: seq<Disk>, d: Disk, st: State, next: State)
    requires FirstLoopDone(h, all, front, st) && next == if st.exited then st else Round(h, all, st, d)
    ensures FirstLoopDone(h, all, front + [d], next)
  {
    if st.exited {
      StoppedKeeps(h, all, front, d, st);
    } else {
      RoundKeeps(h, all, front, d, st);
    }
  }

  /** The loop over one more disk. */
  lemma LoopSnoc(h: Host, all: Uuids, front: seq<Disk>, d: Disk)
    ensures var st := Run(h, AllDiskCmds(all, front), INITIAL);
      Run(h, AllDiskCmds(all, front + [d]), INITIAL) == if st.exited then st else Round(h, all, st, d)
  {
    var st := Run(h, AllDiskCmds(all, front), INITIAL);
    assert (front + [d])[..|front|] == front;
    RunAppend(h, AllDiskCmds(all, front), DiskCmds(all, d), INITIAL);
    if !st.exited {
      RoundRuns(h, all, st, d);
    }
  }

  lemma LoopStep(h: Host, all: Uuids, front: seq<Disk>, d: Disk)
    requires FirstLoopDone(h, all, front, Run(h, AllDiskCmds(all, front), INITIAL))
    ensures FirstLoopDone(h, all, front + [d], Run(h, AllDiskCmds(all, front + [d]), INITIAL))
  {
    LoopSnoc(h, all, front, d);
    NextDone(h, all, front, d, Run(h, AllDiskCmds(all, front), INITIAL),
             Run(h, AllDiskCmds(all, front + [d]), INITIAL));
  }

  lemma NoRounds(h: Host, all: Uuids)
    ensures FirstLoopDone(h, all, [], Run(h, AllDiskCmds(all, []), INITIAL))
  {
  }

  lemma {:induction false} FirstLoopRuns(h: Host, all: Uuids, disks: seq<Disk>)
    ensures FirstLoopDone(h, all, disks, Run(h, AllDiskCmds(all, disks), INITIAL))
  {
    if disks == [] {
      NoRounds(h, all);
    } else {
      FirstLoopRuns(h, all, disks[..|disks| - 1]);
      LoopStep(h, all, disks[..|disks| - 1], disks[|disks| - 1]);
      assert disks[..|disks| - 1] + [disks[|disks| - 1]] == disks;
    }
  }

  lemma {:induction false} TableKeys(h: Host, all: Uuids, disks: seq<Disk>)
    requires M.DistinctIds(disks)
    ensures forall d | d in disks :: d.itemId in DiskTable(h, all, disks) <==> !P.Skipped(all, d)
    ensures forall d | d in disks && !P.Skipped(all, d) :: DiskTable(h, all, disks)[d.itemId] == DeviceOf(h, d)
    ensures forall k | k in DiskTable(h, all, disks) :: exists d | d in disks :: d.itemId == k
  {
    if disks != [] {
      var front, last := disks[..|disks| - 1], disks[|disks| - 1];
      TableKeys(h, all, front);
      assert forall e :: e in disks <==> e in front || e == last;
      assert forall e | e in front :: e.itemId != last.itemId;
    }
  }

  // ---------- the lines ----------

  function BootLine(h: Host, d: Disk): Line {
    Part("/boot", "ext4", Some(500), false, DeviceOf(h, d))
  }

  function BootLines(h: Host, all: Uuids, disks: seq<Disk>): seq<Line> {
    if disks == [] then []
    else
      var before, d := BootLines(h, all, disks[..|disks| - 1]), disks[|disks| - 1];
      if P.Skipped(all, d) || !d.bootable then before else before + [BootLine(h, d)]
  }

  lemma {:induction false} BootRuns(h: Host, all: Uuids, disks: seq<Disk>, st: State)
    requires !st.exited
    requires forall d | d in disks && !P.Skipped(all, d) :: d.itemId in st.list && st.list[d.itemId] == DeviceOf(h, d)
    ensures Run(h, AllBootCmds(all, disks), st) == M.Wrote(st, BootLines(h, all, disks), [])
  {
    if disks == [] {
      M.WroteNothing(st);
    } else {
      var front, d := disks[..|disks| - 1], disks[|disks| - 1];
      assert d in disks && forall e | e in front :: e in disks;
      BootRuns(h, all, front, st);
      RunAppend(h, AllBootCmds(all, front), BootCmds(all, d), st);
      if !P.Skipped(all, d) && d.bootable {
        var before := BootLines(h, all, front);
        M.PvRunsOne(h, d, "/boot", "ext4", Some(BOOT_SIZE), false, M.Wrote(st, before, []));
        M.WroteTwice(st, before, [], [BootLine(h, d)], []);
      }
    }
  }

  /** The device on which the line for a key is placed; none if the key is unassigned. */
  function Placed(list: map<string, string>, key: string): string {
    if key in list then list[key] else ""
  }

  /** What the boot partition leaves of a root disk, in megabytes; None if the size has no unit. */
  function Remaining(d: Disk): Option<int> {
    match Sizes.ConvertToMb(d.size)
    case Ok(Some(mb)) => Some(if d.bootable then mb - 500 else mb)
    case _ => None
  }

  function PvLine(list: map<string, string>, d: Disk, id: string): Line {
    Part(id, "", Remaining(d), false, Placed(list, d.itemId))
  }

  lemma PvCmdsSnoc(front: seq<Disk>, d: Disk, vg: string)
    requires PvCmds(front + [d], vg).Ok?
    ensures PvCmds(front, vg).Ok? && PvSize(d).Ok?
    ensures PvCmds(front + [d], vg).value
            == PvCmds(front, vg).value + [EchoPart(P.PvId(|front| + 1, vg), "", PvSize(d).value, false, d.itemId)]
  {
    assert (front + [d])[..|front|] == front;
  }

  lemma {:induction false} PvSizesOk(rootDisks: seq<Disk>, vg: string)
    requires PvCmds(rootDisks, vg).Ok?
    ensures forall d | d in rootDisks :: PvSize(d).Ok?
  {
    if rootDisks != [] {
      var front, d := rootDisks[..|rootDisks| - 1], rootDisks[|rootDisks| - 1];
      assert rootDisks == front + [d];
      PvCmdsSnoc(front, d, vg);
      PvSizesOk(front, vg);
    }
  }

  /** One line for each root disk, in order, with the id of the volgroup line. */
  function PvLines(list: map<string, string>, rootDisks: seq<Disk>, vg: string): (lines: seq<Line>)
    requires forall d | d in rootDisks :: PvSize(d).Ok?
    ensures |lines| == |rootDisks|
    ensures forall i | 0 <= i < |lines| :: lines[i] == PvLine(list, rootDisks[i], P.PvIds(|rootDisks|, vg)[i])
  {
    seq(|rootDisks|, i requires 0 <= i < |rootDisks| => PvLine(list, rootDisks[i], P.PvIds(|rootDisks|, vg)[i]))
  }

  lemma PvLinesSnoc(list: map<string, string>, front: seq<Disk>, d: Disk, vg: string)
    requires forall e | e in front + [d] :: PvSize(e).Ok?
    ensures PvLines(list, front + [d], vg) == PvLines(list, front, vg) + [PvLine(list, d, P.PvId(|front| + 1, vg))]
  {
  }

  lemma {:induction false} PvRuns(h: Host, rootDisks: seq<Disk>, vg: string, st: State)
    requires !st.exited && PvCmds(rootDisks, vg).Ok? && forall d | d in rootDisks :: PvSize(d).Ok?
    ensures Run(h, PvCmds(rootDisks, vg).value, st)
            == M.Wrote(st, PvLines(st.list, rootDisks, vg), M.UnsetKeys(st.list, rootDisks))
  {
    if rootDisks == [] {
      M.WroteNothing(st);
    } else {
      var front, d := rootDisks[..|rootDisks| - 1], rootDisks[|rootDisks| - 1];
      assert rootDisks == front + [d];
      PvCmdsSnoc(front, d, vg);
      PvLinesSnoc(st.list, front, d, vg);
      PvRuns(h, front, vg, st);
      PvLast(h, front, d, vg, st);
    }
  }

  lemma PvLast(h: Host, front: seq<Disk>, d: Disk, vg: string, st: State)
    requires !st.exited && PvCmds(front, vg).Ok? && PvSize(d).Ok? && forall e | e in front :: PvSize(e).Ok?
    requires Run(h, PvCmds(front, vg).value, st)
             == M.Wrote(st, PvLines(st.list, front, vg), M.UnsetKeys(st.list, front))
    ensures var c := EchoPart(P.PvId(|front| + 1, vg), "", PvSize(d).value, false, d.itemId);
      Run(h, PvCmds(front, vg).value + [c], st)
      == M.Wrote(st, PvLines(st.list, front, vg) + [PvLine(st.list, d, P.PvId(|front| + 1, vg))],
                 M.UnsetKeys(st.list, front) + M.UnsetKey(st.list, d))
  {
    var id, size := P.PvId(|front| + 1, vg), PvSize(d).value;
    var lines, unset := PvLines(st.list, front, vg), M.UnsetKeys(st.list, front);
    RunAppend(h, PvCmds(front, vg).value, [EchoPart(id, "", size, false, d.itemId)], st);
    M.PvRunsOne(h, d, id, "", size, false, M.Wrote(st, lines, unset));
    M.WroteTwice(st, lines, unset, [PvLine(st.list, d, id)], M.UnsetKey(st.list, d));
  }

  function VgLines(list: map<string, string>, vg: VolumeGroup, rootDisks: seq<Disk>): seq<Line>
    requires VgCmds(vg, rootDisks).Ok?
  {
    PvSizesOk(rootDisks, vg.vgName);
    M.LogvolCmdsKind(vg, vg.fileSystems, false);
    PvLines(list, rootDisks, vg.vgName) + [Volgroup(vg.vgName, P.PvIds(|rootDisks|, vg.vgName))]
    + M.LogvolLines(P.LogvolCmds(vg, vg.fileSystems, false).value)
  }

  lemma VgRuns(h: Host, vg: VolumeGroup, rootDisks: seq<Disk>, st: State)
    requires !st.exited && VgCmds(vg, rootDisks).Ok?
    ensures Run(h, VgCmds(vg, rootDisks).value, st)
            == M.Wrote(st, VgLines(st.list, vg, rootDisks), M.UnsetKeys(st.list, rootDisks))
  {
    PvSizesOk(rootDisks, vg.vgName);
    M.LogvolCmdsKind(vg, vg.fileSystems, false);
    var ids := P.PvIds(|rootDisks|, vg.vgName);
    var pvs, group := PvCmds(rootDisks, vg.vgName).value, EchoVolgroup(vg.vgName, ids);
    var logvols := P.LogvolCmds(vg, vg.fileSystems, false).value;
    var pvLines, unset := PvLines(st.list, rootDisks, vg.vgName), M.UnsetKeys(st.list, rootDisks);
    PvRuns(h, rootDisks, vg.vgName, st);
    RunAppend(h, pvs + [group], logvols, st);
    RunAppend(h, pvs, [group], st);
    M.GroupRuns(h, vg.vgName, ids, M.Wrote(st, pvLines, unset));
    M.WroteMore(st, pvLines, unset, [Volgroup(vg.vgName, ids)]);
    M.LogvolsRun(h, logvols, M.Wrote(st, pvLines + [Volgroup(vg.vgName, ids)], unset));
    M.WroteMore(st, pvLines + [Volgroup(vg.vgName, ids)], unset, M.LogvolLines(logvols));
  }

  function VolumeLines(list: map<string, string>, node: Node, rootDisks: seq<Disk>, vgs: seq<VolumeGroup>): seq<Line>
    requires VolumeCmds(node, rootDisks, vgs).Ok?
  {
    if vgs == [] then []
    else
      var before, vg := VolumeLines(list, node, rootDisks, vgs[..|vgs| - 1]), vgs[|vgs| - 1];
      if Some(vg.vgName) != node.rootVg then before else before + VgLines(list, vg, rootDisks)
  }

  lemma {:induction false} VolumesRun(h: Host, node: Node, rootDisks: seq<Disk>, vgs: seq<VolumeGroup>, st: State)
    requires !st.exited && VolumeCmds(node, rootDisks, vgs).Ok?
    ensures Run(h, VolumeCmds(node, rootDisks, vgs).value, st)
            == M.Wrote(st, VolumeLines(st.list, node, rootDisks, vgs), M.VolumeUnset(st.list, node, rootDisks, vgs))
  {
    if vgs == [] {
      M.WroteNothing(st);
    } else {
      var front, vg := vgs[..|vgs| - 1], vgs[|vgs| - 1];
      VolumesRun(h, node, rootDisks, front, st);
      if Some(vg.vgName) == node.rootVg {
        var before, cmds := VolumeCmds(node, rootDisks, front).value, VgCmds(vg, rootDisks).value;
        var lines := VolumeLines(st.list, node, rootDisks, front);
        var unset := M.VolumeUnset(st.list, node, rootDisks, front);
        RunAppend(h, before, cmds, st);
        VgRuns(h, vg, rootDisks, M.Wrote(st, lines, unset));
        M.WroteTwice(st, lines, unset, VgLines(st.list, vg, rootDisks), M.UnsetKeys(st.list, rootDisks));
      }
    }
  }

  /** The volgroup line lists exactly the physical volumes created before it, in order and distinct. */
  lemma VolgroupListsItsVolumes(list: map<string, string>, vg: VolumeGroup, rootDisks: seq<Disk>)
    requires VgCmds(vg, rootDisks).Ok?
    ensures var lines, n := VgLines(list, vg, rootDisks), |rootDisks|;
      && |lines| > n && lines[n].Volgroup? && lines[n].vg == vg.vgName && |lines[n].ids| == n
      && (forall i | 0 <= i < n :: lines[i].Part? && lines[i].what == lines[n].ids[i])
      && (forall i, j | 0 <= i < j < n :: lines[n].ids[i] != lines[n].ids[j])
  {
    PvSizesOk(rootDisks, vg.vgName);
    P.PvIdsDistinct(|rootDisks|, vg.vgName);
  }

  // ---------- the whole run ----------

  /** The file that a complete run leaves. */
  function Output(h: Host, node: Node, all: Uuids): seq<Line>
    requires Config(node, all).Ok?
  {
    [Clearpart(true, Join(Drives(h, all, node.disks), ","))]
    + BootLines(h, all, node.disks)
    + VolumeLines(DiskTable(h, all, node.disks), node, P.RootDisks(node), node.volumeGroups)
  }

  /** A disk that is missing on the node stops the snippet before it writes anything; otherwise the run is complete. */
  lemma SnippetRuns(h: Host, node: Node, all: Uuids)
    requires Config(node, all).Ok? && M.DistinctIds(node.disks)
    ensures var st := Run(h, Config(node, all).value, INITIAL);
      && (st.exited <==> exists d | d in node.disks :: Missing(h, all, d))
      && (st.exited ==> st.info == [])
      && (!st.exited ==>
        && st.list == DiskTable(h, all, node.disks)
        && st.info == Output(h, node, all)
        && st.unset == M.VolumeUnset(st.list, node, P.RootDisks(node), node.volumeGroups))
  {
    var first, boot := AllDiskCmds(all, node.disks), AllBootCmds(all, node.disks);
    var volumes := VolumeCmds(node, P.RootDisks(node), node.volumeGroups).value;
    FirstLoopRuns(h, all, node.disks);
    var st1 := Run(h, first, INITIAL);
    RunAppend(h, first, [EchoClearpart(true)] + (boot + volumes), INITIAL);
    if !st1.exited {
      RestRuns(h, node, all, st1);
    }
  }

  lemma HeadRuns(h: Host, drives: seq<string>, st: State)
    requires !st.exited && st.clearDevs == CommaEach(drives)
    ensures Run(h, [EchoClearpart(true)], st) == st.(info := [Clearpart(true, Join(drives, ","))])
  {
    RunOne(h, EchoClearpart(true), st);
    StripCommaIsJoin(drives);
  }

  lemma LinesRun(h: Host, node: Node, all: Uuids, st: State)
    requires Config(node, all).Ok? && M.DistinctIds(node.disks)
    requires !st.exited && st.list == DiskTable(h, all, node.disks)
    ensures Run(h, AllBootCmds(all, node.disks) + VolumeCmds(node, P.RootDisks(node), node.volumeGroups).value, st)
            == M.Wrote(M.Wrote(st, BootLines(h, all, node.disks), []),
                       VolumeLines(st.list, node, P.RootDisks(node), node.volumeGroups),
                       M.VolumeUnset(st.list, node, P.RootDisks(node), node.volumeGroups))
  {
    var boot, volumes := AllBootCmds(all, node.disks), VolumeCmds(node, P.RootDisks(node), node.volumeGroups).value;
    RunAppend(h, boot, volumes, st);
    TableKeys(h, all, node.disks);
    BootRuns(h, all, node.disks, st);
    VolumesRun(h, node, P.RootDisks(node), node.volumeGroups, M.Wrote(st, BootLines(h, all, node.disks), []));
  }

  lemma RestRuns(h: Host, node: Node, all: Uuids, st1: State)
    requires Config(node, all).Ok? && M.DistinctIds(node.disks)
    requires FirstLoopDone(h, all, node.disks, st1) && !st1.exited
    ensures var volumes := VolumeCmds(node, P.RootDisks(node), node.volumeGroups).value;
      var st := Run(h, [EchoClearpart(true)] + (AllBootCmds(all, node.disks) + volumes), st1);
      && !st.exited && st.list == st1.list && st.info == Output(h, node, all)
      && st.unset == M.VolumeUnset(st.list, node, P.RootDisks(node), node.volumeGroups)
  {
    var boot, volumes := AllBootCmds(all, node.disks), VolumeCmds(node, P.RootDisks(node), node.volumeGroups).value;
    RunAppend(h, [EchoClearpart(true)], boot + volumes, st1);
    HeadRuns(h, Drives(h, all, node.disks), st1);
    LinesRun(h, node, all, st1.(info := [Clearpart(true, Join(Drives(h, all, node.disks), ","))]));
    var unset := M.VolumeUnset(st1.list, node, P.RootDisks(node), node.volumeGroups);
    assert [] + [] + unset == unset;
  }

  // ---------- sizes add up ----------

  /** The megabytes that the part lines place on a device. */
  function SizeOn(lines: seq<Line>, device: string): int {
    if lines == [] then 0
    else SizeOn(lines[..|lines| - 1], device) + LineSize(lines[|lines| - 1], device)
  }

  function LineSize(l: Line, device: string): int {
    if l.Part? && l.disk == device && l.size.Some? then l.size.value else 0
  }

  lemma {:induction false} SizeOnAppend(a: seq<Line>, b: seq<Line>, device: string)
    ensures SizeOn(a + b, device) == SizeOn(a, device) + SizeOn(b, device)
  {
    if b == [] {
      assert a + b == a;
    } else {
      assert (a + b)[..|a| + |b| - 1] == a + b[..|b| - 1];
      SizeOnAppend(a, b[..|b| - 1], device);
    }
  }

  lemma SizeOnSnoc(a: seq<Line>, l: Line, device: string)
    ensures SizeOn(a + [l], device) == SizeOn(a, device) + LineSize(l, device)
  {
    assert (a + [l])[..|a|] == a;
  }

  lemma {:induction false} NothingOn(lines: seq<Line>, device: string)
    requires forall i | 0 <= i < |lines| :: LineSize(lines[i], device) == 0
    ensures SizeOn(lines, device) == 0
  {
    if lines != [] {
      NothingOn(lines[..|lines| - 1], device);
    }
  }

  /** All is on one line. */
  lemma {:induction false} OnlyOn(lines: seq<Line>, device: string, r: nat)
    requires r < |lines| && forall i | 0 <= i < |lines| && i != r :: LineSize(lines[i], device) == 0
    ensures SizeOn(lines, device) == LineSize(lines[r], device)
  {
    var n := |lines| - 1;
    if r == n {
      NothingOn(lines[..n], device);
    } else {
      OnlyOn(lines[..n], device, r);
    }
  }

  /** No other disk of the node has the device of `d`, and it has one. */
  ghost predicate OwnDevice(h: Host, disks: seq<Disk>, d: Disk) {
    DeviceOf(h, d) != "" && forall e | e in disks && e != d :: DeviceOf(h, e) != DeviceOf(h, d)
  }

  lemma {:induction false} BootElsewhere(h: Host, all: Uuids, disks: seq<Disk>, device: string)
    requires forall e | e in disks :: DeviceOf(h, e) != device
    ensures SizeOn(BootLines(h, all, disks), device) == 0
  {
    if disks != [] {
      var front, e := disks[..|disks| - 1], disks[|disks| - 1];
      assert e in disks && forall f | f in front :: f in disks;
      BootElsewhere(h, all, front, device);
      SizeOnSnoc(BootLines(h, all, front), BootLine(h, e), device);
    }
  }

  lemma {:induction false} BootSize(h: Host, all: Uuids, disks: seq<Disk>, d: Disk)
    requires M.DistinctIds(disks) && d in disks && OwnDevice(h, disks, d)
    ensures SizeOn(BootLines(h, all, disks), DeviceOf(h, d))
            == if d.bootable && !P.Skipped(all, d) then BOOT_SIZE else 0
  {
    var front, e := disks[..|disks| - 1], disks[|disks| - 1];
    assert e in disks && forall f | f in front :: f in disks;
    SizeOnSnoc(BootLines(h, all, front), BootLine(h, e), DeviceOf(h, d));
    if e == d {
      assert forall f | f in front :: f.itemId != d.itemId;
      BootElsewhere(h, all, front, DeviceOf(h, d));
    } else {
      assert d in front;
      BootSize(h, all, front, d);
    }
  }

  lemma TwiceCounted(disks: seq<Disk>, d: Disk, i: nat, j: nat)
    requires i < j < |disks| && disks[i] == d && disks[j] == d
    ensures multiset(disks)[d] >= 2
  {
    assert disks == disks[..i] + [d] + disks[i + 1..j] + [d] + disks[j + 1..];
  }

  lemma OnceAt(disks: seq<Disk>, d: Disk) returns (r: nat)
    requires multiset(disks)[d] == 1
    ensures r < |disks| && disks[r] == d && forall i | 0 <= i < |disks| && i != r :: disks[i] != d
  {
    assert d in multiset(disks);
    r :| 0 <= r < |disks| && disks[r] == d;
    forall i | 0 <= i < |disks| && i != r
      ensures disks[i] != d
    {
      if disks[i] == d {
        TwiceCounted(disks, d, if i < r then i else r, if i < r then r else i);
        assert false;
      }
    }
  }

  /** Where the line of a root disk lies: on its device, or nowhere if the disk is skipped. */
  lemma PlacedAt(h: Host, all: Uuids, disks: seq<Disk>, e: Disk)
    requires M.DistinctIds(disks) && e in disks
    ensures Placed(DiskTable(h, all, disks), e.itemId) == if P.Skipped(all, e) then "" else DeviceOf(h, e)
  {
    TableKeys(h, all, disks);
  }

  lemma PvSizeOn(h: Host, all: Uuids, disks: seq<Disk>, rootDisks: seq<Disk>, vg: string, d: Disk, mb: int)
    requires M.DistinctIds(disks) && d in disks && OwnDevice(h, disks, d)
    requires multiset(rootDisks)[d] == 1 && forall e | e in rootDisks :: e in disks && PvSize(e).Ok?
    requires Sizes.ConvertToMb(d.size) == Ok(Some(mb))
    ensures SizeOn(PvLines(DiskTable(h, all, disks), rootDisks, vg), DeviceOf(h, d))
            == if P.Skipped(all, d) then 0 else mb - if d.bootable then BOOT_SIZE else 0
  {
    var r := OnceAt(rootDisks, d);
    var lines := PvLines(DiskTable(h, all, disks), rootDisks, vg);
    forall i | 0 <= i < |lines| && i != r
      ensures LineSize(lines[i], DeviceOf(h, d)) == 0
    {
      assert rootDisks[i] in rootDisks;
      PlacedAt(h, all, disks, rootDisks[i]);
    }
    OnlyOn(lines, DeviceOf(h, d), r);
    PlacedAt(h, all, disks, d);
  }

  lemma VgSize(list: map<string, string>, vg: VolumeGroup, rootDisks: seq<Disk>, device: string)
    requires VgCmds(vg, rootDisks).Ok? && forall d | d in rootDisks :: PvSize(d).Ok?
    ensures SizeOn(VgLines(list, vg, rootDisks), device) == SizeOn(PvLines(list, rootDisks, vg.vgName), device)
  {
    M.LogvolCmdsKind(vg, vg.fileSystems, false);
    var pvs, group := PvLines(list, rootDisks, vg.vgName), [Volgroup(vg.vgName, P.PvIds(|rootDisks|, vg.vgName))];
    var logvols := M.LogvolLines(P.LogvolCmds(vg, vg.fileSystems, false).value);
    SizeOnAppend(pvs + group, logvols, device);
    SizeOnAppend(pvs, group, device);
    NothingOn(group, device);
    NothingOn(logvols, device);
  }

  /** Volume group `v` is the only one with the name of the root volume group. */
  ghost predicate OneRootVg(node: Node, vgs: seq<VolumeGroup>, v: nat) {
    v < |vgs| && forall j | 0 <= j < |vgs| :: Some(vgs[j].vgName) == node.rootVg <==> j == v
  }

  lemma {:induction false} NoVolumes(list: map<string, string>, node: Node, rootDisks: seq<Disk>, vgs: seq<VolumeGroup>)
    requires forall j | 0 <= j < |vgs| :: Some(vgs[j].vgName) != node.rootVg
    ensures VolumeCmds(node, rootDisks, vgs) == Ok([]) && VolumeLines(list, node, rootDisks, vgs) == []
  {
    if vgs != [] {
      NoVolumes(list, node, rootDisks, vgs[..|vgs| - 1]);
    }
  }

  lemma {:induction false} OneVolume(list: map<string, string>, node: Node, rootDisks: seq<Disk>,
                                     vgs: seq<VolumeGroup>, v: nat)
    requires OneRootVg(node, vgs, v) && VolumeCmds(node, rootDisks, vgs).Ok?
    ensures VgCmds(vgs[v], rootDisks).Ok?
    ensures VolumeLines(list, node, rootDisks, vgs) == VgLines(list, vgs[v], rootDisks)
  {
    if v == |vgs| - 1 {
      NoVolumes(list, node, rootDisks, vgs[..v]);
    } else {
      OneVolume(list, node, rootDisks, vgs[..|vgs| - 1], v);
    }
  }

  lemma {:induction false} ListedOnce(disks: seq<Disk>, d: Disk)
    requires M.DistinctIds(disks)
    ensures multiset(disks)[d] == if d in disks then 1 else 0
  {
    if disks != [] {
      var front, last := disks[..|disks| - 1], disks[|disks| - 1];
      ListedOnce(front, d);
      assert disks == front + [last];
      assert forall e | e in front :: e.itemId != last.itemId;
    }
  }

  /**
   * After a complete run, the partitions on a disk that the root volume group uses once add up to the disk.
   * Nothing at all lies on a disk that is skipped, bootable or not: its physical volume is written without a
   * device.
   */
  lemma SizesAddUp(h: Host, node: Node, all: Uuids, v: nat, d: Disk, mb: int)
    requires Config(node, all).Ok? && M.DistinctIds(node.disks)
    requires !exists e | e in node.disks :: Missing(h, all, e)
    requires OneRootVg(node, node.volumeGroups, v)
    requires d in node.disks && d.name != "" && P.Uses(node, node.volumeGroups, d.name) == 1
    requires OwnDevice(h, node.disks, d) && Sizes.ConvertToMb(d.size) == Ok(Some(mb))
    ensures SizeOn(Run(h, Config(node, all).value, INITIAL).info, DeviceOf(h, d))
            == if P.Skipped(all, d) then 0 else mb
  {
    SnippetRuns(h, node, all);
    OutputSize(h, node, all, v, DeviceOf(h, d));
    PvSizesOk(P.RootDisks(node), node.volumeGroups[v].vgName);
    BootSize(h, all, node.disks, d);
    ListedOnce(node.disks, d);
    P.RootDisksExact(node, d);
    M.RootDisksAreDisks(node);
    PvSizeOn(h, all, node.disks, P.RootDisks(node), node.volumeGroups[v].vgName, d, mb);
  }

  lemma OutputSize(h: Host, node: Node, all: Uuids, v: nat, device: string)
    requires Config(node, all).Ok? && OneRootVg(node, node.volumeGroups, v)
    ensures PvCmds(P.RootDisks(node), node.volumeGroups[v].vgName).Ok?
    ensures (forall e | e in P.RootDisks(node) :: PvSize(e).Ok?) ==>
      SizeOn(Output(h, node, all), device) == SizeOn(BootLines(h, all, node.disks), device)
        + SizeOn(PvLines(DiskTable(h, all, node.disks), P.RootDisks(node), node.volumeGroups[v].vgName), device)
  {
    var list, rootDisks, vg := DiskTable(h, all, node.disks), P.RootDisks(node), node.volumeGroups[v];
    var head, boot := [Clearpart(true, Join(Drives(h, all, node.disks), ","))], BootLines(h, all, node.disks);
    OneVolume(list, node, rootDisks, node.volumeGroups, v);
    PvSizesOk(rootDisks, vg.vgName);
    SizeOnAppend(head + boot, VgLines(list, vg, rootDisks), device);
    SizeOnAppend(head, boot, device);
    NothingOn(head, device);
    VgSize(list, vg, rootDisks, device);
  }

  // ---------- unassigned keys, and sizes that are not positive ----------

  /** A complete run reads an unassigned key of `disk_list` if and only if a root disk is skipped. */
  lemma UnsetReadIffSharedRootDisk(h: Host, node: Node, all: Uuids)
    requires Config(node, all).Ok? && M.DistinctIds(node.disks)
    requires !exists d | d in node.disks :: Missing(h, all, d)
    ensures Run(h, Config(node, all).value, INITIAL).unset == [] <==>
            forall d | d in P.RootDisks(node) :: !P.Skipped(all, d)
  {
    var list := DiskTable(h, all, node.disks);
    SnippetRuns(h, node, all);
    TableKeys(h, all, node.disks);
    M.RootDisksAreDisks(node);
    M.VolumeUnsetExact(list, node, P.RootDisks(node), node.volumeGroups);
  }

  predicate PositiveSize(l: Line) {
    l.Part? && l.size.Some? ==> l.size.value > 0
  }

  ghost predicate AllPositive(lines: seq<Line>) {
    forall l | l in lines :: PositiveSize(l)
  }

  /** The disk has room for what is taken off it. */
  predicate RoomOn(d: Disk) {
    match Sizes.ConvertToMb(d.size)
    case Ok(Some(mb)) => mb > if d.bootable then 500 else 0
    case _ => true
  }

  lemma PvPositive(list: map<string, string>, rootDisks: seq<Disk>, vg: string)
    requires forall d | d in rootDisks :: PvSize(d).Ok?
    ensures AllPositive(PvLines(list, rootDisks, vg)) <==> forall d | d in rootDisks :: RoomOn(d)
  {
    var lines := PvLines(list, rootDisks, vg);
    forall i | 0 <= i < |lines|
      ensures PositiveSize(lines[i]) <==> RoomOn(rootDisks[i])
    {
      assert lines[i] == PvLine(list, rootDisks[i], P.PvIds(|rootDisks|, vg)[i]);
      assert rootDisks[i] in rootDisks;
    }
    forall d | d in rootDisks && AllPositive(lines)
      ensures RoomOn(d)
    {
      var i :| 0 <= i < |rootDisks| && rootDisks[i] == d;
      assert lines[i] in lines;
    }
  }

  lemma VgPositive(list: map<string, string>, vg: VolumeGroup, rootDisks: seq<Disk>)
    requires VgCmds(vg, rootDisks).Ok?
    ensures AllPositive(VgLines(list, vg, rootDisks)) <==> forall d | d in rootDisks :: RoomOn(d)
  {
    PvSizesOk(rootDisks, vg.vgName);
    M.LogvolCmdsKind(vg, vg.fileSystems, false);
    PvPositive(list, rootDisks, vg.vgName);
    var logvols := M.LogvolLines(P.LogvolCmds(vg, vg.fileSystems, false).value);
    assert AllPositive(logvols);
    var pvs, group := PvLines(list, rootDisks, vg.vgName), [Volgroup(vg.vgName, P.PvIds(|rootDisks|, vg.vgName))];
    PositiveAppend(pvs, group);
    PositiveAppend(pvs + group, logvols);
  }

  lemma PositiveAppend(a: seq<Line>, b: seq<Line>)
    ensures AllPositive(a + b) <==> AllPositive(a) && AllPositive(b)
  {
    assert forall l :: l in a + b <==> l in a || l in b;
  }

  lemma {:induction false} VolumesPositive(list: map<string, string>, node: Node, rootDisks: seq<Disk>,
                                           vgs: seq<VolumeGroup>)
    requires VolumeCmds(node, rootDisks, vgs).Ok?
    ensures AllPositive(VolumeLines(list, node, rootDisks, vgs)) <==>
            (forall d | d in rootDisks :: RoomOn(d)) || forall vg | vg in vgs :: Some(vg.vgName) != node.rootVg
  {
    if vgs != [] {
      var front, last := vgs[..|vgs| - 1], vgs[|vgs| - 1];
      VolumesPositive(list, node, rootDisks, front);
      assert forall vg :: vg in vgs <==> vg in front || vg == last;
      if Some(last.vgName) == node.rootVg {
        VgPositive(list, last, rootDisks);
        PositiveAppend(VolumeLines(list, node, rootDisks, front), VgLines(list, last, rootDisks));
      }
    }
  }

  lemma {:induction false} BootPositive(h: Host, all: Uuids, disks: seq<Disk>)
    ensures AllPositive(BootLines(h, all, disks))
  {
    if disks != [] {
      BootPositive(h, all, disks[..|disks| - 1]);
      PositiveAppend(BootLines(h, all, disks[..|disks| - 1]), [BootLine(h, disks[|disks| - 1])]);
    }
  }

  /**
   * Every size in the file is positive if and only if every bootable root disk has more than 500 MB and every
   * other more than none.
   */
  lemma SizesPositiveIff(h: Host, node: Node, all: Uuids)
    requires Config(node, all).Ok? && M.DistinctIds(node.disks)
    requires !exists d | d in node.disks :: Missing(h, all, d)
    ensures AllPositive(Run(h, Config(node, all).value, INITIAL).info) <==>
            forall d | d in P.RootDisks(node) :: RoomOn(d)
  {
    var head, boot := [Clearpart(true, Join(Drives(h, all, node.disks), ","))], BootLines(h, all, node.disks);
    var volumes := VolumeLines(DiskTable(h, all, node.disks), node, P.RootDisks(node), node.volumeGroups);
    SnippetRuns(h, node, all);
    BootPositive(h, all, node.disks);
    VolumesPositive(DiskTable(h, all, node.disks), node, P.RootDisks(node), node.volumeGroups);
    M.RootDisksAreDisks(node);
    PositiveAppend(head + boot, volumes);
    PositiveAppend(head, boot);
  }

  // ---------- the logical volumes, and when the generator fails ----------

  lemma VgLogvols(list: map<string, string>, vg: VolumeGroup, rootDisks: seq<Disk>)
    requires VgCmds(vg, rootDisks).Ok?
    ensures M.LogvolsOf(M.Logvols(VgLines(list, vg, rootDisks)), M.Mounts(vg, vg.fileSystems), false)
  {
    PvSizesOk(rootDisks, vg.vgName);
    M.LogvolLinesExact(vg, vg.fileSystems, false);
    var head := PvLines(list, rootDisks, vg.vgName) + [Volgroup(vg.vgName, P.PvIds(|rootDisks|, vg.vgName))];
    var logvols := M.LogvolLines(P.LogvolCmds(vg, vg.fileSystems, false).value);
    M.LogvolsAppend(head, logvols);
    M.NoLogvols(head);
    M.AllLogvols(logvols);
  }

  lemma {:induction false} VolumesLogvols(list: map<string, string>, node: Node, rootDisks: seq<Disk>,
                                          vgs: seq<VolumeGroup>)
    requires VolumeCmds(node, rootDisks, vgs).Ok?
    ensures M.LogvolsOf(M.Logvols(VolumeLines(list, node, rootDisks, vgs)), M.RootMounts(node, vgs), false)
  {
    if vgs != [] {
      var front, last := vgs[..|vgs| - 1], vgs[|vgs| - 1];
      assert vgs == front + [last];
      VolumesLogvols(list, node, rootDisks, front);
      M.RootMountsSnoc(node, front, last);
      if Some(last.vgName) == node.rootVg {
        var before, more := VolumeLines(list, node, rootDisks, front), VgLines(list, last, rootDisks);
        VgLogvols(list, last, rootDisks);
        M.LogvolsAppend(before, more);
        M.LogvolsConcat(M.Logvols(before), M.Logvols(more), M.RootMounts(node, front),
                        M.Mounts(last, last.fileSystems), false);
      }
    }
  }

  lemma {:induction false} BootLinesKind(h: Host, all: Uuids, disks: seq<Disk>)
    ensures M.Logvols(BootLines(h, all, disks)) == []
  {
    if disks != [] {
      var front, d := disks[..|disks| - 1], disks[|disks| - 1];
      BootLinesKind(h, all, front);
      M.LogvolsAppend(BootLines(h, all, front), [BootLine(h, d)]);
      M.NoLogvols([BootLine(h, d)]);
    }
  }

  /** As on RHEL 7, one logical volume for each file system with a mount point; but none grows. */
  lemma LogvolsExact(h: Host, node: Node, all: Uuids)
    requires Config(node, all).Ok? && M.DistinctIds(node.disks)
    requires !exists d | d in node.disks :: Missing(h, all, d)
    ensures M.LogvolsOf(M.Logvols(Run(h, Config(node, all).value, INITIAL).info),
                        M.RootMounts(node, node.volumeGroups), false)
  {
    SnippetRuns(h, node, all);
    var head, boot := [Clearpart(true, Join(Drives(h, all, node.disks), ","))], BootLines(h, all, node.disks);
    var volumes := VolumeLines(DiskTable(h, all, node.disks), node, P.RootDisks(node), node.volumeGroups);
    M.LogvolsAppend(head + boot, volumes);
    M.LogvolsAppend(head, boot);
    M.NoLogvols(head);
    BootLinesKind(h, all, node.disks);
    VolumesLogvols(DiskTable(h, all, node.disks), node, P.RootDisks(node), node.volumeGroups);
    assert [] + [] + M.Logvols(volumes) == M.Logvols(volumes);
  }

  /** The size of a root disk reads, and has a unit if something is to be taken off it. */
  predicate SizeUsable(d: Disk) {
    match Sizes.ConvertToMb(d.size)
    case Err(_) => false
    case Ok(None) => !d.bootable
    case Ok(Some(_)) => true
  }

  lemma {:induction false} PvsFail(rootDisks: seq<Disk>, vg: string)
    ensures PvCmds(rootDisks, vg).Ok? <==> forall d | d in rootDisks :: SizeUsable(d)
  {
    if rootDisks != [] {
      var front, last := rootDisks[..|rootDisks| - 1], rootDisks[|rootDisks| - 1];
      PvsFail(front, vg);
      assert PvSize(last).Ok? <==> SizeUsable(last);
      assert rootDisks == front + [last];
      assert last in rootDisks;
    }
  }

  lemma VgFails(vg: VolumeGroup, rootDisks: seq<Disk>)
    ensures VgCmds(vg, rootDisks).Ok? <==>
            (forall d | d in rootDisks :: SizeUsable(d)) && M.SizesRead(M.Mounts(vg, vg.fileSystems))
  {
    PvsFail(rootDisks, vg.vgName);
    M.LogvolsFail(vg, vg.fileSystems, false);
  }

  lemma ReadAppend(ms: seq<M.Mount>, ns: seq<M.Mount>)
    ensures M.SizesRead(ms + ns) <==> M.SizesRead(ms) && M.SizesRead(ns)
  {
    assert forall m :: m in ms + ns <==> m in ms || m in ns;
  }

  lemma {:induction false} VolumesFail(node: Node, rootDisks: seq<Disk>, vgs: seq<VolumeGroup>)
    ensures VolumeCmds(node, rootDisks, vgs).Ok? <==>
            M.SizesRead(M.RootMounts(node, vgs))
            && ((forall d | d in rootDisks :: SizeUsable(d)) || forall vg | vg in vgs :: Some(vg.vgName) != node.rootVg)
  {
    if vgs != [] {
      var front, last := vgs[..|vgs| - 1], vgs[|vgs| - 1];
      assert vgs == front + [last];
      VolumesFail(node, rootDisks, front);
      M.RootMountsSnoc(node, front, last);
      assert forall vg :: vg in vgs <==> vg in front || vg == last;
      if Some(last.vgName) == node.rootVg {
        VgFails(last, rootDisks);
        ReadAppend(M.RootMounts(node, front), M.Mounts(last, last.fileSystems));
      } else {
        assert M.RootMounts(node, vgs) == M.RootMounts(node, front);
      }
    }
  }

  /**
   * A snippet is generated if and only if there is a root disk, the sizes of all root disks are usable, and
   * the size of every mounted file system reads.
   */
  lemma GeneratedIff(node: Node, all: Uuids)
    ensures Config(node, all) == Err(NoRootDisks) <==> P.RootDisks(node) == []
    ensures Config(node, all).Ok? <==>
            P.RootDisks(node) != [] && (forall d | d in P.RootDisks(node) :: SizeUsable(d))
            && M.SizesRead(M.RootMounts(node, node.volumeGroups))
  {
    NotNoRootDisks(node, P.RootDisks(node), node.volumeGroups);
    VolumesFail(node, P.RootDisks(node), node.volumeGroups);
    M.RootDisksAreDisks(node);
  }

  lemma {:induction false} PvsNotNoRootDisks(rootDisks: seq<Disk>, vg: string)
    ensures PvCmds(rootDisks, vg) != Err(NoRootDisks)
  {
    if rootDisks != [] {
      PvsNotNoRootDisks(rootDisks[..|rootDisks| - 1], vg);
    }
  }

  lemma {:induction false} NotNoRootDisks(node: Node, rootDisks: seq<Disk>, vgs: seq<VolumeGroup>)
    ensures VolumeCmds(node, rootDisks, vgs) != Err(NoRootDisks)
  {
    if vgs != [] {
      NotNoRootDisks(node, rootDisks, vgs[..|vgs| - 1]);
      PvsNotNoRootDisks(rootDisks, vgs[|vgs| - 1].vgName);
    }
  }
}
