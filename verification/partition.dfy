/** Generating the RHEL 7 partition snippet: `_get_lvm_kickstart_config` and what it calls. */
module Partition {
  import opened Strings
  import opened Wrappers
  import opened DiskModel
  import opened Shell
  import Sizes

  datatype SnippetError = NoRootDisks | BadSize(error: Sizes.SizeError)

  const BOOT_SIZE := 1000
  const UEFI_SIZE := 200

  // ---------- root disks ----------

  function DisksNamed(disks: seq<Disk>, name: string): seq<Disk> {
    if disks == [] then []
    else
      var before, d := DisksNamed(disks[..|disks| - 1], name), disks[|disks| - 1];
      if d.name != "" && d.name == name then before + [d] else before
  }

  function DisksOfDevices(disks: seq<Disk>, names: seq<string>): seq<Disk> {
    if names == [] then []
    else DisksOfDevices(disks, names[..|names| - 1]) + DisksNamed(disks, names[|names| - 1])
  }

  function RootDisksIn(node: Node, vgs: seq<VolumeGroup>): seq<Disk> {
    if vgs == [] then []
    else
      var before, vg := RootDisksIn(node, vgs[..|vgs| - 1]), vgs[|vgs| - 1];
      if Some(vg.vgName) == node.rootVg then before + DisksOfDevices(node.disks, vg.deviceNames) else before
  }

  function RootDisks(node: Node): seq<Disk> {
    RootDisksIn(node, node.volumeGroups)
  }

  // ---------- which disks those are ----------

  lemma {:induction false} DisksNamedExact(disks: seq<Disk>, name: string, d: Disk)
    ensures multiset(DisksNamed(disks, name))[d] == if d.name != "" && d.name == name then multiset(disks)[d] else 0
  {
    if disks != [] {
      var front, last := disks[..|disks| - 1], disks[|disks| - 1];
      DisksNamedExact(front, name, d);
      assert multiset(disks) == multiset(front) + multiset{last} by {
        assert disks == front + [last];
      }
    }
  }

  lemma {:induction false} DisksOfDevicesExact(disks: seq<Disk>, names: seq<string>, d: Disk)
    ensures d in DisksOfDevices(disks, names) <==> d in disks && d.name != "" && d.name in names
    ensures multiset(disks)[d] == 1 && d.name != "" ==>
      multiset(DisksOfDevices(disks, names))[d] == multiset(names)[d.name]
  {
    if names != [] {
      var front, last := names[..|names| - 1], names[|names| - 1];
      assert names == front + [last];
      DisksOfDevicesExact(disks, front, d);
      DisksNamedExact(disks, last, d);
      var more := DisksNamed(disks, last);
      assert d in more <==> d in multiset(more);
      assert d in disks <==> d in multiset(disks);
      assert multiset(names) == multiset(front) + multiset{last};
    }
  }

  /** A device of the root volume group has this name. */
  ghost predicate NamedByRoot(node: Node, vgs: seq<VolumeGroup>, name: string) {
    exists vg | vg in vgs :: Some(vg.vgName) == node.rootVg && name in vg.deviceNames
  }

  /** How often the devices of the root volume group name this one. */
  function Uses(node: Node, vgs: seq<VolumeGroup>, name: string): nat {
    if vgs == [] then 0
    else
      var before, vg := Uses(node, vgs[..|vgs| - 1], name), vgs[|vgs| - 1];
      if Some(vg.vgName) == node.rootVg then before + multiset(vg.deviceNames)[name] else before
  }

  lemma {:induction false} RootDisksInExact(node: Node, vgs: seq<VolumeGroup>, d: Disk)
    ensures d in RootDisksIn(node, vgs) <==> d in node.disks && d.name != "" && NamedByRoot(node, vgs, d.name)
    ensures multiset(node.disks)[d] == 1 && d.name != "" ==>
      multiset(RootDisksIn(node, vgs))[d] == Uses(node, vgs, d.name)
  {
    if vgs != [] {
      var front, last := vgs[..|vgs| - 1], vgs[|vgs| - 1];
      RootDisksInExact(node, front, d);
      DisksOfDevicesExact(node.disks, last.deviceNames, d);
      assert forall vg :: vg in vgs <==> vg in front || vg == last;
    }
  }

  /**
   * The root disks are the disks that a device of the root volume group names, and each is listed as often
   * as it is named.
   */
  lemma RootDisksExact(node: Node, d: Disk)
    ensures d in RootDisks(node) <==> d in node.disks && d.name != "" && NamedByRoot(node, node.volumeGroups, d.name)
    ensures multiset(node.disks)[d] == 1 && d.name != "" ==>
      multiset(RootDisks(node))[d] == Uses(node, node.volumeGroups, d.name)
  {
    RootDisksInExact(node, node.volumeGroups, d);
  }

  /** The two inner loops of `_get_root_vg_disks`: the disks that back one volume group. */
  method GetDisksOfDevices(allDisks: seq<Disk>, names: seq<string>) returns (disks: seq<Disk>)
    ensures disks == DisksOfDevices(allDisks, names)
  {
    disks := [];
    for j := 0 to |names|
      invariant disks == DisksOfDevices(allDisks, names[..j])
    {
      assert names[..j + 1][..j] == names[..j];
      ghost var before := disks;
      for k := 0 to |allDisks|
        invariant disks == before + DisksNamed(allDisks[..k], names[j])
      {
        assert allDisks[..k + 1][..k] == allDisks[..k];
        if allDisks[k].name != "" && allDisks[k].name == names[j] {
          disks := disks + [allDisks[k]];
        }
      }
      assert allDisks[..|allDisks|] == allDisks;
    }
    assert names[..|names|] == names;
  }

  /** `_get_root_vg_disks` */
  method GetRootVgDisks(node: Node) returns (disks: seq<Disk>)
    ensures disks == RootDisks(node)
    ensures forall d :: d in disks <==> d in node.disks && d.name != "" && NamedByRoot(node, node.volumeGroups, d.name)
    ensures forall d | multiset(node.disks)[d] == 1 && d.name != "" ::
      multiset(disks)[d] == Uses(node, node.volumeGroups, d.name)
  {
    disks := [];
    var vgs := node.volumeGroups;
    for i := 0 to |vgs|
      invariant disks == RootDisksIn(node, vgs[..i])
    {
      assert vgs[..i + 1][..i] == vgs[..i];
      if Some(vgs[i].vgName) == node.rootVg {
        var backing := GetDisksOfDevices(node.disks, vgs[i].deviceNames);
        disks := disks + backing;
      }
    }
    assert vgs[..|vgs|] == vgs;
    forall d
      ensures d in disks <==> d in node.disks && d.name != "" && NamedByRoot(node, node.volumeGroups, d.name)
      ensures multiset(node.disks)[d] == 1 && d.name != "" ==>
        multiset(disks)[d] == Uses(node, node.volumeGroups, d.name)
    {
      RootDisksExact(node, d);
    }
  }

  // ---------- the first loop: disk list and disks to clear ----------

  /** The skip condition of both loops: a disk with a UUID that is not counted exactly once. */
  predicate Skipped(all: Uuids, d: Disk) {
    UuidOnDisk(d) && Count(all, d.uuid) != 1
  }

  /** `_get_disk_list_item_config` */
  function DiskListCmds(all: Uuids, d: Disk): seq<Cmd> {
    if UuidOnDisk(d) then
      if Count(all, d.uuid) != 1 then []
      else
        var u := d.uuid.value;
        [ListItem(Mpath, u), ListItemIfEmpty(Cciss, u), ListItemIfEmpty(Scsi, u)]
        + [StoreItem(d.itemId), RequireBlock(d.itemId, u)]
    else [StoreNamed(d.itemId, d.name)]
  }

  /** `_get_clearpart_config` */
  function ClearpartCmds(d: Disk): seq<Cmd> {
    if UuidOnDisk(d) then
      var u := d.uuid.value;
      [FindParts(u)] + [FindDrive(Mpath, u), FindDriveIfUnset(Cciss, u), FindDriveIfUnset(Scsi, u)]
    else [SetDrive(d.name)]
  }

  /** `_is_bootable_unshared_and_os_reinstall`, for the UUIDs that occur twice. */
  predicate BootableUnsharedReinstall(node: Node, all: Uuids, d: Disk) {
    !(Count(all, d.uuid) > 1) && node.osReinstall && d.bootable
  }

  predicate Cleared(node: Node, all: Uuids, d: Disk) {
    d.bootable || BootableUnsharedReinstall(node, all, d)
  }

  function FirstLoopCmds(node: Node, all: Uuids, d: Disk): seq<Cmd> {
    DiskListCmds(all, d) + if Cleared(node, all, d) then ClearpartCmds(d) + [AppendDrive] else []
  }

  function FirstLoop(node: Node, all: Uuids, disks: seq<Disk>): seq<Cmd> {
    if disks == [] then []
    else FirstLoop(node, all, disks[..|disks| - 1]) + FirstLoopCmds(node, all, disks[|disks| - 1])
  }

  function TableType(uefi: bool): string {
    if uefi then "gpt" else "msdos"
  }

  /** `_get_disks_to_clear` */
  method GetDisksToClear(node: Node, all: Uuids, uefi: bool) returns (config: seq<Cmd>)
    ensures config == FirstLoop(node, all, node.disks)
                      + [RemoveVgs(if node.osReinstall then Some("vg_root") else None), WipeDisks(TableType(uefi))]
  {
    config := [];
    var disks := node.disks;
    for i := 0 to |disks|
      invariant config == FirstLoop(node, all, disks[..i])
    {
      assert disks[..i + 1][..i] == disks[..i];
      config := config + DiskListCmds(all, disks[i]);
      if Cleared(node, all, disks[i]) {
        config := config + ClearpartCmds(disks[i]);
        config := config + [AppendDrive];
      }
    }
    assert disks[..|disks|] == disks;
    if node.osReinstall {
      config := config + [RemoveVgs(Some("vg_root"))];
    } else {
      config := config + [RemoveVgs(None)];
    }
    config := config + [WipeDisks(TableType(uefi))];
  }

  // ---------- the second loop: boot partitions ----------

  /** `_get_optional_partitions` */
  function OptionalPartitions(d: Disk, uefi: bool): seq<Cmd> {
    if uefi then [EchoPart("/boot/efi", "efi", Some(UEFI_SIZE), false, d.itemId)] else [EchoSizedPart(d.itemId)]
  }

  function BootCmds(all: Uuids, uefi: bool, d: Disk): seq<Cmd> {
    if !Skipped(all, d) && d.bootable
    then OptionalPartitions(d, uefi) + [EchoPart("/boot", "xfs", Some(BOOT_SIZE), false, d.itemId)]
    else []
  }

  function SecondLoop(all: Uuids, uefi: bool, disks: seq<Disk>): seq<Cmd> {
    if disks == [] then []
    else SecondLoop(all, uefi, disks[..|disks| - 1]) + BootCmds(all, uefi, disks[|disks| - 1])
  }

  /** `_get_node_boot_parts` */
  method GetNodeBootParts(node: Node, all: Uuids, uefi: bool) returns (config: seq<Cmd>)
    ensures config == SecondLoop(all, uefi, node.disks)
  {
    config := [];
    var disks := node.disks;
    for i := 0 to |disks|
      invariant config == SecondLoop(all, uefi, disks[..i])
    {
      assert disks[..i + 1][..i] == disks[..i];
      var d := disks[i];
      if Count(all, d.uuid) != 1 && UuidOnDisk(d) {
        continue;
      }
      if d.bootable {
        config := config + OptionalPartitions(d, uefi);
        config := config + [EchoPart("/boot", "xfs", Some(BOOT_SIZE), false, d.itemId)];
      }
    }
    assert disks[..|disks|] == disks;
  }

  // ---------- volume parts ----------

  /** pv.01root_vg, pv.02root_vg, ... */
  function PvId(index: nat, vg: string): string {
    "pv.0" + Decimal(index) + vg
  }

  function PvIds(n: nat, vg: string): (ids: seq<string>)
    ensures |ids| == n && forall i | 0 <= i < n :: ids[i] == PvId(i + 1, vg)
  {
    seq(n, i requires 0 <= i < n => PvId(i + 1, vg))
  }

  function PvCmds(rootDisks: seq<Disk>, vg: string): seq<Cmd> {
    if rootDisks == [] then []
    else
      var n := |rootDisks|;
      PvCmds(rootDisks[..n - 1], vg) + [EchoPart(PvId(n, vg), "", Some(1000), true, rootDisks[n - 1].itemId)]
  }

  /** With `growRoot`, as in RHEL 7, the root file system grows up to its size. */
  function LogvolCmds(vg: VolumeGroup, fss: seq<FileSystem>, growRoot: bool): Result<seq<Cmd>, Sizes.SizeError> {
    if fss == [] then Ok([])
    else
      match LogvolCmds(vg, fss[..|fss| - 1], growRoot)
      case Err(e) => Err(e)
      case Ok(before) =>
        var fs := fss[|fss| - 1];
        if fs.mountPoint.None? || fs.mountPoint.value == "" then Ok(before)
        else
          match Sizes.ConvertToMb(fs.size)
          case Err(e) => Err(e)
          case Ok(mb) =>
            Ok(before + [EchoLogvol(fs.mountPoint.value, fs.fsType, vg.itemId + "_" + fs.itemId, vg.vgName, mb,
                                    growRoot && fs.mountPoint.value == "/")])
  }

  function VgCmds(vg: VolumeGroup, rootDisks: seq<Disk>): Result<seq<Cmd>, Sizes.SizeError> {
    match LogvolCmds(vg, vg.fileSystems, true)
    case Err(e) => Err(e)
    case Ok(logvols) =>
      Ok(PvCmds(rootDisks, vg.vgName) + [EchoVolgroup(vg.vgName, PvIds(|rootDisks|, vg.vgName))] + logvols)
  }

  function VolumeParts(node: Node, rootDisks: seq<Disk>, vgs: seq<VolumeGroup>): Result<seq<Cmd>, Sizes.SizeError> {
    if vgs == [] then Ok([])
    else
      match VolumeParts(node, rootDisks, vgs[..|vgs| - 1])
      case Err(e) => Err(e)
      case Ok(before) =>
        var vg := vgs[|vgs| - 1];
        if Some(vg.vgName) != node.rootVg then Ok(before)
        else
          match VgCmds(vg, rootDisks)
          case Err(e) => Err(e)
          case Ok(cmds) => Ok(before + cmds)
  }

  /** The body of the volume group loop of `_get_node_volume_parts`. */
  method GetVgParts(vg: VolumeGroup, rootDisks: seq<Disk>) returns (r: Result<seq<Cmd>, Sizes.SizeError>)
    ensures r == VgCmds(vg, rootDisks)
  {
    var config: seq<Cmd> := [];
    var index, ids := 1, [];
    for i := 0 to |rootDisks|
      invariant index == i + 1 && ids == PvIds(i, vg.vgName)
      invariant config == PvCmds(rootDisks[..i], vg.vgName)
    {
      assert rootDisks[..i + 1][..i] == rootDisks[..i];
      var id := PvId(index, vg.vgName);
      ids := ids + [id];
      config := config + [EchoPart(id, "", Some(1000), true, rootDisks[i].itemId)];
      index := index + 1;
    }
    assert rootDisks[..|rootDisks|] == rootDisks;
    config := config + [EchoVolgroup(vg.vgName, ids)];
    var logvols := GetLogvols(vg, true);
    if logvols.Err? {
      return Err(logvols.error);
    }
    config := config + logvols.value;
    return Ok(config);
  }

  /** The file system loop. */
  method GetLogvols(vg: VolumeGroup, growRoot: bool) returns (r: Result<seq<Cmd>, Sizes.SizeError>)
    ensures r == LogvolCmds(vg, vg.fileSystems, growRoot)
  {
    var config: seq<Cmd> := [];
    var fss := vg.fileSystems;
    for i := 0 to |fss|
      invariant LogvolCmds(vg, fss[..i], growRoot) == Ok(config)
    {
      var fs := fss[i];
      assert fss[..i + 1][..i] == fss[..i];
      if fs.mountPoint.Some? && fs.mountPoint.value != "" {
        var mb := Sizes.ConvertToMb(fs.size);
        if mb.Err? {
          LogvolErrorStays(vg, fss, growRoot, i + 1);
          return Err(mb.error);
        }
        config := config + [EchoLogvol(fs.mountPoint.value, fs.fsType, vg.itemId + "_" + fs.itemId, vg.vgName,
                                       mb.value, growRoot && fs.mountPoint.value == "/")];
      }
    }
    assert fss[..|fss|] == fss;
    return Ok(config);
  }

  lemma {:induction false} LogvolErrorStays(vg: VolumeGroup, fss: seq<FileSystem>, growRoot: bool, i: nat)
    requires i <= |fss| && LogvolCmds(vg, fss[..i], growRoot).Err?
    ensures LogvolCmds(vg, fss, growRoot) == LogvolCmds(vg, fss[..i], growRoot)
  {
    if i < |fss| {
      assert fss[..|fss| - 1][..i] == fss[..i];
      LogvolErrorStays(vg, fss[..|fss| - 1], growRoot, i);
    } else {
      assert fss[..i] == fss;
    }
  }

  lemma {:induction false} VolumeErrorStays(node: Node, rootDisks: seq<Disk>, vgs: seq<VolumeGroup>, i: nat)
    requires i <= |vgs| && VolumeParts(node, rootDisks, vgs[..i]).Err?
    ensures VolumeParts(node, rootDisks, vgs) == VolumeParts(node, rootDisks, vgs[..i])
  {
    if i < |vgs| {
      assert vgs[..|vgs| - 1][..i] == vgs[..i];
      VolumeErrorStays(node, rootDisks, vgs[..|vgs| - 1], i);
    } else {
      assert vgs[..i] == vgs;
    }
  }

  /** `_get_node_volume_parts` */
  method GetNodeVolumeParts(node: Node, rootDisks: seq<Disk>) returns (r: Result<seq<Cmd>, Sizes.SizeError>)
    ensures r == VolumeParts(node, rootDisks, node.volumeGroups)
  {
    var config: seq<Cmd> := [];
    var vgs := node.volumeGroups;
    for i := 0 to |vgs|
      invariant VolumeParts(node, rootDisks, vgs[..i]) == Ok(config)
    {
      assert vgs[..i + 1][..i] == vgs[..i];
      if Some(vgs[i].vgName) != node.rootVg {
        continue;
      }
      var part := GetVgParts(vgs[i], rootDisks);
      if part.Err? {
        VolumeErrorStays(node, rootDisks, vgs, i + 1);
        return Err(part.error);
      }
      config := config + part.value;
    }
    assert vgs[..|vgs|] == vgs;
    return Ok(config);
  }

  // ---------- the whole snippet ----------

  function Head(node: Node, all: Uuids, uefi: bool): seq<Cmd> {
    [RemoveVgs(if node.osReinstall then Some("vg_root") else None), WipeDisks(TableType(uefi))]
    + [EchoClearpart(false), EchoIgnoredisk, EchoZerombr]
  }

  function Snippet(node: Node, all: Uuids, uefi: bool): Result<seq<Cmd>, SnippetError> {
    if RootDisks(node) == [] then Err(NoRootDisks)
    else
      match VolumeParts(node, RootDisks(node), node.volumeGroups)
      case Err(e) => Err(BadSize(e))
      case Ok(volumes) =>
        Ok(FirstLoop(node, all, node.disks) + (Head(node, all, uefi) + (SecondLoop(all, uefi, node.disks) + volumes)))
  }

  lemma Regroup(a: seq<Cmd>, b: seq<Cmd>, c: Cmd, d: Cmd, e: Cmd, f: seq<Cmd>, g: seq<Cmd>)
    ensures a + b + [c] + [d] + [e] + f + g == a + ((b + [c, d, e]) + (f + g))
  {
  }

  /** `_get_lvm_kickstart_config`; without root disks it returns None and the writer fails. */
  method GetLvmKickstartConfig(nodes: seq<Node>, node: Node, uefi: bool) returns (r: Result<seq<Cmd>, SnippetError>)
    ensures r == Snippet(node, AllDiskUuids(nodes), uefi)
  {
    var all := GetAllDiskUuids(nodes);
    var rootDisks := GetRootVgDisks(node);
    if rootDisks == [] {
      return Err(NoRootDisks);
    }
    var config := GetDisksToClear(node, all, uefi);
    config := config + [EchoClearpart(false)];
    config := config + [EchoIgnoredisk];
    config := config + [EchoZerombr];
    var boot := GetNodeBootParts(node, all, uefi);
    config := config + boot;
    var volumes := GetNodeVolumeParts(node, rootDisks);
    if volumes.Err? {
      return Err(BadSize(volumes.error));
    }
    Regroup(FirstLoop(node, all, node.disks),
            [RemoveVgs(if node.osReinstall then Some("vg_root") else None), WipeDisks(TableType(uefi))],
            EchoClearpart(false), EchoIgnoredisk, EchoZerombr, boot, volumes.value);
    config := config + volumes.value;
    return Ok(config);
  }

  lemma PvIdInjective(i: nat, j: nat, vg: string)
    requires PvId(i, vg) == PvId(j, vg)
    ensures i == j
  {
    var a, b := PvId(i, vg), PvId(j, vg);
    assert a[4..|a| - |vg|] == Decimal(i) && b[4..|b| - |vg|] == Decimal(j);
    DecimalInjective(i, j);
  }

  /** The ids of the physical volumes are pairwise distinct. */
  lemma PvIdsDistinct(n: nat, vg: string)
    ensures forall i, j | 0 <= i < j < n :: PvIds(n, vg)[i] != PvIds(n, vg)[j]
  {
    forall i, j | 0 <= i < j < n
      ensures PvIds(n, vg)[i] != PvIds(n, vg)[j]
    {
      if PvIds(n, vg)[i] == PvIds(n, vg)[j] {
        PvIdInjective(i + 1, j + 1, vg);
      }
    }
  }
}
