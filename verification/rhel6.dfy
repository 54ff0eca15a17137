/** Generating the RHEL 6 partition snippet: sizes are given outright, so they must add up. */
module Rhel6 {
  import opened Strings
  import opened Wrappers
  import opened DiskModel
  import Sizes
  import opened Shell
  import P = Partition

  /** TypeError: a root disk without a unit, reduced by the boot partition. */
  datatype ConfigError = NoRootDisks | BadSize(error: Sizes.SizeError) | TypeError

  const BOOT_SIZE := 500

  /** The first part of `_get_rhel6_disk_config`; its test for an unset drive is on the empty string only. */
  function DiskCmds(all: Uuids, d: Disk): seq<Cmd> {
    if P.Skipped(all, d) then []
    else if UuidOnDisk(d) then
      var u := d.uuid.value;
      [ListItem(Scsi, u), ListItemIfEmpty(Cciss, u), StoreItem(d.itemId)]
      + ([RequireBlock(d.itemId, u)] + [FindDrive(Scsi, u), FindDriveIfEmpty(Cciss, u), AppendDrive])
    else [StoreNamed(d.itemId, d.name), SetDrive(d.name), AppendDrive]
  }

  function BootCmds(all: Uuids, d: Disk): seq<Cmd> {
    if P.Skipped(all, d) || !d.bootable then []
    else [EchoPart("/boot", "ext4", Some(BOOT_SIZE), false, d.itemId)]
  }

  function AllDiskCmds(all: Uuids, disks: seq<Disk>): seq<Cmd> {
    if disks == [] then []
    else AllDiskCmds(all, disks[..|disks| - 1]) + DiskCmds(all, disks[|disks| - 1])
  }

  function AllBootCmds(all: Uuids, disks: seq<Disk>): seq<Cmd> {
    if disks == [] then []
    else AllBootCmds(all, disks[..|disks| - 1]) + BootCmds(all, disks[|disks| - 1])
  }

  /** The size of the physical volume on a root disk: what the boot partition leaves. */
  function PvSize(d: Disk): Result<Option<int>, ConfigError> {
    match Sizes.ConvertToMb(d.size)
    case Err(e) => Err(BadSize(e))
    case Ok(None) => if d.bootable then Err(TypeError) else Ok(None)
    case Ok(Some(mb)) => Ok(Some(if d.bootable then mb - BOOT_SIZE else mb))
  }

  function PvCmds(rootDisks: seq<Disk>, vg: string): Result<seq<Cmd>, ConfigError> {
    if rootDisks == [] then Ok([])
    else
      var n := |rootDisks|;
      match PvCmds(rootDisks[..n - 1], vg)
      case Err(e) => Err(e)
      case Ok(before) =>
        match PvSize(rootDisks[n - 1])
        case Err(e) => Err(e)
        case Ok(size) => Ok(before + [EchoPart(P.PvId(n, vg), "", size, false, rootDisks[n - 1].itemId)])
  }

  function VgCmds(vg: VolumeGroup, rootDisks: seq<Disk>): Result<seq<Cmd>, ConfigError> {
    match PvCmds(rootDisks, vg.vgName)
    case Err(e) => Err(e)
    case Ok(pvs) =>
      match P.LogvolCmds(vg, vg.fileSystems, false)
      case Err(e) => Err(BadSize(e))
      case Ok(logvols) =>
        Ok(pvs + [EchoVolgroup(vg.vgName, P.PvIds(|rootDisks|, vg.vgName))] + logvols)
  }

  function VolumeCmds(node: Node, rootDisks: seq<Disk>, vgs: seq<VolumeGroup>): Result<seq<Cmd>, ConfigError> {
    if vgs == [] then Ok([])
    else
      match VolumeCmds(node, rootDisks, vgs[..|vgs| - 1])
      case Err(e) => Err(e)
      case Ok(before) =>
        var vg := vgs[|vgs| - 1];
        if Some(vg.vgName) != node.rootVg then Ok(before)
        else
          match VgCmds(vg, rootDisks)
          case Err(e) => Err(e)
          case Ok(cmds) => Ok(before + cmds)
  }

  function Config(node: Node, all: Uuids): Result<seq<Cmd>, ConfigError> {
    if P.RootDisks(node) == [] then Err(NoRootDisks)
    else
      match VolumeCmds(node, P.RootDisks(node), node.volumeGroups)
      case Err(e) => Err(e)
      case Ok(volumes) =>
        Ok(AllDiskCmds(all, node.disks) + ([EchoClearpart(true)] + (AllBootCmds(all, node.disks) + volumes)))
  }

  // ---------- the generator ----------

  lemma {:induction false} PvErrorStays(rootDisks: seq<Disk>, vg: string, i: nat)
    requires i <= |rootDisks| && PvCmds(rootDisks[..i], vg).Err?
    ensures PvCmds(rootDisks, vg) == PvCmds(rootDisks[..i], vg)
  {
    if i < |rootDisks| {
      assert rootDisks[..|rootDisks| - 1][..i] == rootDisks[..i];
      PvErrorStays(rootDisks[..|rootDisks| - 1], vg, i);
    } else {
      assert rootDisks[..i] == rootDisks;
    }
  }

  lemma {:induction false} VolumeErrorStays(node: Node, rootDisks: seq<Disk>, vgs: seq<VolumeGroup>, i: nat)
    requires i <= |vgs| && VolumeCmds(node, rootDisks, vgs[..i]).Err?
    ensures VolumeCmds(node, rootDisks, vgs) == VolumeCmds(node, rootDisks, vgs[..i])
  {
    if i < |vgs| {
      assert vgs[..|vgs| - 1][..i] == vgs[..i];
      VolumeErrorStays(node, rootDisks, vgs[..|vgs| - 1], i);
    } else {
      assert vgs[..i] == vgs;
    }
  }

  /** The body of the volume group loop. */
  method GetVgParts(vg: VolumeGroup, rootDisks: seq<Disk>) returns (r: Result<seq<Cmd>, ConfigError>)
    ensures r == VgCmds(vg, rootDisks)
  {
    var config: seq<Cmd> := [];
    var index, ids := 1, [];
    for i := 0 to |rootDisks|
      invariant index == i + 1 && ids == P.PvIds(i, vg.vgName)
      invariant PvCmds(rootDisks[..i], vg.vgName) == Ok(config)
    {
      assert rootDisks[..i + 1][..i] == rootDisks[..i];
      var size := PvSize(rootDisks[i]);
      if size.Err? {
        PvErrorStays(rootDisks, vg.vgName, i + 1);
        return Err(size.error);
      }
      var id := P.PvId(index, vg.vgName);
      ids := ids + [id];
      config := config + [EchoPart(id, "", size.value, false, rootDisks[i].itemId)];
      index := index + 1;
    }
    assert rootDisks[..|rootDisks|] == rootDisks;
    config := config + [EchoVolgroup(vg.vgName, ids)];
    var logvols := P.GetLogvols(vg, false);
    if logvols.Err? {
      return Err(BadSize(logvols.error));
    }
    return Ok(config + logvols.value);
  }

  /** The volume group loop. */
  method GetVolumeParts(node: Node, rootDisks: seq<Disk>) returns (r: Result<seq<Cmd>, ConfigError>)
    ensures r == VolumeCmds(node, rootDisks, node.volumeGroups)
  {
    var config: seq<Cmd> := [];
    var vgs := node.volumeGroups;
    for i := 0 to |vgs|
      invariant VolumeCmds(node, rootDisks, vgs[..i]) == Ok(config)
    {
      assert vgs[..i + 1][..i] == vgs[..i];
      if Some(vgs[i].vgName) != node.rootVg {
        continue;
      }
      var part := GetVgParts(vgs[i], rootDisks);
      if part.Err? {
        VolumeErrorStays(node, rootDisks, vgs, i + 1);
        return Err(part.error);
      }
      config := config + part.value;
    }
    assert vgs[..|vgs|] == vgs;
    return Ok(config);
  }

  /** The loop over the disks, which fills both lists. */
  method GetDiskParts(disks: seq<Disk>, all: Uuids) returns (config: seq<Cmd>, boot: seq<Cmd>)
    ensures config == AllDiskCmds(all, disks) && boot == AllBootCmds(all, disks)
  {
    config, boot := [], [];
    for i := 0 to |disks|
      invariant config == AllDiskCmds(all, disks[..i]) && boot == AllBootCmds(all, disks[..i])
    {
      assert disks[..i + 1][..i] == disks[..i];
      config := config + DiskCmds(all, disks[i]);
      boot := boot + BootCmds(all, disks[i]);
    }
    assert disks[..|disks|] == disks;
  }

  lemma Regroup(a: seq<Cmd>, b: Cmd, c: seq<Cmd>, d: seq<Cmd>)
    ensures a + [b] + c + d == a + ([b] + (c + d))
  {
  }

  /** `_get_lvm_kickstart_config_rhel6`; without root disks it returns None and the writer fails. */
  method GetLvmKickstartConfig(nodes: seq<Node>, node: Node) returns (r: Result<seq<Cmd>, ConfigError>)
    ensures r == Config(node, AllDiskUuids(nodes))
  {
    var rootDisks := P.GetRootVgDisks(node);
    if rootDisks == [] {
      return Err(NoRootDisks);
    }
    var all := GetAllDiskUuids(nodes);
    var config, boot := GetDiskParts(node.disks, all);
    config := config + [EchoClearpart(true)];
    config := config + boot;
    var volumes := GetVolumeParts(node, rootDisks);
    if volumes.Err? {
      return Err(volumes.error);
    }
    Regroup(AllDiskCmds(all, node.disks), EchoClearpart(true), boot, volumes.value);
    return Ok(config + volumes.value);
  }
}
