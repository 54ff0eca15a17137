/** The part of the deployment model that disk selection reads. */
module DiskModel {
  import opened Strings
  import opened Wrappers

  datatype Disk = Disk(itemId: string, name: string, uuid: Option<string>, size: string,
                       bootable: bool, shared: bool)

  datatype Cluster = Cluster(isVcs: bool, fencingUuids: seq<Option<string>>)

  datatype FileSystem = FileSystem(itemId: string, fsType: string, mountPoint: Option<string>, size: string)

  datatype VolumeGroup = VolumeGroup(itemId: string, vgName: string, deviceNames: seq<string>,
                                     fileSystems: seq<FileSystem>)

  /** `rootVg` is the storage profile's root volume group; None stands for its ViewError. */
  datatype Node = Node(hostname: string, disks: seq<Disk>, osReinstall: bool, clusters: seq<Cluster>,
                       volumeGroups: seq<VolumeGroup>, rootVg: Option<string>)

  type Uuids = seq<Option<string>>

  /** UUIDLESSDISK */
  const UUIDLESS: string := "kgb"

  /** `_uuid_on_disk` */
  predicate UuidOnDisk(d: Disk) {
    d.uuid.Some? && d.uuid.value != "" && Lower(Strip(d.uuid.value)) != UUIDLESS
  }

  /** `kgb` in any case. */
  predicate IsKgb(w: string) {
    |w| == 3 && (w[0] == 'k' || w[0] == 'K') && (w[1] == 'g' || w[1] == 'G') && (w[2] == 'b' || w[2] == 'B')
  }

  /** A disk has a UUID unless it is None, empty, or kgb in any case with white space around it. */
  lemma UuidOnDiskExact(d: Disk)
    ensures !UuidOnDisk(d) <==> d.uuid.None? || d.uuid.value == "" || IsKgb(Strip(d.uuid.value))
  {
    if d.uuid.Some? {
      var w := Strip(d.uuid.value);
      assert Lower(w) == "kgb" <==> |w| == 3 && Lower(w)[0] == 'k' && Lower(w)[1] == 'g' && Lower(w)[2] == 'b';
    }
  }

  /** `all_uuids.count(uuid)` */
  function Count(all: Uuids, uuid: Option<string>): nat {
    multiset(all)[uuid]
  }

  function DiskUuids(disks: seq<Disk>): (uuids: Uuids)
    ensures |uuids| == |disks| && forall i | 0 <= i < |disks| :: uuids[i] == disks[i].uuid
  {
    seq(|disks|, i requires 0 <= i < |disks| => disks[i].uuid)
  }

  function AllDiskUuids(nodes: seq<Node>): Uuids {
    if nodes == [] then [] else AllDiskUuids(nodes[..|nodes| - 1]) + DiskUuids(nodes[|nodes| - 1].disks)
  }

  /** Two places hold the same value exactly when it is counted more than once. */
  lemma {:induction false} CountTwice(all: Uuids, u: Option<string>)
    ensures Count(all, u) > 1 <==> exists i, j | 0 <= i < j < |all| :: all[i] == u && all[j] == u
  {
    if all != [] {
      var front, last := all[..|all| - 1], all[|all| - 1];
      assert all == front + [last];
      CountTwice(front, u);
      if last == u && u in front {
        var i :| 0 <= i < |front| && front[i] == u;
        assert all[i] == u && all[|all| - 1] == u;
      }
      if i, j :| 0 <= i < j < |all| && all[i] == u && all[j] == u {
        if j < |front| {
          assert front[i] == u && front[j] == u;
        } else {
          assert front[i] == u;
        }
      }
    }
  }

  // ---------- where the deployment holds a UUID ----------

  /** Disk `k` of node `n` has this UUID. */
  predicate Holds(nodes: seq<Node>, n: nat, k: nat, u: Option<string>) {
    n < |nodes| && k < |nodes[n].disks| && nodes[n].disks[k].uuid == u
  }

  /** The place of the first disk of node `n` in the list of all UUIDs. */
  function Offset(nodes: seq<Node>, n: nat): nat
    requires n <= |nodes|
  {
    |AllDiskUuids(nodes[..n])|
  }

  lemma OffsetStep(nodes: seq<Node>, n: nat)
    requires n < |nodes|
    ensures Offset(nodes, n + 1) == Offset(nodes, n) + |nodes[n].disks|
    ensures AllDiskUuids(nodes[..n + 1]) == AllDiskUuids(nodes[..n]) + DiskUuids(nodes[n].disks)
  {
    assert nodes[..n + 1][..n] == nodes[..n];
  }

  /** The list of the first nodes begins the list of all. */
  lemma {:induction false} UuidsPrefix(nodes: seq<Node>, n: nat, m: nat)
    requires n <= m <= |nodes|
    ensures AllDiskUuids(nodes[..n]) <= AllDiskUuids(nodes[..m])
  {
    if n < m {
      UuidsPrefix(nodes, n, m - 1);
      OffsetStep(nodes, m - 1);
    }
  }

  lemma {:induction false} UuidAmong(nodes: seq<Node>, m: nat, n: nat, k: nat)
    requires n < m <= |nodes| && k < |nodes[n].disks|
    ensures Offset(nodes, n) + k < Offset(nodes, n + 1) <= Offset(nodes, m)
    ensures AllDiskUuids(nodes[..m])[Offset(nodes, n) + k] == nodes[n].disks[k].uuid
  {
    OffsetStep(nodes, m - 1);
    if n < m - 1 {
      UuidAmong(nodes, m - 1, n, k);
    }
  }

  /** Every disk of the deployment has its place in the list. */
  lemma UuidAt(nodes: seq<Node>, n: nat, k: nat)
    requires n < |nodes| && k < |nodes[n].disks|
    ensures Offset(nodes, n) + k < Offset(nodes, n + 1) <= |AllDiskUuids(nodes)|
    ensures AllDiskUuids(nodes)[Offset(nodes, n) + k] == nodes[n].disks[k].uuid
  {
    UuidAmong(nodes, |nodes|, n, k);
    assert nodes[..|nodes|] == nodes;
  }

  /** And every place of the list is that of a disk. */
  lemma {:induction false} DiskAt(nodes: seq<Node>, m: nat, p: nat) returns (n: nat, k: nat)
    requires m <= |nodes| && p < Offset(nodes, m)
    ensures n < m && k < |nodes[n].disks| && p == Offset(nodes, n) + k
  {
    OffsetStep(nodes, m - 1);
    if p < Offset(nodes, m - 1) {
      n, k := DiskAt(nodes, m - 1, p);
    } else {
      n, k := m - 1, p - Offset(nodes, m - 1);
    }
  }

  /** Two disks of the deployment, not the same one, have this UUID. */
  ghost predicate HeldTwice(nodes: seq<Node>, u: Option<string>) {
    exists n, k, m, l :: Holds(nodes, n, k, u) && Holds(nodes, m, l, u) && (n != m || k != l)
  }

  lemma TwiceIsCounted(nodes: seq<Node>, u: Option<string>, n: nat, k: nat, m: nat, l: nat)
    requires Holds(nodes, n, k, u) && Holds(nodes, m, l, u) && (n < m || (n == m && k < l))
    ensures Count(AllDiskUuids(nodes), u) > 1
  {
    UuidAt(nodes, n, k);
    UuidAt(nodes, m, l);
    UuidsPrefix(nodes, n, m);
    if n < m {
      UuidsPrefix(nodes, n + 1, m);
    }
    var i, j := Offset(nodes, n) + k, Offset(nodes, m) + l;
    assert i < j;
    CountTwice(AllDiskUuids(nodes), u);
  }

  lemma CountedIsHeld(nodes: seq<Node>, u: Option<string>, i: nat, j: nat)
    requires i < j < |AllDiskUuids(nodes)| && AllDiskUuids(nodes)[i] == u && AllDiskUuids(nodes)[j] == u
    ensures HeldTwice(nodes, u)
  {
    var n, k := HeldAt(nodes, u, i);
    var m, l := HeldAt(nodes, u, j);
  }

  lemma HeldAt(nodes: seq<Node>, u: Option<string>, i: nat) returns (n: nat, k: nat)
    requires i < |AllDiskUuids(nodes)| && AllDiskUuids(nodes)[i] == u
    ensures Holds(nodes, n, k, u) && i == Offset(nodes, n) + k
  {
    assert nodes[..|nodes|] == nodes;
    n, k := DiskAt(nodes, |nodes|, i);
    UuidAt(nodes, n, k);
  }

  /** A UUID is counted more than once if and only if two disks of the deployment have it. */
  lemma CountedIffHeldTwice(nodes: seq<Node>, u: Option<string>)
    ensures Count(AllDiskUuids(nodes), u) > 1 <==> HeldTwice(nodes, u)
  {
    var all := AllDiskUuids(nodes);
    CountTwice(all, u);
    if i, j :| 0 <= i < j < |all| && all[i] == u && all[j] == u {
      CountedIsHeld(nodes, u, i, j);
    }
    if n, k, m, l :| Holds(nodes, n, k, u) && Holds(nodes, m, l, u) && (n != m || k != l) {
      if n < m || (n == m && k < l) {
        TwiceIsCounted(nodes, u, n, k, m, l);
      } else {
        TwiceIsCounted(nodes, u, m, l, n, k);
      }
    }
  }

  /** The list holds the UUIDs of the deployment's disks and no others. */
  lemma ListedIffHeld(nodes: seq<Node>, u: Option<string>)
    ensures u in AllDiskUuids(nodes) <==> exists n, k :: Holds(nodes, n, k, u)
  {
    var all := AllDiskUuids(nodes);
    if u in all {
      var i :| 0 <= i < |all| && all[i] == u;
      var n, k := HeldAt(nodes, u, i);
    }
    if n, k :| Holds(nodes, n, k, u) {
      UuidAt(nodes, n, k);
    }
  }

  /** `_get_all_disk_uuids` over the nodes whose system is not being removed. */
  method GetAllDiskUuids(nodes: seq<Node>) returns (uuids: Uuids)
    ensures uuids == AllDiskUuids(nodes)
    ensures forall u :: u in uuids <==> exists n, k :: Holds(nodes, n, k, u)
    ensures forall u :: Count(uuids, u) > 1 <==> HeldTwice(nodes, u)
  {
    uuids := [];
    for i := 0 to |nodes|
      invariant uuids == AllDiskUuids(nodes[..i])
    {
      ghost var before := uuids;
      for j := 0 to |nodes[i].disks|
        invariant uuids == before + DiskUuids(nodes[i].disks[..j])
      {
        uuids := uuids + [nodes[i].disks[j].uuid];
      }
      assert nodes[i].disks[..|nodes[i].disks|] == nodes[i].disks;
      assert nodes[..i + 1][..i] == nodes[..i];
    }
    assert nodes[..|nodes|] == nodes;
    forall u
      ensures u in uuids <==> exists n, k :: Holds(nodes, n, k, u)
      ensures Count(uuids, u) > 1 <==> HeldTwice(nodes, u)
    {
      ListedIffHeld(nodes, u);
      CountedIffHeldTwice(nodes, u);
    }
  }
}
