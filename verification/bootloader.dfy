/**
 * Which disks the bootloader snippet zeroes: the list of shielded UUIDs that
 * `_generate_bootloader_fragments` computes, and the scan that the snippet runs on the node.
 */
module Bootloader {
  import opened Strings
  import opened Wrappers
  import opened DiskModel

  // ---------- the shielded UUIDs ----------

  /** The UUIDs that must survive the installation of `node`. */
  ghost predicate MustShield(node: Node, all: Uuids, u: Option<string>) {
    || (exists d | d in node.disks :: d.uuid == u && Count(all, u) > 1)
    || (node.osReinstall && exists d | d in node.disks :: d.uuid == u && !d.bootable && d.shared)
    || (exists c | c in node.clusters :: c.isVcs && u in c.fencingUuids)
  }

  /** The list passed to the template as `shared_uuids`. */
  method SharedUuids(node: Node, all: Uuids) returns (shared: Uuids)
    ensures forall u :: u in shared <==> MustShield(node, all, u)
  {
    shared := [];
    for i := 0 to |node.disks|
      invariant forall u :: u in shared <==> exists k | 0 <= k < i :: node.disks[k].uuid == u && Count(all, u) > 1
    {
      if Count(all, node.disks[i].uuid) > 1 {
        shared := shared + [node.disks[i].uuid];
      }
    }
    if node.osReinstall {
      var counted := shared;
      for i := 0 to |node.disks|
        invariant forall u :: u in shared <==> (u in counted ||
          exists k | 0 <= k < i :: node.disks[k].uuid == u && !node.disks[k].bootable && node.disks[k].shared)
      {
        var d := node.disks[i];
        if !d.bootable && d.shared && d.uuid !in counted {
          shared := shared + [d.uuid];
        }
      }
    }
    ghost var own := shared;
    for i := 0 to |node.clusters|
      invariant forall u :: u in shared <==> (u in own ||
        exists k | 0 <= k < i :: node.clusters[k].isVcs && u in node.clusters[k].fencingUuids)
    {
      if node.clusters[i].isVcs {
        shared := shared + node.clusters[i].fencingUuids;
      }
    }
  }

  // ---------- the scan on the node ----------

  /**
   * A block device as udev describes it; `isDisk` holds when ID_TYPE and DEVTYPE both say disk, and
   * `scsiLink` when udev has made the link scsi-<serial>, which not every bus has.
   */
  datatype Device = Device(name: string, isDisk: bool, serial: string, bus: string, serialShort: string,
                           scsiLink: bool)

  /** Comparison under `nocasematch`. */
  predicate Same(a: string, b: string) {
    Lower(a) == Lower(b)
  }

  predicate IsTarget(target: string, d: Device) {
    Same(target, d.serial) || Same(target, d.bus + "_" + d.serial) || Same(target, d.serialShort)
  }

  /** The test of the inner loop: unlike the target's, it has no bus_serial form. */
  predicate Names(u: string, d: Device) {
    Same(u, d.serial) || Same(u, d.serialShort)
  }

  predicate Eligible(target: string, shared: seq<string>, d: Device) {
    d.isDisk && !IsTarget(target, d) && !exists u | u in shared :: Names(u, d)
  }

  /** The test `"${disk_uuids_to_dd[@]}" =~ serial`, for a serial read literally. */
  predicate InJoined(queue: seq<string>, serial: string) {
    Contains(Lower(Join(queue, " ")), Lower(serial))
  }

  function Matches(devices: seq<Device>, target: string): seq<string> {
    if devices == [] then []
    else
      var before, d := Matches(devices[..|devices| - 1], target), devices[|devices| - 1];
      if d.isDisk && IsTarget(target, d) then before + [d.name] else before
  }

  /** The serials to zero, in order. */
  function Queue(devices: seq<Device>, target: string, shared: seq<string>): seq<string> {
    if devices == [] then []
    else
      var before, d := Queue(devices[..|devices| - 1], target, shared), devices[|devices| - 1];
      if Eligible(target, shared, d) && !InJoined(before, d.serial) then before + [d.serial] else before
  }

  /** The scan loop of the snippet. */
  method ScanDevices(devices: seq<Device>, target: string, shared: seq<string>)
    returns (matches: seq<string>, toZero: seq<string>)
    ensures matches == Matches(devices, target)
    ensures toZero == Queue(devices, target, shared)
  {
    matches, toZero := [], [];
    for i := 0 to |devices|
      invariant matches == Matches(devices[..i], target)
      invariant toZero == Queue(devices[..i], target, shared)
    {
      var d := devices[i];
      assert devices[..i + 1][..i] == devices[..i];
      if !d.isDisk {
        continue;
      }
      if IsTarget(target, d) {
        matches := matches + [d.name];
      } else {
        var isShared := false;
        for j := 0 to |shared|
          invariant isShared <==> exists k | 0 <= k < j :: Names(shared[k], d)
        {
          if Names(shared[j], d) {
            isShared := true;
          }
        }
        if !isShared {
          if !InJoined(toZero, d.serial) {
            toZero := toZero + [d.serial];
          }
        }
      }
    }
    assert devices[..|devices|] == devices;
  }

  /** `dd` writes to the link scsi-<serial>, so it reaches every device with a queued serial that has the link. */
  predicate Zeroed(queue: seq<string>, d: Device) {
    d.isDisk && d.scsiLink && d.serial in queue
  }

  /** Bytes that `nocasematch` takes as equal: a letter and its other case, and equal bytes. */
  predicate SameLetter(c: char, d: char) {
    || c == d
    || ('A' <= c <= 'Z' && d as int == c as int + 32)
    || ('A' <= d <= 'Z' && c as int == d as int + 32)
  }

  /** Folding makes two strings equal if and only if they differ in the case of letters only. */
  lemma FoldExact(a: string, b: string)
    ensures Lower(a) == Lower(b) <==> |a| == |b| && forall i | 0 <= i < |a| :: SameLetter(a[i], b[i])
  {
    if Lower(a) == Lower(b) {
      assert |a| == |Lower(a)| == |b|;
      assert forall i | 0 <= i < |a| :: Lower(a)[i] == Lower(b)[i];
    }
  }

  /** The matches are the names of the target disks; the snippet goes on if there is one. */
  lemma {:induction false} MatchesExact(devices: seq<Device>, target: string, name: string)
    ensures name in Matches(devices, target) <==>
            exists d | d in devices :: d.isDisk && LooksLike(target, d) && d.name == name
    ensures Matches(devices, target) == [] <==> forall d | d in devices :: !(d.isDisk && LooksLike(target, d))
  {
    if devices != [] {
      var front, last := devices[..|devices| - 1], devices[|devices| - 1];
      MatchesExact(front, target, name);
      assert forall d :: d in devices <==> d in front || d == last;
    }
  }

  /** The target is the disk's serial, its bus and serial, or its short serial, in any case. */
  predicate LooksLike(target: string, d: Device) {
    var t := Lower(target);
    Lower(d.serial) == t || Lower(d.bus + "_" + d.serial) == t || Lower(d.serialShort) == t
  }

  /** The serial at a place in the queue was put there by an eligible device not yet covered. */
  ghost predicate QueuedBy(devices: seq<Device>, target: string, shared: seq<string>, serial: string, i: nat) {
    i < |devices| && devices[i].serial == serial && Eligible(target, shared, devices[i])
    && !InJoined(Queue(devices[..i], target, shared), serial)
  }

  /** Exactly which serials are zeroed. */
  lemma {:induction false} QueueExact(devices: seq<Device>, target: string, shared: seq<string>, serial: string)
    ensures serial in Queue(devices, target, shared) <==>
            exists i :: QueuedBy(devices, target, shared, serial, i)
  {
    if devices != [] {
      var n := |devices| - 1;
      var front := devices[..n];
      QueueExact(front, target, shared, serial);
      forall i | 0 <= i < n
        ensures QueuedBy(front, target, shared, serial, i) <==> QueuedBy(devices, target, shared, serial, i)
      {
        assert front[..i] == devices[..i];
      }
      assert serial in Queue(devices, target, shared) <==>
             serial in Queue(front, target, shared) || QueuedBy(devices, target, shared, serial, n);
      if i: nat :| QueuedBy(devices, target, shared, serial, i) {
        assert i < n ==> QueuedBy(front, target, shared, serial, i);
      }
    }
  }

  lemma LowerAppend(a: string, b: string)
    ensures Lower(a + b) == Lower(a) + Lower(b)
  {
  }

  lemma QueuedIsInJoined(queue: seq<string>, serial: string)
    requires serial in queue
    ensures InJoined(queue, serial)
  {
    var i :| 0 <= i < |queue| && queue[i] == serial;
    JoinContains(queue, " ", i);
    var j :| 0 <= j <= |Join(queue, " ")| - |serial| && OccursAt(Join(queue, " "), serial, j);
    assert Lower(Join(queue, " "))[j..j + |serial|] == Lower(Join(queue, " ")[j..j + |serial|]);
    assert OccursAt(Lower(Join(queue, " ")), Lower(serial), j);
  }

  lemma LowerWider(hay: string, more: string, needle: string)
    requires Contains(Lower(hay), needle)
    ensures Contains(Lower(hay + more), needle)
  {
    LowerAppend(hay, more);
    ContainsWider("", Lower(hay), Lower(more), needle);
    assert "" + Lower(hay) + Lower(more) == Lower(hay + more);
  }

  lemma InJoinedGrows(queue: seq<string>, s: string, serial: string)
    requires InJoined(queue, serial)
    ensures InJoined(queue + [s], serial)
  {
    var more := JoinMore(queue, s);
    LowerWider(Join(queue, " "), more, Lower(serial));
  }

  lemma JoinMore(queue: seq<string>, s: string) returns (more: string)
    ensures Join(queue + [s], " ") == Join(queue, " ") + more
  {
    JoinSnoc(queue, " ", s);
    more := if queue == [] then s else " " + s;
    if queue != [] {
      assert Join(queue, " ") + " " + s == Join(queue, " ") + (" " + s);
    }
  }

  /** Every eligible serial is contained in the joined queue. */
  lemma {:induction false} QueueComplete(devices: seq<Device>, target: string, shared: seq<string>, i: nat)
    requires i < |devices| && Eligible(target, shared, devices[i])
    ensures InJoined(Queue(devices, target, shared), devices[i].serial)
  {
    var n := |devices| - 1;
    var before := Queue(devices[..n], target, shared);
    if i < n {
      QueueComplete(devices[..n], target, shared, i);
      if Queue(devices, target, shared) != before {
        InJoinedGrows(before, devices[n].serial, devices[i].serial);
      }
    } else if !InJoined(before, devices[n].serial) {
      QueuedIsInJoined(before + [devices[n].serial], devices[n].serial);
    }
  }

  /** No serial is queued twice, in any spelling. */
  lemma {:induction false} QueuedOnce(devices: seq<Device>, target: string, shared: seq<string>, i: nat, j: nat)
    requires i < j < |Queue(devices, target, shared)|
    ensures !Same(Queue(devices, target, shared)[i], Queue(devices, target, shared)[j])
  {
    var n := |devices| - 1;
    var before := Queue(devices[..n], target, shared);
    if j < |before| {
      QueuedOnce(devices[..n], target, shared, i, j);
    } else {
      QueuedIsInJoined(before, before[i]);
    }
  }

  // ---------- wipe safety ----------

  /** A word without a blank that occurs in two words joined by a blank occurs in one of the two. */
  lemma WordInPair(a: string, rest: string, w: string, i: nat)
    requires w != "" && ' ' !in w && OccursAt(a + " " + rest, w, i)
    ensures Contains(a, w) || Contains(rest, w)
  {
    var all := a + " " + rest;
    assert forall k | i <= k < i + |w| :: all[k] == w[k - i] && w[k - i] in w;
    assert all[|a|] == ' ';
    if i + |w| <= |a| {
      assert all[i..i + |w|] == a[i..i + |w|];
      assert OccursAt(a, w, i);
    } else {
      var j := i - |a| - 1;
      assert all[i..i + |w|] == rest[j..j + |w|];
      assert OccursAt(rest, w, j);
    }
  }

  /** A word without a blank that occurs in the joined words occurs in one of them. */
  lemma {:induction false} WordInJoin(words: seq<string>, w: string)
    requires words != [] && w != "" && ' ' !in w && Contains(Join(words, " "), w)
    ensures exists q | q in words :: Contains(q, w)
  {
    if |words| == 1 {
      assert words[0] in words;
    } else {
      var a, rest := words[0], Join(words[1..], " ");
      var i :| 0 <= i <= |Join(words, " ")| - |w| && OccursAt(Join(words, " "), w, i);
      WordInPair(a, rest, w, i);
      assert a in words;
      if Contains(rest, w) {
        WordInJoin(words[1..], w);
      }
    }
  }

  function LowerAll(words: seq<string>): (r: seq<string>)
    ensures |r| == |words| && forall i | 0 <= i < |words| :: r[i] == Lower(words[i])
  {
    seq(|words|, i requires 0 <= i < |words| => Lower(words[i]))
  }

  lemma {:induction false} LowerJoin(words: seq<string>)
    ensures Lower(Join(words, " ")) == Join(LowerAll(words), " ")
  {
    if |words| > 1 {
      LowerJoin(words[1..]);
      assert LowerAll(words)[1..] == LowerAll(words[1..]);
      LowerAppend(words[0] + " ", Join(words[1..], " "));
      LowerAppend(words[0], " ");
      assert Lower(" ") == " ";
    }
  }

  /** udev writes serials without blanks. */
  predicate PlainSerials(devices: seq<Device>) {
    forall d | d in devices && d.isDisk :: d.serial != "" && ' ' !in d.serial
  }

  /** Devices with one serial are paths to one disk: they agree on bus and short serial. */
  ghost predicate PathsAgree(devices: seq<Device>) {
    forall d, e | d in devices && e in devices && d.isDisk && e.isDisk && d.serial == e.serial ::
      d.bus == e.bus && d.serialShort == e.serialShort
  }

  /** The device at `j` is the first eligible one with its serial. */
  ghost predicate FirstEligible(devices: seq<Device>, target: string, shared: seq<string>, j: nat) {
    j < |devices| && Eligible(target, shared, devices[j])
    && forall i | 0 <= i < j && Eligible(target, shared, devices[i]) :: devices[i].serial != devices[j].serial
  }

  /** No eligible serial is part of the serial of an eligible device before its own first device. */
  ghost predicate Uncovered(devices: seq<Device>, target: string, shared: seq<string>) {
    forall i, j | 0 <= i < j < |devices| && Eligible(target, shared, devices[i])
                  && FirstEligible(devices, target, shared, j) ::
      !Contains(Lower(devices[i].serial), Lower(devices[j].serial))
  }

  /** The eligible devices have the link that `dd` writes to. */
  ghost predicate Linked(devices: seq<Device>, target: string, shared: seq<string>) {
    forall d | d in devices && Eligible(target, shared, d) :: d.scsiLink
  }

  lemma PartInJoined(queue: seq<string>, serial: string, part: string)
    requires InJoined(queue, serial) && Contains(Lower(serial), Lower(part))
    ensures InJoined(queue, part)
  {
    var joined, s := Lower(Join(queue, " ")), Lower(serial);
    var i :| 0 <= i <= |joined| - |s| && OccursAt(joined, s, i);
    ContainsWider(joined[..i], s, joined[i + |s|..], Lower(part));
    assert joined[..i] + s + joined[i + |s|..] == joined;
  }

  /** A covered serial is never queued. */
  lemma CoveredNotQueued(devices: seq<Device>, target: string, shared: seq<string>, i: nat, j: nat)
    requires i < j && FirstEligible(devices, target, shared, j) && Eligible(target, shared, devices[i])
    requires Contains(Lower(devices[i].serial), Lower(devices[j].serial))
    ensures devices[j].serial !in Queue(devices, target, shared)
  {
    var serial := devices[j].serial;
    QueueExact(devices, target, shared, serial);
    if m: nat :| QueuedBy(devices, target, shared, serial, m) {
      assert j <= m;
      QueueComplete(devices[..m], target, shared, i);
      PartInJoined(Queue(devices[..m], target, shared), devices[i].serial, serial);
      assert false;
    }
  }

  /** A serial contained in a queue of plain serials is part of one of them. */
  lemma InJoinedPart(queue: seq<string>, serial: string) returns (k: nat)
    requires InJoined(queue, serial) && serial != "" && ' ' !in serial
    ensures k < |queue| && Contains(Lower(queue[k]), Lower(serial))
  {
    LowerJoin(queue);
    assert |Lower(Join([], " "))| == 0;
    assert ' ' !in Lower(serial);
    WordInJoin(LowerAll(queue), Lower(serial));
    var q :| q in LowerAll(queue) && Contains(q, Lower(serial));
    k :| 0 <= k < |queue| && q == Lower(queue[k]);
  }

  /** An uncovered serial is queued at its first eligible device. */
  lemma UncoveredQueued(devices: seq<Device>, target: string, shared: seq<string>, j: nat)
    requires PlainSerials(devices) && Uncovered(devices, target, shared) && FirstEligible(devices, target, shared, j)
    ensures devices[j].serial in Queue(devices, target, shared)
  {
    var before, serial := Queue(devices[..j], target, shared), devices[j].serial;
    assert devices[j] in devices;
    if InJoined(before, serial) {
      var k := InJoinedPart(before, serial);
      QueueExact(devices[..j], target, shared, before[k]);
      assert false;
    }
    assert QueuedBy(devices, target, shared, serial, j);
    QueueExact(devices, target, shared, serial);
  }

  lemma {:induction false} FirstOf(devices: seq<Device>, target: string, shared: seq<string>, m: nat) returns (j: nat)
    requires m < |devices| && Eligible(target, shared, devices[m])
    ensures j <= m && FirstEligible(devices, target, shared, j) && devices[j].serial == devices[m].serial
    decreases m
  {
    if i: nat :| i < m && Eligible(target, shared, devices[i]) && devices[i].serial == devices[m].serial {
      j := FirstOf(devices, target, shared, i);
    } else {
      j := m;
    }
  }

  /**
   * Every eligible disk is zeroed if and only if each has its link and no eligible serial is part of
   * the serial of an eligible device scanned before.
   */
  lemma AllEligibleZeroedIff(devices: seq<Device>, target: string, shared: seq<string>)
    requires PlainSerials(devices)
    ensures (forall d | d in devices && Eligible(target, shared, d) :: Zeroed(Queue(devices, target, shared), d)) <==>
            Linked(devices, target, shared) && Uncovered(devices, target, shared)
  {
    var queue := Queue(devices, target, shared);
    if forall d | d in devices && Eligible(target, shared, d) :: Zeroed(queue, d) {
      forall i, j | 0 <= i < j < |devices| && Eligible(target, shared, devices[i])
                    && FirstEligible(devices, target, shared, j)
        ensures !Contains(Lower(devices[i].serial), Lower(devices[j].serial))
      {
        assert devices[j] in devices;
        if Contains(Lower(devices[i].serial), Lower(devices[j].serial)) {
          CoveredNotQueued(devices, target, shared, i, j);
          assert false;
        }
      }
    }
    if Linked(devices, target, shared) && Uncovered(devices, target, shared) {
      forall d | d in devices && Eligible(target, shared, d)
        ensures Zeroed(queue, d)
      {
        var m :| 0 <= m < |devices| && devices[m] == d;
        var j := FirstOf(devices, target, shared, m);
        UncoveredQueued(devices, target, shared, j);
      }
    }
  }

  lemma ZeroedIsEligible(devices: seq<Device>, target: string, shared: seq<string>, d: Device)
    requires PathsAgree(devices) && d in devices && Zeroed(Queue(devices, target, shared), d)
    ensures Eligible(target, shared, d)
  {
    QueueExact(devices, target, shared, d.serial);
    var i: nat :| QueuedBy(devices, target, shared, d.serial, i);
    assert devices[i] in devices;
    assert devices[i].bus == d.bus && devices[i].serialShort == d.serialShort;
  }

  /** The zeroed disks are exactly the eligible ones under the same condition. */
  lemma ZeroedIffEligible(devices: seq<Device>, target: string, shared: seq<string>)
    requires PathsAgree(devices) && PlainSerials(devices)
    ensures (forall d | d in devices :: Zeroed(Queue(devices, target, shared), d) <==> Eligible(target, shared, d)) <==>
            Linked(devices, target, shared) && Uncovered(devices, target, shared)
  {
    AllEligibleZeroedIff(devices, target, shared);
    forall d | d in devices && Zeroed(Queue(devices, target, shared), d)
      ensures Eligible(target, shared, d)
    {
      ZeroedIsEligible(devices, target, shared, d);
    }
  }

  /** The words that the template adds to the bash array; an empty one adds nothing. */
  function Words(shared: Uuids): (words: seq<string>)
    ensures forall w :: w in words <==> Some(w) in shared && w != ""
  {
    if shared == [] then []
    else if shared[0].None? || shared[0].value == "" then Words(shared[1..])
    else [shared[0].value] + Words(shared[1..])
  }

  /**
   * The UUIDs that node `i` must keep, in terms of the deployment: those of its own disks that another
   * disk of the deployment has too, of its shared disks on reinstallation, and of fencing disks.
   */
  ghost predicate MustKeep(nodes: seq<Node>, i: nat, u: Option<string>)
    requires i < |nodes|
  {
    || ((exists k :: Holds(nodes, i, k, u)) && HeldTwice(nodes, u))
    || (nodes[i].osReinstall && exists d | d in nodes[i].disks :: d.uuid == u && !d.bootable && d.shared)
    || (exists c | c in nodes[i].clusters :: c.isVcs && u in c.fencingUuids)
  }

  /** What the code shields on the strength of its counts is what the deployment asks for. */
  lemma ShieldExact(nodes: seq<Node>, i: nat, u: Option<string>)
    requires i < |nodes|
    ensures MustShield(nodes[i], AllDiskUuids(nodes), u) <==> MustKeep(nodes, i, u)
  {
    CountedIffHeldTwice(nodes, u);
    OwnExact(nodes, i, u);
    ShieldParts(nodes[i], AllDiskUuids(nodes), u);
  }

  lemma ShieldParts(node: Node, all: Uuids, u: Option<string>)
    ensures MustShield(node, all, u) <==>
            ((exists d | d in node.disks :: d.uuid == u) && Count(all, u) > 1)
            || (node.osReinstall && exists d | d in node.disks :: d.uuid == u && !d.bootable && d.shared)
            || (exists c | c in node.clusters :: c.isVcs && u in c.fencingUuids)
  {
    if (exists d | d in node.disks :: d.uuid == u) && Count(all, u) > 1 {
      var d :| d in node.disks && d.uuid == u;
      assert d.uuid == u && Count(all, u) > 1;
    }
  }

  lemma OwnExact(nodes: seq<Node>, i: nat, u: Option<string>)
    requires i < |nodes|
    ensures (exists d | d in nodes[i].disks :: d.uuid == u) <==> exists k :: Holds(nodes, i, k, u)
  {
    if k: nat :| Holds(nodes, i, k, u) {
      assert nodes[i].disks[k] in nodes[i].disks;
    }
    if d :| d in nodes[i].disks && d.uuid == u {
      var k: nat :| k < |nodes[i].disks| && nodes[i].disks[k] == d;
      assert Holds(nodes, i, k, u);
    }
  }

  /** `shared` is what `SharedUuids` computes for node `i` of the deployment. */
  ghost predicate SharedOf(nodes: seq<Node>, i: nat, shared: Uuids) {
    i < |nodes| && forall u :: u in shared <==> MustShield(nodes[i], AllDiskUuids(nodes), u)
  }

  lemma WordsExact(nodes: seq<Node>, i: nat, shared: Uuids, w: string)
    requires SharedOf(nodes, i, shared)
    ensures w in Words(shared) <==> w != "" && MustKeep(nodes, i, Some(w))
  {
    ShieldExact(nodes, i, Some(w));
  }

  lemma KeptIsNotZeroed(nodes: seq<Node>, i: nat, shared: Uuids, devices: seq<Device>, target: string, d: Device,
                        u: string)
    requires SharedOf(nodes, i, shared) && PathsAgree(devices) && d in devices
    requires Zeroed(Queue(devices, target, Words(shared)), d)
    requires u != "" && MustKeep(nodes, i, Some(u))
    ensures !Names(u, d)
  {
    ZeroedIsEligible(devices, target, Words(shared), d);
    WordsExact(nodes, i, shared, u);
  }

  /** The UUID is the disk's serial or its short serial, in any case. */
  predicate Denotes(u: string, d: Device) {
    Lower(d.serial) == Lower(u) || Lower(d.serialShort) == Lower(u)
  }

  /**
   * A disk zeroed on node `i` does not look like its boot target in any case, and is not denoted by the UUID
   * of a disk of `i` that another node has too, of a shared disk on reinstallation, or of a fencing disk.
   */
  lemma WipeSafety(nodes: seq<Node>, i: nat, shared: Uuids, devices: seq<Device>, target: string, d: Device)
    requires SharedOf(nodes, i, shared) && PathsAgree(devices) && d in devices
    requires Zeroed(Queue(devices, target, Words(shared)), d)
    ensures Lower(d.serial) != Lower(target) && Lower(d.serialShort) != Lower(target)
    ensures Lower(d.bus + "_" + d.serial) != Lower(target)
    ensures forall u, k, j, l | Holds(nodes, i, k, Some(u)) && Holds(nodes, j, l, Some(u)) && j != i && u != "" ::
              !Denotes(u, d)
    ensures nodes[i].osReinstall ==>
      forall e, u | e in nodes[i].disks && !e.bootable && e.shared && e.uuid == Some(u) && u != "" :: !Denotes(u, d)
    ensures forall c, u | c in nodes[i].clusters && c.isVcs && Some(u) in c.fencingUuids && u != "" :: !Denotes(u, d)
  {
    ZeroedIsEligible(devices, target, Words(shared), d);
    forall u | u != "" && MustKeep(nodes, i, Some(u))
      ensures !Denotes(u, d)
    {
      KeptIsNotZeroed(nodes, i, shared, devices, target, d, u);
    }
    forall u, k, j, l | Holds(nodes, i, k, Some(u)) && Holds(nodes, j, l, Some(u)) && j != i && u != ""
      ensures !Denotes(u, d)
    {
      assert HeldTwice(nodes, Some(u));
      assert MustKeep(nodes, i, Some(u));
    }
  }

  // ---------- exactly when the shield holds ----------

  /** Whatever the node's devices and target are, no device that `u` names is zeroed. */
  ghost predicate NeverZeroed(shared: seq<string>, u: string) {
    forall devices, target, d | PathsAgree(devices) && d in devices && Names(u, d) ::
      !Zeroed(Queue(devices, target, shared), d)
  }

  /** A disk that carries `u` as its serial. */
  function DiskOf(u: string): Device {
    Device("sda", true, u, "scsi", u, true)
  }

  lemma SingleDeviceZeroed(d: Device, target: string, shared: seq<string>)
    requires Eligible(target, shared, d) && d.serial != "" && d.scsiLink
    ensures Zeroed(Queue([d], target, shared), d)
  {
    assert [d][..0] == [];
    assert Queue([], target, shared) == [];
    assert Lower(Join([], " ")) == "";
    assert |Lower(d.serial)| > 0;
    assert !InJoined([], d.serial);
  }

  lemma UnshieldedIsZeroed(shared: seq<string>, u: string)
    requires u != "" && forall w | w in shared :: !Same(w, u)
    ensures !NeverZeroed(shared, u)
  {
    var d, target := DiskOf(u), u + "x";
    assert |Lower(target)| == |u| + 1 && |Lower(d.serial)| == |u| && |Lower("scsi" + "_" + u)| == |u| + 5;
    assert !IsTarget(target, d) && Eligible(target, shared, d);
    SingleDeviceZeroed(d, target, shared);
    assert PathsAgree([d]) && d in [d] && Names(u, d);
  }

  /**
   * The disk of a UUID is safe on node `i` if and only if the node must keep some spelling of the UUID. In
   * particular a disk that two nodes share is safe if and only if a spelling that `i` itself uses is used
   * again, letter for letter, or the disk is kept for another reason.
   */
  lemma SafeIffSpellingKept(nodes: seq<Node>, i: nat, shared: Uuids, u: string)
    requires SharedOf(nodes, i, shared) && u != ""
    ensures NeverZeroed(Words(shared), u) <==> exists v :: Same(v, u) && MustKeep(nodes, i, Some(v))
  {
    if v :| Same(v, u) && MustKeep(nodes, i, Some(v)) {
      assert |Lower(v)| == |Lower(u)|;
      forall devices, target, d | PathsAgree(devices) && d in devices && Names(u, d)
        ensures !Zeroed(Queue(devices, target, Words(shared)), d)
      {
        if Zeroed(Queue(devices, target, Words(shared)), d) {
          KeptIsNotZeroed(nodes, i, shared, devices, target, d, v);
        }
      }
    } else {
      forall w | w in Words(shared)
        ensures !Same(w, u)
      {
        WordsExact(nodes, i, shared, w);
      }
      UnshieldedIsZeroed(Words(shared), u);
    }
  }

  function PlainDisk(uuid: string): Disk {
    Disk("disk", "sda", Some(uuid), "10G", false, true)
  }

  function PlainNode(uuid: string): Node {
    Node("node", [PlainDisk(uuid)], false, [], [], None)
  }

  /** The first node spells a disk unlike all the others that share it: it is not safe there. */
  lemma SpellingHole(nodes: seq<Node>, shared: Uuids)
    requires SharedOf(nodes, 0, shared) && nodes[0] == PlainNode("AB")
    requires forall j | 1 <= j < |nodes| :: nodes[j] == PlainNode("ab")
    ensures !NeverZeroed(Words(shared), "ab")
  {
    assert "AB"[0] != "ab"[0];
    forall v: string
      ensures !MustKeep(nodes, 0, Some(v))
    {
      if n: nat, k: nat, m: nat, l: nat :|
        Holds(nodes, n, k, Some(v)) && Holds(nodes, m, l, Some(v)) && (n != m || k != l)
      {
        assert n == 0 || nodes[n] == PlainNode("ab");
        assert m == 0 || nodes[m] == PlainNode("ab");
        assert v == "ab";
      }
    }
    SafeIffSpellingKept(nodes, 0, shared, "ab");
  }

  // ---------- the bus_serial form ----------

  /**
   * The target may be given as bus_serial, so one would expect a shielded UUID in that form to shield its
   * disk. It does if and only if the disk is the target or a shielded UUID names it in another form.
   */
  lemma BusFormExact(devices: seq<Device>, target: string, shared: seq<string>)
    requires PathsAgree(devices) && PlainSerials(devices)
    requires Linked(devices, target, shared) && Uncovered(devices, target, shared)
    ensures (forall d | d in devices && d.isDisk && MeantBy(shared, d) ::
              !Zeroed(Queue(devices, target, shared), d)) <==>
            (forall d | d in devices && d.isDisk && MeantAsBus(shared, d) ::
              IsTarget(target, d) || exists v | v in shared :: Names(v, d))
  {
    var queue := Queue(devices, target, shared);
    ZeroedIffEligible(devices, target, shared);
    forall d | d in devices && d.isDisk
      ensures MeantBy(shared, d) <==> MeantAsBus(shared, d) || exists v | v in shared :: Names(v, d)
      ensures Zeroed(queue, d) <==> !IsTarget(target, d) && !exists v | v in shared :: Names(v, d)
    {
      MeantExact(shared, d);
    }
  }

  /** A shielded UUID denotes the disk in one of the forms in which the target may be given. */
  ghost predicate MeantBy(shared: seq<string>, d: Device) {
    exists w | w in shared :: IsTarget(w, d)
  }

  ghost predicate MeantAsBus(shared: seq<string>, d: Device) {
    exists w | w in shared :: Same(w, d.bus + "_" + d.serial)
  }

  lemma MeantExact(shared: seq<string>, d: Device)
    ensures MeantBy(shared, d) <==> MeantAsBus(shared, d) || exists v | v in shared :: Names(v, d)
  {
  }

  lemma OnlyWord(u: string, shared: Uuids)
    requires u != "" && SharedOf([PlainNode(u), PlainNode(u)], 0, shared)
    ensures forall w :: w in Words(shared) <==> w == u
  {
    var nodes := [PlainNode(u), PlainNode(u)];
    assert Holds(nodes, 0, 0, Some(u)) && Holds(nodes, 1, 0, Some(u));
    forall w
      ensures w in Words(shared) <==> w == u
    {
      WordsExact(nodes, 0, shared, w);
    }
  }

  lemma BusFormNames()
    ensures var d := Device("sda", true, "3600", "scsi", "600", true);
      IsTarget("scsi_3600", d) && !Names("scsi_3600", d) && !IsTarget("boot", d)
  {
    assert "scsi" + "_" + "3600" == "scsi_3600";
    assert |Lower("scsi_3600")| == 9 && |Lower("boot")| == 4 && |Lower("3600")| == 4 && |Lower("600")| == 3;
    assert Lower("boot")[0] == 'b' && Lower("3600")[0] == '3';
  }

  /** Two nodes with one disk, given as bus_serial: the UUID is shielded and the disk zeroed. */
  lemma BusFormHole(shared: Uuids)
    requires SharedOf([PlainNode("scsi_3600"), PlainNode("scsi_3600")], 0, shared)
    ensures var d := Device("sda", true, "3600", "scsi", "600", true);
      && "scsi_3600" in Words(shared) && IsTarget("scsi_3600", d)
      && Zeroed(Queue([d], "boot", Words(shared)), d)
  {
    OnlyWord("scsi_3600", shared);
    BusFormNames();
    SingleDeviceZeroed(Device("sda", true, "3600", "scsi", "600", true), "boot", Words(shared));
  }

  /** A serial that is part of a queued one is never zeroed, though its disk is eligible. */
  lemma SubstringHole()
    ensures var d, e := Device("sda", true, "36001", "scsi", "x", true), Device("sdb", true, "600", "scsi", "y", true);
      Eligible("boot", [], e) && !Zeroed(Queue([d, e], "boot", []), e)
  {
    var d, e := Device("sda", true, "36001", "scsi", "x", true), Device("sdb", true, "600", "scsi", "y", true);
    assert |Lower(d.serial)| == 5 && |Lower(e.serial)| == 3 && |Lower("boot")| == 4;
    assert |Lower(d.bus + "_" + d.serial)| == 10 && |Lower(e.bus + "_" + e.serial)| == 8;
    assert |Lower("x")| == 1 && |Lower("y")| == 1;
    assert Lower("36001")[1..4] == Lower("600");
    assert OccursAt(Lower("36001"), Lower("600"), 1);
    assert FirstEligible([d, e], "boot", [], 1);
    CoveredNotQueued([d, e], "boot", [], 0, 1);
  }
}
