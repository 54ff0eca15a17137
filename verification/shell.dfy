/**
 * The shell language of the partition snippets: its commands, and what bash does with them.
 * Looking a disk up on the node is an oracle, `Host`.
 */
module Shell {
  import opened Strings
  import opened Wrappers

  /** The three kinds of link under /dev/disk/by-id that the snippet tries, in its order. */
  datatype Link = Mpath | Cciss | Scsi

  /**
   * `ls` and `find` give what the commands of that name print for a UUID ("" when nothing is there),
   * `lsName` what `ls /dev/<name>` prints, `partLinks` the multipath partitions of a UUID.
   */
  datatype Host = Host(ls: (Link, string) -> string, find: (Link, string) -> string,
                       lsName: string -> string, partLinks: string -> seq<string>,
                       isBlock: string -> bool, sectors: string -> nat)

  datatype Cmd =
    | ListItem(link: Link, uuid: string)
    | ListItemIfEmpty(link: Link, uuid: string)
    | StoreItem(key: string)
    | RequireBlock(key: string, uuid: string)
    | StoreNamed(key: string, name: string)
    | FindParts(uuid: string)
    | FindDrive(link: Link, uuid: string)
    | FindDriveIfUnset(link: Link, uuid: string)
    | FindDriveIfEmpty(link: Link, uuid: string)
    | SetDrive(name: string)
    | AppendDrive
    | RemoveVgs(only: Option<string>)
    | WipeDisks(tableType: string)
    | EchoClearpart(initlabel: bool)
    | EchoIgnoredisk
    | EchoZerombr
    | EchoPart(what: string, fsType: string, size: Option<int>, grow: bool, key: string)
    | EchoSizedPart(key: string)
    | EchoVolgroup(vg: string, ids: seq<string>)
    | EchoLogvol(mount: string, fsType: string, name: string, vg: string, megabytes: Option<int>, grow: bool)

  /** A line of /tmp/partitioninfo; a size that is None is written as the word None. */
  datatype Line =
    | Clearpart(initlabel: bool, drives: string)
    | Ignoredisk(drives: string)
    | Zerombr
    | Part(what: string, fsType: string, size: Option<int>, grow: bool, disk: string)
    | Volgroup(vg: string, ids: seq<string>)
    | Logvol(mount: string, fsType: string, name: string, vg: string, megabytes: Option<int>, grow: bool)

  /**
   * The variables of the snippet, the disks it wiped, the lines it wrote, and the keys of
   * `disk_list` it read while they were unassigned; `groups` are the volume groups it removed, None
   * for all of them, and `table` the partition table that wiped disks were given.
   */
  datatype State = State(item: string, list: map<string, string>, drive: string, clearDevs: string,
                         parts: string, wiped: seq<string>, info: seq<Line>, unset: seq<string>, exited: bool,
                         groups: seq<Option<string>>, table: string)

  const INITIAL := State("", map[], "", "", "", [], [], [], false, [], "")

  const BY_ID: string := "disk/by-id/"

  predicate DriveUnset(drive: string) {
    drive == "" || drive == BY_ID
  }

  /** What `find -printf "disk/by-id/%f,"` prints for the given links. */
  function PartText(links: seq<string>): string {
    if links == [] then "" else BY_ID + links[0] + "," + PartText(links[1..])
  }

  /** `${v/#,/}` */
  function StripComma(s: string): string {
    if s != "" && s[0] == ',' then s[1..] else s
  }

  /** `IFS=',' read -a` followed by an unquoted expansion: the nonempty fields. */
  function WipeList(clearDevs: string, parts: string): seq<string> {
    NonEmpty(Split(if |parts| > 2 then clearDevs + "," + parts else clearDevs, ','))
  }

  /** bash computes in 64-bit two's complement. */
  function Wrap64(n: nat): int {
    var m := n % 0x1_0000_0000_0000_0000;
    if m < 0x8000_0000_0000_0000 then m else m - 0x1_0000_0000_0000_0000
  }

  /** `(( 512 * dev_size / 1024**4 )) -ge 2`, dividing towards zero. */
  predicate AtLeastTwoTera(sectors: nat) {
    Wrap64(512 * sectors) >= 0 && Wrap64(512 * sectors) / 0x100_0000_0000 >= 2
  }

  function Lookup(st: State, key: string): string {
    if key in st.list then st.list[key] else ""
  }

  /** Reading `disk_list[key]` while writing a line. */
  function Emit(st: State, key: string, line: Line): State {
    st.(info := st.info + [line], unset := if key in st.list then st.unset else st.unset + [key])
  }

  function Step(h: Host, st: State, c: Cmd): State {
    match c
    case ListItem(link, uuid) => st.(item := h.ls(link, uuid))
    case ListItemIfEmpty(link, uuid) => if st.item == "" then st.(item := h.ls(link, uuid)) else st
    case StoreItem(key) => st.(list := st.list[key := st.item])
    case RequireBlock(key, uuid) => if h.isBlock(Lookup(st, key)) then st else st.(exited := true)
    case StoreNamed(key, name) => st.(list := st.list[key := h.lsName(name)])
    case FindParts(uuid) => st.(parts := PartText(h.partLinks(uuid)))
    case FindDrive(link, uuid) => st.(drive := h.find(link, uuid))
    case FindDriveIfUnset(link, uuid) => if DriveUnset(st.drive) then st.(drive := h.find(link, uuid)) else st
    case FindDriveIfEmpty(link, uuid) => if st.drive == "" then st.(drive := h.find(link, uuid)) else st
    case SetDrive(name) => st.(drive := name)
    case AppendDrive => st.(clearDevs := st.clearDevs + "," + st.drive)
    case RemoveVgs(only) => st.(groups := st.groups + [only])
    case WipeDisks(tableType) => st.(wiped := st.wiped + WipeList(st.clearDevs, st.parts), table := tableType)
    case EchoClearpart(initlabel) => st.(info := [Clearpart(initlabel, StripComma(st.clearDevs))])
    case EchoIgnoredisk => st.(info := st.info + [Ignoredisk(StripComma(st.clearDevs))])
    case EchoZerombr => st.(info := st.info + [Zerombr])
    case EchoPart(what, fsType, size, grow, key) =>
      Emit(st, key, Part(what, fsType, size, grow, Lookup(st, key)))
    case EchoSizedPart(key) =>
      if AtLeastTwoTera(h.sectors(st.drive))
      then Emit(st, key, Part("biosboot", "biosboot", Some(1), false, Lookup(st, key)))
      else Emit(st, key, Part("extra", "ext4", Some(1), false, Lookup(st, key)))
    case EchoVolgroup(vg, ids) => st.(info := st.info + [Volgroup(vg, ids)])
    case EchoLogvol(mount, fsType, name, vg, size, grow) =>
      st.(info := st.info + [Logvol(mount, fsType, name, vg, size, grow)])
  }

  /** Running a snippet; `exit 1` ends it. */
  function Run(h: Host, cmds: seq<Cmd>, st: State): State {
    if cmds == [] || st.exited then st else Run(h, cmds[1..], Step(h, st, cmds[0]))
  }

  lemma {:induction false} RunAppend(h: Host, a: seq<Cmd>, b: seq<Cmd>, st: State)
    ensures Run(h, a + b, st) == Run(h, b, Run(h, a, st))
  {
    if a == [] {
      assert a + b == b;
    } else if !st.exited {
      assert (a + b)[1..] == a[1..] + b;
      RunAppend(h, a[1..], b, Step(h, st, a[0]));
    }
  }

  lemma RunOne(h: Host, c: Cmd, st: State)
    ensures Run(h, [c], st) == if st.exited then st else Step(h, st, c)
  {
    assert [c][1..] == [];
  }

  lemma RunThree(h: Host, a: Cmd, b: Cmd, c: Cmd, st: State)
    requires !st.exited && !Step(h, st, a).exited && !Step(h, Step(h, st, a), b).exited
    ensures Run(h, [a, b, c], st) == Step(h, Step(h, Step(h, st, a), b), c)
  {
    assert [a, b, c] == [a] + ([b] + [c]);
    RunAppend(h, [a], [b] + [c], st);
    RunOne(h, a, st);
    RunAppend(h, [b], [c], Step(h, st, a));
    RunOne(h, b, Step(h, st, a));
    RunOne(h, c, Step(h, Step(h, st, a), b));
  }

  // ---------- the comma lists ----------

  /** What repeated `v=${v},${x}` builds. */
  function CommaEach(xs: seq<string>): string {
    if xs == [] then "" else "," + xs[0] + CommaEach(xs[1..])
  }

  lemma {:induction false} CommaEachSnoc(xs: seq<string>, x: string)
    ensures CommaEach(xs + [x]) == CommaEach(xs) + "," + x
  {
    if xs == [] {
      assert xs + [x] == [x] && [x][1..] == [];
    } else {
      assert (xs + [x])[1..] == xs[1..] + [x];
      CommaEachSnoc(xs[1..], x);
    }
  }

  /** Appending `,dev` each time and stripping the first comma is a join. */
  lemma {:induction false} StripCommaIsJoin(xs: seq<string>)
    ensures StripComma(CommaEach(xs)) == Join(xs, ",")
  {
    if |xs| == 1 {
      assert CommaEach(xs) == "," + xs[0];
    } else if |xs| > 1 {
      StripCommaIsJoin(xs[1..]);
      assert CommaEach(xs[1..])[0] == ',';
      assert CommaEach(xs[1..]) == "," + StripComma(CommaEach(xs[1..]));
      assert CommaEach(xs)[1..] == xs[0] + CommaEach(xs[1..]);
    }
  }

  lemma LeadingComma(t: string)
    ensures Split("," + t, ',') == [""] + Split(t, ',')
  {
    SplitFirst("", ',', t);
    assert "" + [','] + t == "," + t;
  }

  /** What follows the first comma of `CommaEach(xs) + "," + tail`. */
  function AfterComma(xs: seq<string>, tail: string): string {
    if xs == [] then tail else xs[0] + "," + AfterComma(xs[1..], tail)
  }

  lemma {:induction false} CommaEachAfter(xs: seq<string>, tail: string)
    ensures CommaEach(xs) + "," + tail == "," + AfterComma(xs, tail)
  {
    if xs != [] {
      CommaEachAfter(xs[1..], tail);
      assert CommaEach(xs) + "," + tail == "," + xs[0] + (CommaEach(xs[1..]) + "," + tail);
    }
  }

  lemma PrependAppend(x: string, xs: seq<string>, ys: seq<string>)
    ensures [x] + (xs + ys) == [x] + xs + ys
  {
  }

  lemma {:induction false} SplitAfterComma(xs: seq<string>, tail: string)
    requires forall x | x in xs :: ',' !in x
    ensures Split(AfterComma(xs, tail), ',') == xs + Split(tail, ',')
  {
    if xs == [] {
      assert xs + Split(tail, ',') == Split(tail, ',');
    } else {
      var x, rest := xs[0], xs[1..];
      assert x in xs && forall y | y in rest :: y in xs;
      SplitAfterComma(rest, tail);
      SplitFirst(x, ',', AfterComma(rest, tail));
      assert AfterComma(xs, tail) == x + [','] + AfterComma(rest, tail);
      PrependAppend(x, rest, Split(tail, ','));
      assert [x] + rest == xs;
    }
  }

  lemma SplitCommaEach(xs: seq<string>, tail: string)
    requires forall x | x in xs :: ',' !in x
    ensures Split(CommaEach(xs) + "," + tail, ',') == [""] + (xs + Split(tail, ','))
  {
    CommaEachAfter(xs, tail);
    LeadingComma(AfterComma(xs, tail));
    SplitAfterComma(xs, tail);
  }

  function PartPaths(links: seq<string>): seq<string> {
    if links == [] then [] else ["disk/by-id/" + links[0]] + PartPaths(links[1..])
  }

  lemma {:induction false} SplitPartText(links: seq<string>)
    requires forall l | l in links :: ',' !in l
    ensures Split(PartText(links), ',') == PartPaths(links) + [""]
    ensures NonEmpty(PartPaths(links)) == PartPaths(links)
    ensures |PartText(links)| > 2 <==> links != []
  {
    if links != [] {
      SplitPartText(links[1..]);
      assert links[0] in links;
      SplitFirst(BY_ID + links[0], ',', PartText(links[1..]));
      assert PartText(links) == (BY_ID + links[0]) + [','] + PartText(links[1..]);
    }
  }

  /** The wiped disks: the listed drives that have a device, in order, then the partitions. */
  lemma WipeListExact(drives: seq<string>, links: seq<string>)
    requires forall x | x in drives :: ',' !in x
    requires forall l | l in links :: ',' !in l
    ensures WipeList(CommaEach(drives), PartText(links)) == NonEmpty(drives) + PartPaths(links)
  {
    SplitPartText(links);
    if links != [] {
      SplitCommaEach(drives, PartText(links));
      NonEmptyAppend([""], drives + (PartPaths(links) + [""]));
      NonEmptyAppend(drives, PartPaths(links) + [""]);
      NonEmptyAppend(PartPaths(links), [""]);
      assert NonEmpty([""]) == [];
    } else if drives != [] {
      StripCommaIsJoin(drives);
      assert CommaEach(drives)[0] == ',';
      assert CommaEach(drives) == "" + [','] + Join(drives, ",");
      SplitFirst("", ',', Join(drives, ","));
      SplitJoin(drives, ',');
      NonEmptyAppend([""], drives);
      assert NonEmpty([""]) == [];
      assert NonEmpty(drives) + PartPaths(links) == NonEmpty(drives);
    } else {
      assert Split("", ',') == [""];
      assert NonEmpty([""]) == [];
    }
  }

  /**
   * The size test over all sizes: bash sees the bytes modulo 2^64, and from 2^63 on as negative. So it is
   * the promised test for every disk below 8 EiB, which is more than a block device can have.
   */
  lemma TwoTeraExact(sectors: nat)
    ensures AtLeastTwoTera(sectors) <==>
            2 * 0x100_0000_0000 <= 512 * sectors % 0x1_0000_0000_0000_0000 < 0x8000_0000_0000_0000
    ensures sectors < 0x40_0000_0000_0000 ==>
            (AtLeastTwoTera(sectors) <==> 512 * sectors >= 2 * 0x100_0000_0000)
  {
    if sectors < 0x40_0000_0000_0000 {
      assert Wrap64(512 * sectors) == 512 * sectors;
    }
  }
}
