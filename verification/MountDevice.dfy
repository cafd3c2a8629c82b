/** `mountDevice` and `unmountDevice`'s effect on disks (cmd/flexplugin/main.go) together with
    `HasFSOnVolumeDevice` (pkg/utils/volume_utils.go): when does the driver format a device? */
module MountDevice {
  import opened Text

  const FSTYPES: seq<string> := ["ext2", "ext3", "ext4", "jfs", "ReiserFS", "XFS", "Btrfs"]

  /** What is on a block device. Formatting loses the contents. */
  datatype Disk = Disk(fsType: string, corrupt: bool, contents: string)

  datatype Command =
    | Mkfs(tool: string, device: string, force: bool)
    | Mkdir(path: string)
    | Mount(device: string, path: string, readOnly: bool)
    | Umount(path: string)

  /** A node: its disks by device path, and the commands that it was told to run. */
  datatype Node = Node(disks: map<string, Disk>, log: seq<Command>)

  datatype Request = Request(
    mountPath: string, devicePath: string, fsType: string, readWrite: string, actualReadWrite: string)

  /** How a run of mkfs ends: with an empty file system, or with an error and whatever is left. */
  datatype MkfsAnswer = Made | Botched(left: Disk)

  datatype MountAnswer = Mounted | Refused(output: string, error: string)

  /** The answers of the commands of one call; lsblk is None when it fails. */
  datatype Answers = Answers(
    lsblk: Option<string>, mkfs: MkfsAnswer, mkdir: bool, mount: MountAnswer, remkfs: MkfsAnswer)

  // ----- HasFSOnVolumeDevice

  predicate Names(output: string, fsType: string) {
    Contains(ToLower(TrimSpace(output)), ToLower(fsType))
  }

  /** The output of lsblk names a file system of the list. */
  predicate IsRecognised(output: string) {
    exists k | 0 <= k < |FSTYPES| :: Names(output, FSTYPES[k])
  }

  predicate HasFS(lsblk: Option<string>) {
    lsblk.Some? && IsRecognised(lsblk.value)
  }

  /** The text names one of the Linux file systems, whatever the case of its letters. */
  ghost predicate NamesLinuxFileSystem(output: string) {
    var o := ToLower(TrimSpace(output));
    || Contains(o, "ext2") || Contains(o, "ext3") || Contains(o, "ext4") || Contains(o, "jfs")
    || Contains(o, "reiserfs") || Contains(o, "xfs") || Contains(o, "btrfs")
  }

  lemma LowerCaseOf(s: string, t: string)
    requires |s| == |t| && forall i :: 0 <= i < |s| ==> LowerChar(s[i]) == t[i]
    ensures ToLower(s) == t
  {
  }

  lemma ExtTypesInLowerCase()
    ensures |FSTYPES| == 7
    ensures ToLower(FSTYPES[0]) == "ext2" && ToLower(FSTYPES[1]) == "ext3" && ToLower(FSTYPES[2]) == "ext4"
  {
    hide ToLower;
    LowerCaseOf(FSTYPES[0], "ext2");
    LowerCaseOf(FSTYPES[1], "ext3");
    LowerCaseOf(FSTYPES[2], "ext4");
  }

  lemma OtherTypesInLowerCase()
    ensures |FSTYPES| == 7
    ensures ToLower(FSTYPES[3]) == "jfs" && ToLower(FSTYPES[4]) == "reiserfs" && ToLower(FSTYPES[5]) == "xfs"
    ensures ToLower(FSTYPES[6]) == "btrfs"
  {
    hide ToLower;
    LowerCaseOf(FSTYPES[3], "jfs");
    LowerCaseOf(FSTYPES[4], "reiserfs");
    LowerCaseOf(FSTYPES[5], "xfs");
    LowerCaseOf(FSTYPES[6], "btrfs");
  }

  /** The list of the source is the list of these seven. */
  lemma RecognisedExactly(output: string)
    ensures IsRecognised(output) <==> NamesLinuxFileSystem(output)
  {
    ExtTypesInLowerCase();
    OtherTypesInLowerCase();
    hide ToLower, TrimSpace, Contains;
    forall k | 0 <= k < |FSTYPES| ensures Names(output, FSTYPES[k]) <==> Contains(ToLower(TrimSpace(output)), ToLower(FSTYPES[k])) {
    }
    var n := |FSTYPES|;
    assert IsRecognised(output) <==>
           || Names(output, FSTYPES[0]) || Names(output, FSTYPES[1]) || Names(output, FSTYPES[2]) || Names(output, FSTYPES[3])
           || Names(output, FSTYPES[4]) || Names(output, FSTYPES[5]) || Names(output, FSTYPES[6]);
  }

  /** The loop of the source. Its error result is dropped by the caller. */
  method HasFSOnVolumeDevice(lsblk: Option<string>) returns (found: bool, err: bool)
    ensures found == HasFS(lsblk)
    ensures found <==> lsblk.Some? && NamesLinuxFileSystem(lsblk.value)
    ensures err == lsblk.None?
  {
    if lsblk.Some? {
      RecognisedExactly(lsblk.value);
    }
    hide NamesLinuxFileSystem;
    if lsblk.None? {
      return false, true;
    }
    var output := TrimSpace(lsblk.value);
    if output != [] {
      output := ToLower(output);
      var k := 0;
      while k < |FSTYPES|
        invariant 0 <= k <= |FSTYPES|
        invariant forall i :: 0 <= i < k ==> !Names(lsblk.value, FSTYPES[i])
      {
        if Contains(output, ToLower(FSTYPES[k])) {
          assert Names(lsblk.value, FSTYPES[k]);
          return true, false;
        }
        k := k + 1;
      }
    } else {
      NothingNamesNothing(lsblk.value);
    }
    return false, false;
  }

  lemma NothingNamesNothing(output: string)
    requires TrimSpace(output) == []
    ensures !IsRecognised(output)
  {
    forall k | 0 <= k < |FSTYPES| ensures !Names(output, FSTYPES[k]) {
      assert |ToLower(FSTYPES[k])| > 0;
    }
  }

  // ----- mountDevice

  function MkfsCommand(fsType: string, device: string): Command {
    Mkfs("/sbin/mkfs." + fsType, device, "ext" <= fsType || "ntfs" <= fsType)
  }

  predicate IsBadSuperblock(answer: MountAnswer) {
    answer.Refused? && (Contains(answer.output, "bad superblock") || Contains(answer.error, "bad superblock"))
  }

  function Logged(n: Node, c: Command): Node {
    n.(log := n.log + [c])
  }

  /** mkfs runs on a device. */
  function Format(n: Node, fsType: string, device: string, answer: MkfsAnswer): Node {
    var disk := if answer.Made? then Disk(fsType, false, []) else answer.left;
    Logged(n.(disks := n.disks[device := disk]), MkfsCommand(fsType, device))
  }

  /** The type a fresh file system gets. */
  function FirstType(r: Request): string {
    if r.fsType == [] then "ext4" else r.fsType
  }

  function MountCommand(r: Request): Command {
    Mount(r.devicePath, r.mountPath, r.readWrite == "ro" || r.actualReadWrite == "ro")
  }

  datatype Outcome = Outcome(node: Node, ok: bool)

  /** Making the directory, mounting, and formatting again when mount blames the superblock. */
  function MountAndRepair(n: Node, r: Request, fsType: string, a: Answers): Outcome {
    var n1 := Logged(n, Mkdir(r.mountPath));
    if !a.mkdir then Outcome(n1, false)
    else
      var n2 := Logged(n1, MountCommand(r));
      if a.mount.Mounted? then Outcome(n2, true)
      else if !IsBadSuperblock(a.mount) then Outcome(n2, false)
      else Outcome(Format(n2, fsType, r.devicePath, a.remkfs), false)
  }

  /** One call of mountDevice. */
  function MountOutcome(n: Node, r: Request, a: Answers): Outcome {
    if HasFS(a.lsblk) then MountAndRepair(n, r, r.fsType, a)
    else
      var formatted := Format(n, FirstType(r), r.devicePath, a.mkfs);
      if a.mkfs.Botched? then Outcome(formatted, false)
      else MountAndRepair(formatted, r, FirstType(r), a)
  }

  // ----- the commands of a call, spelled out

  ghost predicate SeesFileSystem(a: Answers) {
    a.lsblk.Some? && NamesLinuxFileSystem(a.lsblk.value)
  }

  /** The type that mkfs is asked for: ext4 if none is requested, but in the repair of a device with a
      recognised file system the empty one. */
  ghost function TypeToMake(r: Request, a: Answers): string {
    if r.fsType == "" && !SeesFileSystem(a) then "ext4" else r.fsType
  }

  /** mkfs is forced exactly for the types that begin with ext or ntfs. */
  ghost function ExpectedMkfs(r: Request, a: Answers): Command {
    var t := TypeToMake(r, a);
    Mkfs("/sbin/mkfs." + t, r.devicePath, (|t| >= 3 && t[..3] == "ext") || (|t| >= 4 && t[..4] == "ntfs"))
  }

  ghost predicate BlamesSuperblock(answer: MountAnswer) {
    answer.Refused? && (Contains(answer.output, "bad superblock") || Contains(answer.error, "bad superblock"))
  }

  /** The second mkfs is run. */
  ghost predicate Repairs(a: Answers) {
    (SeesFileSystem(a) || a.mkfs.Made?) && a.mkdir && BlamesSuperblock(a.mount)
  }

  ghost function ExpectedCommands(r: Request, a: Answers): seq<Command> {
    var readOnly := r.readWrite == "ro" || r.actualReadWrite == "ro";
    (if SeesFileSystem(a) then [] else [ExpectedMkfs(r, a)])
    + (if SeesFileSystem(a) || a.mkfs.Made? then [Mkdir(r.mountPath)] else [])
    + (if (SeesFileSystem(a) || a.mkfs.Made?) && a.mkdir then [Mount(r.devicePath, r.mountPath, readOnly)] else [])
    + (if Repairs(a) then [ExpectedMkfs(r, a)] else [])
  }

  /** What mkfs leaves on the disk. */
  ghost function Result(fsType: string, answer: MkfsAnswer): Disk {
    match answer
    case Made => Disk(fsType, false, "")
    case Botched(left) => left
  }

  ghost function ExpectedDisks(disks: map<string, Disk>, r: Request, a: Answers): map<string, Disk> {
    if Repairs(a) then disks[r.devicePath := Result(TypeToMake(r, a), a.remkfs)]
    else if !SeesFileSystem(a) then disks[r.devicePath := Result(TypeToMake(r, a), a.mkfs)]
    else disks
  }

  lemma MkfsIsExpected(fsType: string, device: string)
    ensures MkfsCommand(fsType, device) ==
            Mkfs("/sbin/mkfs." + fsType, device,
                 (|fsType| >= 3 && fsType[..3] == "ext") || (|fsType| >= 4 && fsType[..4] == "ntfs"))
  {
  }

  /** The commands after the first mkfs. */
  ghost function ExpectedRest(r: Request, fsType: string, a: Answers): seq<Command> {
    var readOnly := r.readWrite == "ro" || r.actualReadWrite == "ro";
    [Mkdir(r.mountPath)] + (if a.mkdir then [Mount(r.devicePath, r.mountPath, readOnly)] else [])
    + (if a.mkdir && BlamesSuperblock(a.mount) then [MkfsCommand(fsType, r.devicePath)] else [])
  }

  lemma RestIsExpected(n: Node, r: Request, fsType: string, a: Answers)
    ensures var outcome := MountAndRepair(n, r, fsType, a);
            && outcome.node.log == n.log + ExpectedRest(r, fsType, a)
            && outcome.node.disks == (if a.mkdir && BlamesSuperblock(a.mount)
                                      then n.disks[r.devicePath := Result(fsType, a.remkfs)] else n.disks)
            && (outcome.ok <==> a.mkdir && a.mount.Mounted?)
  {
    hide Contains, MkfsCommand;
  }

  lemma CommandsByCase(r: Request, a: Answers)
    ensures var t := TypeToMake(r, a);
            && (SeesFileSystem(a) ==> ExpectedCommands(r, a) == ExpectedRest(r, t, a))
            && (!SeesFileSystem(a) && a.mkfs.Made? ==>
                  ExpectedCommands(r, a) == [MkfsCommand(t, r.devicePath)] + ExpectedRest(r, t, a))
            && (!SeesFileSystem(a) && a.mkfs.Botched? ==> ExpectedCommands(r, a) == [MkfsCommand(t, r.devicePath)])
  {
    MkfsIsExpected(TypeToMake(r, a), r.devicePath);
    assert ExpectedMkfs(r, a) == MkfsCommand(TypeToMake(r, a), r.devicePath);
    hide NamesLinuxFileSystem, BlamesSuperblock, MkfsCommand, ExpectedMkfs, TypeToMake, SeesFileSystem;
  }

  lemma SeenExactly(a: Answers)
    ensures SeesFileSystem(a) <==> HasFS(a.lsblk)
  {
    if a.lsblk.Some? {
      RecognisedExactly(a.lsblk.value);
    }
    hide IsRecognised, NamesLinuxFileSystem;
  }

  lemma CallIsExpected(n: Node, r: Request, a: Answers)
    ensures var outcome := MountOutcome(n, r, a);
            && outcome.node.log == n.log + ExpectedCommands(r, a)
            && outcome.node.disks == ExpectedDisks(n.disks, r, a)
            && (outcome.ok <==> (SeesFileSystem(a) || a.mkfs.Made?) && a.mkdir && a.mount.Mounted?)
  {
    SeenExactly(a);
    CommandsByCase(r, a);
    RestIsExpected(n, r, r.fsType, a);
    RestIsExpected(Format(n, FirstType(r), r.devicePath, a.mkfs), r, FirstType(r), a);
    hide HasFS, SeesFileSystem, BlamesSuperblock, MkfsCommand, MountAndRepair, ExpectedCommands, ExpectedRest;
    if HasFS(a.lsblk) {
    } else if a.mkfs.Made? {
      var t, rest := TypeToMake(r, a), ExpectedRest(r, TypeToMake(r, a), a);
      assert (n.log + [MkfsCommand(t, r.devicePath)]) + rest == n.log + ([MkfsCommand(t, r.devicePath)] + rest);
    }
  }

  /** The node on which the driver runs. */
  class Kubelet {
    var node: Node

    constructor (node: Node)
      ensures this.node == node
    {
      this.node := node;
    }

    method RunMkfs(fsType: string, device: string, answer: MkfsAnswer) returns (ok: bool)
      modifies this
      ensures node == Format(old(node), fsType, device, answer) && ok == answer.Made?
    {
      var force := "ext" <= fsType || "ntfs" <= fsType;
      node := node.(log := node.log + [Mkfs("/sbin/mkfs." + fsType, device, force)]);
      ok := answer.Made?;
      var disk := if ok then Disk(fsType, false, []) else answer.left;
      node := node.(disks := node.disks[device := disk]);
    }

    /** mountDevice, statement by statement: the commands it runs, what becomes of the disks, and when it
        succeeds. */
    method MountDevice(r: Request, a: Answers) returns (ok: bool)
      modifies this
      ensures Outcome(node, ok) == MountOutcome(old(node), r, a)
      ensures node.log == old(node).log + ExpectedCommands(r, a)
      ensures node.disks == ExpectedDisks(old(node).disks, r, a)
      ensures ok <==> (SeesFileSystem(a) || a.mkfs.Made?) && a.mkdir && a.mount.Mounted?
    {
      CallIsExpected(node, r, a);
      hide ExpectedCommands, ExpectedDisks, SeesFileSystem;
      var fsType := r.fsType;
      var hasFS, _ := HasFSOnVolumeDevice(a.lsblk);
      if !hasFS {
        if fsType == [] {
          fsType := "ext4";
        }
        var made := RunMkfs(fsType, r.devicePath, a.mkfs);
        if !made {
          return false;
        }
      }
      node := node.(log := node.log + [Mkdir(r.mountPath)]);
      if !a.mkdir {
        return false;
      }
      var readOnly := r.readWrite == "ro" || r.actualReadWrite == "ro";
      node := node.(log := node.log + [Mount(r.devicePath, r.mountPath, readOnly)]);
      if a.mount.Refused? {
        if Contains(a.mount.output, "bad superblock") || Contains(a.mount.error, "bad superblock") {
          var _ := RunMkfs(fsType, r.devicePath, a.remkfs);
        }
        return false;
      }
      return true;
    }
  }

  /** A call succeeds if and only if the mount works, and before it the directory and, on a device without
      a recognised file system, mkfs. The device is then mounted where and as requested, read-only exactly
      when one of the two arguments says so, and its disk is the one of before, recognised, or a fresh one. */
  lemma SuccessIsAMount(n: Node, r: Request, a: Answers)
    ensures var outcome := MountOutcome(n, r, a);
            var m := outcome.node;
            && (outcome.ok <==> (HasFS(a.lsblk) || a.mkfs.Made?) && a.mkdir && a.mount.Mounted?)
            && n.log <= m.log
            && (outcome.ok ==>
                  && |m.log| >= |n.log| + 2
                  && m.log[|m.log| - 1] == Mount(r.devicePath, r.mountPath, r.readWrite == "ro" || r.actualReadWrite == "ro")
                  && if HasFS(a.lsblk) then m.disks == n.disks
                     else r.devicePath in m.disks && !m.disks[r.devicePath].corrupt
                          && m.disks[r.devicePath].contents == [] && m.disks[r.devicePath].fsType != [])
  {
    hide HasFS, IsBadSuperblock, MkfsCommand;
  }

  // ----- runs

  /** What Kubernetes asks of the node, with the answers the commands give. */
  datatype Call =
    | DoMount(r: Request, a: Answers)
    | DoUmount(path: string)

  function Step(n: Node, c: Call): Node {
    match c
    case DoMount(r, a) => MountOutcome(n, r, a).node
    case DoUmount(path) => Logged(n, Umount(path))
  }

  function Run(n: Node, calls: seq<Call>): Node
    decreases |calls|
  {
    if calls == [] then n else Run(Step(n, calls[0]), calls[1..])
  }

  /** The reasons for which a call formats a device. */
  predicate HasReason(c: Call, device: string) {
    && c.DoMount? && c.r.devicePath == device
    && (!HasFS(c.a.lsblk) || (c.a.mkdir && IsBadSuperblock(c.a.mount)))
  }

  /** The number of times mkfs was run on a device. */
  function Formats(log: seq<Command>, device: string): nat
    decreases |log|
  {
    if log == [] then 0
    else Formats(log[..|log| - 1], device)
         + if log[|log| - 1].Mkfs? && log[|log| - 1].device == device then 1 else 0
  }

  lemma FormatsOne(log: seq<Command>, c: Command, device: string)
    ensures Formats(log + [c], device) == Formats(log, device) + if c.Mkfs? && c.device == device then 1 else 0
  {
    assert (log + [c])[..|log|] == log;
  }

  function DiskAt(n: Node, device: string): Option<Disk> {
    if device in n.disks then Some(n.disks[device]) else None
  }

  lemma FormatCounts(n: Node, fsType: string, target: string, answer: MkfsAnswer, device: string)
    ensures var m := Format(n, fsType, target, answer);
            if target == device then Formats(m.log, device) == Formats(n.log, device) + 1
            else Formats(m.log, device) == Formats(n.log, device) && DiskAt(m, device) == DiskAt(n, device)
  {
    FormatsOne(n.log, MkfsCommand(fsType, target), device);
  }

  lemma OtherCommandsDoNotCount(n: Node, c: Command, device: string)
    requires !c.Mkfs?
    ensures var m := Logged(n, c);
            Formats(m.log, device) == Formats(n.log, device) && DiskAt(m, device) == DiskAt(n, device)
  {
    FormatsOne(n.log, c, device);
  }

  lemma RepairsExactlyWhenBlamed(n: Node, r: Request, fsType: string, a: Answers, device: string)
    ensures var m := MountAndRepair(n, r, fsType, a).node;
            var blamed := r.devicePath == device && a.mkdir && IsBadSuperblock(a.mount);
            && Formats(m.log, device) == Formats(n.log, device) + (if blamed then 1 else 0)
            && (!blamed ==> DiskAt(m, device) == DiskAt(n, device))
  {
    assert IsBadSuperblock(a.mount) ==> a.mount.Refused?;
    hide IsBadSuperblock, Formats, Format, Logged, DiskAt;
    OtherCommandsDoNotCount(n, Mkdir(r.mountPath), device);
    var n1 := Logged(n, Mkdir(r.mountPath));
    OtherCommandsDoNotCount(n1, MountCommand(r), device);
    FormatCounts(Logged(n1, MountCommand(r)), fsType, r.devicePath, a.remkfs, device);
  }

  /** One call formats the device if and only if there is a reason; without one it leaves the disk
      alone. It formats at most twice. */
  lemma FormatsExactlyWithReason(n: Node, c: Call, device: string)
    ensures var m := Step(n, c);
            && 0 <= Formats(m.log, device) - Formats(n.log, device) <= 2
            && (Formats(m.log, device) > Formats(n.log, device) <==> HasReason(c, device))
            && (!HasReason(c, device) ==> DiskAt(m, device) == DiskAt(n, device))
  {
    hide HasFS, IsBadSuperblock, Formats, Format, Logged, DiskAt, MountAndRepair;
    match c
    case DoUmount(path) => OtherCommandsDoNotCount(n, Umount(path), device);
    case DoMount(r, a) =>
      if HasFS(a.lsblk) {
        RepairsExactlyWhenBlamed(n, r, r.fsType, a, device);
      } else {
        var formatted := Format(n, FirstType(r), r.devicePath, a.mkfs);
        FormatCounts(n, FirstType(r), r.devicePath, a.mkfs, device);
        RepairsExactlyWhenBlamed(formatted, r, FirstType(r), a, device);
      }
  }

  /** In every run a device is formatted if and only if some call had a reason to; and if none had,
      its disk is what it was. */
  lemma {:induction false} EveryFormatIsExplained(n: Node, calls: seq<Call>, device: string)
    ensures Formats(Run(n, calls).log, device) >= Formats(n.log, device)
    ensures Formats(Run(n, calls).log, device) > Formats(n.log, device) <==>
            exists k :: 0 <= k < |calls| && HasReason(calls[k], device)
    ensures (forall k :: 0 <= k < |calls| ==> !HasReason(calls[k], device)) ==>
            DiskAt(Run(n, calls), device) == DiskAt(n, device)
    decreases |calls|
  {
    hide HasReason, Formats, Step;
    if calls == [] {
    } else {
      FormatsExactlyWithReason(n, calls[0], device);
      EveryFormatIsExplained(Step(n, calls[0]), calls[1..], device);
      assert forall k :: 1 <= k < |calls| ==> calls[k] == calls[1..][k - 1];
      if k :| 0 <= k < |calls[1..]| && HasReason(calls[1..][k], device) {
        assert HasReason(calls[k + 1], device);
      }
    }
  }

  // ----- healthy devices, foreign file systems, repair

  /** lsblk works and reports the type of the file system that is on the disk. */
  predicate Reports(lsblk: Option<string>, fsType: string) {
    lsblk.Some? && TrimSpace(lsblk.value) == TrimSpace(fsType)
  }

  /** The answers fit the state of the node: lsblk reports the type on the disk, and mount complains
      about the superblock only when the file system is corrupt. */
  predicate IsTruthful(n: Node, c: Call) {
    c.DoMount? && c.r.devicePath in n.disks ==>
      && (n.disks[c.r.devicePath].fsType != [] ==> Reports(c.a.lsblk, n.disks[c.r.devicePath].fsType))
      && (!n.disks[c.r.devicePath].corrupt ==> !IsBadSuperblock(c.a.mount))
  }

  predicate IsTruthfulRun(n: Node, calls: seq<Call>)
    decreases |calls|
  {
    calls == [] || (IsTruthful(n, calls[0]) && IsTruthfulRun(Step(n, calls[0]), calls[1..]))
  }

  predicate IsHealthy(disk: Disk) {
    disk.fsType != [] && IsRecognised(disk.fsType) && !disk.corrupt
  }

  lemma RecognitionIgnoresBlanks(output: string, fsType: string)
    requires TrimSpace(output) == TrimSpace(fsType)
    ensures IsRecognised(output) <==> IsRecognised(fsType)
  {
    forall k | 0 <= k < |FSTYPES| ensures Names(output, FSTYPES[k]) <==> Names(fsType, FSTYPES[k]) {
    }
  }

  /** A healthy disk survives every run of truthful calls on any devices: it is never formatted and
      its contents stay what they were. */
  lemma {:induction false} HealthyDiskIsSafe(n: Node, calls: seq<Call>, device: string)
    requires device in n.disks && IsHealthy(n.disks[device]) && IsTruthfulRun(n, calls)
    ensures DiskAt(Run(n, calls), device) == DiskAt(n, device)
    ensures Formats(Run(n, calls).log, device) == Formats(n.log, device)
    decreases |calls|
  {
    hide IsRecognised, IsBadSuperblock, Formats, Step;
    if calls == [] {
    } else {
      var c := calls[0];
      if c.DoMount? && c.r.devicePath == device {
        RecognitionIgnoresBlanks(c.a.lsblk.value, n.disks[device].fsType);
      }
      assert !HasReason(c, device);
      FormatsExactlyWithReason(n, c, device);
      HealthyDiskIsSafe(Step(n, c), calls[1..], device);
    }
  }

  lemma Ext4IsRecognised()
    ensures IsRecognised("ext4")
  {
    RecognisedExactly("ext4");
    TrimSpaceTrims("ext4");
    assert ToLower("ext4") == "ext4";
    assert OccursAt("ext4", 0, "ext4") by { assert "ext4"[0..] == "ext4"; }
    assert Contains("ext4", "ext4");
    hide Contains, OccursAt, ToLower, TrimSpace;
  }

  /** What the driver formats by itself it keeps: after a successful call that asks for no type, on a device
      on which lsblk sees no file system, the disk is an empty ext4 one, and no run of truthful calls, on
      this device and others, ever formats it again. */
  lemma DefaultFormatIsKept(n: Node, r: Request, a: Answers, calls: seq<Call>)
    requires r.fsType == "" && !SeesFileSystem(a) && MountOutcome(n, r, a).ok
    requires IsTruthfulRun(MountOutcome(n, r, a).node, calls)
    ensures var m := MountOutcome(n, r, a).node;
            && Formats(m.log, r.devicePath) == Formats(n.log, r.devicePath) + 1
            && DiskAt(m, r.devicePath) == Some(Disk("ext4", false, ""))
            && Formats(Run(m, calls).log, r.devicePath) == Formats(m.log, r.devicePath)
            && DiskAt(Run(m, calls), r.devicePath) == Some(Disk("ext4", false, ""))
  {
    var m := MountOutcome(n, r, a).node;
    CallIsExpected(n, r, a);
    SmoothFormatOf(n, r, a);
    Ext4IsRecognised();
    hide IsRecognised, SeesFileSystem, MountOutcome, Formats, Run, IsTruthfulRun, ExpectedCommands, Repairs;
    HealthyDiskIsSafe(m, calls, r.devicePath);
  }

  lemma SmoothFormatOf(n: Node, r: Request, a: Answers)
    requires !SeesFileSystem(a) && MountOutcome(n, r, a).ok
    ensures var m := MountOutcome(n, r, a).node;
            && Formats(m.log, r.devicePath) == Formats(n.log, r.devicePath) + 1
            && DiskAt(m, r.devicePath) == Some(Disk(if r.fsType == "" then "ext4" else r.fsType, false, ""))
  {
    CallIsExpected(n, r, a);
    if a.lsblk.Some? {
      RecognisedExactly(a.lsblk.value);
    }
    hide IsRecognised, NamesLinuxFileSystem, Formats, ExpectedCommands;
    var t := FirstType(r);
    var n1 := Format(n, t, r.devicePath, Made);
    FormatCounts(n, t, r.devicePath, Made, r.devicePath);
    OtherCommandsDoNotCount(n1, Mkdir(r.mountPath), r.devicePath);
    OtherCommandsDoNotCount(Logged(n1, Mkdir(r.mountPath)), MountCommand(r), r.devicePath);
  }

  /** A call that mounts this device, asks for this type and whose commands all work. */
  predicate IsSmoothMount(c: Call, device: string, fsType: string) {
    && c.DoMount? && c.r.devicePath == device && c.r.fsType == fsType
    && c.a.mkfs.Made? && c.a.mkdir && c.a.mount.Mounted?
  }

  /** The call mounts this device. */
  predicate Mounts(c: Call, device: string) {
    c.DoMount? && c.r.devicePath == device
  }

  /** How often the calls mount this device; they may unmount it and use other devices in between. */
  function MountCount(calls: seq<Call>, device: string): nat {
    if calls == [] then 0 else (if Mounts(calls[0], device) then 1 else 0) + MountCount(calls[1..], device)
  }

  /** All mounts of this device are smooth ones with this type. */
  predicate MountsSmoothly(calls: seq<Call>, device: string, fsType: string) {
    forall k :: 0 <= k < |calls| ==> Mounts(calls[k], device) ==> IsSmoothMount(calls[k], device, fsType)
  }

  /** A file system of a type that is not on the list is formatted again by each of its mounts, whatever
      else happens in between, even though lsblk reports it correctly every time. */
  lemma {:induction false} ForeignDiskIsReformatted(n: Node, calls: seq<Call>, device: string, fsType: string)
    requires fsType != [] && !IsRecognised(fsType)
    requires device in n.disks && n.disks[device].fsType == fsType && IsTruthfulRun(n, calls)
    requires MountsSmoothly(calls, device, fsType)
    ensures Formats(Run(n, calls).log, device) == Formats(n.log, device) + MountCount(calls, device)
    ensures DiskAt(Run(n, calls), device) ==
            if MountCount(calls, device) > 0 then Some(Disk(fsType, false, [])) else DiskAt(n, device)
    decreases |calls|
  {
    hide IsRecognised, IsBadSuperblock, Formats, Step;
    if calls == [] {
    } else {
      var c, rest := calls[0], calls[1..];
      if Mounts(c, device) {
        RecognitionIgnoresBlanks(c.a.lsblk.value, fsType);
        assert IsSmoothMount(c, device, fsType) && !HasFS(c.a.lsblk);
        SmoothFormat(n, c, device, fsType);
      } else {
        assert !HasReason(c, device);
        FormatsExactlyWithReason(n, c, device);
      }
      assert forall k :: 0 <= k < |rest| ==> rest[k] == calls[k + 1];
      ForeignDiskIsReformatted(Step(n, c), rest, device, fsType);
    }
  }

  lemma SmoothFormat(n: Node, c: Call, device: string, fsType: string)
    requires IsSmoothMount(c, device, fsType) && !HasFS(c.a.lsblk) && fsType != []
    ensures var m := Step(n, c);
            && Formats(m.log, device) == Formats(n.log, device) + 1
            && device in m.disks && m.disks[device] == Disk(fsType, false, [])
  {
    hide HasFS, Formats;
    var n1 := Format(n, fsType, device, Made);
    FormatCounts(n, fsType, device, Made, device);
    OtherCommandsDoNotCount(n1, Mkdir(c.r.mountPath), device);
    OtherCommandsDoNotCount(Logged(n1, Mkdir(c.r.mountPath)), MountCommand(c.r), device);
  }

  /** Hence a disk that is mounted, once or more often, with its own type keeps its data if and only if the
      type is one that lsblk's output is searched for. */
  lemma SafeExactlyWhenRecognised(n: Node, calls: seq<Call>, device: string, fsType: string)
    requires fsType != [] && MountCount(calls, device) > 0
    requires device in n.disks && n.disks[device].fsType == fsType && !n.disks[device].corrupt && IsTruthfulRun(n, calls)
    requires MountsSmoothly(calls, device, fsType)
    ensures Formats(Run(n, calls).log, device) == Formats(n.log, device) <==> IsRecognised(fsType)
    ensures IsRecognised(fsType) ==> DiskAt(Run(n, calls), device) == DiskAt(n, device)
  {
    hide IsRecognised, Formats, Run, IsTruthfulRun, MountsSmoothly, MountCount;
    if IsRecognised(fsType) {
      HealthyDiskIsSafe(n, calls, device);
    } else {
      ForeignDiskIsReformatted(n, calls, device, fsType);
    }
  }

  /** Repair: on a corrupt disk that lsblk recognises, when mkfs and mkdir work and mount names the
      superblock, the first call formats once and fails. With a type from the list the next truthful
      call finds a healthy disk, formats nothing and reports what mount reports. */
  lemma RepairTakesTwoCalls(n: Node, r: Request, a: Answers, b: Answers)
    requires r.devicePath in n.disks && n.disks[r.devicePath].corrupt
    requires HasFS(a.lsblk) && a.mkdir && IsBadSuperblock(a.mount) && a.remkfs.Made?
    requires r.fsType != [] && IsRecognised(r.fsType)
    requires IsTruthful(MountOutcome(n, r, a).node, DoMount(r, b)) && b.mkdir
    ensures var first := MountOutcome(n, r, a);
            var second := MountOutcome(first.node, r, b);
            && !first.ok && first.node.log == n.log + [Mkdir(r.mountPath), MountCommand(r), MkfsCommand(r.fsType, r.devicePath)]
            && first.node.disks[r.devicePath] == Disk(r.fsType, false, [])
            && second.node.disks == first.node.disks
            && second.node.log == first.node.log + [Mkdir(r.mountPath), MountCommand(r)]
            && (second.ok <==> b.mount.Mounted?)
  {
    assert a.mount.Refused?;
    hide IsRecognised, IsBadSuperblock, MkfsCommand, MountCommand;
    var first := MountOutcome(n, r, a);
    assert first.node == Format(Logged(Logged(n, Mkdir(r.mountPath)), MountCommand(r)), r.fsType, r.devicePath, Made);
    RecognitionIgnoresBlanks(b.lsblk.value, r.fsType);
  }

  /** Without a type in the request the repair runs a program that does not exist under that name:
      the default type is chosen in the branch for devices without a file system only. */
  lemma RepairWithoutType(n: Node, r: Request, a: Answers)
    requires HasFS(a.lsblk) && a.mkdir && IsBadSuperblock(a.mount) && r.fsType == []
    ensures var log := MountOutcome(n, r, a).node.log;
            log[|log| - 1] == Mkfs("/sbin/mkfs.", r.devicePath, false)
  {
    assert "/sbin/mkfs." + [] == "/sbin/mkfs.";
  }

  /** The only stretches of three letters in "ntfs" are "ntf" and "tfs". */
  lemma NotWithinNtfs(f: string)
    requires |f| >= 3 && f[..3] != "ntf" && f[..3] != "tfs"
    ensures !Contains("ntfs", f)
  {
    var t := "ntfs";
    forall i | 0 <= i <= |t| ensures !OccursAt(t, i, f) {
      assert t[0..][..3] == "ntf" && t[1..][..3] == "tfs";
    }
  }

  /** ntfs, whose -F flag the source provides for, is such a foreign type. */
  lemma NtfsIsForeign()
    ensures !IsRecognised("ntfs")
  {
    TrimSpaceTrims("ntfs");
    assert ToLower("ntfs") == "ntfs";
    forall k | 0 <= k < |FSTYPES| ensures !Names("ntfs", FSTYPES[k]) {
      var f := ToLower(FSTYPES[k]);
      assert f[0] == LowerChar(FSTYPES[k][0]) && f[0] != 'n' && f[0] != 't';
      NotWithinNtfs(f);
    }
  }
}
