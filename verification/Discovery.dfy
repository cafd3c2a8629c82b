/** Finding the device of a volume after attaching it and finding the devices to remove when it is
    unmounted (pkg/utils/volume_utils.go, `unmountDevice` in cmd/flexplugin/main.go). The first goes
    from a slave to its device-mapper parent, the second from the parent to its slaves. */
module Discovery {
  import opened Text
  import opened MountTable

  /** /sys/block: the names in it in the order of the listing (None when it cannot be read), the
      slaves of each device that has a directory of them, and the nodes that exist under /dev. */
  datatype SysFs = SysFs(blocks: Option<seq<string>>, slaves: map<string, seq<string>>, nodes: set<string>)

  predicate IsFileName(name: string) {
    name != [] && '/' !in name && name != "." && name != ".."
  }

  /** The listings hold file names. */
  predicate IsSysFs(fs: SysFs) {
    && (fs.blocks.Some? ==> forall k :: 0 <= k < |fs.blocks.value| ==> IsFileName(fs.blocks.value[k]))
    && (forall d :: d in fs.slaves ==> forall k :: 0 <= k < |fs.slaves[d]| ==> IsFileName(fs.slaves[d][k]))
  }

  function Dev(name: string): string { "/dev/" + name }

  // ----- from the slave to the parent

  /** Whether the path for a slave of that name exists; with an empty name it is the path of the
      directory of slaves. */
  predicate SlaveExists(fs: SysFs, dir: string, name: string) {
    dir in fs.slaves && (name in fs.slaves[dir] || name == [])
  }

  predicate IsParentOf(fs: SysFs, dir: string, name: string) {
    "dm-" <= dir && SlaveExists(fs, dir, name)
  }

  /** The first device-mapper parent in the order of the listing. */
  function FirstParent(fs: SysFs, dirs: seq<string>, name: string): Option<string> {
    if dirs == [] then None
    else if IsParentOf(fs, dirs[0], name) then Some(dirs[0])
    else FirstParent(fs, dirs[1..], name)
  }

  function ParentOf(fs: SysFs, devicePath: string): Option<string> {
    if fs.blocks.None? then None else FirstParent(fs, fs.blocks.value, LastPart(devicePath, '/'))
  }

  /** A directory dm-* of /sys/block that has an entry of that name below slaves/. */
  ghost predicate HoldsSlave(fs: SysFs, dir: string, name: string) {
    && |dir| >= 3 && dir[0] == 'd' && dir[1] == 'm' && dir[2] == '-'
    && dir in fs.slaves && (name == "" || exists k :: 0 <= k < |fs.slaves[dir]| && fs.slaves[dir][k] == name)
  }

  /** Number k of the listing of /sys/block is the first such directory. */
  ghost predicate IsFirstHolder(fs: SysFs, name: string, k: int) {
    && fs.blocks.Some? && 0 <= k < |fs.blocks.value|
    && HoldsSlave(fs, fs.blocks.value[k], name)
    && forall j :: 0 <= j < k ==> !HoldsSlave(fs, fs.blocks.value[j], name)
  }

  lemma ParentsHoldTheSlave(fs: SysFs, dir: string, name: string)
    ensures IsParentOf(fs, dir, name) <==> HoldsSlave(fs, dir, name)
  {
    var prefix := "dm-";
    if HoldsSlave(fs, dir, name) {
      assert prefix == dir[..3];
    }
    if IsParentOf(fs, dir, name) {
      assert prefix[0] == dir[0] && prefix[1] == dir[1] && prefix[2] == dir[2];
    }
  }

  /** Discovery is exact: the parent is the first dm-* directory of the listing with the slave, and there
      is none only if no such directory has it. */
  lemma ParentIsFirstHolder(fs: SysFs, devicePath: string)
    ensures forall k :: IsFirstHolder(fs, LastPart(devicePath, '/'), k) ==>
              ParentOf(fs, devicePath) == Some(fs.blocks.value[k])
    ensures ParentOf(fs, devicePath).Some? ==> exists k :: IsFirstHolder(fs, LastPart(devicePath, '/'), k)
  {
    var name := LastPart(devicePath, '/');
    hide IsParentOf, HoldsSlave, LastPart;
    if fs.blocks.Some? {
      var dirs := fs.blocks.value;
      FirstParentIsFirst(fs, dirs, name);
      forall k | 0 <= k < |dirs| ensures IsParentOf(fs, dirs[k], name) <==> HoldsSlave(fs, dirs[k], name) {
        ParentsHoldTheSlave(fs, dirs[k], name);
      }
      if ParentOf(fs, devicePath).Some? {
        var k :| 0 <= k < |dirs| && FirstParent(fs, dirs, name) == Some(dirs[k]) && IsParentOf(fs, dirs[k], name)
                 && forall j :: 0 <= j < k ==> !IsParentOf(fs, dirs[j], name);
        assert IsFirstHolder(fs, name, k);
        forall i | IsFirstHolder(fs, name, i) ensures i == k {
        }
      }
    }
  }

  /** FindAttachedVolumeDirectoryPath; `resolved` is where the symbolic link leads. The first dm-* directory
      of which the device is a slave, the device itself without one, the empty path without a target. */
  method FindAttachedVolumeDirectoryPath(fs: SysFs, resolved: Option<string>) returns (path: string)
    ensures resolved.None? ==> path == ""
    ensures resolved.Some? ==>
              forall k :: IsFirstHolder(fs, LastPart(resolved.value, '/'), k) ==> path == "/dev/" + fs.blocks.value[k]
    ensures resolved.Some? && (forall k :: !IsFirstHolder(fs, LastPart(resolved.value, '/'), k)) ==>
              path == resolved.value
  {
    if resolved.None? {
      return [];
    }
    ParentIsFirstHolder(fs, resolved.value);
    hide IsFirstHolder;
    var deviceName := LastPart(resolved.value, '/');
    if fs.blocks.Some? {
      var dirs := fs.blocks.value;
      for k := 0 to |dirs|
        invariant FirstParent(fs, dirs[k..], deviceName) == FirstParent(fs, dirs, deviceName)
      {
        assert dirs[k..][1..] == dirs[k + 1..];
        if "dm-" <= dirs[k] {
          if SlaveExists(fs, dirs[k], deviceName) {
            return Dev(dirs[k]);
          }
        }
      }
    }
    return resolved.value;
  }

  // ----- from the parent to the slaves

  function Devs(names: seq<string>): seq<string> {
    if names == [] then [] else Devs(names[..|names| - 1]) + [Dev(names[|names| - 1])]
  }

  predicate IsDevPath(dm: string) {
    var parts := Split(dm, '/');
    |parts| == 3 && "dev" <= parts[1]
  }

  function SlaveDevices(fs: SysFs, dm: string): seq<string> {
    if !IsDevPath(dm) || Split(dm, '/')[2] !in fs.slaves then [] else Devs(fs.slaves[Split(dm, '/')[2]])
  }

  /** FindSlaveDevicesOfMultipathParent: the nodes of the slaves, in the order of their listing, for a path
      of three parts of which the second begins with dev; nothing for any other path. */
  method FindSlaveDevicesOfMultipathParent(fs: SysFs, dm: string) returns (devices: seq<string>)
    ensures devices == SlaveDevices(fs, dm)
    ensures var parts := Split(dm, '/');
            if |parts| == 3 && "dev" <= parts[1] && parts[2] in fs.slaves then
              && |devices| == |fs.slaves[parts[2]]|
              && forall k :: 0 <= k < |devices| ==> devices[k] == "/dev/" + fs.slaves[parts[2]][k]
            else devices == []
  {
    if IsDevPath(dm) && Split(dm, '/')[2] in fs.slaves {
      DevsPointwise(fs.slaves[Split(dm, '/')[2]]);
    }
    devices := [];
    var parts := Split(dm, '/');
    if |parts| != 3 || !("dev" <= parts[1]) {
      return;
    }
    if parts[2] in fs.slaves {
      var files := fs.slaves[parts[2]];
      for k := 0 to |files|
        invariant devices == Devs(files[..k])
      {
        devices := devices + [Dev(files[k])];
        assert files[..k + 1][..k] == files[..k];
      }
      assert files[..|files|] == files;
    }
  }

  datatype Associated = Associated(dmParent: string, devices: seq<string>)

  /** GetAssociatedBlockDevices; `listing` is the output of multipath -l, None when it fails. An error
      leaves both results empty. */
  function AssociatedBlockDevices(fs: SysFs, devicePath: string, listing: Option<string>): Associated {
    if devicePath == [] || !Contains(devicePath, "/dev") then Associated([], [])
    else if !Contains(devicePath, "/dev/mapper/mpath") then Associated([], [devicePath])
    else if listing.None? then Associated([], [])
    else
      var line := Split(listing.value, '\n')[0];
      var fields := Fields(line);
      if Contains(line, "not a valid argument") || |fields| != 5 || Dev(fields[2]) !in fs.nodes then Associated([], [])
      else Associated(Dev(fields[2]), SlaveDevices(fs, Dev(fields[2])))
  }

  // ----- unmountDevice

  datatype Action = Unmount(path: string) | Delete(file: string) | Flush(name: string)

  function DeleteFile(device: string): string {
    "/sys/block/" + LastPart(device, '/') + "/device/delete"
  }

  function Deletes(devices: seq<string>): seq<Action> {
    if devices == [] then [] else Deletes(devices[..|devices| - 1]) + [Delete(DeleteFile(devices[|devices| - 1]))]
  }

  /** The name that RemoveMultipathForDevice passes on. */
  function MultipathName(devicePath: string): string {
    if Contains(devicePath, "/dev/mapper") then (MapperPathHasParts(devicePath); Split(devicePath, '/')[2])
    else devicePath
  }

  /** What unmountDevice does to the system: `device` comes from the mount table, and `works` tells
      whether the unmount works. */
  function UnmountActions(fs: SysFs, mountPath: string, device: Option<string>, listing: Option<string>, works: bool)
    : seq<Action>
  {
    var devicePath := if device.Some? then device.value else [];
    var found := if devicePath != [] then AssociatedBlockDevices(fs, devicePath, listing) else Associated([], []);
    if !works then [Unmount(mountPath)]
    else [Unmount(mountPath)] + Deletes(found.devices)
         + if found.dmParent != [] then [Flush(MultipathName(devicePath))] else []
  }

  /** multipath -l names this device-mapper parent, and its node exists. */
  ghost predicate FindsParent(fs: SysFs, listing: Option<string>, dm: string) {
    listing.Some? && ListsParent(listing.value, dm) && "/dev/" + dm in fs.nodes
  }

  /** The slaves of a device-mapper parent that multipath names. */
  function SlavesOf(fs: SysFs, dm: string): seq<string> {
    if '/' !in dm && dm in fs.slaves then fs.slaves[dm] else []
  }

  ghost predicate IsDeletion(action: Action, device: string) {
    action == Delete("/sys/block/" + LastPart(device, '/') + "/device/delete")
  }

  /** One deletion for each slave, then one flush. */
  ghost predicate IsMapCleanup(devicePath: string, slaves: seq<string>, rest: seq<Action>) {
    && |rest| == |slaves| + 1
    && (forall k :: 0 <= k < |slaves| ==> IsDeletion(rest[k], slaves[k]))
    && |Split(devicePath, '/')| >= 3 && rest[|slaves|] == Flush(Split(devicePath, '/')[2])
  }

  /** What has to be done once the device is unmounted. Without a device below /dev nothing; a device that is
      no multipath map is deleted; for a multipath map nothing, if its parent cannot be found, and otherwise
      one deletion for each slave of the parent and then one flush. */
  ghost predicate IsCleanup(fs: SysFs, device: Option<string>, listing: Option<string>, rest: seq<Action>) {
    if device.None? || !Contains(device.value, "/dev") then rest == []
    else if !Contains(device.value, "/dev/mapper/mpath") then |rest| == 1 && IsDeletion(rest[0], device.value)
    else
      && ((forall dm :: !FindsParent(fs, listing, dm)) ==> rest == [])
      && forall dm :: FindsParent(fs, listing, dm) ==>
           IsMapCleanup(device.value, SlavesOf(fs, dm), rest)
  }

  /** What unmountDevice does to the system: nothing but the unmount if that fails; otherwise the unmount and
      then the cleanup. */
  ghost predicate IsUnmount(fs: SysFs, mountPath: string, device: Option<string>, listing: Option<string>, works: bool,
                            before: seq<Action>, after: seq<Action>) {
    if !works then after == before + [Unmount(mountPath)]
    else before + [Unmount(mountPath)] <= after && IsCleanup(fs, device, listing, after[|before| + 1..])
  }

  class Host {
    var actions: seq<Action>

    /** unmountDevice. When the unmount fails nothing else is done to the system. */
    method UnmountDevice(fs: SysFs, mountPath: string, mountOut: string, mountErr: string,
                         listing: Option<string>, works: bool) returns (ok: bool)
      modifies this
      ensures ok == works
      ensures actions == old(actions)
                         + UnmountActions(fs, mountPath, GetDeviceOfMount(mountOut, mountErr), listing, works)
      ensures IsUnmount(fs, mountPath, GetDeviceOfMount(mountOut, mountErr), listing, works, old(actions), actions)
    {
      hide AssociatedBlockDevices, GetDeviceOfMount, DeleteFile, MultipathName, IsUnmount;
      var found := Associated([], []);
      var device := GetDeviceOfMount(mountOut, mountErr);
      var devicePath := if device.Some? then device.value else [];
      if devicePath != [] {
        found := AssociatedBlockDevices(fs, devicePath, listing);
      }
      actions := actions + [Unmount(mountPath)];
      if !works {
        ActionsAreUnmount(fs, mountPath, device, listing, works, old(actions));
        return false;
      }
      ghost var before := actions;
      if |found.devices| >= 1 {
        for k := 0 to |found.devices|
          invariant actions == before + Deletes(found.devices[..k])
        {
          actions := actions + [Delete(DeleteFile(found.devices[k]))];
          assert found.devices[..k + 1][..k] == found.devices[..k];
        }
      }
      assert found.devices[..|found.devices|] == found.devices;
      if found.dmParent != [] {
        actions := actions + [Flush(MultipathName(devicePath))];
      }
      ActionsAreUnmount(fs, mountPath, device, listing, works, old(actions));
      return true;
    }
  }

  // ----- paths

  lemma SplitDevAnywhere(name: string)
    ensures Split(Dev(name), '/') == [[], "dev"] + Split(name, '/')
  {
    hide Split;
    assert Dev(name) == [] + ['/'] + ("dev" + ['/'] + name);
    SplitCons([], '/', "dev" + ['/'] + name);
    SplitCons("dev", '/', name);
  }

  lemma SplitDev(name: string)
    requires '/' !in name
    ensures Split(Dev(name), '/') == [[], "dev", name]
  {
    SplitDevAnywhere(name);
    SplitWithout(name, '/');
    hide Split;
  }

  lemma TwoParts(name: string, c: char)
    requires c in name
    ensures |Split(name, c)| >= 2
  {
  }

  lemma LastPartOfDev(name: string)
    ensures LastPart(Dev(name), '/') == LastPart(name, '/')
  {
    SplitDevAnywhere(name);
    hide Split;
  }

  lemma SlavesOfNode(fs: SysFs, dm: string)
    ensures SlaveDevices(fs, Dev(dm)) == if '/' !in dm && dm in fs.slaves then Devs(fs.slaves[dm]) else []
  {
    SplitDevAnywhere(dm);
    if '/' in dm {
      TwoParts(dm, '/');
    } else {
      SplitDev(dm);
    }
    hide Split, Dev;
  }

  lemma SlaveDeletionsAnywhere(slaves: seq<string>)
    ensures var deletes := Deletes(Devs(slaves));
            |deletes| == |slaves| && forall k :: 0 <= k < |slaves| ==> IsDeletion(deletes[k], slaves[k])
  {
    DevsPointwise(slaves);
    DeletesPointwise(Devs(slaves));
    hide LastPart, Deletes, Devs, Dev;
    forall k | 0 <= k < |slaves| ensures LastPart(Dev(slaves[k]), '/') == LastPart(slaves[k], '/') {
      LastPartOfDev(slaves[k]);
    }
  }

  /** The parent is found exactly when multipath names one whose node exists. */
  lemma ParentIsFound(fs: SysFs, devicePath: string, listing: Option<string>)
    requires Contains(devicePath, "/dev/mapper/mpath")
    ensures var r := AssociatedBlockDevices(fs, devicePath, listing);
            && (forall dm :: FindsParent(fs, listing, dm) ==> r == Associated(Dev(dm), SlaveDevices(fs, Dev(dm))))
            && ((forall dm :: !FindsParent(fs, listing, dm)) ==> r == Associated([], []))
  {
    MapperIsDev(devicePath);
    hide Contains, Split, Fields, SlaveDevices;
    if listing.Some? {
      var fields := Fields(Split(listing.value, '\n')[0]);
      assert |fields| == 5 ==> (FindsParent(fs, listing, fields[2]) || !FindsParent(fs, listing, fields[2]));
    }
  }

  lemma DeletionsForParent(fs: SysFs, dm: string)
    ensures var deletes := Deletes(SlaveDevices(fs, Dev(dm)));
            && Dev(dm) != [] && |deletes| == |SlavesOf(fs, dm)|
            && forall k :: 0 <= k < |deletes| ==> IsDeletion(deletes[k], SlavesOf(fs, dm)[k])
  {
    SlavesOfNode(fs, dm);
    SlaveDeletionsAnywhere(SlavesOf(fs, dm));
    DevIsNotEmpty(dm);
    NothingToDelete();
    hide SlaveDevices, Dev, Deletes, IsDeletion, Devs;
  }

  lemma ActionsForParent(fs: SysFs, mountPath: string, device: string, listing: Option<string>, dm: string)
    requires Contains(device, "/dev/mapper/mpath") && device != [] && FindsParent(fs, listing, dm)
    ensures UnmountActions(fs, mountPath, Some(device), listing, true) ==
            [Unmount(mountPath)] + Deletes(SlaveDevices(fs, Dev(dm))) + [Flush(MultipathName(device))]
  {
    hide AssociatedBlockDevices, FindsParent, SlaveDevices, Contains, Dev, Deletes, MultipathName;
    ParentIsFound(fs, device, listing);
    DevIsNotEmpty(dm);
  }

  lemma FlushOfMap(device: string)
    requires Contains(device, "/dev/mapper/mpath")
    ensures |Split(device, '/')| >= 3 && MultipathName(device) == Split(device, '/')[2]
  {
    MapIsMapper(device);
    MapperPathHasParts(device);
    hide Contains, Split;
  }

  lemma CleanupOfParts(device: string, slaves: seq<string>, deletes: seq<Action>, name: string)
    requires |deletes| == |slaves| && forall k :: 0 <= k < |slaves| ==> IsDeletion(deletes[k], slaves[k])
    requires |Split(device, '/')| >= 3 && name == Split(device, '/')[2]
    ensures IsMapCleanup(device, slaves, deletes + [Flush(name)])
  {
    hide Split, IsDeletion;
  }

  lemma CleanupForParent(fs: SysFs, mountPath: string, device: string, listing: Option<string>, dm: string)
    requires Contains(device, "/dev/mapper/mpath") && device != [] && FindsParent(fs, listing, dm)
    ensures |UnmountActions(fs, mountPath, Some(device), listing, true)| > 0
    ensures IsMapCleanup(device, SlavesOf(fs, dm), UnmountActions(fs, mountPath, Some(device), listing, true)[1..])
  {
    hide UnmountActions, FindsParent, SlaveDevices, Contains, Dev, Deletes, MultipathName, IsMapCleanup, SlavesOf,
         IsDeletion, Split;
    ActionsForParent(fs, mountPath, device, listing, dm);
    FlushOfMap(device);
    DeletionsForParent(fs, dm);
    var deletes, flush := Deletes(SlaveDevices(fs, Dev(dm))), [Flush(MultipathName(device))];
    CleanupOfParts(device, SlavesOf(fs, dm), deletes, MultipathName(device));
    assert ([Unmount(mountPath)] + deletes + flush)[1..] == deletes + flush;
  }

  lemma NoCleanupWithoutParent(fs: SysFs, mountPath: string, device: string, listing: Option<string>)
    requires Contains(device, "/dev/mapper/mpath") && device != [] && forall dm :: !FindsParent(fs, listing, dm)
    ensures UnmountActions(fs, mountPath, Some(device), listing, true)[1..] == []
  {
    ParentIsFound(fs, device, listing);
    NothingToDelete();
    hide AssociatedBlockDevices, FindsParent, Contains, Deletes, MultipathName;
  }

  lemma CleanupOfMap(fs: SysFs, mountPath: string, device: string, listing: Option<string>)
    requires Contains(device, "/dev/mapper/mpath") && Contains(device, "/dev") && device != []
    ensures IsCleanup(fs, Some(device), listing, UnmountActions(fs, mountPath, Some(device), listing, true)[1..])
  {
    hide FindsParent, Contains, SlavesOf, IsMapCleanup, UnmountActions;
    UnmountComesFirst(fs, mountPath, Some(device), listing, true);
    if forall dm :: !FindsParent(fs, listing, dm) {
      NoCleanupWithoutParent(fs, mountPath, device, listing);
    }
    forall dm | FindsParent(fs, listing, dm)
      ensures IsMapCleanup(device, SlavesOf(fs, dm), UnmountActions(fs, mountPath, Some(device), listing, true)[1..])
    {
      CleanupForParent(fs, mountPath, device, listing, dm);
    }
  }

  lemma UnmountComesFirst(fs: SysFs, mountPath: string, device: Option<string>, listing: Option<string>, works: bool)
    ensures var actions := UnmountActions(fs, mountPath, device, listing, works);
            |actions| > 0 && actions[0] == Unmount(mountPath)
  {
    hide AssociatedBlockDevices, Deletes, MultipathName;
  }

  lemma DevIsNotEmpty(name: string)
    ensures Dev(name) != []
  {
  }

  lemma NothingToDelete()
    ensures Devs([]) == [] && Deletes([]) == []
  {
  }

  lemma MapIsMapper(path: string)
    requires Contains(path, "/dev/mapper/mpath")
    ensures Contains(path, "/dev/mapper")
  {
    var i :| 0 <= i <= |path| && OccursAt(path, i, "/dev/mapper/mpath");
    assert "/dev/mapper" <= "/dev/mapper/mpath";
    assert OccursAt(path, i, "/dev/mapper");
  }

  /** The actions of unmountDevice are an unmount and the cleanup, and the cleanup only if the unmount
      worked. */
  lemma ActionsAreCleanup(fs: SysFs, mountPath: string, device: Option<string>, listing: Option<string>)
    ensures UnmountActions(fs, mountPath, device, listing, false) == [Unmount(mountPath)]
    ensures var actions := UnmountActions(fs, mountPath, device, listing, true);
            |actions| > 0 && actions[0] == Unmount(mountPath) && IsCleanup(fs, device, listing, actions[1..])
  {
    if device.Some? && Contains(device.value, "/dev/mapper/mpath") {
      MapperIsDev(device.value);
      UnmountComesFirst(fs, mountPath, device, listing, true);
      DeviceIsNamed(device.value);
      CleanupOfMap(fs, mountPath, device.value, listing);
      hide UnmountActions, IsCleanup;
    } else if device.Some? && Contains(device.value, "/dev") && device.value != [] {
      PlainDevice(fs, device.value, listing);
      OneDeletion(device.value);
      hide AssociatedBlockDevices, Contains, LastPart, Deletes;
    } else {
      NoDevice(fs, mountPath, device, listing);
    }
  }

  lemma ActionsAreUnmount(fs: SysFs, mountPath: string, device: Option<string>, listing: Option<string>, works: bool,
                          before: seq<Action>)
    ensures IsUnmount(fs, mountPath, device, listing, works, before,
                      before + UnmountActions(fs, mountPath, device, listing, works))
  {
    ActionsAreCleanup(fs, mountPath, device, listing);
    hide UnmountActions, IsCleanup;
    var actions := UnmountActions(fs, mountPath, device, listing, works);
    assert (before + actions)[|before| + 1..] == actions[1..];
    assert actions[..1] == [Unmount(mountPath)];
    assert before + actions == before + [Unmount(mountPath)] + actions[1..];
  }

  lemma DeviceIsNamed(path: string)
    requires Contains(path, "/dev/mapper/mpath")
    ensures path != []
  {
  }

  lemma NoDevice(fs: SysFs, mountPath: string, device: Option<string>, listing: Option<string>)
    requires device.Some? ==> !Contains(device.value, "/dev") || device.value == []
    ensures UnmountActions(fs, mountPath, device, listing, true) == [Unmount(mountPath)]
    ensures IsCleanup(fs, device, listing, [])
  {
    hide Split, Fields, SlaveDevices, MultipathName;
    NothingToDelete();
    if device == Some([]) {
      assert !Contains([], "/dev") by {
        assert forall i :: 0 <= i <= 0 ==> !OccursAt([], i, "/dev");
      }
    }
  }

  /** Two separators make three parts. */
  lemma TwoSeparators(s: string, c: char, i: int, j: int)
    requires 0 <= i < j < |s| && s[i] == c && s[j] == c
    ensures |Split(s, c)| >= 3
  {
    var first := Index(s, c);
    forall k | 0 <= k < first ensures s[k] != c {
      assert s[k] in s[..first];
    }
    var rest := s[first + 1..];
    assert rest[j - first - 1] == c;
    assert c in rest && Index(rest, c) >= 0;
  }

  lemma MapperPathHasParts(path: string)
    requires Contains(path, "/dev/mapper")
    ensures |Split(path, '/')| >= 3
  {
    var i :| 0 <= i <= |path| && OccursAt(path, i, "/dev/mapper");
    var tail := path[i..];
    assert tail[0] == '/' && tail[4] == '/';
    TwoSeparators(path, '/', i, i + 4);
  }

  lemma ThirdPart(a: string, b: string, rest: string)
    requires '/' !in a && '/' !in b
    ensures var parts := Split(['/'] + (a + ['/'] + (b + ['/'] + rest)), '/');
            |parts| >= 3 && parts[2] == b
  {
    hide Split;
    var tail := b + ['/'] + rest;
    assert ['/'] + (a + ['/'] + tail) == [] + ['/'] + (a + ['/'] + tail);
    SplitCons([], '/', a + ['/'] + tail);
    SplitCons(a, '/', tail);
    SplitCons(b, '/', rest);
  }

  lemma StartsWithMapper(path: string)
    requires "/dev/mapper" <= path
    ensures Contains(path, "/dev/mapper")
  {
    assert path[0..] == path;
    assert OccursAt(path, 0, "/dev/mapper");
  }

  /** A map under another directory, and a path that is no map, have other names. */
  lemma FlushNames(a: string, b: string, rest: string, path: string)
    requires '/' !in a && '/' !in b
    ensures var map_ := ['/'] + (a + ['/'] + (b + ['/'] + rest));
            MultipathName(map_) == if Contains(map_, "/dev/mapper") then b else map_
    ensures !Contains(path, "/dev/mapper") ==> MultipathName(path) == path
  {
    hide Split, Contains;
    ThirdPart(a, b, rest);
  }

  /** The multipath map is flushed under the name of its directory, whatever it is called. */
  lemma FlushNamesTheDirectory(name: string)
    ensures MultipathName("/dev/mapper/" + name) == "mapper"
  {
    hide Split, Contains;
    var path := "/dev/mapper/" + name;
    StartsWithMapper(path);
    assert path == ['/'] + ("dev" + ['/'] + ("mapper" + ['/'] + name));
    ThirdPart("dev", "mapper", name);
  }

  lemma {:induction false} DevsPointwise(names: seq<string>)
    ensures |Devs(names)| == |names| && forall k :: 0 <= k < |names| ==> Devs(names)[k] == Dev(names[k])
  {
    if names == [] {
    } else {
      DevsPointwise(names[..|names| - 1]);
    }
  }

  lemma {:induction false} DeletesPointwise(devices: seq<string>)
    ensures |Deletes(devices)| == |devices|
    ensures forall k :: 0 <= k < |devices| ==> Deletes(devices)[k] == Delete(DeleteFile(devices[k]))
  {
    hide DeleteFile;
    if devices == [] {
    } else {
      DeletesPointwise(devices[..|devices| - 1]);
    }
  }

  lemma {:induction false} FirstParentIsFirst(fs: SysFs, dirs: seq<string>, name: string)
    ensures var r := FirstParent(fs, dirs, name);
            && (r.None? <==> forall k :: 0 <= k < |dirs| ==> !IsParentOf(fs, dirs[k], name))
            && (r.Some? ==> exists k :: 0 <= k < |dirs| && r.value == dirs[k] && IsParentOf(fs, dirs[k], name)
                              && forall j :: 0 <= j < k ==> !IsParentOf(fs, dirs[j], name))
  {
    hide IsParentOf;
    if dirs != [] && !IsParentOf(fs, dirs[0], name) {
      var rest := dirs[1..];
      FirstParentIsFirst(fs, rest, name);
      assert forall k :: 1 <= k < |dirs| ==> dirs[k] == rest[k - 1];
      if r: string :| FirstParent(fs, rest, name) == Some(r) {
        var k :| 0 <= k < |rest| && r == rest[k] && IsParentOf(fs, rest[k], name)
                 && forall j :: 0 <= j < k ==> !IsParentOf(fs, rest[j], name);
        assert dirs[k + 1] == r;
      }
    }
  }

  // ----- main results

  /** Discovery and teardown agree: whenever discovery answers with a device-mapper parent, the device
      it started from is among the slaves that teardown finds for that answer. */
  lemma DiscoveredDeviceIsASlave(fs: SysFs, devicePath: string)
    requires IsSysFs(fs) && LastPart(devicePath, '/') != [] && ParentOf(fs, devicePath).Some?
    ensures Dev(LastPart(devicePath, '/')) in SlaveDevices(fs, Dev(ParentOf(fs, devicePath).value))
  {
    var name, dm := LastPart(devicePath, '/'), ParentOf(fs, devicePath).value;
    FirstParentIsFirst(fs, fs.blocks.value, name);
    SplitDev(dm);
    var slaves := fs.slaves[dm];
    DevsPointwise(slaves);
    var k :| 0 <= k < |slaves| && slaves[k] == name;
    assert Devs(slaves)[k] == Dev(name);
  }

  /** The deletions for a parent: one for each slave, in the order of the listing. */
  lemma SlaveDeletions(fs: SysFs, dm: string)
    requires IsSysFs(fs) && IsFileName(dm) && dm in fs.slaves
    ensures var deletes := Deletes(SlaveDevices(fs, Dev(dm)));
            && |deletes| == |fs.slaves[dm]|
            && forall k :: 0 <= k < |deletes| ==>
                 deletes[k] == Delete("/sys/block/" + fs.slaves[dm][k] + "/device/delete")
  {
    hide Split, Dev, Devs, Deletes;
    SplitDev(dm);
    var slaves := fs.slaves[dm];
    DevsPointwise(slaves);
    DeletesPointwise(Devs(slaves));
    forall k | 0 <= k < |slaves| ensures LastPart(Dev(slaves[k]), '/') == slaves[k] {
      assert IsFileName(slaves[k]);
      SplitDev(slaves[k]);
    }
  }

  /** The first line of the output of multipath -l names this device-mapper parent. */
  predicate ListsParent(listing: string, dm: string) {
    var line := Split(listing, '\n')[0];
    !Contains(line, "not a valid argument") && |Fields(line)| == 5 && Fields(line)[2] == dm
  }

  /** From the text of the mount table to the deletions: when the mount point has one matching line,
      multipath names an existing parent and the unmount works, one deletion is made for each slave of
      the parent and none for any other device. */
  lemma TeardownRemovesTheSlaves(fs: SysFs, table: seq<Entry>, e: Entry, listing: string, dm: string)
    requires IsSysFs(fs) && IsTable(table) && e in table && |Matching(table, e.dir)| == 1
    requires Contains(e.device, "/dev/mapper/mpath") && ListsParent(listing, dm)
    requires IsFileName(dm) && dm in fs.slaves && Dev(dm) in fs.nodes
    ensures var device := GetDeviceOfMount(MountGrep(table, e.dir), []);
            var actions := UnmountActions(fs, e.dir, device, Some(listing), true);
            var slaves := fs.slaves[dm];
            && |actions| == |slaves| + 2
            && actions[0] == Unmount(e.dir)
            && (forall k :: 0 <= k < |slaves| ==>
                  actions[k + 1] == Delete("/sys/block/" + slaves[k] + "/device/delete"))
            && actions[|slaves| + 1].Flush?
  {
    hide GetDeviceOfMount, MountGrep, Matching, DeleteFile, Fields, Split, SlaveDevices, Deletes, MultipathName;
    MountPointIsResolved(table, e);
    MapperIsDev(e.device);
    SlaveDeletions(fs, dm);
    assert e.device != [] by { EntryIn(table, e); }
  }

  lemma EntryIn(table: seq<Entry>, e: Entry)
    requires IsTable(table) && e in table
    ensures IsEntry(e)
  {
  }

  lemma MapperIsDev(path: string)
    requires Contains(path, "/dev/mapper/mpath")
    ensures Contains(path, "/dev")
  {
    var i :| 0 <= i <= |path| && OccursAt(path, i, "/dev/mapper/mpath");
    assert "/dev" <= "/dev/mapper/mpath";
    assert OccursAt(path, i, "/dev");
  }

  /** So the device that discovery started from is deleted when discovery and multipath name the same
      parent. */
  lemma TeardownRemovesTheDiscovered(fs: SysFs, table: seq<Entry>, e: Entry, listing: string, devicePath: string)
    requires IsSysFs(fs) && IsTable(table) && e in table && |Matching(table, e.dir)| == 1
    requires LastPart(devicePath, '/') != [] && ParentOf(fs, devicePath).Some?
    requires Contains(e.device, "/dev/mapper/mpath") && ListsParent(listing, ParentOf(fs, devicePath).value)
    requires Dev(ParentOf(fs, devicePath).value) in fs.nodes
    ensures Delete("/sys/block/" + LastPart(devicePath, '/') + "/device/delete") in
            UnmountActions(fs, e.dir, GetDeviceOfMount(MountGrep(table, e.dir), []), Some(listing), true)
  {
    var name, dm := LastPart(devicePath, '/'), ParentOf(fs, devicePath).value;
    FirstParentIsFirst(fs, fs.blocks.value, name);
    TeardownRemovesTheSlaves(fs, table, e, listing, dm);
    var k :| 0 <= k < |fs.slaves[dm]| && fs.slaves[dm][k] == name;
    hide UnmountActions, MountGrep, GetDeviceOfMount;
    var actions := UnmountActions(fs, e.dir, GetDeviceOfMount(MountGrep(table, e.dir), []), Some(listing), true);
    assert actions[k + 1] == Delete("/sys/block/" + name + "/device/delete");
  }

  /** A device that is not a multipath map stands for itself. */
  lemma PlainDevice(fs: SysFs, devicePath: string, listing: Option<string>)
    requires Contains(devicePath, "/dev") && !Contains(devicePath, "/dev/mapper/mpath") && devicePath != []
    ensures AssociatedBlockDevices(fs, devicePath, listing) == Associated([], [devicePath])
  {
    hide Contains, Split, Fields, SlaveDevices;
  }

  lemma OneDeletion(device: string)
    ensures Deletes([device]) == [Delete(DeleteFile(device))]
  {
    hide DeleteFile;
    DeletesPointwise([device]);
  }

  /** A mounted device that is not called a multipath map is deleted itself, under the last part of its
      path, and nothing else is: also for a device-mapper node or another map under /dev/mapper no slave
      is deleted and nothing is flushed. */
  lemma TeardownOfPlainDevice(fs: SysFs, table: seq<Entry>, e: Entry, listing: Option<string>)
    requires IsTable(table) && e in table && |Matching(table, e.dir)| == 1
    requires Contains(e.device, "/dev") && !Contains(e.device, "/dev/mapper/mpath")
    ensures UnmountActions(fs, e.dir, GetDeviceOfMount(MountGrep(table, e.dir), []), listing, true) ==
            [Unmount(e.dir), Delete("/sys/block/" + LastPart(e.device, '/') + "/device/delete")]
  {
    hide GetDeviceOfMount, MountGrep, Matching, MultipathName, Contains, AssociatedBlockDevices, LastPart, Deletes;
    MountPointIsResolved(table, e);
    EntryIn(table, e);
    PlainDevice(fs, e.device, listing);
    OneDeletion(e.device);
  }
}
