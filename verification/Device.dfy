/** Block devices as discovered from sysfs (crates/cluster-common/src/device.rs). */
module Device {
  import opened Common
  import opened Text
  import opened MountTable

  // ------------------------------------------------------------------ paths

  /** Path segments without empty ones and current-directory dots. */
  function Normal(segments: seq<string>): seq<string> {
    if segments == [] then []
    else (if segments[0] == "" || segments[0] == "." then [] else [segments[0]]) + Normal(segments[1..])
  }

  /** The components by which paths are compared; the root and a leading dot are components of their own. */
  function Components(path: string): seq<string> {
    var segments := Split(path, '/');
    if path != "" && path[0] == '/' then ["/"] + Normal(segments)
    else if segments[0] == "." then ["."] + Normal(segments[1..])
    else Normal(segments)
  }

  predicate SamePath(a: string, b: string) {
    Components(a) == Components(b)
  }

  predicate PathEndsWith(path: string, tail: string) {
    var p, t := Components(path), Components(tail);
    |t| <= |p| && p[|p| - |t|..] == t
  }

  /** The last component, unless it is the root or a dot directory. */
  function FileName(path: string): Option<string> {
    var c := Components(path);
    if c == [] || c[|c| - 1] in {"/", ".", ".."} then None else Some(c[|c| - 1])
  }

  /** A device name: one ordinary path segment. */
  predicate PlainName(name: string) {
    name != "" && '/' !in name && name != "." && name != ".."
  }

  function DevPath(name: string): string {
    "/dev/" + name
  }

  lemma SplitSingle(s: string, c: char)
    requires c !in s
    ensures Split(s, c) == [s]
  {
    assert Find(s, c) == |s|;
  }

  lemma SplitCons(first: string, rest: string, c: char)
    requires c !in first
    ensures Split(first + [c] + rest, c) == [first] + Split(rest, c)
  {
    var s := first + [c] + rest;
    assert Find(s, c) == |first| by {
      assert s[|first|] == c;
      assert forall j | 0 <= j < |first| :: s[j] == first[j];
    }
    assert s[..|first|] == first && s[|first| + 1..] == rest;
  }

  lemma DevPathComponents(name: string)
    requires PlainName(name)
    ensures Components(DevPath(name)) == ["/", "dev", name]
    ensures FileName(DevPath(name)) == Some(name)
  {
    SplitSingle(name, '/');
    SplitCons("dev", name, '/');
    SplitCons("", "dev/" + name, '/');
    assert "dev/" + name == "dev" + ['/'] + name;
    assert DevPath(name) == "" + ['/'] + ("dev/" + name);
    assert Split(DevPath(name), '/') == ["", "dev", name];
    assert Normal([name]) == [name];
    assert ["dev", name][1..] == [name];
    assert Normal(["dev", name]) == ["dev", name];
    assert ["", "dev", name][1..] == ["dev", name];
  }

  // ---------------------------------------------------------------- parents

  predicate IsDigit(c: char) {
    '0' <= c <= '9'
  }

  function TrimDigits(s: string): (r: string)
    ensures r <= s
  {
    if s != "" && IsDigit(s[|s| - 1]) then TrimDigits(s[..|s| - 1]) else s
  }

  /** The last position of a character that occurs. */
  function RFind(s: string, c: char): (i: nat)
    requires c in s
    ensures i < |s| && s[i] == c && c !in s[i + 1..]
  {
    if s[|s| - 1] == c then |s| - 1
    else
      assert c in s[..|s| - 1];
      var i := RFind(s[..|s| - 1], c);
      assert s[i + 1..] == s[..|s| - 1][i + 1..] + [s[|s| - 1]];
      i
  }

  /** The disk a partition name belongs to, by naming convention. */
  function DetermineParentDisk(name: string): Option<string> {
    if 'p' in name && ("mmcblk" <= name || "nvme" <= name) then Some(name[..RFind(name, 'p')])
    else
      var stripped := TrimDigits(name);
      if stripped != name && stripped != "" then Some(stripped) else None
  }

  /** A computed parent is always a non-empty proper prefix of the partition's name. */
  lemma ParentIsProperPrefix(name: string)
    ensures DetermineParentDisk(name).Some? ==>
              var p := DetermineParentDisk(name).value; p != "" && p <= name && p != name
  {
    if 'p' in name && ("mmcblk" <= name || "nvme" <= name) {
      assert name[0] == 'm' || name[0] == 'n';
    }
  }

  // ---------------------------------------------------------------- devices

  /** What sysfs, udev and the by-id directory say about one block device. */
  datatype Disk = Disk(
    name: string,
    isPartition: bool,
    byIdPaths: seq<string>,
    uuid: Option<string>,
    fsType: Option<string>,
    serial: Option<string>)

  datatype BlockDevice = BlockDevice(
    name: string,
    devPath: string,
    byIdPaths: seq<string>,
    uuid: Option<string>,
    fsType: Option<string>,
    serial: Option<string>,
    isPartition: bool,
    parentDisk: Option<string>,
    mountPoints: seq<string>)

  predicate EndsWith(s: string, tail: string) {
    |tail| <= |s| && s[|s| - |tail|..] == tail
  }

  /** Whether a mount entry's device column names this disk. */
  predicate Mounts(entry: MountEntry, disk: Disk) {
    || entry.device == DevPath(disk.name)
    || EndsWith(entry.device, "/" + disk.name)
    || entry.device in disk.byIdPaths
  }

  function MountPoints(disk: Disk, entries: seq<MountEntry>): seq<string> {
    if entries == [] then []
    else
      var n := |entries| - 1;
      MountPoints(disk, entries[..n]) + (if Mounts(entries[n], disk) then [entries[n].mountPoint] else [])
  }

  function Scanned(disk: Disk, entries: seq<MountEntry>): BlockDevice {
    BlockDevice(disk.name, DevPath(disk.name), disk.byIdPaths, disk.uuid, disk.fsType, disk.serial, disk.isPartition,
                if disk.isPartition then DetermineParentDisk(disk.name) else None,
                MountPoints(disk, entries))
  }

  method FromSysfs(disk: Disk, entries: seq<MountEntry>) returns (d: BlockDevice)
    ensures d == Scanned(disk, entries)
    ensures forall m :: m in d.mountPoints <==> exists e | e in entries :: Mounts(e, disk) && e.mountPoint == m
    ensures d.isPartition == disk.isPartition && d.devPath == "/dev/" + disk.name && d.byIdPaths == disk.byIdPaths
  {
    var points: seq<string> := [];
    for k := 0 to |entries|
      invariant points == MountPoints(disk, entries[..k])
      invariant forall m :: m in points <==> exists e | e in entries[..k] :: Mounts(e, disk) && e.mountPoint == m
    {
      assert entries[..k + 1][..k] == entries[..k];
      assert entries[..k + 1] == entries[..k] + [entries[k]];
      if Mounts(entries[k], disk) {
        points := points + [entries[k].mountPoint];
      }
    }
    assert entries[..|entries|] == entries;
    var parent := if disk.isPartition then DetermineParentDisk(disk.name) else None;
    d := BlockDevice(disk.name, DevPath(disk.name), disk.byIdPaths, disk.uuid, disk.fsType, disk.serial,
                     disk.isPartition, parent, points);
  }

  /** Loop, RAM and compressed-RAM devices are never scanned. */
  predicate Virtual(name: string) {
    "loop" <= name || "ram" <= name || "zram" <= name
  }

  function AllDevices(disks: seq<Disk>, entries: seq<MountEntry>): seq<BlockDevice> {
    if disks == [] then []
    else
      var n := |disks| - 1;
      AllDevices(disks[..n], entries) + (if Virtual(disks[n].name) then [] else [Scanned(disks[n], entries)])
  }

  /** Devices of a scan have the path and parent their names determine. */
  ghost predicate IsScanned(d: BlockDevice) {
    && d.devPath == DevPath(d.name)
    && d.parentDisk == (if d.isPartition then DetermineParentDisk(d.name) else None)
  }

  lemma {:induction false} AllDevicesAreScanned(disks: seq<Disk>, entries: seq<MountEntry>)
    ensures forall d | d in AllDevices(disks, entries) :: IsScanned(d)
  {
    if disks != [] {
      AllDevicesAreScanned(disks[..|disks| - 1], entries);
    }
  }

  /** Whether an identifier names this device by path or by-id link. */
  predicate MatchesStably(d: BlockDevice, id: string) {
    SamePath(d.devPath, id) || exists p | p in d.byIdPaths :: SamePath(p, id) || PathEndsWith(p, id)
  }

  predicate MatchesIdentifier(d: BlockDevice, id: string) {
    MatchesStably(d, id) || (d.uuid.Some? && (d.uuid.value == id || id == "UUID=" + d.uuid.value))
  }

  /** An entry is this disk's if it names its path, a path that ends in its name, or one of its links. */
  lemma MountedBy(disk: Disk, e: MountEntry, before: string)
    ensures e.device == "/dev/" + disk.name || e.device == before + "/" + disk.name || e.device in disk.byIdPaths ==>
              Mounts(e, disk)
    ensures Mounts(e, disk) && e.device !in disk.byIdPaths ==> exists p :: e.device == p + "/" + disk.name
  {
    var tail := "/" + disk.name;
    if e.device == before + "/" + disk.name {
      assert e.device == before + tail;
    }
    if Mounts(e, disk) && e.device !in disk.byIdPaths {
      assert DevPath(disk.name) == "/dev" + "/" + disk.name;
      var p := e.device[..|e.device| - |tail|];
      assert e.device == p + "/" + disk.name;
    }
  }

  lemma {:induction false} SplitSnoc(prefix: string, name: string, c: char)
    requires c !in name
    ensures Split(prefix + [c] + name, c) == Split(prefix, c) + [name]
    decreases |prefix|
  {
    var i := Find(prefix, c);
    if i == |prefix| {
      SplitCons(prefix, name, c);
      SplitSingle(name, c);
    } else {
      var rest := prefix[i + 1..];
      assert prefix == prefix[..i] + [c] + rest;
      assert prefix + [c] + name == prefix[..i] + [c] + (rest + [c] + name);
      SplitCons(prefix[..i], rest + [c] + name, c);
      SplitSnoc(rest, name, c);
    }
  }

  lemma {:induction false} NormalSnoc(segments: seq<string>, name: string)
    requires name != "" && name != "."
    ensures Normal(segments + [name]) == Normal(segments) + [name]
  {
    if segments == [] {
      assert [name][1..] == [];
    } else {
      assert (segments + [name])[1..] == segments[1..] + [name];
      NormalSnoc(segments[1..], name);
    }
  }

  /** Going one name down a path adds one component. */
  lemma ComponentsSnoc(prefix: string, name: string)
    requires prefix != "" && PlainName(name)
    ensures Components(prefix + "/" + name) == Components(prefix) + [name]
  {
    var segments := Split(prefix, '/');
    assert prefix + "/" + name == prefix + ['/'] + name;
    SplitSnoc(prefix, name, '/');
    NormalSnoc(segments, name);
    assert (segments + [name])[1..] == segments[1..] + [name];
    NormalSnoc(segments[1..], name);
  }

  /** A disk is named by its device path, by any of its links, and by a link's bare name. */
  lemma NamedByLink(d: BlockDevice, dir: string, name: string)
    requires dir != "" && PlainName(name) && dir + "/" + name in d.byIdPaths
    ensures MatchesStably(d, dir + "/" + name) && MatchesStably(d, name) && MatchesStably(d, d.devPath)
  {
    var link := dir + "/" + name;
    ComponentsSnoc(dir, name);
    SplitSingle(name, '/');
    NormalSnoc([], name);
    assert [] + [name] == [name];
    assert SamePath(link, link) && PathEndsWith(link, name);
  }
}
