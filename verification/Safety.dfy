/** The guard in front of every format (crates/cluster-common/src/safety.rs). */
module Safety {
  import opened Common
  import opened Crd
  import opened MountTable
  import opened Device

  const STATIC_BOOT_DENYLIST: seq<string> := [
    "mmcblk0", "mmcblk0boot0", "mmcblk0boot1", "mmcblk0rpmb", "mmcblk1", "mmcblk1boot0", "mmcblk1boot1",
    "ram0", "ram1", "loop0", "zram0"]

  const ETCD_MOUNT := "/var/lib/rancher/k3s/server/db/etcd"
  const GFS_MOUNT := "/mnt/gfs-storage"

  datatype Signal = Denylisted | BacksRoot(spec: string) | BacksBoot(spec: string)

  datatype SafetyError =
    | BootDiskViolation(signal: Signal)
    | NoRootEntry
    | NonOperationalRole
    | MissingConfirmation

  datatype FormatDecision = ProceedWithFormat | SkipFormatAlreadyMatching(existingFs: string, targetMount: string)

  predicate Denied(name: string) {
    exists d | d in STATIC_BOOT_DENYLIST :: d <= name
  }

  function DeviceNamed(devices: seq<BlockDevice>, name: string): (r: Option<BlockDevice>)
    ensures r.Some? ==> r.value in devices && r.value.name == name
  {
    if devices == [] then None
    else if devices[0].name == name then Some(devices[0])
    else DeviceNamed(devices[1..], name)
  }

  /** The cross-reference of the mounted name with the discovered devices. */
  predicate CrossReferenced(target: BlockDevice, mountedName: string, all: seq<BlockDevice>) {
    var d := DeviceNamed(all, mountedName);
    d.Some? && d.value.parentDisk == Some(target.name)
  }

  /** Whether the target is the mounted device, a partition of it, its disk, or a sibling by name. */
  predicate DeviceOrParentMatch(target: BlockDevice, spec: string, all: seq<BlockDevice>) {
    || SamePath(target.devPath, spec)
    || (exists p | p in target.byIdPaths :: SamePath(p, spec))
    || (FileName(spec).Some? && FileName(spec).value != "" &&
        var name := FileName(spec).value;
        || target.name <= name
        || (target.parentDisk.Some? && target.parentDisk.value <= name)
        || CrossReferenced(target, name, all))
  }

  function ExpectedMount(role: NodeRole): Option<string> {
    match role
    case Master => Some(ETCD_MOUNT)
    case Seed => Some(ETCD_MOUNT)
    case Worker => Some(GFS_MOUNT)
    case _ => None
  }

  function FirstMatch(target: BlockDevice, specs: seq<string>, all: seq<BlockDevice>): (r: Option<string>)
    ensures r.Some? ==> r.value in specs && DeviceOrParentMatch(target, r.value, all)
    ensures r.None? ==> forall s | s in specs :: !DeviceOrParentMatch(target, s, all)
  {
    if specs == [] then None
    else if DeviceOrParentMatch(target, specs[0], all) then Some(specs[0])
    else FirstMatch(target, specs[1..], all)
  }

  /** The refusals that depend only on where the system boots from. */
  function BootCheckWith(target: BlockDevice, root: Option<MountEntry>, boot: seq<string>,
      all: seq<BlockDevice>): Option<SafetyError> {
    if Denied(target.name) then Some(BootDiskViolation(Denylisted))
    else if root.None? then Some(NoRootEntry)
    else if DeviceOrParentMatch(target, root.value.device, all)
        then Some(BootDiskViolation(BacksRoot(root.value.device)))
    else
      var first := FirstMatch(target, boot, all);
      if first.Some? then Some(BootDiskViolation(BacksBoot(first.value))) else None
  }

  function BootCheck(target: BlockDevice, mounts: seq<MountEntry>, all: seq<BlockDevice>): Option<SafetyError> {
    BootCheckWith(target, FindByMountPoint(mounts, "/"), BootDevices(mounts), all)
  }

  /** What becomes of a device that passed the boot check. */
  function Decide(target: BlockDevice, expected: Option<string>, confirmed: bool): Result<FormatDecision, SafetyError> {
    if target.mountPoints != [] && expected.None? then Err(NonOperationalRole)
    else if target.mountPoints != [] && expected.value in target.mountPoints && target.fsType == Some("ext4") then
      Ok(SkipFormatAlreadyMatching("ext4", expected.value))
    else if (target.fsType.Some? || target.uuid.Some?) && !confirmed then Err(MissingConfirmation)
    else Ok(ProceedWithFormat)
  }

  function EvaluateFormat(target: BlockDevice, role: NodeRole, confirmed: bool, mounts: seq<MountEntry>,
      all: seq<BlockDevice>):
    Result<FormatDecision, SafetyError>
  {
    var refusal := BootCheck(target, mounts, all);
    if refusal.Some? then Err(refusal.value) else Decide(target, ExpectedMount(role), confirmed)
  }

  // ------------------------------------------------------------- properties

  /**
    Any two listings in which every device was scanned give the same verdict:
    the cross-reference is subsumed by the name test.
   */
  lemma CrossReferenceSubsumed(target: BlockDevice, spec: string, all: seq<BlockDevice>)
    requires forall d | d in all :: IsScanned(d)
    ensures DeviceOrParentMatch(target, spec, all) == DeviceOrParentMatch(target, spec, [])
  {
    var name := FileName(spec);
    if name.Some? && CrossReferenced(target, name.value, all) {
      ParentIsProperPrefix(name.value);
    }
  }

  lemma {:induction false} FirstMatchIgnoresListing(target: BlockDevice, specs: seq<string>, all: seq<BlockDevice>)
    requires forall d | d in all :: IsScanned(d)
    ensures FirstMatch(target, specs, all) == FirstMatch(target, specs, [])
  {
    if specs != [] {
      CrossReferenceSubsumed(target, specs[0], all);
      FirstMatchIgnoresListing(target, specs[1..], all);
    }
  }

  /** The guard's decision does not depend on which scanned devices it is shown. */
  lemma DecisionIgnoresListing(target: BlockDevice, role: NodeRole, confirmed: bool, mounts: seq<MountEntry>,
      all: seq<BlockDevice>)
    requires forall d | d in all :: IsScanned(d)
    ensures BootCheck(target, mounts, all) == BootCheck(target, mounts, [])
    ensures EvaluateFormat(target, role, confirmed, mounts, all) == EvaluateFormat(target, role, confirmed, mounts, [])
  {
    var root := FindByMountPoint(mounts, "/");
    if root.Some? {
      CrossReferenceSubsumed(target, root.value.device, all);
    }
    FirstMatchIgnoresListing(target, BootDevices(mounts), all);
  }

  // ------------------------------------------ what the guard protects

  predicate AllDigits(s: string) {
    s != "" && forall c | c in s :: IsDigit(c)
  }

  predicate EndsInDigit(name: string) {
    name != "" && IsDigit(name[|name| - 1])
  }

  /** What the kernel puts between a disk's name and a partition number. */
  function Stem(disk: string): string {
    if EndsInDigit(disk) then disk + "p" else disk
  }

  /** The kernel's naming of partitions. */
  predicate PartitionOf(disk: string, part: string) {
    disk != "" && Stem(disk) <= part && AllDigits(part[|Stem(disk)|..])
  }

  /** The disk families whose partitions the code splits at the last `p`. */
  predicate SplitAtP(name: string) {
    "mmcblk" <= name || "nvme" <= name
  }

  /**
    The code finds the disk of a partition, or a prefix of it, unless the name
    ends in a digit and is of neither family.
   */
  predicate ParentFound(disk: string) {
    !EndsInDigit(disk) || SplitAtP(disk)
  }

  lemma {:induction false} TrimDigitsOf(stem: string, digits: string)
    requires stem != "" && !EndsInDigit(stem) && forall c | c in digits :: IsDigit(c)
    ensures TrimDigits(stem + digits) == stem
  {
    if digits == "" {
      assert stem + digits == stem;
    } else {
      var n := |digits| - 1;
      assert (stem + digits)[..|stem| + n] == stem + digits[..n];
      TrimDigitsOf(stem, digits[..n]);
    }
  }

  lemma OccursFrom(s: string, k: nat, i: nat)
    requires k <= |s| && i < |s|
    ensures k <= i ==> s[i] in s[k..]
  {
    if k <= i {
      assert s[k..][i - k] == s[i];
    }
  }

  lemma LastOccurrence(s: string, c: char, i: nat, j: nat)
    requires i < |s| && s[i] == c && c !in s[i + 1..]
    requires j < |s| && s[j] == c && c !in s[j + 1..]
    ensures i == j
  {
    OccursFrom(s, i + 1, j);
    OccursFrom(s, j + 1, i);
  }

  lemma PrefixIndex(a: string, b: string, i: nat)
    requires a <= b && i < |b|
    ensures i < |a| ==> b[i] in a
  {
    if i < |a| {
      assert a[i] == b[i];
    }
  }

  /** A family name cannot end inside a disk name that ends in a digit. */
  lemma FamilyIsOfDisk(disk: string, part: string)
    requires EndsInDigit(disk) && disk + "p" <= part && SplitAtP(part)
    ensures SplitAtP(disk)
  {
    var family := if "mmcblk" <= part then "mmcblk" else "nvme";
    assert family <= part && disk <= part && part[|disk|] == 'p';
    assert forall c | c in family :: c != 'p' && !IsDigit(c);
    PrefixIndex(family, part, |disk|);
  }

  lemma ParentSplitAtP(disk: string, part: string)
    requires PartitionOf(disk, part) && 'p' in part && SplitAtP(part)
    ensures ParentFound(disk) && part[..RFind(part, 'p')] <= disk
  {
    var i := RFind(part, 'p');
    if EndsInDigit(disk) {
      LastOccurrence(part, 'p', |disk|, i);
      FamilyIsOfDisk(disk, part);
    } else {
      OccursFrom(part, |disk|, i);
    }
  }

  lemma ParentByDigits(disk: string, part: string)
    requires PartitionOf(disk, part)
    ensures TrimDigits(part) == Stem(disk)
  {
    assert part == Stem(disk) + part[|Stem(disk)|..];
    TrimDigitsOf(Stem(disk), part[|Stem(disk)|..]);
  }

  /** What the code derives from a partition's name. */
  lemma DerivedParent(disk: string, part: string)
    requires PartitionOf(disk, part)
    ensures var p := DetermineParentDisk(part);
            p.Some? && if ParentFound(disk) then p.value <= disk else p.value == disk + "p"
  {
    FamilyReachesPart(disk, part);
    if 'p' in part && SplitAtP(part) {
      ParentSplitAtP(disk, part);
    } else {
      ParentByDigits(disk, part);
    }
  }

  lemma FamilyReachesPart(disk: string, part: string)
    requires PartitionOf(disk, part)
    ensures EndsInDigit(disk) && SplitAtP(disk) ==> 'p' in part && SplitAtP(part)
  {
    if EndsInDigit(disk) {
      assert part[|disk|] == 'p';
    }
  }

  /** Device `a` shares its disk with device `b`: it is b, b's disk, a partition of b, or a sibling partition. */
  ghost predicate SharesDisk(a: BlockDevice, b: string) {
    || a.name == b
    || PartitionOf(a.name, b)
    || (a.isPartition && PartitionOf(b, a.name))
    || (a.isPartition && exists disk :: PartitionOf(disk, a.name) && PartitionOf(disk, b))
  }

  /** A partition whose whole disk is mounted under a name the code cannot derive from the partition's. */
  predicate Missed(a: BlockDevice, b: string) {
    a.isPartition && PartitionOf(b, a.name) && !ParentFound(b)
  }

  lemma SiblingsMatch(target: BlockDevice, mounted: string, disk: string, all: seq<BlockDevice>)
    requires IsScanned(target) && PlainName(mounted) && target.isPartition
    requires PartitionOf(disk, target.name) && PartitionOf(disk, mounted)
    ensures DeviceOrParentMatch(target, DevPath(mounted), all)
  {
    DevPathComponents(mounted);
    DerivedParent(disk, target.name);
    assert disk <= Stem(disk) <= mounted;
  }

  /** Everything that shares a disk with a mounted device is recognised, with that one exception. */
  lemma RelatedDevicesMatch(target: BlockDevice, mounted: string, all: seq<BlockDevice>)
    requires IsScanned(target) && PlainName(mounted) && SharesDisk(target, mounted)
    ensures DeviceOrParentMatch(target, DevPath(mounted), all) || Missed(target, mounted)
  {
    DevPathComponents(mounted);
    if target.name == mounted || PartitionOf(target.name, mounted) {
      assert target.name <= mounted;
    } else if PartitionOf(mounted, target.name) {
      DerivedParent(mounted, target.name);
    } else {
      var disk :| PartitionOf(disk, target.name) && PartitionOf(disk, mounted);
      SiblingsMatch(target, mounted, disk, all);
    }
  }

  /**
    Against a device mounted by its path, the relation test is exactly a prefix
    test on names, unless a by-id link is that path.  The prefix test covers
    every device that shares a disk and also disks with merely longer names.
   */
  lemma MatchIsNamePrefix(target: BlockDevice, mounted: string, all: seq<BlockDevice>)
    requires IsScanned(target) && PlainName(target.name) && PlainName(mounted)
    requires forall d | d in all :: IsScanned(d)
    requires forall p | p in target.byIdPaths :: !SamePath(p, DevPath(mounted))
    ensures DeviceOrParentMatch(target, DevPath(mounted), all) <==>
            target.name <= mounted || (target.parentDisk.Some? && target.parentDisk.value <= mounted)
  {
    CrossReferenceSubsumed(target, DevPath(mounted), all);
    DevPathComponents(mounted);
    DevPathComponents(target.name);
  }

  /** A system booted from the twenty-seventh disk protects the first one too. */
  lemma LongerNameIsRefused(target: BlockDevice, role: NodeRole, mounts: seq<MountEntry>)
    requires IsScanned(target) && target.name == "sda"
    requires FindByMountPoint(mounts, "/").Some? && FindByMountPoint(mounts, "/").value.device == DevPath("sdaa2")
    ensures !SharesDisk(target, "sdaa2") && EvaluateFormat(target, role, true, mounts, []).Err?
  {
    DevPathComponents("sdaa2");
  }

  /** A partition of a mounted whole disk is recognised exactly when its name gives the disk away. */
  lemma PartitionMatchesIff(target: BlockDevice, mounted: string, all: seq<BlockDevice>)
    requires IsScanned(target) && PlainName(target.name) && PlainName(mounted)
    requires forall d | d in all :: IsScanned(d)
    requires forall p | p in target.byIdPaths :: !SamePath(p, DevPath(mounted))
    requires target.isPartition && PartitionOf(mounted, target.name)
    ensures DeviceOrParentMatch(target, DevPath(mounted), all) <==> ParentFound(mounted)
  {
    MatchIsNamePrefix(target, mounted, all);
    DerivedParent(mounted, target.name);
  }

  /**
    For a whole disk the test is right, neither missing nor over-refusing, exactly
    when its name is no proper prefix of the mounted name or the prefix of its
    own partition.
   */
  lemma WholeDiskTestExactIff(target: BlockDevice, mounted: string, all: seq<BlockDevice>)
    requires IsScanned(target) && PlainName(target.name) && PlainName(mounted) && !target.isPartition
    requires forall d | d in all :: IsScanned(d)
    requires forall p | p in target.byIdPaths :: !SamePath(p, DevPath(mounted))
    ensures (DeviceOrParentMatch(target, DevPath(mounted), all) <==> SharesDisk(target, mounted)) <==>
            !(target.name < mounted) || PartitionOf(target.name, mounted)
  {
    MatchIsNamePrefix(target, mounted, all);
  }

  /** The device is the root file system's or a boot partition's. */
  ghost predicate BootsFrom(mounts: seq<MountEntry>, name: string) {
    var root := FindByMountPoint(mounts, "/");
    (root.Some? && root.value.device == DevPath(name)) || DevPath(name) in BootDevices(mounts)
  }

  /**
    Whatever the guard lets through shares no disk with the root file system or
    any boot partition, with that exception.
   */
  lemma BootDiskExcluded(
    target: BlockDevice, role: NodeRole, confirmed: bool, mounts: seq<MountEntry>, all: seq<BlockDevice>,
        mounted: string)
    requires IsScanned(target) && PlainName(mounted) && BootsFrom(mounts, mounted)
    requires EvaluateFormat(target, role, confirmed, mounts, all).Ok?
    ensures SharesDisk(target, mounted) ==> Missed(target, mounted)
    ensures !target.isPartition ==> !SharesDisk(target, mounted)
  {
    if SharesDisk(target, mounted) {
      RelatedDevicesMatch(target, mounted, all);
    }
  }

  /** Without a root entry in the mount table nothing is let through. */
  lemma NoRootNoFormat(target: BlockDevice, role: NodeRole, confirmed: bool, mounts: seq<MountEntry>,
      all: seq<BlockDevice>)
    requires FindByMountPoint(mounts, "/").None?
    ensures EvaluateFormat(target, role, confirmed, mounts, all).Err?
  {
  }

  lemma DeniedInitial(name: string)
    requires Denied(name)
    ensures name != "" && name[0] in "mrlz"
  {
    var d :| d in STATIC_BOOT_DENYLIST && d <= name;
    assert d[0] in "mrlz";
  }

  lemma RootElsewhere(d: BlockDevice, root: MountEntry)
    requires root.mountPoint == "/" && !Denied(d.name) && !DeviceOrParentMatch(d, root.device, [])
    ensures BootCheck(d, [root], []) == None
  {
    assert FindByMountPoint([root], "/") == Some(root);
    assert [root][1..] == [];
  }

  /** The first partition of the array md0, blank and unmounted. */
  function ArrayPartition(): BlockDevice {
    BlockDevice("md0p1", DevPath("md0p1"), [], None, None, None, true, DetermineParentDisk("md0p1"), [])
  }

  lemma ArrayPartitionOfArray()
    ensures PartitionOf("md0", "md0p1") && !ParentFound("md0") && !Denied("md0p1")
  {
    assert "md0"[2] == '0' && Stem("md0") == "md0p" && "md0p1"[4..] == "1";
    var denied := STATIC_BOOT_DENYLIST;
    forall d | d in denied ensures !(d <= "md0p1") {
      assert d[0] != 'm' || d[1] == 'm';
    }
  }

  /** With the root file system directly on the array md0, its partition md0p1 passes the guard. */
  lemma ArrayPartitionIsAdmitted(role: NodeRole, options: seq<string>)
    ensures var root := MountEntry(DevPath("md0"), "/", "ext4", options);
            && IsScanned(ArrayPartition()) && Missed(ArrayPartition(), "md0") && BootsFrom([root], "md0")
            && EvaluateFormat(ArrayPartition(), role, false, [root], []) == Ok(ProceedWithFormat)
  {
    var target, root := ArrayPartition(), MountEntry(DevPath("md0"), "/", "ext4", options);
    ArrayPartitionOfArray();
    PartitionMatchesIff(target, "md0", []);
    RootElsewhere(target, root);
    assert FindByMountPoint([root], "/") == Some(root);
  }

  // --------------------------------------------------- what the guard decides

  /** The device carries neither a recognised file system nor a UUID. */
  predicate Blank(d: BlockDevice) {
    d.fsType == None && d.uuid == None
  }

  /** The role's storage is already in place: an ext4 file system mounted where that role keeps its data. */
  predicate AlreadyServes(d: BlockDevice, role: NodeRole) {
    && d.fsType == Some("ext4")
    && (|| (role == Worker && "/mnt/gfs-storage" in d.mountPoints)
        || ((role == Master || role == Seed) && "/var/lib/rancher/k3s/server/db/etcd" in d.mountPoints))
  }

  predicate Operates(role: NodeRole) {
    role == Worker || role == Master || role == Seed
  }

  /** Without confirmation only a blank device is formatted. */
  lemma UnconfirmedNeedsBlank(
    target: BlockDevice, role: NodeRole, mounts: seq<MountEntry>, all: seq<BlockDevice>)
    requires EvaluateFormat(target, role, false, mounts, all) == Ok(ProceedWithFormat)
    ensures Blank(target)
  {
  }

  /**
    Beyond the boot check the guard is exactly this: storage already in place is
    skipped, mounted devices are not formatted for idle roles, and anything else
    is formatted if and only if it is blank or confirmed.
   */
  lemma GuardDecides(target: BlockDevice, role: NodeRole, confirmed: bool, mounts: seq<MountEntry>,
      all: seq<BlockDevice>)
    requires BootCheck(target, mounts, all) == None
    ensures var d := EvaluateFormat(target, role, confirmed, mounts, all);
            && (d.Ok? && d.value != ProceedWithFormat <==> AlreadyServes(target, role))
            && (d == Ok(ProceedWithFormat) <==>
                  && !AlreadyServes(target, role) && (confirmed || Blank(target))
                  && (target.mountPoints == [] || Operates(role)))
            && (d == Err(MissingConfirmation) ==> !confirmed && !Blank(target))
  {
  }

  /** The on-board card slots and virtual devices are refused by name. */
  lemma BootMediaAreRefused(
    target: BlockDevice, role: NodeRole, confirmed: bool, mounts: seq<MountEntry>, all: seq<BlockDevice>)
    requires || "mmcblk0" <= target.name || "mmcblk1" <= target.name || "ram0" <= target.name
             || "ram1" <= target.name || "loop0" <= target.name || "zram0" <= target.name
    ensures EvaluateFormat(target, role, confirmed, mounts, all).Err?
  {
    forall k: nat | k < |STATIC_BOOT_DENYLIST| && STATIC_BOOT_DENYLIST[k] <= target.name ensures Denied(target.name) {
      DeniedBy(target.name, k);
    }
    var list := STATIC_BOOT_DENYLIST;
    assert list[0] == "mmcblk0" && list[4] == "mmcblk1" && list[7] == "ram0" && list[8] == "ram1";
    assert list[9] == "loop0" && list[10] == "zram0";
  }

  lemma DeniedBy(name: string, k: nat)
    requires k < |STATIC_BOOT_DENYLIST| && STATIC_BOOT_DENYLIST[k] <= name
    ensures Denied(name)
  {
    assert STATIC_BOOT_DENYLIST[k] in STATIC_BOOT_DENYLIST;
  }

  /** So is a device that root or a boot directory is mounted from by its own path or by one of its by-id links. */
  lemma OwnPathsAreRefused(
    target: BlockDevice, role: NodeRole, confirmed: bool, mounts: seq<MountEntry>, all: seq<BlockDevice>, spec: string)
    requires spec == target.devPath || spec in target.byIdPaths
    requires (FindByMountPoint(mounts, "/").Some? && FindByMountPoint(mounts, "/").value.device == spec) ||
             spec in BootDevices(mounts)
    ensures EvaluateFormat(target, role, confirmed, mounts, all).Err?
  {
    assert DeviceOrParentMatch(target, spec, all);
  }
}
