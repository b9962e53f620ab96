/** Provisioning a node's disk and what a second run finds (crates/cluster-ldm/src/main.rs). */
module Provision {
  import opened Common
  import opened Crd
  import opened Text
  import opened MountTable
  import opened Device
  import opened Safety
  import opened Discovery

  datatype ProvisionError = Unresolved(device: DeviceError) | Unsafe(safety: SafetyError)

  /** The disk and decision a run arrives at before it changes anything. */
  datatype Plan = Plan(disk: nat, decision: FormatDecision)

  function PlanFor(m: Machine, target: Option<string>, role: NodeRole, confirmed: bool):
    (r: Result<Plan, ProvisionError>)
    ensures r.Ok? ==> r.value.disk < |m.disks|
  {
    var i := Resolved(m, target, role);
    if i.Err? then Err(Unresolved(i.error))
    else
      var d := EvaluateFormat(m.Device(i.value), role, confirmed, m.mounts, m.All());
      if d.Err? then Err(Unsafe(d.error)) else Ok(Plan(i.value, d.value))
  }

  /** Resolves the target and asks the guard; nothing is changed. */
  method MakePlan(m: Machine, target: Option<string>, role: NodeRole, confirmed: bool)
      returns (r: Result<Plan, ProvisionError>)
    ensures r == PlanFor(m, target, role, confirmed)
  {
    var i := ResolveTargetDisk(m, target, role);
    if i.Err? {
      return Err(Unresolved(i.error));
    }
    var all := ScanAll(m);
    var device := FromSysfs(m.disks[i.value], m.mounts);
    var decision := EvaluateFormat(device, role, confirmed, m.mounts, all);
    return if decision.Err? then Err(Unsafe(decision.error)) else Ok(Plan(i.value, decision.value));
  }

  /** An unconfirmed run goes for a blank disk or none. */
  lemma UnconfirmedPlanNeedsBlank(m: Machine, target: Option<string>, role: NodeRole, i: nat)
    requires PlanFor(m, target, role, false) == Ok(Plan(i, ProceedWithFormat))
    ensures i < |m.disks| && m.disks[i].fsType == None && m.disks[i].uuid == None
  {
    UnconfirmedNeedsBlank(m.Device(i), role, m.mounts, m.All());
  }

  /** Where a role's storage is mounted, and with which options. */
  function MountConfig(role: NodeRole): (string, string) {
    match role
    case Master => (ETCD_MOUNT, "data=ordered,barrier=1,noatime")
    case Seed => (ETCD_MOUNT, "data=ordered,barrier=1,noatime")
    case Worker => (GFS_MOUNT, "commit=60,noatime")
    case _ => ("/mnt/storage", "noatime")
  }

  predicate Operational(role: NodeRole) {
    role == Seed || role == Master || role == Worker
  }

  /** Neither the root nor a boot mount point. */
  predicate DataMount(mountPoint: string) {
    mountPoint != "/" && mountPoint != "/boot" && mountPoint != "/boot/firmware"
  }

  /** The mounter's destination is the mount the guard looks for, and is neither root nor boot. */
  lemma MountConfigMeetsGuard(role: NodeRole)
    requires Operational(role)
    ensures ExpectedMount(role) == Some(MountConfig(role).0)
    ensures DataMount(MountConfig(role).0)
  {
    assert ETCD_MOUNT[1] == 'v' && GFS_MOUNT[1] == 'm';
  }

  /**
    What a rescan reports about a freshly provisioned disk: its new UUID, where
    it is mounted, and its live options.
   */
  datatype Written = Written(uuid: Option<string>, mountPoint: string, options: seq<string>)

  function NewMount(name: string, wr: Written): MountEntry {
    MountEntry(DevPath(name), wr.mountPoint, "ext4", wr.options)
  }

  /** The machine as a rescan finds it after formatting and mounting disk i. */
  function Provisioned(m: Machine, i: nat, wr: Written): Machine
    requires i < |m.disks|
  {
    Machine(m.disks[i := m.disks[i].(fsType := Some("ext4"), uuid := wr.uuid)],
            m.mounts + [NewMount(m.disks[i].name, wr)])
  }

  /** Distinct ordinary names, and no other disk's by-id link is this disk's own path. */
  ghost predicate Sound(m: Machine) {
    && (forall i | 0 <= i < |m.disks| :: PlainName(m.disks[i].name))
    && (forall i, j | 0 <= i < |m.disks| && 0 <= j < |m.disks| && i != j ::
          m.disks[i].name != m.disks[j].name && DevPath(m.disks[i].name) !in m.disks[j].byIdPaths)
  }

  // ------------------------------------------ what provisioning leaves alone

  /** What follows the last slash. */
  ghost function LastSegment(s: string): string
    decreases |s|
  {
    var i := Find(s, '/');
    if i == |s| then s else LastSegment(s[i + 1..])
  }

  lemma {:induction false} LastSegmentOf(prefix: string, name: string)
    requires '/' !in name
    ensures LastSegment(prefix + "/" + name) == name
    decreases |prefix|
  {
    var s := prefix + "/" + name;
    var i := Find(s, '/');
    assert s[|prefix|] == '/';
    if i < |prefix| {
      assert s[i + 1..] == prefix[i + 1..] + "/" + name;
      LastSegmentOf(prefix[i + 1..], name);
    } else {
      assert s[i + 1..] == name;
      assert Find(name, '/') == |name|;
    }
  }

  lemma SuffixIsLastSegment(name: string, other: string)
    requires PlainName(name) && PlainName(other)
    ensures EndsWith(DevPath(name), "/" + other) ==> other == name
  {
    var s, tail := DevPath(name), "/" + other;
    assert s == "/dev" + "/" + name;
    LastSegmentOf("/dev", name);
    if EndsWith(s, tail) {
      var before := s[..|s| - |tail|];
      assert s == before + "/" + other;
      LastSegmentOf(before, other);
    }
  }

  lemma NewMountIsForeign(name: string, disk: Disk, wr: Written)
    requires PlainName(name) && PlainName(disk.name) && name != disk.name && DevPath(name) !in disk.byIdPaths
    ensures !Mounts(NewMount(name, wr), disk)
  {
    SuffixIsLastSegment(name, disk.name);
    assert DevPath(name)[5..] == name && DevPath(disk.name)[5..] == disk.name;
  }

  lemma OtherDisksUnchanged(m: Machine, i: nat, j: nat, wr: Written)
    requires Sound(m) && i < |m.disks| && j < |m.disks| && i != j
    ensures Provisioned(m, i, wr).Device(j) == m.Device(j)
  {
    var e := NewMount(m.disks[i].name, wr);
    NewMountIsForeign(m.disks[i].name, m.disks[j], wr);
    assert (m.mounts + [e])[..|m.mounts|] == m.mounts;
    assert MountPoints(m.disks[j], m.mounts + [e]) == MountPoints(m.disks[j], m.mounts) + [];
  }

  lemma {:induction false} SameDiskSameMounts(a: Disk, b: Disk, entries: seq<MountEntry>)
    requires a.name == b.name && a.byIdPaths == b.byIdPaths
    ensures MountPoints(a, entries) == MountPoints(b, entries)
  {
    if entries != [] {
      SameDiskSameMounts(a, b, entries[..|entries| - 1]);
    }
  }

  lemma OwnDiskGainsMountPoint(m: Machine, i: nat, wr: Written)
    requires i < |m.disks|
    ensures Provisioned(m, i, wr).Device(i) ==
            m.Device(i).(fsType := Some("ext4"), uuid := wr.uuid,
                         mountPoints := m.Device(i).mountPoints + [wr.mountPoint])
  {
    var e := NewMount(m.disks[i].name, wr);
    assert (m.mounts + [e])[..|m.mounts|] == m.mounts;
    SameDiskSameMounts(m.disks[i], Provisioned(m, i, wr).disks[i], m.mounts);
  }

  lemma {:induction false} LookupIgnoresLaterMount(mounts: seq<MountEntry>, e: MountEntry, target: string)
    requires e.mountPoint != target
    ensures FindByMountPoint(mounts + [e], target) == FindByMountPoint(mounts, target)
  {
    if mounts != [] {
      assert (mounts + [e])[1..] == mounts[1..] + [e];
      LookupIgnoresLaterMount(mounts[1..], e, target);
    }
  }

  lemma {:induction false} BootIgnoresLaterMount(mounts: seq<MountEntry>, e: MountEntry)
    requires e.mountPoint != "/boot" && e.mountPoint != "/boot/firmware"
    ensures BootDevices(mounts + [e]) == BootDevices(mounts)
  {
    if mounts != [] {
      assert (mounts + [e])[1..] == mounts[1..] + [e];
      BootIgnoresLaterMount(mounts[1..], e);
    }
  }

  /** Boot checks come out the same with the new mount in the table. */
  lemma BootCheckUnchanged(mounts: seq<MountEntry>, e: MountEntry, d: BlockDevice)
    requires DataMount(e.mountPoint)
    ensures BootCheck(d, mounts + [e], []) == BootCheck(d, mounts, [])
  {
    LookupIgnoresLaterMount(mounts, e, "/");
    BootIgnoresLaterMount(mounts, e);
  }

  ghost predicate SameIdentity(d: BlockDevice, d': BlockDevice) {
    d'.name == d.name && d'.devPath == d.devPath && d'.byIdPaths == d.byIdPaths && d'.parentDisk == d.parentDisk
  }

  lemma {:induction false} FirstMatchSeesIdentityOnly(d: BlockDevice, d': BlockDevice, specs: seq<string>)
    requires SameIdentity(d, d')
    ensures FirstMatch(d', specs, []) == FirstMatch(d, specs, [])
  {
    if specs != [] {
      FirstMatchSeesIdentityOnly(d, d', specs[1..]);
    }
  }

  /** The boot check looks only at names, paths and links. */
  lemma BootCheckSeesIdentityOnly(d: BlockDevice, d': BlockDevice, mounts: seq<MountEntry>)
    requires SameIdentity(d, d')
    ensures BootCheck(d', mounts, []) == BootCheck(d, mounts, [])
  {
    FirstMatchSeesIdentityOnly(d, d', BootDevices(mounts));
  }

  /** The guard's verdict on a disk, freed of the device listing. */
  lemma VerdictOn(m: Machine, j: nat, role: NodeRole, confirmed: bool)
    requires j < |m.disks|
    ensures EvaluateFormat(m.Device(j), role, confirmed, m.mounts, m.All()) ==
        EvaluateFormat(m.Device(j), role, confirmed, m.mounts, [])
  {
    AllDevicesAreScanned(m.disks, m.mounts);
    DecisionIgnoresListing(m.Device(j), role, confirmed, m.mounts, m.All());
  }

  /** Every other disk gets the same decision as before. */
  lemma OtherDisksKeepDecision(m: Machine, i: nat, j: nat, wr: Written, role: NodeRole, confirmed: bool)
    requires Sound(m) && i < |m.disks| && j < |m.disks| && i != j && DataMount(wr.mountPoint)
    ensures var m' := Provisioned(m, i, wr);
            EvaluateFormat(m'.Device(j), role, confirmed, m'.mounts, m'.All()) ==
            EvaluateFormat(m.Device(j), role, confirmed, m.mounts, m.All())
  {
    OtherDisksUnchanged(m, i, j, wr);
    VerdictOn(m, j, role, confirmed);
    VerdictOn(Provisioned(m, i, wr), j, role, confirmed);
    BootCheckUnchanged(m.mounts, NewMount(m.disks[i].name, wr), m.Device(j));
  }

  /** The provisioned disk is recognised and skipped, confirmed or not. */
  lemma OwnDiskIsSkipped(m: Machine, i: nat, wr: Written, role: NodeRole, confirmed: bool, again: bool)
    requires i < |m.disks| && DataMount(wr.mountPoint) && ExpectedMount(role) == Some(wr.mountPoint)
    requires EvaluateFormat(m.Device(i), role, confirmed, m.mounts, m.All()).Ok?
    ensures var m' := Provisioned(m, i, wr);
            EvaluateFormat(m'.Device(i), role, again, m'.mounts, m'.All()) ==
                Ok(SkipFormatAlreadyMatching("ext4", wr.mountPoint))
  {
    var m' := Provisioned(m, i, wr);
    OwnDiskGainsMountPoint(m, i, wr);
    VerdictOn(m, i, role, confirmed);
    VerdictOn(m', i, role, again);
    BootCheckUnchanged(m.mounts, NewMount(m.disks[i].name, wr), m'.Device(i));
    BootCheckSeesIdentityOnly(m.Device(i), m'.Device(i), m.mounts);
  }

  // ------------------------------------------------------------- the second run

  lemma EligibilityUnchanged(m: Machine, i: nat, j: nat, wr: Written, role: NodeRole)
    requires Sound(m) && i < |m.disks| && j < |m.disks| && DataMount(wr.mountPoint)
    requires ExpectedMount(role) == Some(wr.mountPoint) && Eligible(m, role, i)
    ensures Eligible(Provisioned(m, i, wr), role, j) == Eligible(m, role, j)
  {
    if j == i {
      OwnDiskIsSkipped(m, i, wr, role, true, true);
    } else {
      OtherDisksKeepDecision(m, i, j, wr, role, true);
    }
  }

  /** Among the same positions the search stops at i again exactly when i's flag is still set. */
  lemma {:induction false} SameFirstSet(indices: seq<nat>, flags: seq<bool>, flags': seq<bool>, i: nat)
    requires |flags'| == |flags| && forall k | 0 <= k < |indices| :: indices[k] < |flags|
    requires forall j: nat | j < |flags| && j != i :: flags'[j] == flags[j]
    requires FirstSet(indices, flags) == Some(i)
    ensures FirstSet(indices, flags') == Some(i) <==> flags'[i]
  {
    if indices[0] != i {
      SameFirstSet(indices[1..], flags, flags', i);
    }
  }

  lemma SameChoice(eligible: seq<bool>, named: seq<bool>, named': seq<bool>, i: nat)
    requires |named| == |named'| == |eligible| && Choose(eligible, Some(named)) == Ok(i)
    requires forall j: nat | j < |named| && j != i :: named'[j] == named[j]
    ensures Choose(eligible, Some(named')) == Ok(i) <==> named'[i]
  {
    SameFirstSet(Picks(eligible), named, named', i);
  }

  lemma SecondRunResolves(m: Machine, target: Option<string>, role: NodeRole, i: nat, wr: Written)
    requires Sound(m) && DataMount(wr.mountPoint) && ExpectedMount(role) == Some(wr.mountPoint)
    requires Resolved(m, target, role) == Ok(i)
    ensures var m' := Provisioned(m, i, wr);
            Resolved(m', target, role) == Ok(i) <==> target.None? || MatchesIdentifier(m'.Device(i), target.value)
  {
    var m' := Provisioned(m, i, wr);
    assert EligibleFlags(m', role) == EligibleFlags(m, role) by {
      forall j: nat | j < |m.disks| ensures EligibleFlags(m', role)[j] == EligibleFlags(m, role)[j] {
        EligibilityUnchanged(m, i, j, wr, role);
      }
    }
    if target.Some? {
      var named, named' := NamedFlags(m, target.value), NamedFlags(m', target.value);
      forall j: nat | j < |named| && j != i ensures named'[j] == named[j] {
        OtherDisksUnchanged(m, i, j, wr);
      }
      SameChoice(EligibleFlags(m, role), named, named', i);
    }
  }

  lemma PlanFollowsResolution(m: Machine, target: Option<string>, role: NodeRole, confirmed: bool, i: nat,
      decision: FormatDecision)
    requires i < |m.disks| && EvaluateFormat(m.Device(i), role, confirmed, m.mounts, m.All()) == Ok(decision)
    ensures PlanFor(m, target, role, confirmed) == Ok(Plan(i, decision)) <==> Resolved(m, target, role) == Ok(i)
  {
  }

  lemma RerunSkipsIffNamed(
    m: Machine, target: Option<string>, role: NodeRole, confirmed: bool, again: bool, wr: Written, i: nat)
    requires Sound(m) && Operational(role) && wr.mountPoint == MountConfig(role).0
    requires PlanFor(m, target, role, confirmed) == Ok(Plan(i, ProceedWithFormat))
    ensures var m' := Provisioned(m, i, wr);
            PlanFor(m', target, role, again) == Ok(Plan(i, SkipFormatAlreadyMatching("ext4", wr.mountPoint))) <==>
            target.None? || MatchesIdentifier(m'.Device(i), target.value)
  {
    MountConfigMeetsGuard(role);
    assert Resolved(m, target, role) == Ok(i) && EvaluateFormat(m.Device(i), role, confirmed, m.mounts, m.All()).Ok?;
    SecondRunResolves(m, target, role, i, wr);
    OwnDiskIsSkipped(m, i, wr, role, confirmed, again);
    var skip := SkipFormatAlreadyMatching("ext4", wr.mountPoint);
    PlanFollowsResolution(Provisioned(m, i, wr), target, role, again, i, skip);
  }

  /** The identifier is this UUID, with or without its tag. */
  predicate NamesUuid(uuid: Option<string>, id: string) {
    uuid.Some? && (uuid.value == id || id == "UUID=" + uuid.value)
  }

  /** Device paths and by-id links survive formatting; of the UUIDs only the new one names the disk. */
  lemma NamesAfterFormatting(m: Machine, i: nat, wr: Written, id: string)
    requires i < |m.disks|
    ensures MatchesIdentifier(Provisioned(m, i, wr).Device(i), id) <==>
            MatchesStably(m.Device(i), id) || NamesUuid(wr.uuid, id)
  {
    OwnDiskGainsMountPoint(m, i, wr);
  }

  /**
    After a successful run that formatted disk i for an operational role, a
    rerun settles on the same disk and skips it exactly when the target is
    absent, names the disk by device path or by-id link, or is the UUID the new
    file system was given.
   */
  lemma RerunSkipsIff(
    m: Machine, target: Option<string>, role: NodeRole, confirmed: bool, again: bool, wr: Written, i: nat)
    requires Sound(m) && Operational(role) && wr.mountPoint == MountConfig(role).0
    requires PlanFor(m, target, role, confirmed) == Ok(Plan(i, ProceedWithFormat))
    ensures PlanFor(Provisioned(m, i, wr), target, role, again) ==
              Ok(Plan(i, SkipFormatAlreadyMatching("ext4", wr.mountPoint))) <==>
            target.None? || MatchesStably(m.Device(i), target.value) || NamesUuid(wr.uuid, target.value)
  {
    RerunSkipsIffNamed(m, target, role, confirmed, again, wr, i);
    if target.Some? {
      NamesAfterFormatting(m, i, wr, target.value);
    }
  }

  /** The promise for targets that are absent, by-id links or device paths. */
  lemma RerunIsIdempotent(
    m: Machine, target: Option<string>, role: NodeRole, confirmed: bool, again: bool, wr: Written, i: nat)
    requires Sound(m) && Operational(role) && wr.mountPoint == MountConfig(role).0
    requires PlanFor(m, target, role, confirmed) == Ok(Plan(i, ProceedWithFormat))
    requires target.Some? ==> MatchesStably(m.Device(i), target.value)
    ensures PlanFor(Provisioned(m, i, wr), target, role, again) ==
            Ok(Plan(i, SkipFormatAlreadyMatching("ext4", wr.mountPoint)))
  {
    RerunSkipsIff(m, target, role, confirmed, again, wr, i);
  }

  /** A target that named the disk only by the UUID being overwritten is lost by the format. */
  lemma OldUuidIsLost(m: Machine, id: string, role: NodeRole, confirmed: bool, again: bool, wr: Written, i: nat)
    requires Sound(m) && Operational(role) && wr.mountPoint == MountConfig(role).0
    requires PlanFor(m, Some(id), role, confirmed) == Ok(Plan(i, ProceedWithFormat))
    requires !MatchesStably(m.Device(i), id) && !NamesUuid(wr.uuid, id)
    ensures PlanFor(Provisioned(m, i, wr), Some(id), role, again) !=
            Ok(Plan(i, SkipFormatAlreadyMatching("ext4", wr.mountPoint)))
  {
    RerunSkipsIff(m, Some(id), role, confirmed, again, wr, i);
  }

  /**
    A board's only disk, unmounted and not what the system boots from, is
    provisioned if the target is absent or names it, and if it is blank or
    reformatting is confirmed.
   */
  lemma SoleDiskIsProvisioned(m: Machine, target: Option<string>, role: NodeRole, confirmed: bool)
    requires |m.disks| == 1 && !Virtual(m.disks[0].name) && !m.disks[0].isPartition
    requires confirmed || (m.disks[0].fsType == None && m.disks[0].uuid == None)
    requires m.Device(0).mountPoints == [] && BootCheck(m.Device(0), m.mounts, []) == None
    requires target.Some? ==> MatchesIdentifier(m.Device(0), target.value)
    ensures PlanFor(m, target, role, confirmed) == Ok(Plan(0, ProceedWithFormat))
  {
    VerdictOn(m, 0, role, confirmed);
    VerdictOn(m, 0, role, true);
    SoleChoice(EligibleFlags(m, role), if target.Some? then Some(NamedFlags(m, target.value)) else None);
  }

  lemma SoleChoice(eligible: seq<bool>, named: Option<seq<bool>>)
    requires eligible == [true] && (named.Some? ==> named.value == [true])
    ensures Choose(eligible, named) == Ok(0)
  {
    assert [true][..0] == [];
    assert Picks([true]) == [0];
  }

  lemma NoOwnMounts(disk: Disk, e: MountEntry)
    requires !Mounts(e, disk)
    ensures MountPoints(disk, [e]) == []
  {
    assert [e][..0] == [];
  }

  function CardBooted(options: seq<string>): Machine {
    Machine([Disk("sda", false, [], None, None, None)], [NewMount("mmcblk0p2", Written(None, "/", options))])
  }

  /** A disk sda without links is unrelated to a root file system on the card. */
  lemma CardRootIsElsewhere(disk: Disk, root: MountEntry, options: seq<string>)
    requires disk.name == "sda" && !disk.isPartition && disk.byIdPaths == []
    requires root == NewMount("mmcblk0p2", Written(None, "/", options))
    ensures MountPoints(disk, [root]) == [] && BootCheck(Scanned(disk, [root]), [root], []) == None
    ensures PlainName(disk.name)
  {
    var name, d := "sda", Scanned(disk, [root]);
    assert name[0] == 's' && name[1] == 'd';
    NewMountIsForeign("mmcblk0p2", disk, Written(None, "/", options));
    NoOwnMounts(disk, root);
    assert !Denied(name) by {
      if Denied(name) {
        DeniedInitial(name);
      }
    }
    MatchIsNamePrefix(d, "mmcblk0p2", []);
    RootElsewhere(d, root);
  }

  /** A board booted from its card with one blank disk is such a machine. */
  lemma CardBootedIsProvisioned(options: seq<string>, role: NodeRole)
    ensures Sound(CardBooted(options))
    ensures PlanFor(CardBooted(options), None, role, false) == Ok(Plan(0, ProceedWithFormat))
  {
    var m := CardBooted(options);
    CardRootIsElsewhere(m.disks[0], m.mounts[0], options);
    assert m.disks[0].name[0] == 's';
    SoleDiskIsProvisioned(m, None, role, false);
  }

  // --------------------------------------------------- a target that is lost

  /** A card-booted board whose only disk carries an ext4 file system with UUID `u`. */
  function UsedBoard(): Machine {
    Machine([Disk("sda", false, [], Some("u"), Some("ext4"), None)], [NewMount("mmcblk0p2", Written(None, "/", []))])
  }

  lemma UsedBoardPassesBootCheck()
    ensures Sound(UsedBoard()) && UsedBoard().Device(0).mountPoints == []
    ensures BootCheck(UsedBoard().Device(0), UsedBoard().mounts, []) == None
  {
    var m := UsedBoard();
    CardRootIsElsewhere(m.disks[0], m.mounts[0], []);
  }

  lemma UsedBoardIsReformatted(role: NodeRole)
    ensures PlanFor(UsedBoard(), Some("u"), role, true) == Ok(Plan(0, ProceedWithFormat))
  {
    UsedBoardPassesBootCheck();
    assert UsedBoard().disks[0].name[0] == 's';
    SoleDiskIsProvisioned(UsedBoard(), Some("u"), role, true);
  }

  lemma UuidIsNoPath()
    ensures !MatchesStably(UsedBoard().Device(0), "u")
  {
    DevPathComponents("sda");
    SplitSingle("u", '/');
  }

  /** That board, provisioned by its UUID, loses its target: the rerun no longer finds the disk. */
  lemma OldUuidIsLostAt(role: NodeRole, again: bool, options: seq<string>)
    requires Operational(role)
    ensures var m, wr := UsedBoard(), Written(Some("v"), MountConfig(role).0, options);
            && PlanFor(m, Some("u"), role, true) == Ok(Plan(0, ProceedWithFormat))
            && PlanFor(Provisioned(m, 0, wr), Some("u"), role, again) !=
               Ok(Plan(0, SkipFormatAlreadyMatching("ext4", wr.mountPoint)))
  {
    var m, wr := UsedBoard(), Written(Some("v"), MountConfig(role).0, options);
    UsedBoardPassesBootCheck();
    UsedBoardIsReformatted(role);
    UuidIsNoPath();
    assert !NamesUuid(wr.uuid, "u") by { assert "v"[0] == 'v' && "u"[0] == 'u'; }
    OldUuidIsLost(m, "u", role, true, again, wr, 0);
  }
}
