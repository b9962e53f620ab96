/**
  The local disk manager's operations on one machine
  (crates/cluster-ldm/src/format.rs, mount.rs and main.rs).
 */
module DiskManager {
  import opened Common
  import opened Crd
  import opened MountTable
  import opened Device
  import opened Safety
  import opened Discovery
  import opened Provision
  import opened Audit
  import opened Fstab
  import opened Text
  import FstabProperties

  const DRY_RUN_UUID := "dry-run-uuid-0000-0000"
  const UNKNOWN_UUID := "unknown-uuid"

  datatype LdmError = AuditFailed | Internal | NotProvisionable(reason: ProvisionError)

  function SerialOf(d: Disk): string {
    d.serial.GetOr(d.name)
  }

  /** The mounts left after unmounting the latest one at a path. */
  function Unmounted(mounts: seq<MountEntry>, path: string): seq<MountEntry> {
    if mounts == [] then []
    else
      var n := |mounts| - 1;
      if mounts[n].mountPoint == path then mounts[..n] else Unmounted(mounts[..n], path) + [mounts[n]]
  }

  /** What the environment answers during one provisioning run. */
  datatype Environment = Environment(
    auditOpens: bool, format: Faults, mount: Faults, newUuid: string, blkid: Option<string>, debris: Content,
        options: seq<string>)

  /** What a disk holds, as far as a scan sees it. */
  datatype Content = Content(fsType: Option<string>, uuid: Option<string>)

  /** The UUID that goes into fstab. */
  function ReportedUuid(env: Environment): string {
    env.blkid.GetOr(UNKNOWN_UUID)
  }

  function WrittenBy(env: Environment, role: NodeRole): Written {
    Written(Some(env.newUuid), MountConfig(role).0, env.options)
  }

  function FstabEntry(env: Environment, role: NodeRole): Entry {
    Entry(ReportedUuid(env), MountConfig(role).0, "ext4", MountConfig(role).1)
  }

  /** Whether the format command is reached. */
  predicate RunsMkfs(role: NodeRole, dryRun: bool, f: Faults) {
    f.pre.Ok() && !dryRun && Operational(role) && (role != Worker ==> f.prepared)
  }

  /** Whether the format command runs and succeeds. */
  predicate Formats(role: NodeRole, dryRun: bool, f: Faults) {
    RunsMkfs(role, dryRun, f) && f.command.Succeeds?
  }

  /** Whether the mount command runs and succeeds. */
  predicate MountsDisk(dryRun: bool, f: Faults) {
    f.pre.Ok() && !dryRun && f.prepared && f.command.Succeeds?
  }

  function Overwritten(m: Machine, i: nat, c: Content): Machine
    requires i < |m.disks|
  {
    m.(disks := m.disks[i := m.disks[i].(fsType := c.fsType, uuid := c.uuid)])
  }

  /**
    A successful mkfs leaves the new file system, a failing one whatever debris
    it may, one that cannot start nothing.
   */
  function AfterMkfs(m: Machine, i: nat, role: NodeRole, dryRun: bool, f: Faults, newUuid: string,
      debris: Content): Machine
    requires i < |m.disks|
  {
    if !RunsMkfs(role, dryRun, f) then m
    else
      match f.command
      case Succeeds => Overwritten(m, i, Content(Some("ext4"), Some(newUuid)))
      case ExitsWithError => Overwritten(m, i, debris)
      case CannotStart => m
  }

  function WithMount(m: Machine, i: nat, role: NodeRole, options: seq<string>): Machine
    requires i < |m.disks|
  {
    m.(mounts := m.mounts + [MountEntry(DevPath(m.disks[i].name), MountConfig(role).0, "ext4", options)])
  }

  /** Whether formatting is reported as done, so that mounting is tried. */
  predicate FormatReported(role: NodeRole, dryRun: bool, f: Faults) {
    if dryRun then f.pre.Ok() else Formats(role, dryRun, f) && f.post.Ok()
  }

  predicate MountReported(dryRun: bool, f: Faults) {
    if dryRun then f.pre.Ok() else MountsDisk(dryRun, f) && f.fstabWritten && f.post.Ok()
  }

  /** The machine after formatting and mounting disk i, however far that got. */
  function MachineAfter(m: Machine, i: nat, role: NodeRole, dryRun: bool, env: Environment): Machine
    requires i < |m.disks|
  {
    var m' := AfterMkfs(m, i, role, dryRun, env.format, env.newUuid, env.debris);
    if FormatReported(role, dryRun, env.format) && MountsDisk(dryRun, env.mount)
    then WithMount(m', i, role, env.options)
    else m'
  }

  function FstabAfter(content: Option<string>, role: NodeRole, dryRun: bool, env: Environment): Option<string> {
    if FormatReported(role, dryRun, env.format) && MountsDisk(dryRun, env.mount) && env.mount.fstabWritten
    then Some(Upserted(content, FstabEntry(env, role)))
    else content
  }

  function EffectsOf(serial: string, role: NodeRole, dryRun: bool, env: Environment): seq<Effect> {
    var formatting := FormatDisk(serial, role, dryRun, env.format).Effects();
    if FormatReported(role, dryRun, env.format)
    then formatting + MountDisk(serial, dryRun, env.mount).Effects()
    else formatting
  }

  /** The disk carries a file system or a UUID. */
  predicate HasData(d: Disk) {
    d.fsType.Some? || d.uuid.Some?
  }

  /** Everything a run can change. */
  datatype Snapshot = Snapshot(machine: Machine, effects: seq<Effect>, fstab: Option<string>)

  /** Whatever disk the target names, it names by device path or by-id link. */
  ghost predicate NamesStably(m: Machine, target: Option<string>) {
    target.Some? ==>
      forall i: nat | i < |m.disks| ::
        MatchesIdentifier(m.Device(i), target.value) ==> MatchesStably(m.Device(i), target.value)
  }

  lemma SkipIgnoresConfirmation(m: Machine, target: Option<string>, role: NodeRole, confirmed: bool, again: bool)
    requires PlanFor(m, target, role, confirmed).Ok?
        && PlanFor(m, target, role, confirmed).value.decision != ProceedWithFormat
    ensures PlanFor(m, target, role, again) == PlanFor(m, target, role, confirmed)
  {
  }

  /** Every disk that carried data is as it was. */
  ghost predicate DataKept(m: Machine, m': Machine) {
    && |m'.disks| == |m.disks|
    && forall j | 0 <= j < |m.disks| && HasData(m.disks[j]) :: m'.disks[j] == m.disks[j]
  }

  /** Without confirmation nothing that carries data is formatted, whatever the environment does. */
  lemma UnconfirmedKeepsData(m: Machine, target: Option<string>, role: NodeRole, i: nat, dryRun: bool, env: Environment)
    requires PlanFor(m, target, role, false) == Ok(Plan(i, ProceedWithFormat))
    ensures i < |m.disks| && DataKept(m, MachineAfter(m, i, role, dryRun, env))
  {
    UnconfirmedPlanNeedsBlank(m, target, role, i);
    OnlyThatDiskChanges(m, i, role, dryRun, env);
  }

  lemma OnlyThatDiskChanges(m: Machine, i: nat, role: NodeRole, dryRun: bool, env: Environment)
    requires i < |m.disks|
    ensures var m' := MachineAfter(m, i, role, dryRun, env);
            |m'.disks| == |m.disks| && forall j | 0 <= j < |m.disks| && j != i :: m'.disks[j] == m.disks[j]
  {
  }

  /** A reported success leaves the machine provisioned. */
  lemma ReportedMeansProvisioned(m: Machine, i: nat, role: NodeRole, env: Environment)
    requires i < |m.disks| && FormatReported(role, false, env.format) && MountReported(false, env.mount)
    ensures MachineAfter(m, i, role, false, env) == Provisioned(m, i, WrittenBy(env, role))
  {
  }

  /** A dry run changes neither the machine nor fstab and writes nothing but audit records. */
  lemma DryRunOnlyRecords(m: Machine, i: nat, content: Option<string>, role: NodeRole, env: Environment)
    requires i < |m.disks|
    ensures MachineAfter(m, i, role, true, env) == m && FstabAfter(content, role, true, env) == content
    ensures forall e | e in EffectsOf(SerialOf(m.disks[i]), role, true, env) :: e == Effect.Record(PreMutation)
  {
    RecordComesFirst(FormatDisk(SerialOf(m.disks[i]), role, true, env.format));
    RecordComesFirst(MountDisk(SerialOf(m.disks[i]), true, env.mount));
  }

  class DiskManager {
    var machine: Machine
    /** Every durable record and change so far. */
    var effects: seq<Effect>
    const fstab: FstabManager

    constructor (machine: Machine, fstab: FstabManager)
      ensures this.machine == machine && this.fstab == fstab && effects == []
    {
      this.machine, this.fstab, effects := machine, fstab, [];
    }

    method Record(phase: AuditPhase, w: Write) returns (ok: bool)
      modifies this`effects
      ensures ok == w.Ok()
      ensures effects == old(effects) + Recorded(phase, w)
    {
      if !w.NotStored? {
        effects := effects + [Effect.Record(phase)];
      }
      ok := w.Ok();
    }

    /** Formats disk i for a role. */
    method FormatDevice(
      i: nat, role: NodeRole, dryRun: bool, f: Faults, newUuid: string, blkid: Option<string>, debris: Content)
        returns (r: Result<string, LdmError>)
      requires i < |machine.disks|
      modifies this`machine, this`effects
      ensures effects == old(effects) + FormatDisk(SerialOf(old(machine).disks[i]), role, dryRun, f).Effects()
      ensures machine == AfterMkfs(old(machine), i, role, dryRun, f, newUuid, debris)
      ensures r.Ok? <==> FormatReported(role, dryRun, f)
      ensures r.Ok? ==> r.value == if dryRun then DRY_RUN_UUID else blkid.GetOr(UNKNOWN_UUID)
    {
      var recorded := Record(PreMutation, f.pre);
      if !recorded {
        return Err(AuditFailed);
      }
      if dryRun {
        return Ok(DRY_RUN_UUID);
      }
      match role {
      case Master =>
        effects := effects + [SideEffect];
        if !f.prepared {
          return Err(Internal);
        }
      case Seed =>
        effects := effects + [SideEffect];
        if !f.prepared {
          return Err(Internal);
        }
      case Worker =>
      case _ =>
        return Err(Internal);
      }
      effects := effects + [Command];
      if !f.command.Succeeds? {
        if f.command.ExitsWithError? {
          machine := Overwritten(machine, i, debris);
        }
        var logged := Record(PhaseFailure, f.post);
        return Err(Internal);
      }
      machine := Overwritten(machine, i, Content(Some("ext4"), Some(newUuid)));
      var posted := Record(PostMutation, f.post);
      return if posted then Ok(blkid.GetOr(UNKNOWN_UUID)) else Err(AuditFailed);
    }

    /** Mounts disk i for a role and enters it in fstab. */
    method MountRoleStorage(i: nat, uuid: string, role: NodeRole, dryRun: bool, f: Faults, options: seq<string>)
        returns (r: Result<string, LdmError>)
      requires i < |machine.disks|
      modifies this`machine, this`effects, fstab
      ensures effects == old(effects) + MountDisk(SerialOf(old(machine).disks[i]), dryRun, f).Effects()
      ensures machine == if MountsDisk(dryRun, f) then WithMount(old(machine), i, role, options) else old(machine)
      ensures fstab.content == if MountsDisk(dryRun, f) && f.fstabWritten
                               then Some(Upserted(old(fstab.content),
                                   Entry(uuid, MountConfig(role).0, "ext4", MountConfig(role).1)))
                               else old(fstab.content)
      ensures r.Ok? <==> MountReported(dryRun, f)
      ensures r.Ok? ==> r.value == MountConfig(role).0
    {
      var mountPoint, mountOptions := MountConfig(role).0, MountConfig(role).1;
      var recorded := Record(PreMutation, f.pre);
      if !recorded {
        return Err(AuditFailed);
      }
      if dryRun {
        return Ok(mountPoint);
      }
      effects := effects + [SideEffect];
      if !f.prepared {
        return Err(Internal);
      }
      effects := effects + [Command];
      if f.command.CannotStart? {
        return Err(Internal);
      }
      if f.command.ExitsWithError? {
        var logged := Record(PhaseFailure, f.post);
        return Err(Internal);
      }
      machine := WithMount(machine, i, role, options);
      effects := effects + [SideEffect];
      if !f.fstabWritten {
        return Err(Internal);
      }
      fstab.UpsertEntry(Entry(uuid, mountPoint, "ext4", mountOptions));
      var posted := Record(PostMutation, f.post);
      return if posted then Ok(mountPoint) else Err(AuditFailed);
    }

    /** Unmounts a path and drops it from fstab. */
    method UnmountPath(path: string, dryRun: bool, f: Faults) returns (r: Result<(), LdmError>)
      modifies this`machine, this`effects, fstab
      ensures effects == old(effects) + Operation.UnmountPath(dryRun, f).Effects()
      ensures machine.disks == old(machine).disks
      ensures machine.mounts == if f.pre.Ok() && !dryRun && f.command.Succeeds?
                                then Unmounted(old(machine).mounts, path)
                                else old(machine).mounts
      ensures fstab.content ==
          (if f.pre.Ok() && !dryRun && f.command.Succeeds? && f.fstabWritten && old(fstab.content).Some?
                                then Some(Removed(old(fstab.content).value, path)) else old(fstab.content))
      ensures r.Ok? <==> f.pre.Ok() && (dryRun || (f.command.Succeeds? && f.post.Ok()))
    {
      var recorded := Record(PreMutation, f.pre);
      if !recorded {
        return Err(AuditFailed);
      }
      if dryRun {
        return Ok(());
      }
      effects := effects + [Command];
      if !f.command.Succeeds? {
        return Err(Internal);
      }
      machine := machine.(mounts := Unmounted(machine.mounts, path));
      effects := effects + [SideEffect];
      if f.fstabWritten {
        fstab.RemoveEntry(path);
      }
      var posted := Record(PostMutation, f.post);
      return if posted then Ok(()) else Err(AuditFailed);
    }

    /** The destructive part of a run. */
    method FormatAndMount(i: nat, role: NodeRole, dryRun: bool, env: Environment) returns (r: Result<(), LdmError>)
      requires i < |machine.disks|
      modifies this`machine, this`effects, fstab
      ensures machine == MachineAfter(old(machine), i, role, dryRun, env)
      ensures fstab.content == FstabAfter(old(fstab.content), role, dryRun, env)
      ensures effects == old(effects) + EffectsOf(SerialOf(old(machine).disks[i]), role, dryRun, env)
      ensures r.Ok? <==> FormatReported(role, dryRun, env.format) && MountReported(dryRun, env.mount)
    {
      ghost var before, serial := effects, SerialOf(machine.disks[i]);
      ghost var formatting := FormatDisk(serial, role, dryRun, env.format).Effects();
      ghost var mounting := MountDisk(serial, dryRun, env.mount).Effects();
      var uuid := FormatDevice(i, role, dryRun, env.format, env.newUuid, env.blkid, env.debris);
      assert effects == before + formatting && SerialOf(machine.disks[i]) == serial;
      if uuid.Err? {
        return Err(uuid.error);
      }
      var mounted := MountRoleStorage(i, uuid.value, role, dryRun, env.mount, env.options);
      assert effects == before + (formatting + mounting);
      return if mounted.Ok? then Ok(()) else Err(mounted.error);
    }

    /** One provisioning run. */
    method RunProvision(role: NodeRole, target: Option<string>, confirmed: bool, dryRun: bool, env: Environment)
        returns (r: Result<(), LdmError>)
      modifies this`machine, this`effects, fstab
      ensures !Operational(role) ==>
          r.Ok? && machine == old(machine) && effects == old(effects) && fstab.content == old(fstab.content)
      ensures Operational(role) ==>
                var plan := PlanFor(old(machine), target, role, confirmed);
                if plan.Ok? && env.auditOpens && plan.value.decision == ProceedWithFormat then
                  && machine == MachineAfter(old(machine), plan.value.disk, role, dryRun, env)
                  && fstab.content == FstabAfter(old(fstab.content), role, dryRun, env)
                  && effects == old(effects) +
                      EffectsOf(SerialOf(old(machine).disks[plan.value.disk]), role, dryRun, env)
                  && (r.Ok? <==> FormatReported(role, dryRun, env.format) && MountReported(dryRun, env.mount))
                else
                  && machine == old(machine) && effects == old(effects) && fstab.content == old(fstab.content)
                  && r == if plan.Err? then Err(NotProvisionable(plan.error))
                          else if env.auditOpens then Ok(()) else Err(AuditFailed)
      ensures !confirmed ==>
                DataKept(old(machine), machine)
    {
      if role == Pending || role == Decommissioned {
        return Ok(());
      }
      var plan := MakePlan(machine, target, role, confirmed);
      if plan.Err? {
        return Err(NotProvisionable(plan.error));
      }
      if !env.auditOpens {
        return Err(AuditFailed);
      }
      if !confirmed && plan.value.decision == ProceedWithFormat {
        UnconfirmedKeepsData(machine, target, role, plan.value.disk, dryRun, env);
      }
      match plan.value.decision
      case ProceedWithFormat => r := FormatAndMount(plan.value.disk, role, dryRun, env);
      case SkipFormatAlreadyMatching(_, _) => return Ok(());
    }

    /**
      Two boots in a row: once provisioning has succeeded, running it again,
      confirmed or not, succeeds and changes nothing.
     */
    method TwoBoots(role: NodeRole, target: Option<string>, confirmed: bool, again: bool, env: Environment,
        env': Environment)
        returns (first: Result<(), LdmError>, between: Snapshot, second: Result<(), LdmError>)
      requires Operational(role) && Sound(machine) && NamesStably(machine, target)
      modifies this`machine, this`effects, fstab
      ensures first.Ok? && env'.auditOpens ==> second.Ok?
      ensures first.Ok? ==> Snapshot(machine, effects, fstab.content) == between
    {
      var plan := MakePlan(machine, target, role, confirmed);
      ghost var m := machine;
      first := RunProvision(role, target, confirmed, false, env);
      between := Snapshot(machine, effects, fstab.content);
      if first.Ok? {
        if plan.value.decision == ProceedWithFormat {
          ReportedMeansProvisioned(m, plan.value.disk, role, env);
          RerunIsIdempotent(m, target, role, confirmed, again, WrittenBy(env, role), plan.value.disk);
        } else {
          SkipIgnoresConfirmation(m, target, role, confirmed, again);
        }
      }
      second := RunProvision(role, target, again, false, env');
    }
  }

  // ----------------------------------------- what operations do to each other

  /** Unmounting what was mounted last restores the mounts; a path that is not mounted changes nothing. */
  lemma {:induction false} UnmountUndoesMount(mounts: seq<MountEntry>, e: MountEntry, path: string)
    ensures Unmounted(mounts + [e], e.mountPoint) == mounts
    ensures (forall m | m in mounts :: m.mountPoint != path) ==> Unmounted(mounts, path) == mounts
  {
    assert (mounts + [e])[..|mounts|] == mounts;
    if mounts != [] {
      var n := |mounts| - 1;
      UnmountUndoesMount(mounts[..n], e, path);
      assert mounts == mounts[..n] + [mounts[n]];
    }
  }

  /**
    A format or mount that reports success left exactly its write-ahead record,
    its command and its outcome in the log.
   */
  lemma SuccessIsRecorded(serial: string, role: NodeRole, f: Faults)
    ensures FormatReported(role, false, f) ==> FullyRecorded(FormatDisk(serial, role, false, f).Effects(), PostMutation)
    ensures MountReported(false, f) ==> FullyRecorded(MountDisk(serial, false, f).Effects(), PostMutation)
  {
    if FormatReported(role, false, f) {
      FormatIsRecorded(FormatDisk(serial, role, false, f));
    }
    if MountReported(false, f) {
      MountIsRecorded(MountDisk(serial, false, f));
    }
  }

  /** The columns that the next boot reads for a role's storage. */
  function BootEntry(uuid: string, role: NodeRole): MountEntry {
    if role == Worker
    then MountEntry("UUID=" + uuid, "/mnt/gfs-storage", "ext4", ["commit=60", "noatime"])
    else MountEntry("UUID=" + uuid, "/var/lib/rancher/k3s/server/db/etcd", "ext4",
                    ["data=ordered", "barrier=1", "noatime"])
  }

  lemma TwoOptions(a: string, b: string)
    requires ',' !in a && ',' !in b
    ensures Split(a + [','] + b, ',') == [a, b]
  {
    SplitSingle(b, ',');
    SplitCons(a, b, ',');
  }

  lemma ThreeOptions(a: string, b: string, c: string)
    requires ',' !in a && ',' !in b && ',' !in c
    ensures Split(a + [','] + (b + [','] + c), ',') == [a, b, c]
  {
    TwoOptions(b, c);
    SplitCons(a, b + [','] + c, ',');
  }

  lemma NoCommas()
    ensures ',' !in "commit=60" && ',' !in "noatime" && ',' !in "data=ordered" && ',' !in "barrier=1"
  {
  }

  lemma WorkerOptions(options: string, commit: string, noatime: string)
    requires options == MountConfig(Worker).1 && commit == "commit=60" && noatime == "noatime"
    ensures options == commit + [','] + noatime
  {
  }

  lemma EtcdOptions(options: string, data: string, barrier: string, noatime: string)
    requires options == MountConfig(Master).1
    requires data == "data=ordered" && barrier == "barrier=1" && noatime == "noatime"
    ensures options == data + [','] + (barrier + [','] + noatime)
  {
  }

  lemma WorkerOptionsAreSolid()
    ensures Solid(MountConfig(Worker).1)
  {
    PrintableIsSolid(MountConfig(Worker).1);
  }

  lemma EtcdOptionsAreSolid()
    ensures Solid(MountConfig(Master).1)
  {
    PrintableIsSolid(MountConfig(Master).1);
  }

  lemma MountPointsAreSolid()
    ensures Solid(GFS_MOUNT) && Solid(ETCD_MOUNT)
  {
    PrintableIsSolid(GFS_MOUNT);
    PrintableIsSolid(ETCD_MOUNT);
  }

  lemma DeviceIsSolid(e: Entry)
    requires Solid(e.uuid)
    ensures Solid(e.Device())
  {
    PrintableIsSolid("UUID=");
    assert e.Device() == "UUID=" + e.uuid;
  }

  lemma FstabEntryIsProper(env: Environment, role: NodeRole, e: Entry)
    requires Operational(role) && Solid(ReportedUuid(env)) && e == FstabEntry(env, role)
    ensures e.Proper()
  {
    DeviceIsSolid(e);
    MountPointsAreSolid();
    PrintableIsSolid(e.fsType);
    EtcdOptionsAreSolid();
    WorkerOptionsAreSolid();
  }

  lemma OptionsSplit(options: string, role: NodeRole, boot: seq<string>)
    requires Operational(role) && options == MountConfig(role).1
    requires boot == if role == Worker then ["commit=60", "noatime"] else ["data=ordered", "barrier=1", "noatime"]
    ensures Split(options, ',') == boot
  {
    NoCommas();
    if role == Worker {
      WorkerOptions(options, boot[0], boot[1]);
      TwoOptions(boot[0], boot[1]);
    } else {
      EtcdOptions(options, boot[0], boot[1], boot[2]);
      ThreeOptions(boot[0], boot[1], boot[2]);
    }
  }

  /**
    After a successful run the next boot finds the role's storage in fstab: the
    reported UUID at the role's mount point with the role's options.
   */
  lemma NextBootFindsStorage(
    content: Option<string>, role: NodeRole, env: Environment, r: Result<seq<MountEntry>, BadLine>)
    requires Operational(role) && Solid(ReportedUuid(env))
    requires FormatReported(role, false, env.format) && MountReported(false, env.mount)
    requires FstabAfter(content, role, false, env).Some? ==>
               Parses(Lines(FstabAfter(content, role, false, env).value), r) && r.Ok?
    ensures FstabAfter(content, role, false, env).Some?
    ensures var boot := BootEntry(ReportedUuid(env), role); FindByMountPoint(r.value, boot.mountPoint) == Some(boot)
  {
    var e := FstabEntry(env, role);
    FstabEntryIsProper(env, role, e);
    OptionsSplit(e.options, role, BootEntry(ReportedUuid(env), role).options);
    FstabProperties.UpsertThenParse(content, e, r);
  }
}
