/**
  The write-ahead audit of disk operations (crates/cluster-common/src/audit.rs,
  crates/cluster-ldm/src/format.rs, crates/cluster-ldm/src/mount.rs): the
  effects each operation performs, and what any interleaving of operations
  leaves in the log.
 */
module Audit {
  import opened Common
  import opened Crd

  datatype AuditAction = Format | Mount | Unmount

  datatype AuditPhase = PreMutation | PostMutation | PhaseFailure

  /** A durable audit record, the mutating command itself, or another change on the way. */
  datatype Effect = Record(phase: AuditPhase) | Command | SideEffect

  /** How an attempt to record ends: it may report failure although the record reached the disk. */
  datatype Write = Stored | StoredButReportedFailed | NotStored {
    predicate Ok() {
      Stored?
    }
  }

  function Recorded(phase: AuditPhase, w: Write): seq<Effect> {
    if w.NotStored? then [] else [Record(phase)]
  }

  datatype CommandResult = Succeeds | ExitsWithError | CannotStart

  /** What the environment does to one operation. */
  datatype Faults = Faults(pre: Write, prepared: bool, command: CommandResult, fstabWritten: bool, post: Write)

  datatype Operation =
    | FormatDisk(serial: string, role: NodeRole, dryRun: bool, faults: Faults)
    | MountDisk(serial: string, dryRun: bool, faults: Faults)
    | UnmountPath(dryRun: bool, faults: Faults)
  {
    function Key(): (string, AuditAction) {
      match this
      case FormatDisk(s, _, _, _) => (s, Format)
      case MountDisk(s, _, _) => (s, Mount)
      case UnmountPath(_, _) => ("UNMOUNT", Unmount)
    }

    /** The effects of the whole operation, in order. */
    function Effects(): seq<Effect> {
      Recorded(PreMutation, faults.pre) + (if faults.pre.Ok() && !dryRun then AfterPre() else [])
    }

    function AfterPre(): seq<Effect> {
      match this
      case FormatDisk(_, role, _, f) => FormatEffects(role, f)
      case MountDisk(_, _, f) => MountEffects(f)
      case UnmountPath(_, f) => UnmountEffects(f)
    }
  }

  /** mkfs and its outcome record; only masters and the seed write the scheduling drop-in first. */
  function FormatEffects(role: NodeRole, f: Faults): seq<Effect> {
    if role == Master || role == Seed then [SideEffect] + (if f.prepared then MkfsEffects(f) else [])
    else if role == Worker then MkfsEffects(f)
    else []
  }

  function MkfsEffects(f: Faults): seq<Effect> {
    [Command] + Recorded(if f.command.Succeeds? then PostMutation else PhaseFailure, f.post)
  }

  /** mkdir, mount, fstab; a mount command that cannot start leaves no failure record. */
  function MountEffects(f: Faults): seq<Effect> {
    if !f.prepared then [SideEffect]
    else
      match f.command
      case CannotStart => [SideEffect, Command]
      case ExitsWithError => [SideEffect, Command] + Recorded(PhaseFailure, f.post)
      case Succeeds =>
        [SideEffect, Command, SideEffect] + (if f.fstabWritten then Recorded(PostMutation, f.post) else [])
  }

  /** umount, fstab; failures leave no failure record and the fstab result is ignored. */
  function UnmountEffects(f: Faults): seq<Effect> {
    if f.command.Succeeds? then [Command, SideEffect] + Recorded(PostMutation, f.post) else [Command]
  }

  // ------------------------------------------------------- one operation

  function Count(t: seq<Effect>, e: Effect): nat {
    if t == [] then 0 else (if t[0] == e then 1 else 0) + Count(t[1..], e)
  }

  /** Reading from the left with `open` records to spend and `done` commands to report, none is ever spent twice. */
  predicate Disciplined(t: seq<Effect>, open: nat, done: nat) {
    t == [] ||
    match t[0]
    case Record(PreMutation) => Disciplined(t[1..], open + 1, done)
    case Record(_) => done > 0 && Disciplined(t[1..], open, done - 1)
    case Command => open > 0 && Disciplined(t[1..], open - 1, done + 1)
    case SideEffect => Disciplined(t[1..], open, done)
  }

  /** Outcome records, commands and write-ahead records of a trace bound one another. */
  predicate Bounded(t: seq<Effect>) {
    Count(t, Record(PostMutation)) + Count(t, Record(PhaseFailure)) <= Count(t, Command) <=
        Count(t, Record(PreMutation))
  }

  lemma {:induction false} DisciplinedPrefix(t: seq<Effect>, n: nat, open: nat, done: nat)
    requires n <= |t| && Disciplined(t, open, done)
    ensures var q := t[..n];
            && Count(q, Command) <= Count(q, Record(PreMutation)) + open
            && Count(q, Record(PostMutation)) + Count(q, Record(PhaseFailure)) <= Count(q, Command) + done
  {
    if n > 0 {
      var q := t[..n];
      assert q[1..] == t[1..][..n - 1];
      match t[0]
      case Record(PreMutation) => DisciplinedPrefix(t[1..], n - 1, open + 1, done);
      case Record(_) => DisciplinedPrefix(t[1..], n - 1, open, done - 1);
      case Command => DisciplinedPrefix(t[1..], n - 1, open - 1, done + 1);
      case SideEffect => DisciplinedPrefix(t[1..], n - 1, open, done);
    }
  }

  lemma DisciplinedCons(e: Effect, rest: seq<Effect>, open: nat, done: nat)
    ensures Disciplined([e] + rest, open, done) ==
            match e
            case Record(PreMutation) => Disciplined(rest, open + 1, done)
            case Record(_) => done > 0 && Disciplined(rest, open, done - 1)
            case Command => open > 0 && Disciplined(rest, open - 1, done + 1)
            case SideEffect => Disciplined(rest, open, done)
  {
    assert ([e] + rest)[1..] == rest;
  }

  lemma OutcomeDisciplined(phase: AuditPhase, w: Write, open: nat, done: nat)
    requires phase != PreMutation && done > 0
    ensures Disciplined(Recorded(phase, w), open, done)
  {
    DisciplinedCons(Record(phase), [], open, done);
    assert [Record(phase)] + [] == [Record(phase)];
  }

  lemma MkfsDisciplined(f: Faults)
    ensures Disciplined(MkfsEffects(f), 1, 0)
  {
    var phase := if f.command.Succeeds? then PostMutation else PhaseFailure;
    OutcomeDisciplined(phase, f.post, 0, 1);
    DisciplinedCons(Command, Recorded(phase, f.post), 1, 0);
  }

  lemma FormatDisciplined(role: NodeRole, f: Faults)
    ensures Disciplined(FormatEffects(role, f), 1, 0)
  {
    MkfsDisciplined(f);
    DisciplinedCons(SideEffect, if f.prepared then MkfsEffects(f) else [], 1, 0);
  }

  lemma MountDisciplined(f: Faults)
    ensures Disciplined(MountEffects(f), 1, 0)
  {
    var report := if f.command.Succeeds? then (if f.fstabWritten then Recorded(PostMutation, f.post) else [])
                  else if f.command.ExitsWithError? then Recorded(PhaseFailure, f.post) else [];
    OutcomeDisciplined(PostMutation, f.post, 0, 1);
    OutcomeDisciplined(PhaseFailure, f.post, 0, 1);
    var tail := if f.command.Succeeds? then [SideEffect] + report else report;
    DisciplinedCons(SideEffect, report, 0, 1);
    DisciplinedCons(Command, tail, 1, 0);
    DisciplinedCons(SideEffect, [Command] + tail, 1, 0);
    DisciplinedCons(SideEffect, [], 1, 0);
    if !f.prepared {
      assert MountEffects(f) == [SideEffect] + [];
    } else {
      assert MountEffects(f) == [SideEffect] + ([Command] + tail);
    }
  }

  lemma UnmountDisciplined(f: Faults)
    ensures Disciplined(UnmountEffects(f), 1, 0)
  {
    var report := Recorded(PostMutation, f.post);
    OutcomeDisciplined(PostMutation, f.post, 0, 1);
    DisciplinedCons(SideEffect, report, 0, 1);
    var tail := if f.command.Succeeds? then [SideEffect] + report else [];
    DisciplinedCons(Command, tail, 1, 0);
    assert UnmountEffects(f) == [Command] + tail;
  }

  /** Cut anywhere, an operation has recorded before it mutates and reports no more than it did. */
  lemma OperationPrefixBounded(op: Operation, n: nat)
    requires n <= |op.Effects()|
    ensures Bounded(op.Effects()[..n])
  {
    match op {
    case FormatDisk(_, role, _, f) => FormatDisciplined(role, f);
    case MountDisk(_, _, f) => MountDisciplined(f);
    case UnmountPath(_, f) => UnmountDisciplined(f);
    }
    var rest := if op.faults.pre.Ok() && !op.dryRun then op.AfterPre() else [];
    DisciplinedCons(Record(PreMutation), rest, 0, 0);
    assert [] + rest == rest;
    DisciplinedPrefix(op.Effects(), n, 0, 0);
  }

  /** Nothing changes before the write-ahead record is on disk. */
  lemma RecordComesFirst(op: Operation)
    ensures op.Effects() == [] || op.Effects()[0] == Record(PreMutation)
    ensures op.dryRun ==> Command !in op.Effects() && SideEffect !in op.Effects()
  {
  }

  // --------------------------------------------------- any interleaving

  /** An effect and the operation it belongs to. */
  datatype Event = Event(op: nat, effect: Effect)

  /** The effects of one operation, in order. */
  ghost function Project(trace: seq<Event>, id: nat): seq<Effect> {
    if trace == [] then []
    else (if trace[0].op == id then [trace[0].effect] else []) + Project(trace[1..], id)
  }

  ghost function Without(trace: seq<Event>, id: nat): seq<Event> {
    if trace == [] then []
    else (if trace[0].op == id then [] else [trace[0]]) + Without(trace[1..], id)
  }

  /** A prefix of an interleaving: every operation has performed some first part of its effects. */
  ghost predicate Interleaves(ops: map<nat, Operation>, trace: seq<Event>) {
    && (forall k | 0 <= k < |trace| :: trace[k].op in ops)
    && (forall id | id in ops :: Project(trace, id) <= ops[id].Effects())
  }

  /** How often an effect occurs for one device serial and action. */
  ghost function Tally(ops: map<nat, Operation>, trace: seq<Event>, key: (string, AuditAction), e: Effect): nat
    requires forall k | 0 <= k < |trace| :: trace[k].op in ops
  {
    if trace == [] then 0
    else (if ops[trace[0].op].Key() == key && trace[0].effect == e then 1 else 0) + Tally(ops, trace[1..], key, e)
  }

  lemma {:induction false} WithoutKeepsOthers(trace: seq<Event>, id: nat, other: nat)
    requires other != id
    ensures Project(Without(trace, id), other) == Project(trace, other)
  {
    if trace != [] {
      WithoutKeepsOthers(trace[1..], id, other);
      if trace[0].op == id {
        assert Without(trace, id) == Without(trace[1..], id);
      } else {
        assert Without(trace, id)[1..] == Without(trace[1..], id);
      }
    }
  }

  lemma {:induction false} WithoutRemoves(ops: map<nat, Operation>, trace: seq<Event>, id: nat)
    requires forall k | 0 <= k < |trace| :: trace[k].op in ops
    ensures forall k | 0 <= k < |Without(trace, id)| :: Without(trace, id)[k].op in ops - {id}
  {
    if trace != [] {
      WithoutRemoves(ops, trace[1..], id);
    }
  }

  /** An operation's share of a tally is what its own effects hold. */
  lemma {:induction false} TallySplits(ops: map<nat, Operation>, trace: seq<Event>, id: nat,
      key: (string, AuditAction), e: Effect)
    requires forall k | 0 <= k < |trace| :: trace[k].op in ops
    requires id in ops
    ensures forall k | 0 <= k < |Without(trace, id)| :: Without(trace, id)[k].op in ops - {id}
    ensures Tally(ops, trace, key, e) ==
            Tally(ops - {id}, Without(trace, id), key, e) +
                (if ops[id].Key() == key then Count(Project(trace, id), e) else 0)
  {
    WithoutRemoves(ops, trace, id);
    if trace != [] {
      TallySplits(ops, trace[1..], id, key, e);
      if trace[0].op == id {
        assert Project(trace, id)[1..] == Project(trace[1..], id);
        assert Without(trace, id) == Without(trace[1..], id);
      } else {
        assert Project(trace, id) == Project(trace[1..], id);
        assert Without(trace, id)[1..] == Without(trace[1..], id);
      }
    }
  }

  /**
    In every prefix of every interleaving of any operations, for each device
    serial and action: outcome records never outnumber mutation attempts, and
    attempts never outnumber the write-ahead records on disk.
   */
  lemma {:induction false} AuditIsWriteAhead(ops: map<nat, Operation>, trace: seq<Event>, key: (string, AuditAction))
    requires Interleaves(ops, trace)
    ensures Tally(ops, trace, key, Record(PostMutation)) + Tally(ops, trace, key, Record(PhaseFailure))
            <= Tally(ops, trace, key, Command)
            <= Tally(ops, trace, key, Record(PreMutation))
    decreases |ops|
  {
    if trace != [] {
      var id := trace[0].op;
      var rest := Without(trace, id);
      WithoutRemoves(ops, trace, id);
      forall other | other in ops - {id} ensures Project(rest, other) <= (ops - {id})[other].Effects() {
        WithoutKeepsOthers(trace, id, other);
      }
      AuditIsWriteAhead(ops - {id}, rest, key);
      TallySplits(ops, trace, id, key, Record(PostMutation));
      TallySplits(ops, trace, id, key, Record(PhaseFailure));
      TallySplits(ops, trace, id, key, Command);
      TallySplits(ops, trace, id, key, Record(PreMutation));
      OperationPrefixBounded(ops[id], |Project(trace, id)|);
      assert Project(trace, id) == ops[id].Effects()[..|Project(trace, id)|];
    }
  }

  lemma {:induction false} ProjectHolds(trace: seq<Event>, k: nat)
    requires k < |trace|
    ensures trace[k].effect in Project(trace, trace[k].op)
  {
    if k > 0 {
      ProjectHolds(trace[1..], k - 1);
    }
  }

  /** A dry-run operation contributes neither commands nor other changes to any interleaving. */
  lemma DryRunsMutateNothing(ops: map<nat, Operation>, trace: seq<Event>, k: nat)
    requires Interleaves(ops, trace) && k < |trace| && ops[trace[k].op].dryRun
    ensures trace[k].effect.Record?
  {
    ProjectHolds(trace, k);
    RecordComesFirst(ops[trace[k].op]);
    var done := Project(trace, trace[k].op);
    assert done <= ops[trace[k].op].Effects();
  }

  // ----------------------------------------------------- what is recorded

  /**
    The operation wrote its write-ahead record, ran its command and recorded the
    outcome, in this order, the outcome last.
   */
  ghost predicate FullyRecorded(t: seq<Effect>, outcome: AuditPhase) {
    && |t| >= 3 && t[0] == Record(PreMutation) && t[|t| - 1] == Record(outcome)
    && Count(t, Command) == 1 && Count(t, Record(PreMutation)) == 1
    && Count(t, Record(PostMutation)) + Count(t, Record(PhaseFailure)) == 1
  }

  lemma CountCons(e: Effect, rest: seq<Effect>, x: Effect)
    ensures Count([e] + rest, x) == (if e == x then 1 else 0) + Count(rest, x)
  {
    assert ([e] + rest)[1..] == rest;
  }

  lemma RecordedTrace(sides: seq<Effect>, between: seq<Effect>, outcome: AuditPhase)
    requires outcome != PreMutation && AtMostASide(sides) && AtMostASide(between)
    ensures FullyRecorded([Record(PreMutation)] + (sides + ([Command] + (between + [Record(outcome)]))), outcome)
  {
    var t4 := [Record(outcome)];
    var t3, t2 := between + t4, [Command] + (between + t4);
    var t1 := sides + t2;
    forall x: Effect
      ensures Count([Record(PreMutation)] + t1, x) ==
              (if x == Record(PreMutation) then 1 else 0) + Count(sides, x) + (if x == Command then 1 else 0) +
              Count(between, x) + (if x == Record(outcome) then 1 else 0)
    {
      CountCons(Record(PreMutation), t1, x);
      CountConcat(sides, t2, x);
      CountCons(Command, t3, x);
      CountConcat(between, t4, x);
      CountCons(Record(outcome), [], x);
      assert [Record(outcome)] + [] == t4;
    }
    NoneCounted(sides);
    NoneCounted(between);
    var t := [Record(PreMutation)] + t1;
    assert t[|t| - 1] == Record(outcome);
  }

  lemma {:induction false} CountConcat(a: seq<Effect>, b: seq<Effect>, x: Effect)
    ensures Count(a + b, x) == Count(a, x) + Count(b, x)
  {
    if a == [] {
      assert a + b == b;
    } else {
      assert (a + b)[1..] == a[1..] + b;
      CountConcat(a[1..], b, x);
    }
  }

  predicate AtMostASide(t: seq<Effect>) {
    t == [] || t == [SideEffect]
  }

  lemma NoneCounted(t: seq<Effect>)
    requires AtMostASide(t)
    ensures forall x | x != SideEffect :: Count(t, x) == 0
  {
    if t == [SideEffect] {
      assert t[1..] == [];
    }
  }

  /** The operation is a real one whose audit records all reach the disk. */
  predicate Audited(op: Operation) {
    !op.dryRun && op.faults.pre == Stored && op.faults.post == Stored
  }

  /** Every format that reaches mkfs records how it ended. */
  lemma FormatIsRecorded(op: Operation)
    requires op.FormatDisk? && Audited(op)
    requires op.role == Worker || ((op.role == Master || op.role == Seed) && op.faults.prepared)
    ensures FullyRecorded(op.Effects(), if op.faults.command.Succeeds? then PostMutation else PhaseFailure)
  {
    var outcome := if op.faults.command.Succeeds? then PostMutation else PhaseFailure;
    var sides := if op.role == Worker then [] else [SideEffect];
    RecordedTrace(sides, [], outcome);
    assert op.Effects() == [Record(PreMutation)] + (sides + ([Command] + ([] + [Record(outcome)])));
  }

  /** Every mount that succeeds, fstab included, and every one whose command fails, records it. */
  lemma MountIsRecorded(op: Operation)
    requires op.MountDisk? && Audited(op) && op.faults.prepared
    requires op.faults.command.ExitsWithError? || (op.faults.command.Succeeds? && op.faults.fstabWritten)
    ensures FullyRecorded(op.Effects(), if op.faults.command.Succeeds? then PostMutation else PhaseFailure)
  {
    var outcome := if op.faults.command.Succeeds? then PostMutation else PhaseFailure;
    var between := if op.faults.command.Succeeds? then [SideEffect] else [];
    RecordedTrace([SideEffect], between, outcome);
    assert op.Effects() == [Record(PreMutation)] + ([SideEffect] + ([Command] + (between + [Record(outcome)])));
  }

  /** Every unmount that succeeds records it. */
  lemma UnmountIsRecorded(op: Operation)
    requires op.UnmountPath? && Audited(op) && op.faults.command.Succeeds?
    ensures FullyRecorded(op.Effects(), PostMutation)
  {
    RecordedTrace([], [SideEffect], PostMutation);
    assert op.Effects() == [Record(PreMutation)] + ([] + ([Command] + ([SideEffect] + [Record(PostMutation)])));
  }

  // ------------------------------------------------------- what is prevented

  lemma NoCommandIn(t: seq<Effect>)
    requires forall e | e in t :: e.Record? || e == SideEffect
    ensures Command !in t
  {
  }

  /** A write-ahead record that reports failure, even if it reached the disk, stops the operation before any change. */
  lemma FailedRecordStops(op: Operation)
    requires op.faults.pre != Stored
    ensures Command !in op.Effects() && SideEffect !in op.Effects()
  {
    assert op.Effects() == Recorded(PreMutation, op.faults.pre);
  }

  /** A preparation that fails stops a master's or the seed's format and every mount before the command. */
  lemma FailedPreparationStops(op: Operation)
    requires !op.faults.prepared
    requires op.MountDisk? || (op.FormatDisk? && op.role != Worker)
    ensures Command !in op.Effects()
  {
    NoCommandIn(op.Effects());
  }

  /** Disks are never formatted for an idle role. */
  lemma IdleRolesFormatNothing(op: Operation)
    requires op.FormatDisk? && (op.role == Pending || op.role == Decommissioned)
    ensures Command !in op.Effects()
  {
    NoCommandIn(op.Effects());
  }

  /** Operations share a line of the audit only if they are of one kind and, for disks, on one disk. */
  lemma KeysTellApart(a: Operation, b: Operation)
    requires a.Key() == b.Key()
    ensures a.FormatDisk? == b.FormatDisk? && a.MountDisk? == b.MountDisk? && a.UnmountPath? == b.UnmountPath?
    ensures !a.UnmountPath? ==> a.serial == b.serial
  {
  }
}
