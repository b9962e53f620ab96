/**
  The Lease object of the coordination API and one election pass over it
  (crates/cluster-common/src/election.rs).

  Times are microseconds.  The API server is one optional Lease object with
  atomic get, create and merge-patch.
 */
module Lease {
  import opened Common

  const MICROS_PER_SECOND := 1_000_000
  const DEFAULT_DURATION_SECONDS := 15

  datatype LeaseSpec = LeaseSpec(
    holder: Option<string>,
    durationSecs: Option<int>,
    acquireTime: Option<int>,
    renewTime: Option<int>,
    transitions: Option<int>)

  const EMPTY_SPEC := LeaseSpec(None, None, None, None, None)

  datatype LeaseObject = LeaseObject(spec: Option<LeaseSpec>)

  /** What identifies an elector: its holder identity and configured lease duration. */
  datatype Elector = Elector(identity: string, leaseSecs: nat) {

    /** The duration as it is stored: the low 32 bits, read as a signed integer. */
    function StoredSecs(): int {
      var low := leaseSecs % 0x1_0000_0000;
      if low < 0x8000_0000 then low else low - 0x1_0000_0000
    }
  }

  /** Where an API call of a pass fails; `applied` says whether the write took effect anyway. */
  datatype Fault =
    | NoFault
    | GetFails
    | CreateFails(applied: bool)
    | PatchFails(applied: bool)

  datatype ElectionError = Kube

  datatype Decision = Renew | Acquire(transitions: int) | StandBy

  datatype PassResult = PassResult(server: Option<LeaseObject>, outcome: Result<bool, ElectionError>) {

    /** The belief the run loop adopts after this pass. */
    predicate Leads() {
      outcome == Ok(true)
    }
  }

  /** Whole seconds in a time difference, truncated toward zero. */
  function WholeSeconds(micros: int): int {
    if micros >= 0 then micros / MICROS_PER_SECOND else -((-micros) / MICROS_PER_SECOND)
  }

  predicate Expired(spec: LeaseSpec, now: int) {
    WholeSeconds(now - spec.renewTime.GetOr(0)) > spec.durationSecs.GetOr(DEFAULT_DURATION_SECONDS)
  }

  function Decide(lease: LeaseObject, identity: string, now: int): Decision {
    var spec := lease.spec.GetOr(EMPTY_SPEC);
    var holder := spec.holder.GetOr("");
    if holder == identity then Renew
    else if Expired(spec, now) || holder == "" then Acquire(spec.transitions.GetOr(0) + 1)
    else StandBy
  }

  /** The merge patch of a decision, applied to whatever object the server holds now. */
  function Patched(lease: LeaseObject, e: Elector, now: int, d: Decision): LeaseObject {
    var spec := lease.spec.GetOr(EMPTY_SPEC);
    match d
    case Renew =>
      LeaseObject(Some(spec.(renewTime := Some(now), durationSecs := Some(e.StoredSecs()))))
    case Acquire(t) =>
      LeaseObject(Some(spec.(
        holder := Some(e.identity), durationSecs := Some(e.StoredSecs()),
        acquireTime := Some(now), renewTime := Some(now), transitions := Some(t))))
    case StandBy => lease
  }

  function Created(e: Elector, now: int): LeaseObject {
    LeaseObject(Some(LeaseSpec(Some(e.identity), Some(e.StoredSecs()), Some(now), Some(now), Some(1))))
  }

  function Released(lease: LeaseObject): LeaseObject {
    LeaseObject(Some(lease.spec.GetOr(EMPTY_SPEC).(holder := None)))
  }

  /** An uninterrupted pass: nobody writes between this elector's last read and its write. */
  function Pass(server: Option<LeaseObject>, e: Elector, now: int, fault: Fault): PassResult {
    if fault.GetFails? then PassResult(server, Err(Kube))
    else
      match server
      case None =>
        if fault.CreateFails? then
          PassResult(if fault.applied then Some(Created(e, now)) else None, Err(Kube))
        else PassResult(Some(Created(e, now)), Ok(true))
      case Some(lease) =>
        var d := Decide(lease, e.identity, now);
        if d.StandBy? then PassResult(server, Ok(false))
        else
          var patched := Some(Patched(lease, e, now, d));
          if fault.PatchFails? then PassResult(if fault.applied then patched else server, Err(Kube))
          else PassResult(patched, Ok(true))
  }

  /** `l` is a lease written by `e` at reading `t`. */
  predicate WrittenBy(l: Option<LeaseObject>, e: Elector, t: int) {
    && l.Some? && l.value.spec.Some?
    && l.value.spec.value.holder == Some(e.identity)
    && l.value.spec.value.durationSecs == Some(e.StoredSecs())
    && l.value.spec.value.renewTime == Some(t)
  }

  /** Truncation and the strict comparison together postpone expiry to the stored duration plus one second. */
  lemma ExpiryInstant(age: int, secs: int)
    requires age >= 0 || secs >= 0
    ensures WholeSeconds(age) > secs <==> age >= (secs + 1) * MICROS_PER_SECOND
  {
  }

  /** A pass that changes the server or reports leadership leaves a lease written by its elector at its reading. */
  lemma WritersOwnTheLease(server: Option<LeaseObject>, e: Elector, now: int, fault: Fault)
    requires e.identity != ""
    ensures var r := Pass(server, e, now, fault);
            r.server != server || r.Leads() ==> WrittenBy(r.server, e, now)
  {
  }

  /**
    Until the holder's lease is one second past its duration, another elector's
    pass changes nothing and does not lead.
   */
  lemma HeldLeaseExcludesOthers(server: Option<LeaseObject>, holder: Elector, t: int, e: Elector, now: int,
      fault: Fault)
    requires WrittenBy(server, holder, t)
    requires holder.identity != "" && holder.identity != e.identity
    requires holder.StoredSecs() >= 0 && now - t < (holder.StoredSecs() + 1) * MICROS_PER_SECOND
    ensures Pass(server, e, now, fault).server == server
    ensures !Pass(server, e, now, fault).Leads()
  {
    ExpiryInstant(now - t, holder.StoredSecs());
  }

  /** Once it is that old, any other elector's faultless pass takes the lease over. */
  lemma StaleLeaseIsTaken(server: Option<LeaseObject>, holder: Elector, t: int, e: Elector, now: int)
    requires WrittenBy(server, holder, t)
    requires holder.identity != e.identity
    requires now >= t && now - t >= (holder.StoredSecs() + 1) * MICROS_PER_SECOND
    ensures Pass(server, e, now, NoFault).Leads()
    ensures WrittenBy(Pass(server, e, now, NoFault).server, e, now)
  {
    ExpiryInstant(now - t, holder.StoredSecs());
  }

  // ------------------------------------------------------ what a pass writes

  function SpecOf(l: Option<LeaseObject>): LeaseSpec {
    if l.Some? then l.value.spec.GetOr(EMPTY_SPEC) else EMPTY_SPEC
  }

  /** A lease whose holder was cleared by a release is free at once, however fresh, for every elector. */
  lemma ReleasedLeaseIsFree(lease: LeaseObject, e: Elector, now: int)
    ensures var r := Pass(Some(Released(lease)), e, now, NoFault);
            r.Leads() && (e.identity != "" ==> WrittenBy(r.server, e, now))
    ensures SpecOf(Some(Released(lease))) == SpecOf(Some(lease)).(holder := None)
  {
  }

  /** The holder renews its own lease even after it has expired. */
  lemma HolderRenews(server: Option<LeaseObject>, e: Elector, t: int, now: int)
    requires WrittenBy(server, e, t)
    ensures Pass(server, e, now, NoFault).Leads() && WrittenBy(Pass(server, e, now, NoFault).server, e, now)
  {
  }

  /**
    The history in the lease: a creation starts counting at one, a takeover
    counts one more and is dated, and a renewal by the holder keeps both.
   */
  lemma HistoryIsKept(server: Option<LeaseObject>, e: Elector, now: int)
    requires Pass(server, e, now, NoFault).Leads()
    ensures var old_, new_ := SpecOf(server), SpecOf(Pass(server, e, now, NoFault).server);
            && new_.renewTime == Some(now) && new_.durationSecs == Some(e.StoredSecs())
            && if server.None? then
                 new_.holder == Some(e.identity) && new_.acquireTime == Some(now) && new_.transitions == Some(1)
               else if old_.holder.GetOr("") == e.identity then
                 new_.holder == old_.holder && new_.acquireTime == old_.acquireTime
                     && new_.transitions == old_.transitions
               else
                 && new_.holder == Some(e.identity) && new_.acquireTime == Some(now)
                 && new_.transitions == Some(old_.transitions.GetOr(0) + 1)
  {
  }

  /** A foreign lease without a renewal time or duration counts as renewed at the epoch for fifteen seconds. */
  lemma MissingFieldsCountAsOld(spec: LeaseSpec, e: Elector, now: int)
    requires spec.renewTime == None && spec.durationSecs == None
    requires spec.holder.Some? && spec.holder.value != "" && spec.holder.value != e.identity
    ensures Pass(Some(LeaseObject(Some(spec))), e, now, NoFault).Leads() <==> now >= 16_000_000
  {
    ExpiryInstant(now, 15);
  }

  /** Whatever call fails, the elector does not lead, and a write happened only if it was applied. */
  lemma FailedCallsDoNotLead(server: Option<LeaseObject>, e: Elector, now: int, fault: Fault)
    ensures fault.GetFails? ==> Pass(server, e, now, fault) == PassResult(server, Err(Kube))
    ensures fault.CreateFails? && server.None? ==> Pass(server, e, now, fault).outcome == Err(Kube)
    ensures fault.PatchFails? && server.Some? ==> !Pass(server, e, now, fault).Leads()
    ensures (fault.CreateFails? || fault.PatchFails?) && !Pass(server, e, now, fault).Leads() && !fault.applied ==>
              Pass(server, e, now, fault).server == server
    ensures (fault.CreateFails? || fault.PatchFails?) && fault.applied ==>
              Pass(server, e, now, fault).server == Pass(server, e, now, NoFault).server
  {
  }

  /** The stored duration is the configured one taken as a signed 32-bit number. */
  lemma StoredSecsWraps(e: Elector)
    ensures -0x8000_0000 <= e.StoredSecs() < 0x8000_0000 && (e.leaseSecs - e.StoredSecs()) % 0x1_0000_0000 == 0
    ensures e.leaseSecs < 0x8000_0000 ==> e.StoredSecs() == e.leaseSecs
  {
  }
}
