/** Finding the disk to provision (crates/cluster-ldm/src/discover.rs). */
module Discovery {
  import opened Common
  import opened Crd
  import opened MountTable
  import opened Device
  import opened Safety

  /** The block devices in name order and the live mount table. */
  datatype Machine = Machine(disks: seq<Disk>, mounts: seq<MountEntry>) {

    function Device(i: nat): BlockDevice
      requires i < |disks|
    {
      Scanned(disks[i], mounts)
    }

    function All(): seq<BlockDevice> {
      AllDevices(disks, mounts)
    }
  }

  datatype DeviceError = NotFound | Ambiguous

  /** A whole disk that the guard would let be formatted if confirmed. */
  predicate Eligible(m: Machine, role: NodeRole, i: nat)
    requires i < |m.disks|
  {
    && !Virtual(m.disks[i].name)
    && !m.disks[i].isPartition
    && EvaluateFormat(m.Device(i), role, true, m.mounts, m.All()).Ok?
  }

  function EligibleFlags(m: Machine, role: NodeRole): seq<bool> {
    seq(|m.disks|, i requires 0 <= i < |m.disks| => Eligible(m, role, i))
  }

  function NamedFlags(m: Machine, id: string): seq<bool> {
    seq(|m.disks|, i requires 0 <= i < |m.disks| => MatchesIdentifier(m.Device(i), id))
  }

  /** The positions of the set flags, in order. */
  function Picks(flags: seq<bool>): (r: seq<nat>)
    ensures forall k | 0 <= k < |r| :: r[k] < |flags| && flags[r[k]]
    ensures forall i: nat | i < |flags| && flags[i] :: i in r
  {
    if flags == [] then []
    else
      var n := |flags| - 1;
      Picks(flags[..n]) + (if flags[n] then [n] else [])
  }

  /** The first of these positions whose flag is set. */
  function FirstSet(indices: seq<nat>, flags: seq<bool>): (r: Option<nat>)
    requires forall k | 0 <= k < |indices| :: indices[k] < |flags|
    ensures r.Some? ==> r.value in indices && r.value < |flags| && flags[r.value]
    ensures r.None? ==> forall k | 0 <= k < |indices| :: !flags[indices[k]]
  {
    if indices == [] then None
    else if flags[indices[0]] then Some(indices[0])
    else FirstSet(indices[1..], flags)
  }

  /** The disk to use: the first eligible one the target names, or the only eligible one. */
  function Choose(eligible: seq<bool>, named: Option<seq<bool>>): (r: Result<nat, DeviceError>)
    requires named.Some? ==> |named.value| == |eligible|
    ensures r.Ok? ==> r.value < |eligible| && eligible[r.value]
    ensures r.Ok? && named.Some? ==> named.value[r.value]
    ensures r.Ok? && named.None? ==> forall i: nat | i < |eligible| && eligible[i] :: i == r.value
  {
    var picks := Picks(eligible);
    if named.Some? then
      var i := FirstSet(picks, named.value);
      if i.Some? then Ok(i.value) else Err(NotFound)
    else if |picks| == 1 then Ok(picks[0])
    else if picks == [] then Err(NotFound)
    else Err(Ambiguous)
  }

  function Resolved(m: Machine, target: Option<string>, role: NodeRole): (r: Result<nat, DeviceError>)
    ensures r.Ok? ==> r.value < |m.disks| && Eligible(m, role, r.value)
  {
    Choose(EligibleFlags(m, role), if target.Some? then Some(NamedFlags(m, target.value)) else None)
  }

  method ScanAll(m: Machine) returns (devices: seq<BlockDevice>)
    ensures devices == m.All()
  {
    devices := [];
    for k := 0 to |m.disks|
      invariant devices == AllDevices(m.disks[..k], m.mounts)
    {
      assert m.disks[..k + 1][..k] == m.disks[..k];
      if Virtual(m.disks[k].name) {
        continue;
      }
      var d := FromSysfs(m.disks[k], m.mounts);
      devices := devices + [d];
    }
    assert m.disks[..|m.disks|] == m.disks;
  }

  lemma PicksStep(flags: seq<bool>, k: nat)
    requires k < |flags|
    ensures Picks(flags[..k + 1]) == Picks(flags[..k]) + if flags[k] then [k] else []
  {
    assert flags[..k + 1][..k] == flags[..k];
  }

  method ScanEligibleDevices(m: Machine, role: NodeRole) returns (eligible: seq<nat>)
    ensures eligible == Picks(EligibleFlags(m, role))
  {
    var all := ScanAll(m);
    ghost var flags := EligibleFlags(m, role);
    eligible := [];
    for k := 0 to |m.disks|
      invariant eligible == Picks(flags[..k])
    {
      PicksStep(flags, k);
      if Virtual(m.disks[k].name) || m.disks[k].isPartition {
        continue;
      }
      var dev := FromSysfs(m.disks[k], m.mounts);
      if EvaluateFormat(dev, role, true, m.mounts, all).Ok? {
        eligible := eligible + [k];
      }
    }
    assert flags[..|m.disks|] == flags;
  }

  /** The first of these disks that the identifier names. */
  method FirstNamed(m: Machine, candidates: seq<nat>, id: string) returns (r: Option<nat>)
    requires forall k | 0 <= k < |candidates| :: candidates[k] < |m.disks|
    ensures r == FirstSet(candidates, NamedFlags(m, id))
  {
    ghost var named := NamedFlags(m, id);
    for k := 0 to |candidates|
      invariant FirstSet(candidates, named) == FirstSet(candidates[k..], named)
    {
      assert candidates[k..][1..] == candidates[k + 1..];
      if MatchesIdentifier(m.Device(candidates[k]), id) {
        return Some(candidates[k]);
      }
    }
    return None;
  }

  method ResolveTargetDisk(m: Machine, target: Option<string>, role: NodeRole) returns (r: Result<nat, DeviceError>)
    ensures r == Resolved(m, target, role)
    ensures r.Ok? && target.None? ==> forall i: nat | i < |m.disks| :: Eligible(m, role, i) ==> i == r.value
    ensures r.Ok? && target.Some? ==> MatchesIdentifier(m.Device(r.value), target.value)
    ensures r.Ok? ==>
              var name := m.disks[r.value].name;
              && !m.disks[r.value].isPartition && !("loop" <= name) && !("ram" <= name) && !("zram" <= name)
              && EvaluateFormat(m.Device(r.value), role, true, m.mounts, m.All()).Ok?
  {
    var eligible := ScanEligibleDevices(m, role);
    ghost var flags := EligibleFlags(m, role);
    if target.Some? {
      var first := FirstNamed(m, eligible, target.value);
      return if first.Some? then Ok(first.value) else Err(NotFound);
    }
    if |eligible| == 1 {
      assert forall i: nat | i < |m.disks| :: flags[i] == Eligible(m, role, i);
      return Ok(eligible[0]);
    }
    return if eligible == [] then Err(NotFound) else Err(Ambiguous);
  }

  /** The disk that discovery settles on shares nothing with the disks the system boots from. */
  lemma ResolvedDiskIsNotBootDisk(m: Machine, target: Option<string>, role: NodeRole, i: nat, mounted: string)
    requires Resolved(m, target, role) == Ok(i) && PlainName(mounted) && BootsFrom(m.mounts, mounted)
    ensures !SharesDisk(m.Device(i), mounted)
  {
    BootDiskExcluded(m.Device(i), role, true, m.mounts, m.All(), mounted);
  }

  // --------------------------------------------------- the resolution exactly

  lemma {:induction false} PicksAscend(flags: seq<bool>)
    ensures forall a, b | 0 <= a < b < |Picks(flags)| :: Picks(flags)[a] < Picks(flags)[b]
  {
    if flags != [] {
      PicksAscend(flags[..|flags| - 1]);
    }
  }

  lemma {:induction false} FirstSetIsFirst(indices: seq<nat>, flags: seq<bool>, k: nat)
    requires forall j | 0 <= j < |indices| :: indices[j] < |flags|
    requires k < |indices| && flags[indices[k]] && forall j | 0 <= j < k :: !flags[indices[j]]
    ensures FirstSet(indices, flags) == Some(indices[k])
  {
    if k > 0 {
      assert !flags[indices[0]];
      FirstSetIsFirst(indices[1..], flags, k - 1);
    }
  }

  /** With a target: the lowest disk that is eligible and named, or not found when there is none. */
  lemma NamedChoice(eligible: seq<bool>, named: seq<bool>, i: nat)
    requires |named| == |eligible| && i < |eligible| && eligible[i] && named[i]
    requires forall j | 0 <= j < i :: !(eligible[j] && named[j])
    ensures Choose(eligible, Some(named)) == Ok(i)
  {
    var picks := Picks(eligible);
    PicksAscend(eligible);
    var k :| 0 <= k < |picks| && picks[k] == i;
    FirstSetIsFirst(picks, named, k);
  }

  lemma NoNamedChoice(eligible: seq<bool>, named: seq<bool>)
    requires |named| == |eligible| && forall j | 0 <= j < |eligible| :: !(eligible[j] && named[j])
    ensures Choose(eligible, Some(named)) == Err(NotFound)
  {
  }

  lemma SomePick(flags: seq<bool>)
    ensures Picks(flags) != [] ==> exists i: nat | i < |flags| :: flags[i]
    ensures |Picks(flags)| >= 2 ==> exists i: nat, j: nat | i < j < |flags| :: flags[i] && flags[j]
  {
    PicksAscend(flags);
    if Picks(flags) != [] {
      assert flags[Picks(flags)[0]];
    }
    if |Picks(flags)| >= 2 {
      assert flags[Picks(flags)[0]] && flags[Picks(flags)[1]];
    }
  }

  /** Without one: the only eligible disk, not found when there is none, ambiguous when there are more. */
  lemma SoleChoiceIsTaken(eligible: seq<bool>, i: nat)
    requires i < |eligible| && eligible[i] && forall k: nat | k < |eligible| && eligible[k] :: k == i
    ensures Choose(eligible, None) == Ok(i)
  {
    SomePick(eligible);
    assert i in Picks(eligible);
  }

  lemma NoChoiceIsNotFound(eligible: seq<bool>)
    requires forall k: nat | k < |eligible| :: !eligible[k]
    ensures Choose(eligible, None) == Err(NotFound)
  {
    SomePick(eligible);
  }

  lemma TwoChoicesAreAmbiguous(eligible: seq<bool>, i: nat, j: nat)
    requires i < j < |eligible| && eligible[i] && eligible[j]
    ensures Choose(eligible, None) == Err(Ambiguous)
  {
    assert i in Picks(eligible) && j in Picks(eligible);
  }

  /** Resolving, for every machine: with a target the lowest disk that is eligible and named, or not found. */
  lemma ResolvedByName(m: Machine, id: string, role: NodeRole, i: nat)
    requires i < |m.disks| && Eligible(m, role, i) && MatchesIdentifier(m.Device(i), id)
    requires forall j: nat | j < i :: !(Eligible(m, role, j) && MatchesIdentifier(m.Device(j), id))
    ensures Resolved(m, Some(id), role) == Ok(i)
  {
    NamedChoice(EligibleFlags(m, role), NamedFlags(m, id), i);
  }

  lemma UnresolvedName(m: Machine, id: string, role: NodeRole)
    requires forall j: nat | j < |m.disks| :: !(Eligible(m, role, j) && MatchesIdentifier(m.Device(j), id))
    ensures Resolved(m, Some(id), role) == Err(NotFound)
  {
    NoNamedChoice(EligibleFlags(m, role), NamedFlags(m, id));
  }

  /** And without a target the only eligible disk; none is not found and two are ambiguous. */
  lemma ResolvedWithoutName(m: Machine, role: NodeRole, i: nat)
    requires i < |m.disks| && Eligible(m, role, i) && forall k: nat | k < |m.disks| && Eligible(m, role, k) :: k == i
    ensures Resolved(m, None, role) == Ok(i)
  {
    SoleChoiceIsTaken(EligibleFlags(m, role), i);
  }

  lemma NothingToResolve(m: Machine, role: NodeRole)
    requires forall k: nat | k < |m.disks| :: !Eligible(m, role, k)
    ensures Resolved(m, None, role) == Err(NotFound)
  {
    NoChoiceIsNotFound(EligibleFlags(m, role));
  }

  lemma AmbiguousWithoutName(m: Machine, role: NodeRole, i: nat, j: nat)
    requires i < j < |m.disks| && Eligible(m, role, i) && Eligible(m, role, j)
    ensures Resolved(m, None, role) == Err(Ambiguous)
  {
    TwoChoicesAreAmbiguous(EligibleFlags(m, role), i, j);
  }
}
