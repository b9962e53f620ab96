/**
  Electors sharing one lease as a timed system.  Every pass is one step, clocks
  are off by at most `skew`, and a leader repeats its pass within `period` of
  its last one.
 */
module ElectionSafety {
  import opened Common
  import opened Lease

  datatype Params = Params(electors: seq<Elector>, skew: nat, period: nat)

  datatype Member = Member(leader: bool, lastPass: int)

  datatype World = World(time: int, server: Option<LeaseObject>, members: seq<Member>)

  datatype Step =
    | Tick(elapsed: nat)
    | RunPass(i: nat, now: int, fault: Fault)
    | Release(i: nat, applied: bool)  // shutdown: release the lease, then notify
    | Crash(i: nat)                   // the process dies; a new one starts without leading

  ghost predicate WellFormed(p: Params) {
    && (forall i | 0 <= i < |p.electors| :: p.electors[i].identity != "")
    && (forall i, j | 0 <= i < j < |p.electors| :: p.electors[i].identity != p.electors[j].identity)
  }

  /** The lease of elector i outlasts its renewal period and both clock errors. */
  predicate Outlasts(p: Params, i: nat)
    requires i < |p.electors|
  {
    p.period + 2 * p.skew < (p.electors[i].StoredSecs() + 1) * MICROS_PER_SECOND
  }

  ghost predicate Margin(p: Params) {
    forall i | 0 <= i < |p.electors| :: Outlasts(p, i)
  }

  /** Nobody leads yet; the server may hold anything. */
  ghost predicate Init(p: Params, w: World) {
    |w.members| == |p.electors| && forall i | 0 <= i < |w.members| :: !w.members[i].leader
  }

  ghost predicate Next(p: Params, w: World, s: Step, w': World)
    requires |w.members| == |p.electors|
  {
    match s
    case Tick(d) =>
      && w' == w.(time := w.time + d)
      && forall i | 0 <= i < |w.members| :: w.members[i].leader ==> w'.time <= w.members[i].lastPass + p.period
    case RunPass(i, now, fault) =>
      && i < |w.members|
      && w.time - p.skew <= now <= w.time + p.skew
      && var r := Pass(w.server, p.electors[i], now, fault);
         w' == w.(server := r.server, members := w.members[i := Member(r.Leads(), w.time)])
    case Release(i, applied) =>
      && i < |w.members|
      && w.members[i].leader
      && w' == w.(
           server := if applied && w.server.Some? then Some(Released(w.server.value)) else w.server,
           members := w.members[i := w.members[i].(leader := false)])
    case Crash(i) =>
      && i < |w.members|
      && w' == w.(members := w.members[i := w.members[i].(leader := false)])
  }

  ghost predicate IsRun(p: Params, worlds: seq<World>, steps: seq<Step>) {
    && |worlds| == |steps| + 1
    && (forall k | 0 <= k < |worlds| :: |worlds[k].members| == |p.electors|)
    && Init(p, worlds[0])
    && forall k | 0 <= k < |steps| :: Next(p, worlds[k], steps[k], worlds[k + 1])
  }

  ghost predicate SingleLeader(w: World) {
    forall i, j | 0 <= i < |w.members| && 0 <= j < |w.members| ::
      w.members[i].leader && w.members[j].leader ==> i == j
  }

  /** A leader's own recent write is what the server holds. */
  ghost predicate Grounded(p: Params, w: World, i: nat)
    requires |w.members| == |p.electors| && i < |w.members|
  {
    var m := w.members[i];
    && m.lastPass <= w.time <= m.lastPass + p.period
    && exists t :: WrittenBy(w.server, p.electors[i], t) && m.lastPass - p.skew <= t <= m.lastPass + p.skew
  }

  ghost predicate Inv(p: Params, w: World) {
    && |w.members| == |p.electors|
    && forall i | 0 <= i < |w.members| :: w.members[i].leader ==> Grounded(p, w, i)
  }

  lemma InvImpliesSingleLeader(p: Params, w: World)
    requires WellFormed(p) && Inv(p, w)
    ensures SingleLeader(w)
  {
    forall i, j | 0 <= i < |w.members| && 0 <= j < |w.members| && w.members[i].leader && w.members[j].leader
      ensures i == j
    {
      assert Grounded(p, w, i) && Grounded(p, w, j);
    }
  }

  /** No other elector can displace a grounded leader. */
  lemma LeaderSurvivesPass(p: Params, w: World, j: nat, i: nat, now: int, fault: Fault)
    requires WellFormed(p) && Margin(p) && Inv(p, w)
    requires i < |w.members| && j < |w.members| && i != j && w.members[j].leader
    requires w.time - p.skew <= now <= w.time + p.skew
    ensures Pass(w.server, p.electors[i], now, fault).server == w.server
    ensures !Pass(w.server, p.electors[i], now, fault).Leads()
  {
    assert Grounded(p, w, j) && Outlasts(p, j);
    var t :| WrittenBy(w.server, p.electors[j], t) && w.members[j].lastPass - p.skew <= t;
    HeldLeaseExcludesOthers(w.server, p.electors[j], t, p.electors[i], now, fault);
  }

  lemma PassPreservesInv(p: Params, w: World, i: nat, now: int, fault: Fault, w': World)
    requires WellFormed(p) && Margin(p) && Inv(p, w)
    requires Next(p, w, RunPass(i, now, fault), w')
    ensures Inv(p, w')
  {
    forall j | 0 <= j < |w'.members| && w'.members[j].leader ensures Grounded(p, w', j) {
      if j == i {
        WritersOwnTheLease(w.server, p.electors[i], now, fault);
        assert WrittenBy(w'.server, p.electors[i], now);
      } else {
        LeaderSurvivesPass(p, w, j, i, now, fault);
        assert Grounded(p, w, j);
      }
    }
  }

  lemma StepPreservesInv(p: Params, w: World, s: Step, w': World)
    requires WellFormed(p) && Margin(p) && Inv(p, w)
    requires Next(p, w, s, w')
    ensures Inv(p, w')
  {
    match s
    case RunPass(i, now, fault) => PassPreservesInv(p, w, i, now, fault, w');
    case Release(i, _) =>
      InvImpliesSingleLeader(p, w);
    case Tick(_) =>
      forall j | 0 <= j < |w'.members| && w'.members[j].leader ensures Grounded(p, w', j) {
        assert Grounded(p, w, j);
      }
    case Crash(i) =>
      forall j | 0 <= j < |w'.members| && w'.members[j].leader ensures Grounded(p, w', j) {
        assert w'.members[j] == w.members[j] && Grounded(p, w, j);
      }
  }

  lemma {:induction false} RunKeepsInv(p: Params, worlds: seq<World>, steps: seq<Step>, k: nat)
    requires WellFormed(p) && Margin(p) && IsRun(p, worlds, steps) && k < |worlds|
    ensures Inv(p, worlds[k])
  {
    if k > 0 {
      RunKeepsInv(p, worlds, steps, k - 1);
      assert Next(p, worlds[k - 1], steps[k - 1], worlds[k]);
      StepPreservesInv(p, worlds[k - 1], steps[k - 1], worlds[k]);
    }
  }

  ghost predicate AlwaysSingleLeader(p: Params) {
    forall worlds, steps, k :: IsRun(p, worlds, steps) && 0 <= k < |worlds| ==> SingleLeader(worlds[k])
  }

  function Idle(p: Params): seq<Member> {
    seq(|p.electors|, _ => Member(false, 0))
  }

  /** Whoever leads with too short a lease can be overtaken before its next pass is due. */
  lemma ShortLeaseAdmitsTwoLeaders(p: Params, i: nat, j: nat)
      returns (worlds: seq<World>, steps: seq<Step>)
    requires WellFormed(p) && i < |p.electors| && j < |p.electors| && i != j
    requires !Outlasts(p, i)
    ensures IsRun(p, worlds, steps) && !SingleLeader(worlds[|worlds| - 1])
  {
    var early, late: int := 0 - p.skew, p.period + p.skew;
    var server1 := Some(Created(p.electors[i], early));
    var server3 := Pass(server1, p.electors[j], late, NoFault).server;
    StaleLeaseIsTaken(server1, p.electors[i], early, p.electors[j], late);
    var w1 := World(0, server1, Idle(p)[i := Member(true, 0)]);
    var w3 := World(p.period, server3, w1.members[j := Member(true, p.period)]);
    worlds := [World(0, None, Idle(p)), w1, w1.(time := p.period), w3];
    steps := [RunPass(i, early, NoFault), Tick(p.period), RunPass(j, late, NoFault)];
    assert w3.members[i].leader && w3.members[j].leader;
  }

  /** An empty holder identity reads as an unheld lease, and a shared one as the reader's own. */
  lemma UnfitIdentityAdmitsTwoLeaders(p: Params, i: nat, j: nat)
      returns (worlds: seq<World>, steps: seq<Step>)
    requires i < |p.electors| && j < |p.electors| && i != j
    requires p.electors[i].identity == "" || p.electors[i].identity == p.electors[j].identity
    ensures IsRun(p, worlds, steps) && !SingleLeader(worlds[|worlds| - 1])
  {
    var server1 := Some(Created(p.electors[i], 0));
    var server2 := Pass(server1, p.electors[j], 0, NoFault).server;
    var w1 := World(0, server1, Idle(p)[i := Member(true, 0)]);
    var w2 := World(0, server2, w1.members[j := Member(true, 0)]);
    worlds := [World(0, None, Idle(p)), w1, w2];
    steps := [RunPass(i, 0, NoFault), RunPass(j, 0, NoFault)];
    assert w2.members[i].leader && w2.members[j].leader;
  }

  lemma MarginImpliesSingleLeader(p: Params)
    requires WellFormed(p) && Margin(p)
    ensures AlwaysSingleLeader(p)
  {
    forall worlds, steps, k | IsRun(p, worlds, steps) && 0 <= k < |worlds| ensures SingleLeader(worlds[k]) {
      RunKeepsInv(p, worlds, steps, k);
      InvImpliesSingleLeader(p, worlds[k]);
    }
  }

  /**
    At most one elector leads in every reachable state of every run, exactly
    when identities are non-empty and distinct and every lease outlasts the
    period and both clock errors.
   */
  lemma SingleLeaderIffMargin(p: Params)
    requires |p.electors| >= 2
    ensures AlwaysSingleLeader(p) <==> WellFormed(p) && Margin(p)
  {
    if WellFormed(p) && Margin(p) {
      MarginImpliesSingleLeader(p);
    } else if WellFormed(p) {
      var i: nat :| i < |p.electors| && !Outlasts(p, i);
      var worlds, steps := ShortLeaseAdmitsTwoLeaders(p, i, if i == 0 then 1 else 0);
    } else {
      var i: nat, j: nat :| i < |p.electors| && j < |p.electors| && i != j &&
        (p.electors[i].identity == "" || p.electors[i].identity == p.electors[j].identity) by {
        if i: nat :| i < |p.electors| && p.electors[i].identity == "" {
          assert i != if i == 0 then 1 else 0;
        }
      }
      var worlds, steps := UnfitIdentityAdmitsTwoLeaders(p, i, j);
    }
  }
}
