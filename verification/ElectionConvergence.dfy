/**
  The same electors with every API call as a step of its own.  The patches
  carry no resource version, so passes may interleave and several electors may
  come to lead; what remains is that one round of uninterrupted passes settles it.
 */
module ElectionConvergence {
  import opened Common
  import opened Lease

  /** Where an elector stands inside its pass. */
  datatype Phase =
    | Resting
    | Fetched(lease: LeaseObject, now: int)
    | Absent(now: int)      // get found no lease; create comes next
    | Conflicted(now: int)  // create answered 409; a second get comes next

  datatype Member = Member(leader: bool, phase: Phase)

  datatype World = World(server: Option<LeaseObject>, members: seq<Member>)

  datatype Step =
    | Get(i: nat, now: int, fails: bool)
    | Create(i: nat, fault: Fault)
    | GetAgain(i: nat, fails: bool)
    | Conclude(i: nat, fault: Fault)  // decide on what was fetched, patch, adopt the result

  predicate Enabled(w: World, s: Step) {
    && s.i < |w.members|
    && var phase := w.members[s.i].phase;
       match s
       case Get(_, _, _) => phase.Resting?
       case Create(_, _) => phase.Absent?
       case GetAgain(_, _) => phase.Conflicted?
       case Conclude(_, _) => phase.Fetched?
  }

  function Settle(w: World, i: nat, server: Option<LeaseObject>, leader: bool): World
    requires i < |w.members|
  {
    World(server, w.members[i := Member(leader, Resting)])
  }

  function Enter(w: World, i: nat, phase: Phase): World
    requires i < |w.members|
  {
    w.(members := w.members[i := w.members[i].(phase := phase)])
  }

  function Apply(es: seq<Elector>, w: World, s: Step): (w': World)
    requires |w.members| == |es| && Enabled(w, s)
    ensures |w'.members| == |w.members|
    ensures forall j | 0 <= j < |w.members| && j != s.i :: w'.members[j] == w.members[j]
  {
    var i := s.i;
    match s
    case Get(_, now, fails) =>
      if fails then Settle(w, i, w.server, false)
      else if w.server.Some? then Enter(w, i, Fetched(w.server.value, now))
      else Enter(w, i, Absent(now))
    case Create(_, fault) =>
      var now := w.members[i].phase.now;
      if fault.CreateFails? then
        Settle(w, i, if fault.applied && w.server.None? then Some(Created(es[i], now)) else w.server, false)
      else if w.server.Some? then Enter(w, i, Conflicted(now))
      else Settle(w, i, Some(Created(es[i], now)), true)
    case GetAgain(_, fails) =>
      if fails || w.server.None? then Settle(w, i, w.server, false)
      else Enter(w, i, Fetched(w.server.value, w.members[i].phase.now))
    case Conclude(_, fault) =>
      var Fetched(lease, now) := w.members[i].phase;
      var d := Decide(lease, es[i].identity, now);
      if d.StandBy? then Settle(w, i, w.server, false)
      else if w.server.None? then Settle(w, i, None, false)
      else
        var patched := Some(Patched(w.server.value, es[i], now, d));
        if fault.PatchFails? then Settle(w, i, if fault.applied then patched else w.server, false)
        else Settle(w, i, patched, true)
  }

  ghost predicate Reaches(es: seq<Elector>, w: World, steps: seq<Step>, w': World)
    requires |w.members| == |es|
    decreases |steps|
  {
    if steps == [] then w' == w
    else Enabled(w, steps[0]) && Reaches(es, Apply(es, w, steps[0]), steps[1..], w')
  }

  /** Each pass is a failed get or a get followed at once by the same elector's concluding call. */
  predicate Uninterrupted(steps: seq<Step>) {
    || steps == []
    || (steps[0].Get? && steps[0].fails && Uninterrupted(steps[1..]))
    || (&& |steps| >= 2
        && steps[0].Get?
        && (steps[1].Create? || steps[1].Conclude?)
        && steps[0].i == steps[1].i
        && Uninterrupted(steps[2..]))
  }

  ghost predicate ReadingsWithin(steps: seq<Step>, lo: int, hi: int) {
    forall k | 0 <= k < |steps| && steps[k].Get? :: lo <= steps[k].now <= hi
  }

  /** The electors that begin a pass among these steps. */
  function Passing(steps: seq<Step>): set<nat> {
    set k | 0 <= k < |steps| && steps[k].Get? :: steps[k].i
  }

  ghost predicate Distinct(es: seq<Elector>) {
    && (forall i | 0 <= i < |es| :: es[i].identity != "")
    && forall i, j | 0 <= i < j < |es| :: es[i].identity != es[j].identity
  }

  ghost predicate SingleLeader(w: World) {
    forall i, j | 0 <= i < |w.members| && 0 <= j < |w.members| ::
      w.members[i].leader && w.members[j].leader ==> i == j
  }

  /** Two calls without interference have exactly the effect of an atomic pass. */
  lemma ContiguousCallsAreOnePass(es: seq<Elector>, w: World, get: Step, finish: Step) returns (fault: Fault)
    requires |w.members| == |es| && Enabled(w, get) && get.Get? && get.i == finish.i
    requires finish.Create? || finish.Conclude?
    requires Enabled(Apply(es, w, get), finish)
    ensures var w' := Apply(es, Apply(es, w, get), finish);
            var r := Pass(w.server, es[get.i], get.now, fault);
            w' == Settle(w, get.i, r.server, r.Leads())
  {
    fault := if finish.fault.GetFails? then NoFault else finish.fault;
  }

  /** The lease that the window's first writer put there, or none has been written and nobody who passed leads. */
  ghost predicate Converging(es: seq<Elector>, w: World, passed: set<nat>, lo: int)
    requires |w.members| == |es|
  {
    || (forall i | i in passed && i < |w.members| :: !w.members[i].leader)
    || exists h: nat, t: int | lo <= t && h < |es| && WrittenBy(w.server, es[h], t) ::
         forall i | i in passed && i < |w.members| && i != h :: !w.members[i].leader
  }

  /** A pass within the window keeps the round converging. */
  lemma PassConverges(es: seq<Elector>, w: World, passed: set<nat>, i: nat, now: int, fault: Fault, lo: int, hi: int)
    requires |w.members| == |es| && i < |es| && Distinct(es)
    requires ShorterThanEveryLease(es, lo, hi)
    requires lo <= now <= hi
    requires Converging(es, w, passed, lo)
    ensures var r := Pass(w.server, es[i], now, fault);
            Converging(es, Settle(w, i, r.server, r.Leads()), passed + {i}, lo)
  {
    var r := Pass(w.server, es[i], now, fault);
    var w' := Settle(w, i, r.server, r.Leads());
    WritersOwnTheLease(w.server, es[i], now, fault);
    if forall j | j in passed && j < |w.members| :: !w.members[j].leader {
      if r.Leads() {
        assert WrittenBy(w'.server, es[i], now);
      }
    } else {
      var h: nat, t: int :| lo <= t && h < |es| && WrittenBy(w.server, es[h], t) &&
        forall j | j in passed && j < |w.members| && j != h :: !w.members[j].leader;
      if h == i {
        assert WrittenBy(w'.server, es[h], if r.server == w.server then t else now);
      } else {
        assert es[h] in es;
        HeldLeaseExcludesOthers(w.server, es[h], t, es[i], now, fault);
        assert WrittenBy(w'.server, es[h], t);
      }
    }
  }

  lemma {:induction false} RoundConverges(es: seq<Elector>, w: World, steps: seq<Step>, w': World, passed: set<nat>,
      lo: int, hi: int)
    requires |w.members| == |es| && Distinct(es)
    requires ShorterThanEveryLease(es, lo, hi)
    requires Reaches(es, w, steps, w') && Uninterrupted(steps) && ReadingsWithin(steps, lo, hi)
    requires Converging(es, w, passed, lo)
    ensures |w'.members| == |es| && Converging(es, w', passed + Passing(steps), lo)
    decreases |steps|
  {
    if steps == [] {
      assert passed + Passing(steps) == passed;
    } else {
      var i, now := steps[0].i, steps[0].now;
      var w1 := Apply(es, w, steps[0]);
      if steps[0].fails {
        assert Converging(es, w1, passed + {i}, lo);
        assert passed + Passing(steps) == (passed + {i}) + Passing(steps[1..]) by { PassingTail(steps, 1); }
        RoundConverges(es, w1, steps[1..], w', passed + {i}, lo, hi);
      } else {
        assert Enabled(w1, steps[1]) && Reaches(es, Apply(es, w1, steps[1]), steps[2..], w') by {
          assert steps[1..][0] == steps[1] && steps[1..][1..] == steps[2..];
        }
        var fault := ContiguousCallsAreOnePass(es, w, steps[0], steps[1]);
        PassConverges(es, w, passed, i, now, fault, lo, hi);
        assert passed + Passing(steps) == (passed + {i}) + Passing(steps[2..]) by { PassingTail(steps, 2); }
        RoundConverges(es, Apply(es, w1, steps[1]), steps[2..], w', passed + {i}, lo, hi);
      }
    }
  }

  lemma PassingTail(steps: seq<Step>, n: nat)
    requires n == 1 || n == 2
    requires |steps| >= n && steps[0].Get? && (n == 2 ==> !steps[1].Get?)
    ensures Passing(steps) == {steps[0].i} + Passing(steps[n..])
  {
    forall x: nat ensures x in Passing(steps) <==> x in {steps[0].i} + Passing(steps[n..]) {
      if x in Passing(steps) {
        var k :| 0 <= k < |steps| && steps[k].Get? && steps[k].i == x;
        if k >= n { assert steps[n..][k - n] == steps[k]; }
      }
    }
  }

  ghost predicate ShorterThanEveryLease(es: seq<Elector>, lo: int, hi: int) {
    forall e | e in es :: 0 <= e.StoredSecs() && hi - lo < (e.StoredSecs() + 1) * MICROS_PER_SECOND
  }

  /** A round in which every elector passes without interruption, all readings falling within [lo, hi]. */
  ghost predicate Round(es: seq<Elector>, w: World, steps: seq<Step>, w': World, lo: int, hi: int) {
    && |w.members| == |es|
    && Reaches(es, w, steps, w')
    && Uninterrupted(steps)
    && ReadingsWithin(steps, lo, hi)
    && forall i: nat | i < |es| :: i in Passing(steps)
  }

  /** Whatever the interleavings before it, one round leaves at most one leader. */
  lemma RoundLeavesOneLeader(es: seq<Elector>, w: World, steps: seq<Step>, w': World, lo: int, hi: int)
    requires Distinct(es) && ShorterThanEveryLease(es, lo, hi)
    requires Round(es, w, steps, w', lo, hi)
    ensures SingleLeader(w')
  {
    RoundConverges(es, w, steps, w', {}, lo, hi);
  }

  ghost predicate AllResting(w: World) {
    forall i | 0 <= i < |w.members| :: w.members[i].phase.Resting?
  }

  ghost predicate NoNewPass(steps: seq<Step>) {
    forall k | 0 <= k < |steps| :: !steps[k].Get?
  }

  /** An open pass of elector i can always be brought to its end. */
  lemma OpenPassConcludes(es: seq<Elector>, w: World, i: nat) returns (steps: seq<Step>, w': World)
    requires |w.members| == |es| && i < |es|
    ensures Reaches(es, w, steps, w') && NoNewPass(steps) && |w'.members| == |es| && w'.members[i].phase.Resting?
    ensures forall j | 0 <= j < |es| && j != i :: w'.members[j] == w.members[j]
  {
    match w.members[i].phase
    case Resting => steps, w' := [], w;
    case Fetched(_, _) =>
      w' := Apply(es, w, Conclude(i, NoFault));
      steps := [Conclude(i, NoFault)];
      assert Reaches(es, w', steps[1..], w');
    case Absent(_) =>
      w' := Apply(es, w, Create(i, CreateFails(false)));
      steps := [Create(i, CreateFails(false))];
      assert Reaches(es, w', steps[1..], w');
    case Conflicted(_) =>
      w' := Apply(es, w, GetAgain(i, true));
      steps := [GetAgain(i, true)];
      assert Reaches(es, w', steps[1..], w');
  }

  lemma {:induction false} ReachesConcat(es: seq<Elector>, w: World, a: seq<Step>, w1: World, b: seq<Step>, w2: World)
    requires |w.members| == |es| && Reaches(es, w, a, w1) && |w1.members| == |es| && Reaches(es, w1, b, w2)
    ensures Reaches(es, w, a + b, w2)
    decreases |a|
  {
    if a == [] {
      assert a + b == b;
    } else {
      assert (a + b)[1..] == a[1..] + b;
      ReachesConcat(es, Apply(es, w, a[0]), a[1..], w1, b, w2);
    }
  }

  lemma {:induction false} OpenPassesConclude(es: seq<Elector>, w: World, k: nat) returns (steps: seq<Step>, w': World)
    requires |w.members| == |es| && k <= |es|
    ensures Reaches(es, w, steps, w') && NoNewPass(steps) && |w'.members| == |es|
    ensures forall j | 0 <= j < k :: w'.members[j].phase.Resting?
  {
    if k == 0 {
      steps, w' := [], w;
    } else {
      var steps1, w1 := OpenPassesConclude(es, w, k - 1);
      var steps2, w2 := OpenPassConcludes(es, w1, k - 1);
      ReachesConcat(es, w, steps1, w1, steps2, w2);
      steps, w' := steps1 + steps2, w2;
    }
  }

  /**
    From any state, also with passes open: the open passes can end without a
    new one beginning, and then any round leaves at most one leader.
   */
  lemma AnyStateSettles(es: seq<Elector>, w: World, lo: int, hi: int) returns (pending: seq<Step>, w1: World)
    requires |w.members| == |es| && Distinct(es) && ShorterThanEveryLease(es, lo, hi)
    ensures Reaches(es, w, pending, w1) && NoNewPass(pending) && |w1.members| == |es| && AllResting(w1)
    ensures forall steps, w' :: Round(es, w1, steps, w', lo, hi) ==> SingleLeader(w')
  {
    pending, w1 := OpenPassesConclude(es, w, |es|);
    forall steps, w' | Round(es, w1, steps, w', lo, hi) ensures SingleLeader(w') {
      RoundLeavesOneLeader(es, w1, steps, w', lo, hi);
    }
  }

  /** Without that discipline two electors that both read an unheld lease both come to lead. */
  lemma InterleavedPassesAdmitTwoLeaders(es: seq<Elector>, i: nat, j: nat, now: int)
      returns (w: World, steps: seq<Step>, w': World)
    requires i < |es| && j < |es| && i != j
    ensures |w.members| == |es| && Reaches(es, w, steps, w') && !SingleLeader(w')
    ensures forall k: nat | k < |es| :: !w.members[k].leader
  {
    w := World(Some(LeaseObject(None)), AtRest(es));
    steps := [Get(i, now, false), Get(j, now, false), Conclude(i, NoFault), Conclude(j, NoFault)];
    var w1 := Apply(es, w, steps[0]);
    var w2 := Apply(es, w1, steps[1]);
    var w3 := Apply(es, w2, steps[2]);
    w' := Apply(es, w3, steps[3]);
    assert Reaches(es, w', [], w');
    assert Reaches(es, w3, steps[3..], w');
    assert Reaches(es, w2, steps[2..], w');
    assert Reaches(es, w1, steps[1..], w');
    assert w'.members[i].leader && w'.members[j].leader;
  }

  /** Every elector from k on tries once and cannot reach the API; then the given steps follow. */
  function FailedGetsThen(n: nat, k: nat, now: int, rest: seq<Step>): seq<Step>
    requires k <= n
    decreases n - k
  {
    if k == n then rest else [Get(k, now, true)] + FailedGetsThen(n, k + 1, now, rest)
  }

  lemma {:induction false} FailedGetsKeepRest(es: seq<Elector>, k: nat, now: int, rest: seq<Step>, w': World, lo: int,
      hi: int)
    requires k <= |es| && lo <= now <= hi
    requires Reaches(es, World(None, AtRest(es)), rest, w') && Uninterrupted(rest) && ReadingsWithin(rest, lo, hi)
    ensures var steps := FailedGetsThen(|es|, k, now, rest);
            && Reaches(es, World(None, AtRest(es)), steps, w')
            && Uninterrupted(steps)
            && ReadingsWithin(steps, lo, hi)
            && forall i: nat | k <= i < |es| :: i in Passing(steps)
    decreases |es| - k
  {
    if k < |es| {
      FailedGetsKeepRest(es, k + 1, now, rest, w', lo, hi);
      var tail := FailedGetsThen(|es|, k + 1, now, rest);
      var steps := FailedGetsThen(|es|, k, now, rest);
      assert steps[0] == Get(k, now, true) && steps[1..] == tail;
      assert Apply(es, World(None, AtRest(es)), steps[0]) == World(None, AtRest(es));
      PassingTail(steps, 1);
    }
  }

  function AtRest(es: seq<Elector>): seq<Member> {
    seq(|es|, _ => Member(false, Resting))
  }

  /** A round stretched over a whole lease can end with two leaders. */
  lemma LongRoundAdmitsTwoLeaders(es: seq<Elector>, i: nat, j: nat, lo: int, hi: int)
      returns (w: World, steps: seq<Step>, w': World)
    requires Distinct(es) && i < |es| && j < |es| && i != j && lo <= hi
    requires hi - lo >= (es[i].StoredSecs() + 1) * MICROS_PER_SECOND
    ensures Round(es, w, steps, w', lo, hi) && !SingleLeader(w')
  {
    w := World(None, AtRest(es));
    var rest := [Get(i, lo, false), Create(i, NoFault), Get(j, hi, false), Conclude(j, NoFault)];
    var w1 := Apply(es, w, rest[0]);
    var w2 := Apply(es, w1, rest[1]);
    var w3 := Apply(es, w2, rest[2]);
    w' := Apply(es, w3, rest[3]);
    StaleLeaseIsTaken(w2.server, es[i], lo, es[j], hi);
    assert w'.members[i].leader && w'.members[j].leader;
    assert Reaches(es, w', [], w');
    assert Reaches(es, w3, rest[3..], w');
    assert Reaches(es, w2, rest[2..], w');
    assert Reaches(es, w1, rest[1..], w');
    assert Uninterrupted(rest[2..]) by { assert rest[2..][2..] == []; }
    steps := FailedGetsThen(|es|, 0, lo, rest);
    FailedGetsKeepRest(es, 0, lo, rest, w', lo, hi);
  }

  ghost predicate RoundsSettle(es: seq<Elector>, lo: int, hi: int) {
    forall w, steps, w' :: Round(es, w, steps, w', lo, hi) ==> SingleLeader(w')
  }

  /**
    A round spanning readings [lo, hi] always settles the election exactly when
    it is shorter than every lease plus a second.
   */
  lemma RoundsSettleIffShort(es: seq<Elector>, lo: int, hi: int)
    requires Distinct(es) && |es| >= 2 && lo <= hi
    ensures RoundsSettle(es, lo, hi) <==> ShorterThanEveryLease(es, lo, hi)
  {
    if ShorterThanEveryLease(es, lo, hi) {
      forall w, steps, w' | Round(es, w, steps, w', lo, hi) ensures SingleLeader(w') {
        RoundLeavesOneLeader(es, w, steps, w', lo, hi);
      }
    } else {
      var i: nat :| i < |es| && hi - lo >= (es[i].StoredSecs() + 1) * MICROS_PER_SECOND;
      var w, steps, w' := LongRoundAdmitsTwoLeaders(es, i, if i == 0 then 1 else 0, lo, hi);
    }
  }
}
