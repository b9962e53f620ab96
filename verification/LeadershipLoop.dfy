/**
  The election loop of one process (crates/cluster-common/src/election.rs) and
  the callback that starts and stops its worker through a cancellation token
  (crates/cluster-operator/src/main.rs, crates/cluster-netboot/src/main.rs).
 */
module LeadershipLoop {
  import opened Common
  import opened Lease
  import Safety = ElectionSafety

  // ---------------------------------------------------------------- tokens

  /** The shared token slot, how many tokens were issued, and which were cancelled. */
  datatype Tokens = Tokens(slot: Option<nat>, issued: nat, cancelled: set<nat>) {

    /** The tokens whose workers are still running. */
    function Live(): set<nat> {
      set t: nat | t < issued && t !in cancelled
    }
  }

  const NO_TOKENS := Tokens(None, 0, {})

  function Handle(t: Tokens, leader: bool): Tokens {
    if leader then t.(slot := Some(t.issued), issued := t.issued + 1)
    else if t.slot.Some? then t.(slot := None, cancelled := t.cancelled + {t.slot.value})
    else t
  }

  function HandleAll(callbacks: seq<bool>): Tokens {
    if callbacks == [] then NO_TOKENS
    else Handle(HandleAll(callbacks[..|callbacks| - 1]), callbacks[|callbacks| - 1])
  }

  lemma HandleLast(callbacks: seq<bool>, leader: bool)
    ensures HandleAll(callbacks + [leader]) == Handle(HandleAll(callbacks), leader)
  {
    assert (callbacks + [leader])[..|callbacks|] == callbacks;
  }

  ghost predicate Repeats(callbacks: seq<bool>) {
    exists k | 0 < k < |callbacks| :: callbacks[k - 1] && callbacks[k]
  }

  /**
    As long as no acquisition repeats, only the slot's own token is live, and it
    is there exactly after an acquisition.
   */
  lemma {:induction false} LiveTokenIsInSlot(callbacks: seq<bool>)
    requires !Repeats(callbacks)
    ensures var t := HandleAll(callbacks);
            var leading := callbacks != [] && callbacks[|callbacks| - 1];
            && t.Live() == (if leading then {t.issued - 1} else {})
            && t.slot == (if leading then Some(t.issued - 1) else None)
            && (leading ==> t.issued > 0)
  {
    var n := |callbacks|;
    if n > 0 {
      var init := callbacks[..n - 1];
      forall k | 0 < k < |init| ensures !(init[k - 1] && init[k]) {
        assert init[k - 1] == callbacks[k - 1] && init[k] == callbacks[k];
      }
      LiveTokenIsInSlot(init);
      var before, after := HandleAll(init), HandleAll(callbacks);
      if callbacks[n - 1] {
        assert n >= 2 ==> init[n - 2] == callbacks[n - 2];
        assert before.issued !in before.cancelled by { CancelledWereIssued(init); }
        forall x: nat ensures x in after.Live() <==> x == before.issued {
          assert x < before.issued ==> (x in before.Live() <==> x !in before.cancelled);
        }
      } else {
        forall x: nat ensures x !in after.Live() {
          assert x in before.Live() <==> x < before.issued && x !in before.cancelled;
        }
      }
    }
  }

  lemma {:induction false} CancelledWereIssued(callbacks: seq<bool>)
    ensures var t := HandleAll(callbacks);
            (forall x | x in t.cancelled :: x < t.issued) && (t.slot.Some? ==> t.slot.value < t.issued)
  {
    if callbacks != [] {
      CancelledWereIssued(callbacks[..|callbacks| - 1]);
    }
  }

  /** Two acquisitions in a row leave two workers running, the first without a token to stop it. */
  lemma RepeatLeaksAToken(callbacks: seq<bool>, k: nat)
    requires 0 < k < |callbacks| && callbacks[k - 1] && callbacks[k]
    ensures |HandleAll(callbacks[..k + 1]).Live()| >= 2
  {
    var a, b, c := callbacks[..k - 1], callbacks[..k], callbacks[..k + 1];
    assert b[..|b| - 1] == a && c[..|c| - 1] == b;
    CancelledWereIssued(a);
    var first := HandleAll(a).issued;
    assert HandleAll(b).issued == first + 1 && HandleAll(c).issued == first + 2;
    assert {first, first + 1} <= HandleAll(c).Live();
    CardinalityMonotone({first, first + 1}, HandleAll(c).Live());
  }

  lemma CardinalityMonotone(a: set<nat>, b: set<nat>)
    requires a <= b
    ensures |a| <= |b|
  {
    assert b == a + (b - a);
  }

  /** The callback never runs two workers at once, exactly for the callback sequences without a repeated acquisition. */
  lemma OneWorkerIffNoRepeat(callbacks: seq<bool>)
    ensures (forall n | 0 <= n <= |callbacks| :: |HandleAll(callbacks[..n]).Live()| <= 1) <==> !Repeats(callbacks)
  {
    if Repeats(callbacks) {
      var k :| 0 < k < |callbacks| && callbacks[k - 1] && callbacks[k];
      RepeatLeaksAToken(callbacks, k);
    } else {
      forall n | 0 <= n <= |callbacks| ensures |HandleAll(callbacks[..n]).Live()| <= 1 {
        LiveTokenIsInSlot(callbacks[..n]);
      }
    }
  }

  // ------------------------------------------------- callbacks of the loop

  /** The notifications of the loop, given the belief after each pass. */
  function Notified(beliefs: seq<bool>): seq<bool> {
    if beliefs == [] then []
    else
      var init, last := beliefs[..|beliefs| - 1], beliefs[|beliefs| - 1];
      if last != Holds(init) then Notified(init) + [last] else Notified(init)
  }

  lemma NotifiedLast(beliefs: seq<bool>, b: bool)
    ensures Notified(beliefs + [b]) ==
            if b != Holds(beliefs) then Notified(beliefs) + [b] else Notified(beliefs)
    ensures HandleAll(Notified(beliefs + [b])) ==
            if b != Holds(beliefs) then Handle(HandleAll(Notified(beliefs)), b) else HandleAll(Notified(beliefs))
  {
    assert (beliefs + [b])[..|beliefs|] == beliefs;
    HandleLast(Notified(beliefs), b);
  }

  /** The belief after the last pass; an elector starts as a follower. */
  predicate Holds(beliefs: seq<bool>) {
    beliefs != [] && beliefs[|beliefs| - 1]
  }

  /** All notifications of a run cancelled after these passes; a leader is told once more. */
  function RunNotifications(beliefs: seq<bool>): seq<bool> {
    if Holds(beliefs) then Notified(beliefs) + [false] else Notified(beliefs)
  }

  ghost predicate Alternates(callbacks: seq<bool>) {
    forall k | 0 <= k < |callbacks| :: callbacks[k] == (k % 2 == 0)
  }

  lemma {:induction false} NotificationsAlternate(beliefs: seq<bool>)
    ensures Alternates(Notified(beliefs))
    ensures Holds(beliefs) <==> |Notified(beliefs)| % 2 == 1
  {
    if beliefs != [] {
      NotificationsAlternate(beliefs[..|beliefs| - 1]);
    }
  }

  lemma AlternatingNeverRepeats(callbacks: seq<bool>)
    requires Alternates(callbacks)
    ensures !Repeats(callbacks)
  {
    forall k | 0 < k < |callbacks| ensures !(callbacks[k - 1] && callbacks[k]) {
      assert callbacks[k] == (k % 2 == 0) && callbacks[k - 1] == ((k - 1) % 2 == 0);
    }
  }

  /**
    For every sequence of pass results and every cancellation point: exactly one
    worker runs while the elector leads, none otherwise, and none after the run,
    whose notifications alternate and end with a loss.
   */
  lemma {:induction false} WorkerRunsExactlyWhileLeading(beliefs: seq<bool>)
    ensures |HandleAll(Notified(beliefs)).Live()| == if Holds(beliefs) then 1 else 0
    ensures HandleAll(RunNotifications(beliefs)).Live() == {}
    ensures Alternates(RunNotifications(beliefs))
    ensures RunNotifications(beliefs) != [] ==> !RunNotifications(beliefs)[|RunNotifications(beliefs)| - 1]
  {
    NotificationsAlternate(beliefs);
    AlternatingNeverRepeats(Notified(beliefs));
    LiveTokenIsInSlot(Notified(beliefs));
    AlternatingNeverRepeats(RunNotifications(beliefs));
    LiveTokenIsInSlot(RunNotifications(beliefs));
  }

  // -------------------------------------------------------- the loop itself

  /** The API server's copy of the lease. */
  class LeaseApi {
    var lease: Option<LeaseObject>

    constructor (lease: Option<LeaseObject>)
      ensures this.lease == lease
    {
      this.lease := lease;
    }

    /** Creates the lease; false means 409, somebody else created it first. */
    method Create(created: LeaseObject, fault: Fault) returns (r: Result<bool, ElectionError>)
      modifies this
      ensures r == if fault.CreateFails? then Err(Kube) else Ok(old(lease).None?)
      ensures lease == if old(lease).None? && (fault.CreateFails? ==> fault.applied) then Some(created) else old(lease)
    {
      if lease.None? && (!fault.CreateFails? || fault.applied) {
        r := if fault.CreateFails? then Err(Kube) else Ok(true);
        lease := Some(created);
      } else {
        r := if fault.CreateFails? then Err(Kube) else Ok(lease.None?);
      }
    }

    /** Merge-patches the lease with no precondition on its version. */
    method Patch(e: Elector, now: int, d: Decision, fault: Fault) returns (ok: bool)
      requires lease.Some?
      modifies this
      ensures ok == !fault.PatchFails?
      ensures lease == if fault.PatchFails? && !fault.applied then old(lease)
                       else Some(Patched(old(lease.value), e, now, d))
    {
      ok := !fault.PatchFails?;
      if ok || fault.applied {
        lease := Some(Patched(lease.value, e, now, d));
      }
    }
  }

  /** The callback's captured state. */
  class WorkerSlot {
    var slot: Option<nat>
    var issued: nat
    var cancelled: set<nat>

    constructor ()
      ensures State() == NO_TOKENS
    {
      slot, issued, cancelled := None, 0, {};
    }

    function State(): (t: Tokens)
      reads this
    {
      Tokens(slot, issued, cancelled)
    }

    method OnLeadershipChange(leader: bool)
      modifies this
      ensures State() == Handle(old(State()), leader)
    {
      if leader {
        slot := Some(issued);
        issued := issued + 1;
      } else if slot.Some? {
        cancelled := cancelled + {slot.value};
        slot := None;
      }
    }
  }

  /**
    What one iteration meets: the lease others left on the server, the clock
    reading, a lease another elector may create between this one's get and
    create, whether the second read fails, and the failing call.
   */
  datatype Iteration = Iteration(
    found: Option<LeaseObject>, now: int, racer: Option<LeaseObject>, rereadFails: bool, fault: Fault) {

    /** The lease as the deciding read sees it. */
    function Seen(): Option<LeaseObject> {
      if fault.GetFails? || found.Some? then found else racer
    }

    /** A failed create over, or a failed second read of, somebody else's new lease ends the pass like a failed read. */
    function Effective(): Fault {
      if found.None? && racer.Some? && (fault.CreateFails? || rereadFails) then GetFails else fault
    }

    function Result(e: Elector): PassResult {
      Pass(Seen(), e, now, Effective())
    }
  }

  function Beliefs(e: Elector, iterations: seq<Iteration>): seq<bool> {
    seq(|iterations|, k requires 0 <= k < |iterations| => iterations[k].Result(e).Leads())
  }

  lemma BeliefsSnoc(e: Elector, iterations: seq<Iteration>, k: nat)
    requires k < |iterations|
    ensures var all, b := Beliefs(e, iterations), iterations[k].Result(e).Leads();
            && Holds(all[..k + 1]) == b
            && HandleAll(Notified(all[..k + 1])) ==
               if b != Holds(all[..k]) then Handle(HandleAll(Notified(all[..k])), b) else HandleAll(Notified(all[..k]))
  {
    var all, b := Beliefs(e, iterations), iterations[k].Result(e).Leads();
    assert all[..k + 1] == all[..k] + [b];
    NotifiedLast(all[..k], b);
  }

  class LeaseElector {
    const me: Elector
    var isLeader: bool

    constructor (me: Elector)
      ensures this.me == me && !isLeader
    {
      this.me := me;
      isLeader := false;
    }

    /** One pass, including a lost creation race: equal to an atomic pass over the lease it finally reads. */
    method TryAcquireOrRenew(api: LeaseApi, it: Iteration) returns (r: Result<bool, ElectionError>)
      requires api.lease == it.found
      modifies api
      ensures r == it.Result(me).outcome
      ensures api.lease == it.Result(me).server
    {
      if it.fault.GetFails? {
        return Err(Kube);
      }
      if api.lease.None? {
        api.lease := it.racer;
        var created := api.Create(Created(me, it.now), it.fault);
        if created.Err? || created.value {
          return created;
        }
        if it.rereadFails {
          return Err(Kube);
        }
      }
      var lease := api.lease.value;
      var d := Decide(lease, me.identity, it.now);
      if d.StandBy? {
        return Ok(false);
      }
      var ok := api.Patch(me, it.now, d, it.fault);
      return if ok then Ok(true) else Err(Kube);
    }

    /** Adopts a pass's result and tells the worker about a change. */
    method Adopt(r: Result<bool, ElectionError>, worker: WorkerSlot)
      modifies this`isLeader, worker
      ensures isLeader == (r == Ok(true))
      ensures worker.State() == if isLeader != old(isLeader) then Handle(old(worker.State()), isLeader)
          else old(worker.State())
    {
      match r
      case Ok(true) =>
        if !isLeader {
          isLeader := true;
          worker.OnLeadershipChange(true);
        }
      case Ok(false) =>
        if isLeader {
          isLeader := false;
          worker.OnLeadershipChange(false);
        }
      case Err(_) =>
        if isLeader {
          isLeader := false;
          worker.OnLeadershipChange(false);
        }
    }

    /** One iteration: a pass over whatever lease the server holds by then. */
    method Iterate(api: LeaseApi, worker: WorkerSlot, it: Iteration)
      modifies this`isLeader, api, worker
      ensures isLeader == it.Result(me).Leads() && api.lease == it.Result(me).server
      ensures isLeader ==> api.lease.Some?
      ensures worker.State() == if isLeader != old(isLeader) then Handle(old(worker.State()), isLeader)
          else old(worker.State())
    {
      api.lease := it.found;
      var r := TryAcquireOrRenew(api, it);
      Adopt(r, worker);
    }

    /** The loop until it is cancelled. */
    method Campaign(api: LeaseApi, worker: WorkerSlot, iterations: seq<Iteration>)
      requires !isLeader && worker.State() == NO_TOKENS
      modifies this`isLeader, api, worker
      ensures isLeader == Holds(Beliefs(me, iterations)) && (isLeader ==> api.lease.Some?)
      ensures api.lease == if iterations == [] then old(api.lease) else iterations[|iterations| - 1].Result(me).server
      ensures worker.State() == HandleAll(Notified(Beliefs(me, iterations)))
    {
      var k := 0;
      ghost var all := Beliefs(me, iterations);
      assert all[..0] == [];
      while k < |iterations|
        invariant 0 <= k <= |iterations|
        invariant isLeader == Holds(all[..k])
        invariant isLeader ==> api.lease.Some?
        invariant api.lease == if k == 0 then old(api.lease) else iterations[k - 1].Result(me).server
        invariant worker.State() == HandleAll(Notified(all[..k]))
      {
        Iterate(api, worker, iterations[k]);
        BeliefsSnoc(me, iterations, k);
        k := k + 1;
      }
      assert all[..k] == all;
    }

    /** A leader releases the lease and tells the worker; a follower leaves both alone. */
    method Shutdown(api: LeaseApi, worker: WorkerSlot, releaseApplied: bool)
      requires isLeader ==> api.lease.Some?
      modifies api, worker
      ensures if isLeader && releaseApplied then
                && old(api.lease).Some?
                && api.lease == Some(LeaseObject(Some(old(api.lease).value.spec.GetOr(EMPTY_SPEC).(holder := None))))
              else api.lease == old(api.lease)
      ensures worker.State() == if isLeader then Handle(old(worker.State()), false) else old(worker.State())
    {
      if isLeader {
        if releaseApplied {
          api.lease := Some(Released(api.lease.value));
        }
        worker.OnLeadershipChange(false);
      }
    }

    /** The loop, cancelled after the given iterations, and the shutdown. */
    method Run(api: LeaseApi, worker: WorkerSlot, iterations: seq<Iteration>, releaseApplied: bool)
      requires !isLeader && worker.State() == NO_TOKENS
      modifies this, api, worker
      ensures worker.State() == HandleAll(RunNotifications(Beliefs(me, iterations)))
      ensures worker.State().Live() == {}
      ensures iterations == [] ==> api.lease == old(api.lease)
      ensures iterations != [] ==>
                var last := iterations[|iterations| - 1].Result(me);
                if last.Leads() && releaseApplied then
                  && last.server.Some?
                  && api.lease == Some(LeaseObject(Some(last.server.value.spec.GetOr(EMPTY_SPEC).(holder := None))))
                else
                  api.lease == last.server
    {
      ghost var all := Beliefs(me, iterations);
      Campaign(api, worker, iterations);
      WorkerRunsExactlyWhileLeading(all);
      HandleLast(Notified(all), false);
      Shutdown(api, worker, releaseApplied);
    }
  }

  // ------------------------------------------------ the loop as timed steps

  /** The lease a run of the loop leaves, as the loop's contract gives it. */
  function FinalLease(e: Elector, last: Iteration, releaseApplied: bool): Option<LeaseObject> {
    var r := last.Result(e);
    if r.Leads() && releaseApplied && r.server.Some?
    then Some(LeaseObject(Some(r.server.value.spec.GetOr(EMPTY_SPEC).(holder := None))))
    else r.server
  }

  /**
    The last iteration and the shutdown after it are steps of the timed system:
    a pass over the lease it read, then a release if that pass left the elector
    leading, and nothing at all otherwise.
   */
  lemma ShutdownIsARelease(p: Safety.Params, w: Safety.World, i: nat, last: Iteration, applied: bool)
      returns (w1: Safety.World, w2: Safety.World)
    requires |w.members| == |p.electors| && i < |p.electors| && w.server == last.Seen()
    requires w.time - p.skew <= last.now <= w.time + p.skew
    ensures Safety.Next(p, w, Safety.RunPass(i, last.now, last.Effective()), w1)
    ensures |w1.members| == |w.members| && w1.members[i].leader == last.Result(p.electors[i]).Leads()
    ensures if w1.members[i].leader then Safety.Next(p, w1, Safety.Release(i, applied), w2) else w2 == w1
    ensures w2.server == FinalLease(p.electors[i], last, applied) && !w2.members[i].leader
    ensures forall j | 0 <= j < |w.members| && j != i :: w2.members[j] == w.members[j]
  {
    var r := last.Result(p.electors[i]);
    w1 := w.(server := r.server, members := w.members[i := Safety.Member(r.Leads(), w.time)]);
    if r.Leads() {
      w2 := w1.(server := FinalLease(p.electors[i], last, applied),
                members := w1.members[i := w1.members[i].(leader := false)]);
    } else {
      w2 := w1;
    }
  }
}
