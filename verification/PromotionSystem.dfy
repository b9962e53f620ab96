/**
  Promotions over a whole cluster.  A run interleaves engine steps on any node.
  A step works on a copy of its node and decides on a listing, both taken at
  any earlier points of the run.  Its mutation is written back if the node has
  not changed since the copy was taken, or it is lost; what the drain service
  did stays done either way.
 */
module PromotionSystem {
  import opened Common
  import opened Crd
  import opened Candidate
  import opened GfsAdmin
  import opened Promotion

  datatype World = World(nodes: seq<PiNode>, gfs: Gfs)

  datatype Action =
    | EngineStep(i: nat, copy: nat, listing: nat, quorumOk: bool, writtenBack: bool)
    | LostAfterDrainCall(i: nat, copy: nat)  // crash between drain_node and the status query
    | GfsChanges(backend: Backend)

  /** The worlds so far, oldest first; the last one is current. */
  type History = h: seq<World> | h != [] witness [World([], Gfs(Scripted([], []), []))]

  function Now(h: History): World {
    h[|h| - 1]
  }

  predicate Enabled(h: History, a: Action) {
    match a
    case EngineStep(i, copy, listing, _, writtenBack) =>
      && i < |Now(h).nodes| && copy < |h| && i < |h[copy].nodes| && listing < |h|
      && (writtenBack ==> h[copy].nodes[i] == Now(h).nodes[i])
    case LostAfterDrainCall(i, copy) =>
      && copy < |h| && i < |h[copy].nodes|
      && h[copy].nodes[i].Step() == EvacuatingGfs && Current(h[copy].nodes[i]).drainHandle.None?
    case GfsChanges(_) => true
  }

  function Apply(h: History, a: Action): World
    requires Enabled(h, a)
  {
    var w := Now(h);
    match a
    case EngineStep(i, copy, listing, quorumOk, writtenBack) =>
      var r := Advance(h[copy].nodes[i], h[listing].nodes, quorumOk, w.gfs);
      World(if writtenBack then w.nodes[i := r.node] else w.nodes, r.gfs)
    case LostAfterDrainCall(i, copy) => w.(gfs := Drain(w.gfs, h[copy].nodes[i].spec.serial))
    case GfsChanges(b) => w.(gfs := w.gfs.(backend := b))
  }

  ghost predicate IsRun(h: History, actions: seq<Action>) {
    && |h| == |actions| + 1
    && forall k | 0 <= k < |actions| :: Enabled(h[..k + 1], actions[k]) && h[k + 1] == Apply(h[..k + 1], actions[k])
  }

  // ---------------------------------------------------------- single flight

  predicate Active(n: PiNode) {
    n.Step() == EvacuatingGfs || n.Step() == PreparingDisk || n.Step() == ReformattingDisk
  }

  predicate PastReformat(n: PiNode) {
    || n.Step() == PromotingK3s || n.Step() == JoiningEtcd
    || n.Step() == Verifying || n.Step() == PromotionStep.Complete
  }

  predicate Retired(n: PiNode) {
    PastReformat(n) || n.Step() == PromotionStep.Failed
  }

  ghost predicate DistinctSerials(nodes: seq<PiNode>) {
    forall i, j | 0 <= i < j < |nodes| :: nodes[i].spec.serial != nodes[j].spec.serial
  }

  /** No promotion has passed candidate selection, except finished ones of nodes that are workers no longer. */
  ghost predicate Quiet(w: World) {
    && DistinctSerials(w.nodes)
    && forall i | 0 <= i < |w.nodes| :: !Active(w.nodes[i])
        && (PastReformat(w.nodes[i]) ==> w.nodes[i].spec.role != Worker)
  }

  ghost predicate AtMostOneActive(w: World) {
    forall i, j | 0 <= i < |w.nodes| && 0 <= j < |w.nodes| :: Active(w.nodes[i]) && Active(w.nodes[j]) ==> i == j
  }

  ghost predicate SameSerials(a: seq<PiNode>, b: seq<PiNode>) {
    |a| == |b| && forall i | 0 <= i < |a| :: a[i].spec.serial == b[i].spec.serial
  }

  /** An old listing's choice is still the choice, or its promotion is over. */
  ghost predicate StillStands(listing: World, w: World)
    requires |listing.nodes| == |w.nodes|
  {
    var b := BestIndex(listing.nodes);
    b.Some? ==> BestIndex(w.nodes) == b || Retired(w.nodes[b.value])
  }

  /** Whoever is being evacuated or reformatted is the choice, and nobody past that is a worker. */
  ghost predicate Disciplined(nodes: seq<PiNode>) {
    && DistinctSerials(nodes)
    && (forall i | 0 <= i < |nodes| :: PastReformat(nodes[i]) ==> nodes[i].spec.role != Worker)
    && (forall i | 0 <= i < |nodes| :: Active(nodes[i]) ==> BestIndex(nodes) == Some(i))
  }

  ghost predicate Stands(listing: World, w: World) {
    SameSerials(listing.nodes, w.nodes) && StillStands(listing, w)
  }

  ghost predicate Inv(h: History) {
    && Disciplined(Now(h).nodes)
    && forall k | 0 <= k < |h| :: Stands(h[k], Now(h))
  }

  lemma EvacuationKeepsStandingOrFails(n: PiNode, gfs: Gfs)
    requires n.Step() == EvacuatingGfs
    ensures var n' := Evacuate(n, gfs).node;
            && n'.spec == n.spec
            && if n'.Step() == PromotionStep.Failed then PhaseOf(n') == PhaseFailed
               else Active(n') && PhaseOf(n') == PhaseOf(n) && DiskOf(n') == DiskOf(n)
  {
  }

  /** n' is no better a candidate than n, and is a worse one only by retiring. */
  ghost predicate NoBetter(n: PiNode, n': PiNode) {
    && n'.spec.serial == n.spec.serial
    && (Eligible(n') ==> Eligible(n) && Score(n') == Score(n))
    && (Eligible(n) && !Eligible(n') ==> Retired(n'))
    && (Retired(n) ==> Retired(n'))
    && (PastReformat(n') ==> n'.spec.role != Worker)
    && (Active(n') && Eligible(n) ==> Eligible(n'))
  }

  lemma StepMakesNoBetter(n: PiNode, all: seq<PiNode>, quorumOk: bool, gfs: Gfs)
    requires PastReformat(n) ==> n.spec.role != Worker
    ensures NoBetter(n, Advance(n, all, quorumOk, gfs).node)
  {
    if n.Step() == EvacuatingGfs {
      EvacuationKeepsStandingOrFails(n, gfs);
    }
  }

  /** A node starts evacuating only as the choice of the listing it was shown. */
  lemma OnlyTheChosenEvacuates(n: PiNode, all: seq<PiNode>, quorumOk: bool, gfs: Gfs)
    requires Active(Advance(n, all, quorumOk, gfs).node) && !Active(n)
    ensures n.Step() == SelectingCandidate
    ensures BestIndex(all).Some? && all[BestIndex(all).value].spec.serial == n.spec.serial
  {
  }

  /** Changing one node for the worse leaves the choice alone unless it was the chosen one and lost eligibility. */
  lemma ChoiceSurvives(nodes: seq<PiNode>, i: nat, n': PiNode)
    requires i < |nodes| && BestIndex(nodes).Some?
    requires Eligible(n') ==> Eligible(nodes[i]) && Score(n') == Score(nodes[i])
    requires BestIndex(nodes) == Some(i) ==> Eligible(n')
    ensures BestIndex(nodes[i := n']) == BestIndex(nodes)
  {
    assert IsBest(nodes[i := n'], BestIndex(nodes).value);
    BestIsUnique(nodes[i := n'], BestIndex(nodes).value);
  }

  /** Whatever an old listing chose still stands after one node got no better. */
  lemma ListingStillStands(listing: World, w: World, i: nat, n': PiNode, gfs': Gfs)
    requires Stands(listing, w) && i < |w.nodes| && NoBetter(w.nodes[i], n')
    ensures Stands(listing, World(w.nodes[i := n'], gfs'))
  {
    var b := BestIndex(listing.nodes);
    if b.Some? && BestIndex(w.nodes) == b && (b == Some(i) ==> Eligible(n')) {
      ChoiceSurvives(w.nodes, i, n');
    }
  }

  lemma SerialsStayDistinct(a: seq<PiNode>, b: seq<PiNode>)
    requires SameSerials(a, b) && DistinctSerials(a)
    ensures DistinctSerials(b)
  {
  }

  lemma ReplacementStaysDisciplined(nodes: seq<PiNode>, i: nat, n': PiNode)
    requires Disciplined(nodes) && i < |nodes| && NoBetter(nodes[i], n')
    requires Active(n') ==> BestIndex(nodes) == Some(i)
    ensures Disciplined(nodes[i := n'])
  {
    var nodes' := nodes[i := n'];
    SerialsStayDistinct(nodes, nodes');
    forall j | 0 <= j < |nodes'| && Active(nodes'[j]) ensures BestIndex(nodes') == Some(j) {
      ChoiceSurvives(nodes, i, n');
    }
  }

  lemma ReplacementKeepsInv(h: History, i: nat, n': PiNode, gfs': Gfs)
    requires Inv(h) && i < |Now(h).nodes| && NoBetter(Now(h).nodes[i], n')
    requires Active(n') ==> BestIndex(Now(h).nodes) == Some(i)
    ensures Inv(h + [World(Now(h).nodes[i := n'], gfs')])
  {
    var w := Now(h);
    var w' := World(w.nodes[i := n'], gfs');
    ReplacementStaysDisciplined(w.nodes, i, n');
    forall k | 0 <= k < |h| ensures Stands(h[k], w') {
      assert Stands(h[k], w);
      ListingStillStands(h[k], w, i, n', gfs');
    }
    assert Stands(w', w');
  }

  lemma EvacuatingIsTheChoice(h: History, i: nat, listing: nat, quorumOk: bool)
    requires Inv(h) && i < |Now(h).nodes| && listing < |h|
    requires Active(Advance(Now(h).nodes[i], h[listing].nodes, quorumOk, Now(h).gfs).node)
    ensures BestIndex(Now(h).nodes) == Some(i)
  {
    var w := Now(h);
    if !Active(w.nodes[i]) {
      OnlyTheChosenEvacuates(w.nodes[i], h[listing].nodes, quorumOk, w.gfs);
      assert Stands(h[listing], w);
      assert BestIndex(h[listing].nodes) == Some(i);
    }
  }

  lemma WrittenBackStepKeepsInv(h: History, i: nat, listing: nat, quorumOk: bool)
    requires Inv(h) && i < |Now(h).nodes| && listing < |h|
    ensures var r := Advance(Now(h).nodes[i], h[listing].nodes, quorumOk, Now(h).gfs);
            Inv(h + [World(Now(h).nodes[i := r.node], r.gfs)])
  {
    var w := Now(h);
    var r := Advance(w.nodes[i], h[listing].nodes, quorumOk, w.gfs);
    StepMakesNoBetter(w.nodes[i], h[listing].nodes, quorumOk, w.gfs);
    if Active(r.node) {
      EvacuatingIsTheChoice(h, i, listing, quorumOk);
    }
    ReplacementKeepsInv(h, i, r.node, r.gfs);
  }

  lemma SameNodesKeepInv(h: History, w': World)
    requires Inv(h) && w'.nodes == Now(h).nodes
    ensures Inv(h + [w'])
  {
    forall k | 0 <= k < |h| ensures Stands(h[k], w') {
      assert Stands(h[k], Now(h));
    }
    assert Stands(w', w');
  }

  lemma ActionKeepsInv(h: History, a: Action)
    requires Inv(h) && Enabled(h, a)
    ensures Inv(h + [Apply(h, a)])
  {
    if a.EngineStep? && a.writtenBack {
      WrittenBackStepKeepsInv(h, a.i, a.listing, a.quorumOk);
    } else {
      SameNodesKeepInv(h, Apply(h, a));
    }
  }

  lemma {:induction false} RunKeepsInv(h: History, actions: seq<Action>, k: nat)
    requires IsRun(h, actions) && Quiet(h[0]) && k < |h|
    ensures Inv(h[..k + 1])
  {
    if k > 0 {
      RunKeepsInv(h, actions, k - 1);
      assert h[..k - 1 + 1] == h[..k];
      ActionKeepsInv(h[..k], actions[k - 1]);
      assert h[..k + 1] == h[..k] + [h[k]];
    }
  }

  /**
    In every run from a quiet cluster, however stale the listings, at most one
    node is being evacuated or reformatted.
   */
  lemma AtMostOnePromotionInFlight(h: History, actions: seq<Action>, k: nat)
    requires IsRun(h, actions) && Quiet(h[0]) && k < |h|
    ensures AtMostOneActive(h[k])
  {
    RunKeepsInv(h, actions, k);
    assert Now(h[..k + 1]) == h[k];
  }

  // ---------------------------------------------------- drain before reformat

  /** The service accepted a drain of this node and later reported that very drain complete. */
  ghost predicate DrainWitnessed(log: seq<Reply>, serial: string) {
    exists a, b, handle | 0 <= a < b < |log| ::
      log[a] == DrainReply(serial, Ok(handle)) && log[b] == StatusReply(handle, Ok(Drained))
  }

  ghost predicate HandleWitnessed(log: seq<Reply>, serial: string, handle: string) {
    exists a | 0 <= a < |log| :: log[a] == DrainReply(serial, Ok(handle))
  }

  predicate Committed(n: PiNode) {
    n.spec.role == Master || n.spec.reformatConfirmed
  }

  predicate FreshWorker(n: PiNode) {
    && n.spec.role == Worker && !n.spec.reformatConfirmed
    && (n.Step() == Detecting || n.Step() == SelectingCandidate)
    && Current(n).drainHandle.None?
  }

  ghost predicate Orderly(n: PiNode, log: seq<Reply>) {
    && (Current(n).drainHandle.Some? ==> HandleWitnessed(log, n.spec.serial, Current(n).drainHandle.value))
    && (Committed(n) ==> PastReformat(n))
    && (n.Step() == PreparingDisk || n.Step() == ReformattingDisk || PastReformat(n) ==>
          DrainWitnessed(log, n.spec.serial))
  }

  lemma LongerLogStaysOrderly(n: PiNode, log: seq<Reply>, log': seq<Reply>)
    requires Orderly(n, log) && log <= log'
    ensures Orderly(n, log')
  {
  }

  lemma PollStaysOrderly(n: PiNode, handle: string, gfs: Gfs)
    requires Orderly(n, gfs.log) && n.Step() == EvacuatingGfs && !Committed(n)
    requires HandleWitnessed(gfs.log, n.spec.serial, handle)
    ensures Orderly(PollDrain(n, handle, gfs).node, PollDrain(n, handle, gfs).gfs.log)
  {
    var r := PollDrain(n, handle, gfs);
    LongerLogStaysOrderly(n, gfs.log, r.gfs.log);
    if r.node.Step() == PreparingDisk {
      var a :| 0 <= a < |gfs.log| && gfs.log[a] == DrainReply(n.spec.serial, Ok(handle));
      assert r.gfs.log[a] == DrainReply(n.spec.serial, Ok(handle));
      assert r.gfs.log[|gfs.log|] == StatusReply(handle, Ok(Drained));
    }
  }

  lemma EvacuationStaysOrderly(n: PiNode, gfs: Gfs)
    requires Orderly(n, gfs.log) && n.Step() == EvacuatingGfs
    ensures Orderly(Evacuate(n, gfs).node, Evacuate(n, gfs).gfs.log)
  {
    if Current(n).drainHandle.Some? {
      PollStaysOrderly(n, Current(n).drainHandle.value, gfs);
    } else {
      var gfs' := Drain(gfs, n.spec.serial);
      LongerLogStaysOrderly(n, gfs.log, gfs'.log);
      var reply := DrainReplyOf(gfs.backend, n.spec.serial);
      if reply.Ok? {
        assert gfs'.log[|gfs.log|] == DrainReply(n.spec.serial, Ok(reply.value));
        PollStaysOrderly(WithHandle(n, reply.value), reply.value, gfs');
      }
    }
  }

  lemma StepStaysOrderly(n: PiNode, all: seq<PiNode>, quorumOk: bool, gfs: Gfs)
    requires Orderly(n, gfs.log)
    ensures Orderly(Advance(n, all, quorumOk, gfs).node, Advance(n, all, quorumOk, gfs).gfs.log)
  {
    if n.Step() == EvacuatingGfs {
      EvacuationStaysOrderly(n, gfs);
    }
  }

  lemma {:induction false} RunStaysOrderly(h: History, actions: seq<Action>, i: nat, k: nat)
    requires IsRun(h, actions) && i < |h[0].nodes| && FreshWorker(h[0].nodes[i]) && k < |h|
    ensures i < |h[k].nodes| && Orderly(h[k].nodes[i], h[k].gfs.log)
  {
    if k > 0 {
      RunStaysOrderly(h, actions, i, k - 1);
      var before := h[..k];
      var w := h[k - 1];
      assert h[..k - 1 + 1] == before && Now(before) == w && h[k] == Apply(before, actions[k - 1]);
      match actions[k - 1]
      case EngineStep(j, copy, listing, quorumOk, writtenBack) =>
        StepLogGrows(before[copy].nodes[j], before[listing].nodes, quorumOk, w.gfs);
        LongerLogStaysOrderly(w.nodes[i], w.gfs.log, h[k].gfs.log);
        if j == i && writtenBack {
          StepStaysOrderly(w.nodes[i], before[listing].nodes, quorumOk, w.gfs);
        }
      case LostAfterDrainCall(_, _) =>
        LongerLogStaysOrderly(w.nodes[i], w.gfs.log, h[k].gfs.log);
      case GfsChanges(_) =>
    }
  }

  lemma StepLogGrows(n: PiNode, all: seq<PiNode>, quorumOk: bool, gfs: Gfs)
    ensures gfs.log <= Advance(n, all, quorumOk, gfs).gfs.log
  {
  }

  /**
    A node that starts as a fresh worker is made Master or confirmed for
    reformatting only after its own drain was reported complete, and a failed
    promotion leaves neither mark, through any replies and crashes.
   */
  lemma DrainPrecedesReformat(h: History, actions: seq<Action>, i: nat, k: nat)
    requires IsRun(h, actions) && i < |h[0].nodes| && FreshWorker(h[0].nodes[i]) && k < |h|
    ensures i < |h[k].nodes|
    ensures Committed(h[k].nodes[i]) ==> DrainWitnessed(h[k].gfs.log, h[k].nodes[i].spec.serial)
    ensures h[k].nodes[i].Step() == PromotionStep.Failed ==> !Committed(h[k].nodes[i])
  {
    RunStaysOrderly(h, actions, i, k);
  }

  // ------------------------------------------------------------- termination

  function Iterate(node: PiNode, all: seq<PiNode>, gfs: Gfs, n: nat): Advanced {
    if n == 0 then Advanced(node, gfs)
    else
      var r := Iterate(node, all, gfs, n - 1);
      Advance(r.node, all, true, r.gfs)
  }

  function Max(a: int, b: int): int {
    if a >= b then a else b
  }

  /** Where a promotion with a drain of c chunks stands after n steps. */
  function StepAfter(c: nat, n: nat): PromotionStep {
    var drain := Max(1, c);
    if n == 0 then SelectingCandidate
    else if n <= drain then EvacuatingGfs
    else if n == drain + 1 then PreparingDisk
    else if n == drain + 2 then ReformattingDisk
    else if n == drain + 3 then PromotingK3s
    else if n == drain + 4 then JoiningEtcd
    else if n == drain + 5 then Verifying
    else PromotionStep.Complete
  }

  /** A selected candidate about to be evacuated against a mock drain of c chunks that does not fail. */
  ghost predicate ReadyToPromote(node: PiNode, all: seq<PiNode>, gfs: Gfs, c: nat) {
    && node.Step() == SelectingCandidate
    && Current(node).drainHandle.None? && Current(node).failureReason.None?
    && BestIndex(all).Some? && all[BestIndex(all).value].spec.serial == node.spec.serial
    && gfs.backend.Mock? && gfs.log == []
    && DrainReplyOf(gfs.backend, node.spec.serial).Ok?
    && c == (if node.spec.serial in gfs.backend.delays then gfs.backend.delays[node.spec.serial] else 0)
  }

  /** The drain record n steps into the promotion. */
  ghost predicate DrainStands(node: PiNode, gfs: Gfs, c: nat, n: nat) {
    var handle := MockHandle(node.spec.serial);
    && gfs.backend.Mock?
    && Current(node).drainHandle == (if n < 2 then None else Some(handle))
    && (2 <= n <= Max(1, c) ==> handle in gfs.backend.drains && gfs.backend.drains[handle] == InProgress(c - (n - 1)))
    && |gfs.log| == (if n < 2 then 0 else 1 + (if n - 1 <= Max(1, c) then n - 1 else Max(1, c)))
    && forall k | 0 <= k < |gfs.log| :: gfs.log[k].DrainReply? <==> k == 0
  }

  /** Everything known after n steps of the promotion. */
  ghost predicate Timeline(serial: string, r: Advanced, c: nat, n: nat) {
    && r.node.Step() == StepAfter(c, n)
    && r.node.spec.serial == serial
    && DrainStands(r.node, r.gfs, c, n)
    && Current(r.node).failureReason == None
    && (n >= Max(1, c) + 3 ==> r.node.spec.role == Master && r.node.spec.reformatConfirmed)
    && (n >= Max(1, c) + 6 ==> PhaseOf(r.node) == Ready && DiskOf(r.node) == MountedEtcd)
  }

  /** The evacuating steps: the first starts the drain, each polls it once. */
  lemma EvacuationTimeline(serial: string, r: Advanced, c: nat, n: nat)
    requires Timeline(serial, r, c, n) && 1 <= n <= Max(1, c)
    requires n == 1 ==> DrainReplyOf(r.gfs.backend, serial).Ok?
                        && c == if serial in r.gfs.backend.delays then r.gfs.backend.delays[serial] else 0
    ensures Timeline(serial, Evacuate(r.node, r.gfs), c, n + 1)
  {
  }

  /** The steps before and after the evacuation. */
  lemma OtherStepTimeline(serial: string, r: Advanced, all: seq<PiNode>, c: nat, n: nat)
    requires Timeline(serial, r, c, n) && !(1 <= n <= Max(1, c))
    requires n == 0 ==> BestIndex(all).Some? && all[BestIndex(all).value].spec.serial == serial
    ensures Timeline(serial, Advance(r.node, all, true, r.gfs), c, n + 1)
  {
  }

  lemma {:induction false} PromotionTimeline(node: PiNode, all: seq<PiNode>, gfs: Gfs, c: nat, n: nat)
    requires ReadyToPromote(node, all, gfs, c)
    ensures Timeline(node.spec.serial, Iterate(node, all, gfs, n), c, n)
    ensures n < 2 ==> Iterate(node, all, gfs, n).gfs == gfs
  {
    if n > 0 {
      PromotionTimeline(node, all, gfs, c, n - 1);
      var r := Iterate(node, all, gfs, n - 1);
      if 2 <= n <= Max(1, c) + 1 {
        EvacuationTimeline(node.spec.serial, r, c, n - 1);
      } else {
        OtherStepTimeline(node.spec.serial, r, all, c, n - 1);
      }
    }
  }

  /**
    Promotion completes after exactly max(1, c) + 6 steps, starting its drain
    exactly once, and leaves a ready Master.
   */
  lemma PromotionCompletesExactly(node: PiNode, all: seq<PiNode>, gfs: Gfs, c: nat, n: nat)
    requires ReadyToPromote(node, all, gfs, c)
    ensures var r := Iterate(node, all, gfs, n);
            && (r.node.Step() == PromotionStep.Complete <==> n >= Max(1, c) + 6)
            && (forall k | 0 <= k < |r.gfs.log| :: r.gfs.log[k].DrainReply? <==> k == 0)
            && (n >= 2 ==> r.gfs.log != [])
            && (r.node.Step() == PromotionStep.Complete ==>
                  && r.node.spec.role == Master && r.node.spec.reformatConfirmed
                  && PhaseOf(r.node) == Ready && DiskOf(r.node) == MountedEtcd
                  && Current(r.node).failureReason == None)
  {
    PromotionTimeline(node, all, gfs, c, n);
  }

  // ------------------------------------------------ why a node moves on

  /** A written-back step of node i that was told the quorum is lost. */
  predicate SawLostQuorum(a: Action, i: nat) {
    a.EngineStep? && a.i == i && a.writtenBack && !a.quorumOk
  }

  /** A lost quorum, and nothing else, starts the search for a candidate. */
  lemma DetectingFollowsQuorum(n: PiNode, all: seq<PiNode>, quorumOk: bool, gfs: Gfs)
    requires n.Step() == Detecting
    ensures var r := Advance(n, all, quorumOk, gfs);
            && r.node.Step() == (if quorumOk then Detecting else SelectingCandidate)
            && r.node.spec == n.spec && r.gfs == gfs
  {
  }

  /** In a run a promotion begins only after a step of that node saw the quorum lost. */
  lemma {:induction false} PromotionNeedsLostQuorum(h: History, actions: seq<Action>, i: nat, k: nat)
    requires IsRun(h, actions) && i < |h[0].nodes| && h[0].nodes[i].Step() == Detecting && k < |h|
    ensures i < |h[k].nodes|
    ensures h[k].nodes[i].Step() != Detecting ==> exists j | 0 <= j < k :: SawLostQuorum(actions[j], i)
  {
    if k > 0 {
      PromotionNeedsLostQuorum(h, actions, i, k - 1);
      var before, a := h[..k], actions[k - 1];
      assert h[..k - 1 + 1] == before && Now(before) == h[k - 1] && h[k] == Apply(before, a);
      if h[k - 1].nodes[i].Step() == Detecting && a.EngineStep? && a.i == i && a.writtenBack {
        DetectingFollowsQuorum(h[k - 1].nodes[i], before[a.listing].nodes, a.quorumOk, h[k - 1].gfs);
        if !a.quorumOk {
          assert SawLostQuorum(actions[k - 1], i);
        }
      }
    }
  }

  /** And such a step of a node that is still detecting does begin it. */
  lemma LostQuorumBeginsPromotion(h: History, actions: seq<Action>, i: nat, k: nat)
    requires IsRun(h, actions) && k < |actions| && i < |h[k].nodes| && h[k].nodes[i].Step() == Detecting
    requires SawLostQuorum(actions[k], i)
    ensures i < |h[k + 1].nodes| && h[k + 1].nodes[i].Step() == SelectingCandidate
  {
    var before, a := h[..k + 1], actions[k];
    assert Enabled(before, a) && h[k + 1] == Apply(before, a) && Now(before) == h[k];
    DetectingFollowsQuorum(h[k].nodes[i], before[a.listing].nodes, a.quorumOk, h[k].gfs);
  }

  /** A reply that ends an evacuation in failure. */
  predicate BadReply(r: Reply) {
    match r
    case DrainReply(_, handle) => handle.Err?
    case StatusReply(_, status) => status.Err? || status.value.DrainFailed?
  }

  /** Where the last reply of an evacuation step leads. */
  function StepFor(r: Reply): PromotionStep {
    if BadReply(r) then PromotionStep.Failed
    else if r.StatusReply? && r.status == Ok(Drained) then PreparingDisk
    else EvacuatingGfs
  }

  /**
    An evacuation step asks for a drain unless it has a handle, then asks for
    its status, and goes where the last reply says.
   */
  lemma EvacuationFollowsReplies(n: PiNode, gfs: Gfs)
    requires n.Step() == EvacuatingGfs
    ensures var r := Evacuate(n, gfs);
            var replies := r.gfs.log[|gfs.log|..];
            && gfs.log <= r.gfs.log && 1 <= |replies| <= 2
            && (replies[0].DrainReply? <==> Current(n).drainHandle.None?)
            && (replies[0].DrainReply? ==>
                replies[0].node == n.spec.serial && (|replies| == 2 <==> replies[0].handle.Ok?))
            && (|replies| == 2 ==> replies[1].StatusReply? && replies[1].polled == replies[0].handle.value)
            && (replies[0].StatusReply? ==> |replies| == 1 && Some(replies[0].polled) == Current(n).drainHandle)
            && r.node.Step() == StepFor(replies[|replies| - 1])
  {
    var r := Evacuate(n, gfs);
    var d := DrainReply(n.spec.serial, DrainReplyOf(gfs.backend, n.spec.serial));
    if Current(n).drainHandle.Some? {
      var s := StatusReply(Current(n).drainHandle.value, StatusReplyOf(gfs.backend, Current(n).drainHandle.value));
      assert r.gfs.log[|gfs.log|..] == [s];
    } else if d.handle.Ok? {
      var g := Drain(gfs, n.spec.serial);
      var s := StatusReply(d.handle.value, StatusReplyOf(g.backend, d.handle.value));
      assert r.gfs.log == gfs.log + [d, s];
      assert r.gfs.log[|gfs.log|..] == [d, s];
    } else {
      assert r.gfs.log[|gfs.log|..] == [d];
    }
  }

  /** A node that fails says why, and is neither promoted nor confirmed for reformatting by it. */
  lemma FailureIsRecorded(n: PiNode, all: seq<PiNode>, quorumOk: bool, gfs: Gfs)
    requires n.Step() != PromotionStep.Failed
    ensures var n' := Advance(n, all, quorumOk, gfs).node;
            n'.Step() == PromotionStep.Failed ==>
              && Current(n').failureReason.Some? && InPhase(n', PhaseFailed) && n'.spec == n.spec
              && (n.Step() == SelectingCandidate || n.Step() == EvacuatingGfs)
  {
  }

  /** A step of node i after which it fails: nobody to promote, or a bad reply. */
  ghost predicate FailsAt(h: History, actions: seq<Action>, i: nat, j: nat)
    requires |h| == |actions| + 1 && j < |actions|
  {
    var a := actions[j];
    && a.EngineStep? && a.i == i && a.writtenBack && a.listing < |h|
    && (|| (forall n | n in h[a.listing].nodes :: !Promotable(n))
        || (h[j + 1].gfs.log != [] && BadReply(h[j + 1].gfs.log[|h[j + 1].gfs.log| - 1])))
  }

  lemma FailingStepHasCause(n: PiNode, all: seq<PiNode>, quorumOk: bool, gfs: Gfs)
    requires n.Step() != PromotionStep.Failed
    requires Advance(n, all, quorumOk, gfs).node.Step() == PromotionStep.Failed
    ensures var log := Advance(n, all, quorumOk, gfs).gfs.log;
            || (forall m | m in all :: !Promotable(m))
            || (log != [] && BadReply(log[|log| - 1]))
  {
    if n.Step() == EvacuatingGfs {
      EvacuationFollowsReplies(n, gfs);
    } else {
      forall m | m in all ensures !Promotable(m) {
        EligibleIsPromotable(m);
      }
    }
  }

  /** In a run a promotion fails only at a step that had nobody to promote or got a bad reply. */
  lemma {:induction false} FailureHasACause(h: History, actions: seq<Action>, i: nat, k: nat)
    requires IsRun(h, actions) && i < |h[0].nodes| && h[0].nodes[i].Step() != PromotionStep.Failed && k < |h|
    ensures i < |h[k].nodes|
    ensures h[k].nodes[i].Step() == PromotionStep.Failed ==> exists j | 0 <= j < k :: FailsAt(h, actions, i, j)
  {
    if k > 0 {
      FailureHasACause(h, actions, i, k - 1);
      var before, a := h[..k], actions[k - 1];
      var n := h[k - 1].nodes[i];
      assert h[..k - 1 + 1] == before && Enabled(before, a) && Now(before) == h[k - 1] && h[k] == Apply(before, a);
      if n.Step() != PromotionStep.Failed && h[k].nodes[i].Step() == PromotionStep.Failed {
        FailingStepHasCause(n, before[a.listing].nodes, a.quorumOk, h[k - 1].gfs);
        assert FailsAt(h, actions, i, k - 1);
      }
    }
  }

  /** The steps of a promotion that goes on are taken in this order, one at a time. */
  function Successor(s: PromotionStep): PromotionStep {
    match s
    case Detecting => SelectingCandidate
    case SelectingCandidate => EvacuatingGfs
    case EvacuatingGfs => PreparingDisk
    case PreparingDisk => ReformattingDisk
    case ReformattingDisk => PromotingK3s
    case PromotingK3s => JoiningEtcd
    case JoiningEtcd => Verifying
    case Verifying => PromotionStep.Complete
    case Complete => PromotionStep.Complete
    case Failed => PromotionStep.Failed
  }

  /**
    Every step stays, goes one further or fails; finished promotions stay; the
    record keeps its candidate and attempts.
   */
  lemma StepsInOrder(n: PiNode, all: seq<PiNode>, quorumOk: bool, gfs: Gfs)
    ensures var n' := Advance(n, all, quorumOk, gfs).node;
            && n'.Step() in {n.Step(), Successor(n.Step()), PromotionStep.Failed}
            && (n.Step() in {PromotionStep.Complete, PromotionStep.Failed} ==> n'.Step() == n.Step())
            && (n.Step() in {PreparingDisk, ReformattingDisk, PromotingK3s, JoiningEtcd, Verifying} ==>
                  n'.Step() == Successor(n.Step()))
            && n'.status.Some? && n'.status.value.promotion.Some?
            && Current(n').candidate == Current(n).candidate && Current(n').attempts == Current(n).attempts
            && (n'.spec != n.spec ==> n.Step() == ReformattingDisk)
  {
    if n.Step() == EvacuatingGfs {
      EvacuationFollowsReplies(n, gfs);
    }
  }

  /** A node selects itself exactly when the listing's preferred node has its serial number. */
  lemma SelectionFollowsPreference(n: PiNode, all: seq<PiNode>, quorumOk: bool, gfs: Gfs, i: nat)
    requires n.Step() == SelectingCandidate && Preferred(all, i)
    ensures Advance(n, all, quorumOk, gfs).node.Step() ==
            if all[i].spec.serial == n.spec.serial then EvacuatingGfs else SelectingCandidate
  {
    BestIffPreferred(all, i);
    BestIsUnique(all, i);
  }

  /** A selection with nobody to promote fails. */
  lemma NoCandidateFails(n: PiNode, all: seq<PiNode>, quorumOk: bool, gfs: Gfs)
    requires n.Step() == SelectingCandidate && forall m | m in all :: !Promotable(m)
    ensures Advance(n, all, quorumOk, gfs).node.Step() == PromotionStep.Failed
  {
    forall j | 0 <= j < |all| ensures !Eligible(all[j]) {
      EligibleIsPromotable(all[j]);
    }
  }

  /** Verification, and every later step, leaves the node ready with etcd on its disk. */
  lemma CompleteNodesServe(n: PiNode, all: seq<PiNode>, quorumOk: bool, gfs: Gfs)
    requires n.Step() == Verifying || n.Step() == PromotionStep.Complete
    ensures var n' := Advance(n, all, quorumOk, gfs).node;
            n'.Step() == PromotionStep.Complete && InPhase(n', Ready) && n'.status.value.disk == MountedEtcd
  {
  }
}
