/** One step of the promotion state machine (crates/cluster-operator/src/promotion_fsm.rs). */
module Promotion {
  import opened Common
  import opened Crd
  import opened Candidate
  import opened GfsAdmin

  const NO_CANDIDATE := "No eligible Worker candidate found for promotion"

  function NewPromotion(serial: string, step: PromotionStep): PromotionState {
    PromotionState(serial, step, None, None, 1)
  }

  function Current(node: PiNode): PromotionState {
    if node.status.Some? && node.status.value.promotion.Some? then node.status.value.promotion.value
    else NewPromotion(node.spec.serial, Detecting)
  }

  function WithPromotion(node: PiNode, p: PromotionState): PiNode {
    node.(status := Some(node.status.GetOr(DEFAULT_STATUS).(promotion := Some(p))))
  }

  function WithStep(node: PiNode, step: PromotionStep): PiNode {
    WithPromotion(node, Current(node).(step := step))
  }

  function WithHandle(node: PiNode, handle: string): PiNode {
    if node.status.Some? && node.status.value.promotion.Some?
    then WithPromotion(node, Current(node).(drainHandle := Some(handle)))
    else node
  }

  function Failing(node: PiNode, reason: string): PiNode {
    var n := WithPromotion(node, Current(node).(step := PromotionStep.Failed, failureReason := Some(reason)));
    n.(status := Some(n.status.value.(phase := PhaseFailed)))
  }

  function Mounted(node: PiNode): PiNode {
    if node.status.Some? then node.(status := Some(node.status.value.(phase := Ready, disk := MountedEtcd))) else node
  }

  datatype Advanced = Advanced(node: PiNode, gfs: Gfs)

  function PollDrain(node: PiNode, handle: string, gfs: Gfs): Advanced {
    var reply := StatusReplyOf(gfs.backend, handle);
    var node' := match reply
      case Ok(Drained) => WithStep(node, PreparingDisk)
      case Ok(InProgress(_)) => WithStep(node, EvacuatingGfs)
      case Ok(DrainFailed(reason)) => Failing(node, "GFS drain failed: " + reason)
      case Err(e) => Failing(node, "GFS drain status query error: " + e);
    Advanced(node', Poll(gfs, handle))
  }

  function Evacuate(node: PiNode, gfs: Gfs): Advanced {
    var handle := Current(node).drainHandle;
    if handle.Some? then PollDrain(node, handle.value, gfs)
    else
      match DrainReplyOf(gfs.backend, node.spec.serial)
      case Ok(h) => PollDrain(WithHandle(node, h), h, Drain(gfs, node.spec.serial))
      case Err(e) => Advanced(Failing(node, "Failed to initiate GFS drain: " + e), Drain(gfs, node.spec.serial))
  }

  /** The mutation one engine step makes to a node, given the listed nodes and the quorum answer. */
  function Advance(node: PiNode, all: seq<PiNode>, quorumOk: bool, gfs: Gfs): Advanced {
    match Current(node).step
    case Detecting => Advanced(WithStep(node, if quorumOk then Detecting else SelectingCandidate), gfs)
    case SelectingCandidate =>
      var best := BestIndex(all);
      if best.None? then Advanced(Failing(node, NO_CANDIDATE), gfs)
      else if all[best.value].spec.serial == node.spec.serial then Advanced(WithStep(node, EvacuatingGfs), gfs)
      else Advanced(WithStep(node, SelectingCandidate), gfs)
    case EvacuatingGfs => Evacuate(node, gfs)
    case PreparingDisk => Advanced(WithStep(node, ReformattingDisk), gfs)
    case ReformattingDisk =>
      Advanced(WithStep(node.(spec := node.spec.(role := Master, reformatConfirmed := true)), PromotingK3s), gfs)
    case PromotingK3s => Advanced(WithStep(node, JoiningEtcd), gfs)
    case JoiningEtcd => Advanced(WithStep(node, Verifying), gfs)
    case Verifying => Advanced(WithStep(Mounted(node), PromotionStep.Complete), gfs)
    case Complete => Advanced(WithStep(Mounted(node), PromotionStep.Complete), gfs)
    case Failed => Advanced(WithStep(node, PromotionStep.Failed), gfs)
  }

  /** A node resource as the engine mutates it in place. */
  class NodeCell {
    var spec: PiNodeSpec
    var status: Option<PiNodeStatus>

    constructor (node: PiNode)
      ensures Node() == node
    {
      spec, status := node.spec, node.status;
    }

    function Node(): (n: PiNode)
      reads this
    {
      PiNode(spec, status)
    }

    method PersistDrainHandle(handle: string)
      modifies this`status
      ensures Node() == WithHandle(old(Node()), handle)
    {
      if status.Some? && status.value.promotion.Some? {
        var p := status.value.promotion.value;
        status := Some(status.value.(promotion := Some(p.(drainHandle := Some(handle)))));
      }
    }

    method UpdateStep(next: PromotionStep)
      modifies this`status
      ensures Node() == WithStep(old(Node()), next)
    {
      var s := status.GetOr(DEFAULT_STATUS);
      var p := s.promotion.GetOr(NewPromotion(spec.serial, next));
      status := Some(s.(promotion := Some(p.(step := next))));
    }

    method Fail(reason: string) returns (next: PromotionStep)
      modifies this`status
      ensures Node() == Failing(old(Node()), reason) && next == PromotionStep.Failed
    {
      var s := status.GetOr(DEFAULT_STATUS);
      var p := s.promotion.GetOr(NewPromotion(spec.serial, PromotionStep.Failed));
      status := Some(s.(
        promotion := Some(p.(step := PromotionStep.Failed, failureReason := Some(reason))),
        phase := PhaseFailed));
      next := PromotionStep.Failed;
    }

    method MarkMounted()
      modifies this`status
      ensures Node() == Mounted(old(Node()))
    {
      if status.Some? {
        status := Some(status.value.(phase := Ready, disk := MountedEtcd));
      }
    }

    /** The EvacuatingGfs arm: start the drain once, then poll it. */
    method EvacuateStep(gfs: GfsAdminClient) returns (next: PromotionStep)
      requires Node().Step() == EvacuatingGfs
      modifies this`status, gfs
      ensures Advanced(Node(), gfs.State()) == Evacuate(old(Node()), old(gfs.State()))
      ensures next == Node().Step()
    {
      var handle: string;
      var known := status.value.promotion.value.drainHandle;
      if known.Some? {
        handle := known.value;
      } else {
        var r := gfs.DrainNode(spec.serial);
        if r.Err? {
          next := Fail("Failed to initiate GFS drain: " + r.error);
          return;
        }
        handle := r.value;
        PersistDrainHandle(handle);
      }
      var reply := gfs.QueryStatus(handle);
      match reply {
      case Ok(Drained) => next := PreparingDisk;
      case Ok(InProgress(_)) => next := EvacuatingGfs;
      case Ok(DrainFailed(reason)) =>
        next := Fail("GFS drain failed: " + reason);
        return;
      case Err(e) =>
        next := Fail("GFS drain status query error: " + e);
        return;
      }
      UpdateStep(next);
    }

    /** The engine's step. */
    method Step(all: seq<PiNode>, quorumOk: bool, gfs: GfsAdminClient) returns (next: PromotionStep)
      modifies this, gfs
      ensures Advanced(Node(), gfs.State()) == Advance(old(Node()), all, quorumOk, old(gfs.State()))
      ensures next == Node().Step()
    {
      var current := if status.Some? && status.value.promotion.Some?
                     then status.value.promotion.value.step else Detecting;
      match current {
      case Detecting => next := if quorumOk then Detecting else SelectingCandidate;
      case SelectingCandidate =>
        var candidate := SelectBestCandidate(all);
        if candidate.None? {
          next := Fail(NO_CANDIDATE);
          return;
        }
        next := if candidate.value.spec.serial == spec.serial then EvacuatingGfs else SelectingCandidate;
      case EvacuatingGfs =>
        next := EvacuateStep(gfs);
        return;
      case PreparingDisk => next := ReformattingDisk;
      case ReformattingDisk =>
        spec := spec.(role := Master, reformatConfirmed := true);
        next := PromotingK3s;
      case PromotingK3s => next := JoiningEtcd;
      case JoiningEtcd => next := Verifying;
      case Verifying =>
        MarkMounted();
        next := PromotionStep.Complete;
      case Complete =>
        MarkMounted();
        next := PromotionStep.Complete;
      case Failed => next := PromotionStep.Failed;
      }
      UpdateStep(next);
    }
  }
}
