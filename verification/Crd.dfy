/** The parts of the PiNode resource the promotion logic reads and writes (crates/cluster-common/src/crd.rs). */
module Crd {
  import opened Common

  datatype NodeRole = Pending | Seed | Master | Worker | Decommissioned

  datatype NodePhase = Discovered | Provisioning | Ready | Promoting | Draining | Decommissioning | PhaseFailed

  datatype DiskState = Unformatted | Formatting | MountedEtcd | MountedGfs | Error(reason: string)

  datatype PromotionStep =
    | Detecting
    | SelectingCandidate
    | EvacuatingGfs
    | PreparingDisk
    | ReformattingDisk
    | PromotingK3s
    | JoiningEtcd
    | Verifying
    | Complete
    | Failed

  datatype PromotionState = PromotionState(
    candidate: string,
    step: PromotionStep,
    drainHandle: Option<string>,
    failureReason: Option<string>,
    attempts: nat)

  datatype PiNodeSpec = PiNodeSpec(serial: string, role: NodeRole, reformatConfirmed: bool)

  datatype PiNodeStatus = PiNodeStatus(phase: NodePhase, disk: DiskState, promotion: Option<PromotionState>)

  const DEFAULT_STATUS := PiNodeStatus(Discovered, Unformatted, None)

  datatype PiNode = PiNode(spec: PiNodeSpec, status: Option<PiNodeStatus>) {

    /** The persisted step; a node without a promotion record is detecting. */
    function Step(): PromotionStep {
      if status.Some? && status.value.promotion.Some? then status.value.promotion.value.step else Detecting
    }
  }
}
