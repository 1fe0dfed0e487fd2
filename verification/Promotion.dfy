/**
 Promotion evidence, the safety policy and the ordered validator that turns a
 proof into an activation capability.
 */
module Promotion {
  import opened Types

  datatype AuthorityState = AuthorityState(
    epoch: Epoch,
    holder: Option<NodeId>,
    leaseExpiresAtMs: Option<U64>)

  const INITIAL_AUTHORITY := AuthorityState(0, None, None)

  datatype QuorumCertificate = QuorumCertificate(
    epoch: Epoch,
    workload: WorkloadId,
    candidate: NodeId,
    candidateIncarnation: Incarnation,
    policyHash: PolicyHash,
    requiredCommit: CommitIndex,
    stateRoot: StateRoot,
    leaseNotBeforeMs: U64,
    leaseExpiresAtMs: U64,
    voters: seq<NodeId>)

  datatype FenceMechanism =
    | Bootstrap
    | HardwarePower
    | StorageReservation
    | EffectGateExpired
    | GracefulShutdown

  datatype FenceClass =
    | BootstrapFence
    | HardwarePowerFence
    | StorageReservationFence
    | EffectGateExpiryFence

  datatype FenceReceipt = FenceReceipt(
    epoch: Epoch,
    target: Option<NodeId>,
    verifier: NodeId,
    mechanism: FenceMechanism,
    observedAtMs: U64)

  datatype StateEvidence = StateEvidence(
    requiredCommit: CommitIndex,
    durableCommit: CommitIndex,
    stateRoot: StateRoot,
    observedAtMs: U64)

  datatype HealthAttestation = HealthAttestation(
    workload: WorkloadId,
    node: NodeId,
    incarnation: Incarnation,
    epoch: Epoch,
    healthy: bool,
    passedChecks: U16,
    observedAtMs: U64)

  datatype LeaseGrant = LeaseGrant(
    workload: WorkloadId,
    holder: NodeId,
    incarnation: Incarnation,
    epoch: Epoch,
    notBeforeMs: U64,
    expiresAtMs: U64)

  datatype PromotionProof = PromotionProof(
    workload: WorkloadId,
    candidate: NodeId,
    candidateIncarnation: Incarnation,
    epoch: Epoch,
    policyHash: PolicyHash,
    quorum: QuorumCertificate,
    fence: FenceReceipt,
    state: StateEvidence,
    health: HealthAttestation,
    lease: LeaseGrant)

  datatype ValidatedPromotion = ValidatedPromotion(
    workload: WorkloadId,
    candidate: NodeId,
    candidateIncarnation: Incarnation,
    epoch: Epoch,
    policyHash: PolicyHash,
    notBeforeMs: U64,
    expiresAtMs: U64,
    durableCommit: CommitIndex,
    stateRoot: StateRoot,
    fenceClass: FenceClass)

  datatype ProofError =
    | WorkloadMismatch
    | PolicyHashMismatch
    | StaleEpoch
    | EpochMismatch
    | QuorumBindingMismatch
    | CandidateNotConfigured
    | CandidateAlreadyHoldsAuthority
    | CandidateDidNotVote
    | InsufficientQuorum
    | DuplicateVoter
    | UnknownVoter
    | MissingWitness
    | InvalidFenceVerifier
    | BootstrapNotAllowed
    | InvalidBootstrap
    | WrongFenceTarget
    | WeakFence
    | GateExpiryFenceDisabled
    | FenceGuardNotElapsed
    | EvidenceFromFuture
    | EvidenceTooOld
    | CandidateStateBehind
    | EmptyStateRoot
    | HealthSubjectMismatch
    | CandidateUnhealthy
    | InsufficientHealthChecks
    | LeaseSubjectMismatch
    | InvalidLeaseInterval
    | LeaseTooLong
    | LeaseNotActive
    | LeaseStartsBeforeFence

  // ---------------------------------------------------------------- policy

  datatype SafetyPolicy = SafetyPolicy(
    workload: WorkloadId,
    policyHash: PolicyHash,
    candidates: set<NodeId>,
    voters: set<NodeId>,
    quorumSize: nat,
    requiredWitness: Option<NodeId>,
    minHealthChecks: U16,
    maxEvidenceAgeMs: U64,
    maxLeaseDurationMs: U64,
    leaseGuardMs: U64,
    allowGateExpiryFence: bool)

  datatype PolicyError =
    | NoCandidates
    | NoVoters
    | CandidateNotVoter
    | InvalidQuorumSize
    | NonIntersectingQuorum
    | WitnessNotConfigured
    | WitnessIsCandidate
    | ZeroHealthChecks
    | ZeroTimeBound

  /** The ordered set an iterator of identifiers collects into. */
  function Collect(ids: seq<NodeId>): set<NodeId> {
    set id | id in ids
  }

  /** The policy constructor, with the order of its refusals. */
  function NewPolicy(workload: WorkloadId, policyHash: PolicyHash, candidateIds: seq<NodeId>, voterIds: seq<NodeId>,
                     quorumSize: nat, requiredWitness: Option<NodeId>, minHealthChecks: U16, maxEvidenceAgeMs: U64,
                     maxLeaseDurationMs: U64, leaseGuardMs: U64, allowGateExpiryFence: bool)
    : Result<SafetyPolicy, PolicyError>
  {
    var candidates := Collect(candidateIds);
    var voters := Collect(voterIds);
    if candidates == {} then Err(NoCandidates)
    else if voters == {} then Err(NoVoters)
    else if !(candidates <= voters) then Err(CandidateNotVoter)
    else if quorumSize == 0 || quorumSize > |voters| then Err(InvalidQuorumSize)
    else if quorumSize <= |voters| / 2 then Err(NonIntersectingQuorum)
    else if requiredWitness.Some? && requiredWitness.value !in voters then Err(WitnessNotConfigured)
    else if requiredWitness.Some? && requiredWitness.value in candidates then Err(WitnessIsCandidate)
    else if minHealthChecks == 0 then Err(ZeroHealthChecks)
    else if maxEvidenceAgeMs == 0 || maxLeaseDurationMs == 0 then Err(ZeroTimeBound)
    else Ok(SafetyPolicy(workload, policyHash, candidates, voters, quorumSize, requiredWitness, minHealthChecks,
                         maxEvidenceAgeMs, maxLeaseDurationMs, leaseGuardMs, allowGateExpiryFence))
  }

  // ------------------------------------------------------------- validator

  /** Identity, epoch and certificate bindings, in the order they are refused. */
  function CheckBindings(proof: PromotionProof, current: AuthorityState, policy: SafetyPolicy): Result<(), ProofError> {
    if proof.workload != policy.workload then Err(WorkloadMismatch)
    else if proof.policyHash != policy.policyHash then Err(PolicyHashMismatch)
    else if proof.epoch <= current.epoch then Err(StaleEpoch)
    else if proof.candidate !in policy.candidates then Err(CandidateNotConfigured)
    else if current.holder == Some(proof.candidate) then Err(CandidateAlreadyHoldsAuthority)
    else if
      || proof.quorum.epoch != proof.epoch
      || proof.fence.epoch != proof.epoch
      || proof.health.epoch != proof.epoch
      || proof.lease.epoch != proof.epoch
    then Err(EpochMismatch)
    else if
      || proof.quorum.workload != proof.workload
      || proof.quorum.candidate != proof.candidate
      || proof.quorum.candidateIncarnation != proof.candidateIncarnation
      || proof.quorum.policyHash != proof.policyHash
      || proof.quorum.requiredCommit != proof.state.requiredCommit
      || proof.quorum.stateRoot != proof.state.stateRoot
      || proof.quorum.leaseNotBeforeMs != proof.lease.notBeforeMs
      || proof.quorum.leaseExpiresAtMs != proof.lease.expiresAtMs
    then Err(QuorumBindingMismatch)
    else Ok(())
  }

  /** The first fault in a voter list, or the voters seen so far plus the whole list. */
  function ScanVoters(voters: seq<NodeId>, configured: set<NodeId>, unique: set<NodeId>)
    : Result<set<NodeId>, ProofError>
  {
    if voters == [] then Ok(unique)
    else if voters[0] !in configured then Err(UnknownVoter)
    else if voters[0] in unique then Err(DuplicateVoter)
    else ScanVoters(voters[1..], configured, unique + {voters[0]})
  }

  function QuorumVerdict(proof: PromotionProof, policy: SafetyPolicy): Result<set<NodeId>, ProofError> {
    var unique :- ScanVoters(proof.quorum.voters, policy.voters, {});
    if |unique| < policy.quorumSize then Err(InsufficientQuorum)
    else if proof.candidate !in unique then Err(CandidateDidNotVote)
    else if policy.requiredWitness.Some? && policy.requiredWitness.value !in unique then Err(MissingWitness)
    else Ok(unique)
  }

  /** The quorum check as the source runs it: one pass that fills a set of distinct voters. */
  method ValidateQuorum(proof: PromotionProof, policy: SafetyPolicy) returns (r: Result<set<NodeId>, ProofError>)
    ensures r == QuorumVerdict(proof, policy)
  {
    var voters := proof.quorum.voters;
    var unique: set<NodeId> := {};
    var i := 0;
    while i < |voters|
      invariant 0 <= i <= |voters|
      invariant ScanVoters(voters, policy.voters, {}) == ScanVoters(voters[i..], policy.voters, unique)
    {
      var voter := voters[i];
      if voter !in policy.voters {
        return Err(UnknownVoter);
      }
      if voter in unique {
        return Err(DuplicateVoter);
      }
      unique := unique + {voter};
      i := i + 1;
    }
    if |unique| < policy.quorumSize {
      return Err(InsufficientQuorum);
    }
    if proof.candidate !in unique {
      return Err(CandidateDidNotVote);
    }
    if policy.requiredWitness.Some? && policy.requiredWitness.value !in unique {
      return Err(MissingWitness);
    }
    return Ok(unique);
  }

  function ValidateFresh(observedAtMs: U64, nowMs: U64, maxAgeMs: U64): Result<(), ProofError> {
    match CheckedSub(nowMs, observedAtMs)
    case None => Err(EvidenceFromFuture)
    case Some(age) => if age > maxAgeMs then Err(EvidenceTooOld) else Ok(())
  }

  /** The accepted fence class and the earliest time at which a new lease may start. */
  function ValidateFence(proof: PromotionProof, current: AuthorityState, policy: SafetyPolicy, quorum: set<NodeId>,
                         nowMs: U64)
    : Result<(FenceClass, U64), ProofError>
  {
    if
      || proof.fence.verifier !in policy.voters
      || proof.fence.verifier !in quorum
      || (policy.requiredWitness.Some? && policy.requiredWitness.value != proof.fence.verifier)
    then Err(InvalidFenceVerifier)
    else
      var _ :- ValidateFresh(proof.fence.observedAtMs, nowMs, policy.maxEvidenceAgeMs);
      match current.holder
      case None =>
        if proof.fence.mechanism == Bootstrap && current.epoch == 0 && proof.fence.target.None?
        then Ok((BootstrapFence, proof.fence.observedAtMs))
        else Err(InvalidBootstrap)
      case Some(holder) =>
        if proof.fence.mechanism == Bootstrap then Err(BootstrapNotAllowed)
        else if proof.fence.target != Some(holder) then Err(WrongFenceTarget)
        else
          match proof.fence.mechanism
          case HardwarePower => Ok((HardwarePowerFence, proof.fence.observedAtMs))
          case StorageReservation => Ok((StorageReservationFence, proof.fence.observedAtMs))
          case EffectGateExpired => ValidateGateExpiry(current, policy, nowMs)
          case GracefulShutdown => Err(WeakFence)
  }

  function ValidateGateExpiry(current: AuthorityState, policy: SafetyPolicy, nowMs: U64)
    : Result<(FenceClass, U64), ProofError>
  {
    if !policy.allowGateExpiryFence then Err(GateExpiryFenceDisabled)
    else if current.leaseExpiresAtMs.None? then Err(FenceGuardNotElapsed)
    else
      match CheckedAdd(current.leaseExpiresAtMs.value, policy.leaseGuardMs)
      case None => Err(FenceGuardNotElapsed)
      case Some(safeTime) =>
        if nowMs < safeTime then Err(FenceGuardNotElapsed) else Ok((EffectGateExpiryFence, safeTime))
  }

  function ValidateState(proof: PromotionProof, policy: SafetyPolicy, nowMs: U64): Result<(), ProofError> {
    var _ :- ValidateFresh(proof.state.observedAtMs, nowMs, policy.maxEvidenceAgeMs);
    if proof.state.durableCommit < proof.state.requiredCommit then Err(CandidateStateBehind)
    else if proof.state.stateRoot.IsZero() then Err(EmptyStateRoot)
    else Ok(())
  }

  function ValidateHealth(proof: PromotionProof, policy: SafetyPolicy, nowMs: U64): Result<(), ProofError> {
    if
      || proof.health.workload != proof.workload
      || proof.health.node != proof.candidate
      || proof.health.incarnation != proof.candidateIncarnation
    then Err(HealthSubjectMismatch)
    else
      var _ :- ValidateFresh(proof.health.observedAtMs, nowMs, policy.maxEvidenceAgeMs);
      if !proof.health.healthy then Err(CandidateUnhealthy)
      else if proof.health.passedChecks < policy.minHealthChecks then Err(InsufficientHealthChecks)
      else Ok(())
  }

  function ValidateLease(proof: PromotionProof, policy: SafetyPolicy, safeNotBeforeMs: U64, nowMs: U64)
    : Result<(), ProofError>
  {
    if
      || proof.lease.workload != proof.workload
      || proof.lease.holder != proof.candidate
      || proof.lease.incarnation != proof.candidateIncarnation
    then Err(LeaseSubjectMismatch)
    else
      match CheckedSub(proof.lease.expiresAtMs, proof.lease.notBeforeMs)
      case None => Err(InvalidLeaseInterval)
      case Some(duration) =>
        if duration == 0 then Err(InvalidLeaseInterval)
        else if duration > policy.maxLeaseDurationMs then Err(LeaseTooLong)
        else if proof.lease.notBeforeMs < safeNotBeforeMs then Err(LeaseStartsBeforeFence)
        else if nowMs < proof.lease.notBeforeMs || nowMs >= proof.lease.expiresAtMs then Err(LeaseNotActive)
        else Ok(())
  }

  /** The capability that carries the validated fields of a proof. */
  function CapabilityOf(proof: PromotionProof, fenceClass: FenceClass): ValidatedPromotion {
    ValidatedPromotion(proof.workload, proof.candidate, proof.candidateIncarnation, proof.epoch, proof.policyHash,
                       proof.lease.notBeforeMs, proof.lease.expiresAtMs, proof.state.durableCommit,
                       proof.state.stateRoot, fenceClass)
  }

  /** Everything the validator decides, with the exact error it reports first. */
  function PromotionVerdict(proof: PromotionProof, current: AuthorityState, policy: SafetyPolicy, nowMs: U64)
    : Result<ValidatedPromotion, ProofError>
  {
    var _ :- CheckBindings(proof, current, policy);
    var quorum :- QuorumVerdict(proof, policy);
    var fence :- ValidateFence(proof, current, policy, quorum, nowMs);
    var _ :- ValidateState(proof, policy, nowMs);
    var _ :- ValidateHealth(proof, policy, nowMs);
    var _ :- ValidateLease(proof, policy, fence.1, nowMs);
    Ok(CapabilityOf(proof, fence.0))
  }

  /** The validator as a procedure over the looping quorum check. */
  method ValidatePromotion(proof: PromotionProof, current: AuthorityState, policy: SafetyPolicy, nowMs: U64)
    returns (r: Result<ValidatedPromotion, ProofError>)
    ensures r == PromotionVerdict(proof, current, policy, nowMs)
  {
    var _ :- CheckBindings(proof, current, policy);
    var quorum :- ValidateQuorum(proof, policy);
    var fence :- ValidateFence(proof, current, policy, quorum, nowMs);
    var _ :- ValidateState(proof, policy, nowMs);
    var _ :- ValidateHealth(proof, policy, nowMs);
    var _ :- ValidateLease(proof, policy, fence.1, nowMs);
    return Ok(CapabilityOf(proof, fence.0));
  }
}
