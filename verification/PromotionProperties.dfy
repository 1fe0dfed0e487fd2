/**
 What the validator guarantees: an order-free specification of acceptance, the
 interval of acceptance times, quorum intersection and the separation of
 authorities that follow one another.
 */
module PromotionProperties {
  import opened Types
  import opened Promotion
  import opened Findings

  ghost function Max(a: int, b: int): int { if a < b then b else a }

  ghost function Min(a: int, b: int): int { if a < b then a else b }

  // ---------------------------------------------------------------- policy

  /** Any two groups of voters that reach the quorum have a member in common. */
  ghost predicate QuorumsIntersect(voters: set<NodeId>, quorumSize: nat) {
    forall a, b | a <= voters && b <= voters && quorumSize <= |a| && quorumSize <= |b| :: a * b != {}
  }

  /** The promises a constructed policy makes to its users. */
  ghost predicate SafePolicy(policy: SafetyPolicy) {
    && policy.candidates != {}
    && policy.candidates <= policy.voters
    && policy.quorumSize <= |policy.voters|
    && QuorumsIntersect(policy.voters, policy.quorumSize)
    && (policy.requiredWitness.Some? ==> policy.requiredWitness.value in policy.voters - policy.candidates)
    && policy.minHealthChecks > 0
    && policy.maxEvidenceAgeMs > 0
    && policy.maxLeaseDurationMs > 0
  }

  /** Every check of a policy, in the order in which defects are reported. */
  ghost function PolicyFindings(policy: SafetyPolicy): seq<Finding<PolicyError>> {
    var required := policy.requiredWitness;
    [(NoCandidates, policy.candidates == {}),
     (NoVoters, policy.voters == {}),
     (CandidateNotVoter, exists id :: id in policy.candidates && id !in policy.voters),
     (InvalidQuorumSize, !(1 <= policy.quorumSize <= |policy.voters|)),
     (NonIntersectingQuorum, !QuorumsIntersect(policy.voters, policy.quorumSize)),
     (WitnessNotConfigured, required.Some? && required.value !in policy.voters),
     (WitnessIsCandidate, required.Some? && required.value in policy.candidates),
     (ZeroHealthChecks, policy.minHealthChecks == 0),
     (ZeroTimeBound, policy.maxEvidenceAgeMs == 0 || policy.maxLeaseDurationMs == 0)]
  }

  lemma {:induction false} SubsetOfSize(s: set<NodeId>, k: nat) returns (t: set<NodeId>)
    requires k <= |s|
    ensures t <= s && |t| == k
    decreases k
  {
    if k == 0 {
      t := {};
    } else {
      var v :| v in s;
      var rest := SubsetOfSize(s - {v}, k - 1);
      t := rest + {v};
    }
  }

  lemma OverlapByCount(a: set<NodeId>, b: set<NodeId>, all: set<NodeId>)
    requires a <= all && b <= all
    requires |all| < |a| + |b|
    ensures a * b != {}
  {
    assert all == (a + b) + (all - (a + b));
    assert |a + b| + |a * b| == |a| + |b|;
  }

  /** The constructor's size test means what it is for: quorums intersect pairwise exactly above half. */
  lemma QuorumsIntersectIffMajority(voters: set<NodeId>, quorumSize: nat)
    ensures QuorumsIntersect(voters, quorumSize) <==> |voters| < 2 * quorumSize
  {
    if |voters| < 2 * quorumSize {
      forall a, b | a <= voters && b <= voters && quorumSize <= |a| && quorumSize <= |b| ensures a * b != {} {
        OverlapByCount(a, b, voters);
      }
    } else {
      var a := SubsetOfSize(voters, quorumSize);
      var b := SubsetOfSize(voters - a, quorumSize);
      assert a * b == {};
    }
  }

  /** Construction succeeds exactly for safe policies, never alters its arguments, and reports the first defect. */
  lemma PolicyConstruction(workload: WorkloadId, policyHash: PolicyHash, candidates: seq<NodeId>,
                           voters: seq<NodeId>, quorumSize: nat, requiredWitness: Option<NodeId>,
                           minHealthChecks: U16, maxEvidenceAgeMs: U64, maxLeaseDurationMs: U64, leaseGuardMs: U64,
                           allowGateExpiryFence: bool)
    ensures
      var r := NewPolicy(workload, policyHash, candidates, voters, quorumSize, requiredWitness, minHealthChecks,
                         maxEvidenceAgeMs, maxLeaseDurationMs, leaseGuardMs, allowGateExpiryFence);
      var policy := SafetyPolicy(workload, policyHash, Collect(candidates), Collect(voters), quorumSize,
                                 requiredWitness, minHealthChecks, maxEvidenceAgeMs, maxLeaseDurationMs, leaseGuardMs,
                                 allowGateExpiryFence);
      && (r.Ok? <==> SafePolicy(policy))
      && (r.Ok? ==> r.value == policy)
      && ErrorOf(r) == FirstDefect(PolicyFindings(policy))
  {
    QuorumsIntersectIffMajority(Collect(voters), quorumSize);
    hide QuorumsIntersect;
    var policy := SafetyPolicy(workload, policyHash, Collect(candidates), Collect(voters), quorumSize, requiredWitness,
                               minHealthChecks, maxEvidenceAgeMs, maxLeaseDurationMs, leaseGuardMs,
                               allowGateExpiryFence);
    assert FirstDefect(PolicyFindings(policy)) == FirstAmong(PolicyFindings(policy), 9);
    if Collect(candidates) != {} && Collect(candidates) <= Collect(voters) {
      var c :| c in Collect(candidates);
      assert c in Collect(voters);
    }
  }

  // ---------------------------------------------------------------- quorum

  ghost predicate Distinct(ids: seq<NodeId>) {
    forall i, j | 0 <= i < j < |ids| :: ids[i] != ids[j]
  }

  /** A duplicate-free list of configured voters that reaches the quorum and names everyone it must. */
  ghost predicate QuorumMet(proof: PromotionProof, policy: SafetyPolicy) {
    var voters := proof.quorum.voters;
    && Distinct(voters)
    && (forall v | v in voters :: v in policy.voters)
    && policy.quorumSize <= |voters|
    && proof.candidate in voters
    && (policy.requiredWitness.Some? ==> policy.requiredWitness.value in voters)
  }

  lemma DistinctCons(head: NodeId, rest: seq<NodeId>)
    ensures Distinct([head] + rest) <==> Distinct(rest) && head !in rest
  {
    var ids := [head] + rest;
    if Distinct(ids) {
      forall i, j | 0 <= i < j < |rest| ensures rest[i] != rest[j] {
        assert rest[i] == ids[i + 1] && rest[j] == ids[j + 1];
      }
      forall k | 0 <= k < |rest| ensures rest[k] != head {
        assert ids[0] != ids[k + 1];
      }
    }
  }

  ghost predicate Fits(voters: seq<NodeId>, configured: set<NodeId>, unique: set<NodeId>) {
    Distinct(voters) && forall v | v in voters :: v in configured && v !in unique
  }

  lemma FitsCons(head: NodeId, rest: seq<NodeId>, configured: set<NodeId>, unique: set<NodeId>)
    ensures Fits([head] + rest, configured, unique) <==>
            head in configured && head !in unique && Fits(rest, configured, unique + {head})
  {
    var voters := [head] + rest;
    DistinctCons(head, rest);
    assert voters[0] == head;
    hide Distinct;
    forall v ensures v in voters <==> v == head || v in rest {
      assert voters[1..] == rest;
    }
  }

  lemma {:induction false} ScanAcceptsDistinctVoters(voters: seq<NodeId>, configured: set<NodeId>, unique: set<NodeId>)
    ensures
      var r := ScanVoters(voters, configured, unique);
      && (r.Ok? <==> Fits(voters, configured, unique))
      && (r.Ok? ==> r.value == unique + Collect(voters) && |r.value| == |unique| + |voters|)
    decreases |voters|
  {
    if voters == [] {
      assert Collect(voters) == {};
    } else {
      var head, rest := voters[0], voters[1..];
      ScanAcceptsDistinctVoters(rest, configured, unique + {head});
      FitsCons(head, rest, configured, unique);
      hide Fits;
      assert voters == [head] + rest;
      assert unique + Collect(voters) == unique + {head} + Collect(rest);
    }
  }

  lemma QuorumVerdictIffMet(proof: PromotionProof, policy: SafetyPolicy)
    ensures QuorumVerdict(proof, policy).Ok? <==> QuorumMet(proof, policy)
    ensures QuorumVerdict(proof, policy).Ok? ==> QuorumVerdict(proof, policy).value == Collect(proof.quorum.voters)
  {
    ScanAcceptsDistinctVoters(proof.quorum.voters, policy.voters, {});
  }

  // ------------------------------------------- declarative acceptance rule

  ghost predicate BindingsExact(proof: PromotionProof, current: AuthorityState, policy: SafetyPolicy) {
    && (proof.workload, proof.policyHash) == (policy.workload, policy.policyHash)
    && current.epoch < proof.epoch
    && proof.candidate in policy.candidates
    && current.holder != Some(proof.candidate)
    && proof.epoch == proof.quorum.epoch == proof.fence.epoch == proof.health.epoch == proof.lease.epoch
    && proof.workload == proof.quorum.workload == proof.health.workload == proof.lease.workload
    && proof.candidate == proof.quorum.candidate == proof.health.node == proof.lease.holder
    && proof.candidateIncarnation == proof.quorum.candidateIncarnation
    && proof.candidateIncarnation == proof.health.incarnation == proof.lease.incarnation
    && proof.policyHash == proof.quorum.policyHash
    && proof.quorum.requiredCommit == proof.state.requiredCommit
    && proof.quorum.stateRoot == proof.state.stateRoot
    && (proof.quorum.leaseNotBeforeMs, proof.quorum.leaseExpiresAtMs)
       == (proof.lease.notBeforeMs, proof.lease.expiresAtMs)
  }

  /** The previous authority is named and the mechanism is strong enough to exclude it. */
  ghost predicate FenceAuthoritative(proof: PromotionProof, current: AuthorityState, policy: SafetyPolicy) {
    && proof.fence.verifier in policy.voters
    && proof.fence.verifier in proof.quorum.voters
    && policy.requiredWitness in {None, Some(proof.fence.verifier)}
    && proof.fence.target == current.holder
    && proof.fence.mechanism != GracefulShutdown
    && (proof.fence.mechanism == Bootstrap <==> current.holder == None)
    && (proof.fence.mechanism == Bootstrap ==> current.epoch == 0)
    && (proof.fence.mechanism == EffectGateExpired ==> policy.allowGateExpiryFence && current.leaseExpiresAtMs.Some?)
  }

  /** The first instant at which the previous authority is certainly excluded, in unbounded time. */
  ghost function ExclusionTime(proof: PromotionProof, current: AuthorityState, policy: SafetyPolicy): int {
    if proof.fence.mechanism == EffectGateExpired && current.leaseExpiresAtMs.Some?
    then current.leaseExpiresAtMs.value + policy.leaseGuardMs
    else proof.fence.observedAtMs
  }

  ghost predicate CandidateReady(proof: PromotionProof, policy: SafetyPolicy) {
    && proof.state.requiredCommit <= proof.state.durableCommit
    && !proof.state.stateRoot.IsZero()
    && proof.health.healthy
    && policy.minHealthChecks <= proof.health.passedChecks
  }

  ghost predicate LeaseBounded(proof: PromotionProof, current: AuthorityState, policy: SafetyPolicy) {
    && 0 < proof.lease.expiresAtMs - proof.lease.notBeforeMs <= policy.maxLeaseDurationMs
    && ExclusionTime(proof, current, policy) <= proof.lease.notBeforeMs
  }

  ghost predicate FreshAt(observedAtMs: U64, policy: SafetyPolicy, nowMs: U64) {
    observedAtMs <= nowMs <= observedAtMs + policy.maxEvidenceAgeMs
  }

  ghost predicate TimelyAt(proof: PromotionProof, policy: SafetyPolicy, nowMs: U64) {
    && FreshAt(proof.fence.observedAtMs, policy, nowMs)
    && FreshAt(proof.state.observedAtMs, policy, nowMs)
    && FreshAt(proof.health.observedAtMs, policy, nowMs)
    && proof.lease.notBeforeMs <= nowMs < proof.lease.expiresAtMs
  }

  /** Everything about a proof that does not depend on when it is evaluated. */
  ghost predicate Sound(proof: PromotionProof, current: AuthorityState, policy: SafetyPolicy) {
    && BindingsExact(proof, current, policy)
    && QuorumMet(proof, policy)
    && FenceAuthoritative(proof, current, policy)
    && CandidateReady(proof, policy)
    && LeaseBounded(proof, current, policy)
  }

  ghost predicate Admissible(proof: PromotionProof, current: AuthorityState, policy: SafetyPolicy, nowMs: U64) {
    Sound(proof, current, policy) && TimelyAt(proof, policy, nowMs)
  }

  function ClassOf(mechanism: FenceMechanism): FenceClass {
    match mechanism
    case HardwarePower => HardwarePowerFence
    case StorageReservation => StorageReservationFence
    case EffectGateExpired => EffectGateExpiryFence
    case _ => BootstrapFence
  }

  lemma FenceVerdictIffAuthoritative(proof: PromotionProof, current: AuthorityState, policy: SafetyPolicy, nowMs: U64)
    ensures
      var r := ValidateFence(proof, current, policy, Collect(proof.quorum.voters), nowMs);
      && (r.Ok? <==>
            && FenceAuthoritative(proof, current, policy)
            && FreshAt(proof.fence.observedAtMs, policy, nowMs)
            && ExclusionTime(proof, current, policy) <= nowMs)
      && (r.Ok? ==> r.value == (ClassOf(proof.fence.mechanism), ExclusionTime(proof, current, policy)))
  {
    assert proof.fence.verifier in Collect(proof.quorum.voters) <==> proof.fence.verifier in proof.quorum.voters;
  }

  lemma CandidateVerdictIffReady(proof: PromotionProof, current: AuthorityState, policy: SafetyPolicy, nowMs: U64)
    ensures CheckBindings(proof, current, policy).Ok? && ValidateState(proof, policy, nowMs).Ok?
            && ValidateHealth(proof, policy, nowMs).Ok?
            && proof.lease.workload == proof.workload && proof.lease.holder == proof.candidate
            && proof.lease.incarnation == proof.candidateIncarnation
            <==>
            && BindingsExact(proof, current, policy)
            && CandidateReady(proof, policy)
            && FreshAt(proof.state.observedAtMs, policy, nowMs)
            && FreshAt(proof.health.observedAtMs, policy, nowMs)
  {
  }

  /** The capability holds what the voters certified, the durable state and the kind of fence. */
  ghost predicate Carries(a: ValidatedPromotion, proof: PromotionProof) {
    && (a.workload, a.candidate, a.candidateIncarnation, a.epoch, a.policyHash)
       == (proof.quorum.workload, proof.quorum.candidate, proof.quorum.candidateIncarnation, proof.quorum.epoch,
           proof.quorum.policyHash)
    && (a.notBeforeMs, a.expiresAtMs) == (proof.quorum.leaseNotBeforeMs, proof.quorum.leaseExpiresAtMs)
    && (a.durableCommit, a.stateRoot) == (proof.state.durableCommit, proof.quorum.stateRoot)
    && a.fenceClass == ClassOf(proof.fence.mechanism)
  }

  /**
   The ordered validator accepts exactly the admissible proofs, and the
   capability it issues carries, field by field, what the voters certified. No overflow condition
   appears on the right: the checked sum in the gate-expiry branch refuses
   exactly when no evaluation time could be late enough.
   */
  lemma VerdictIffAdmissible(proof: PromotionProof, current: AuthorityState, policy: SafetyPolicy, nowMs: U64)
    ensures PromotionVerdict(proof, current, policy, nowMs).Ok? <==> Admissible(proof, current, policy, nowMs)
    ensures PromotionVerdict(proof, current, policy, nowMs).Ok? ==>
              PromotionVerdict(proof, current, policy, nowMs).value
              == CapabilityOf(proof, ClassOf(proof.fence.mechanism))
    ensures PromotionVerdict(proof, current, policy, nowMs).Ok? ==>
              Carries(PromotionVerdict(proof, current, policy, nowMs).value, proof)
  {
    QuorumVerdictIffMet(proof, policy);
    FenceVerdictIffAuthoritative(proof, current, policy, nowMs);
    CandidateVerdictIffReady(proof, current, policy, nowMs);
  }

  // -------------------------------------------------------- honest refusals

  type Defect = Finding<ProofError>

  /** A voter outside the configuration follows distinct configured voters only. */
  ghost predicate UnknownFirst(voters: seq<NodeId>, configured: set<NodeId>, unique: set<NodeId>) {
    exists i :: 0 <= i < |voters| && voters[i] !in configured && Fits(voters[..i], configured, unique)
  }

  ghost function AgeFindings(observedAtMs: U64, policy: SafetyPolicy, nowMs: U64): seq<Defect> {
    [(EvidenceFromFuture, nowMs < observedAtMs),
     (EvidenceTooOld, observedAtMs + policy.maxEvidenceAgeMs < nowMs)]
  }

  ghost function BindingFindings(proof: PromotionProof, current: AuthorityState, policy: SafetyPolicy): seq<Defect> {
    var bound := QuorumCertificate(proof.epoch, proof.workload, proof.candidate, proof.candidateIncarnation,
                                   proof.policyHash, proof.state.requiredCommit, proof.state.stateRoot,
                                   proof.lease.notBeforeMs, proof.lease.expiresAtMs, proof.quorum.voters);
    [(WorkloadMismatch, proof.workload != policy.workload),
     (PolicyHashMismatch, proof.policyHash != policy.policyHash),
     (StaleEpoch, proof.epoch <= current.epoch),
     (CandidateNotConfigured, proof.candidate !in policy.candidates),
     (CandidateAlreadyHoldsAuthority, current.holder == Some(proof.candidate)),
     (EpochMismatch,
      !(proof.quorum.epoch == proof.fence.epoch == proof.health.epoch == proof.lease.epoch == proof.epoch)),
     (QuorumBindingMismatch, proof.quorum != bound)]
  }

  ghost function QuorumFindings(proof: PromotionProof, policy: SafetyPolicy): seq<Defect> {
    var voters := proof.quorum.voters;
    [(UnknownVoter, UnknownFirst(voters, policy.voters, {})),
     (DuplicateVoter, !Distinct(voters)),
     (InsufficientQuorum, |voters| < policy.quorumSize),
     (CandidateDidNotVote, proof.candidate !in voters),
     (MissingWitness, policy.requiredWitness.Some? && policy.requiredWitness.value !in voters)]
  }

  ghost function FenceFindings(proof: PromotionProof, current: AuthorityState, policy: SafetyPolicy, nowMs: U64)
    : seq<Defect>
  {
    var mechanism := proof.fence.mechanism;
    [(InvalidFenceVerifier,
      || proof.fence.verifier !in policy.voters || proof.fence.verifier !in proof.quorum.voters
      || policy.requiredWitness !in {None, Some(proof.fence.verifier)})]
    + AgeFindings(proof.fence.observedAtMs, policy, nowMs)
    + [(InvalidBootstrap,
        current.holder.None? && (mechanism != Bootstrap || current.epoch > 0 || proof.fence.target.Some?)),
       (BootstrapNotAllowed, current.holder.Some? && mechanism == Bootstrap),
       (WrongFenceTarget, proof.fence.target != current.holder),
       (WeakFence, mechanism == GracefulShutdown),
       (GateExpiryFenceDisabled, mechanism == EffectGateExpired && !policy.allowGateExpiryFence),
       (FenceGuardNotElapsed,
        && mechanism == EffectGateExpired
        && (current.leaseExpiresAtMs.None? || nowMs < ExclusionTime(proof, current, policy)))]
  }

  ghost function StateFindings(proof: PromotionProof, policy: SafetyPolicy, nowMs: U64): seq<Defect> {
    AgeFindings(proof.state.observedAtMs, policy, nowMs)
    + [(CandidateStateBehind, proof.state.durableCommit < proof.state.requiredCommit),
       (EmptyStateRoot, proof.state.stateRoot.IsZero())]
  }

  ghost function HealthFindings(proof: PromotionProof, policy: SafetyPolicy, nowMs: U64): seq<Defect> {
    [(HealthSubjectMismatch,
      (proof.health.workload, proof.health.node, proof.health.incarnation)
      != (proof.workload, proof.candidate, proof.candidateIncarnation))]
    + AgeFindings(proof.health.observedAtMs, policy, nowMs)
    + [(CandidateUnhealthy, !proof.health.healthy),
       (InsufficientHealthChecks, proof.health.passedChecks < policy.minHealthChecks)]
  }

  ghost function LeaseFindings(proof: PromotionProof, current: AuthorityState, policy: SafetyPolicy, nowMs: U64)
    : seq<Defect>
  {
    [(LeaseSubjectMismatch,
      (proof.lease.workload, proof.lease.holder, proof.lease.incarnation)
      != (proof.workload, proof.candidate, proof.candidateIncarnation)),
     (InvalidLeaseInterval, proof.lease.expiresAtMs <= proof.lease.notBeforeMs),
     (LeaseTooLong, policy.maxLeaseDurationMs < proof.lease.expiresAtMs - proof.lease.notBeforeMs),
     (LeaseStartsBeforeFence, proof.lease.notBeforeMs < ExclusionTime(proof, current, policy)),
     (LeaseNotActive, !(proof.lease.notBeforeMs <= nowMs < proof.lease.expiresAtMs))]
  }

  /** Every check of the evidence, in the order in which defects are reported. */
  ghost function AllFindings(proof: PromotionProof, current: AuthorityState, policy: SafetyPolicy, nowMs: U64)
    : seq<Defect>
  {
    BindingFindings(proof, current, policy)
    + (QuorumFindings(proof, policy)
       + (FenceFindings(proof, current, policy, nowMs)
          + (StateFindings(proof, policy, nowMs)
             + (HealthFindings(proof, policy, nowMs)
                + LeaseFindings(proof, current, policy, nowMs)))))
  }

  lemma BindingsReportFirst(proof: PromotionProof, current: AuthorityState, policy: SafetyPolicy)
    ensures ErrorOf(CheckBindings(proof, current, policy)) == FirstDefect(BindingFindings(proof, current, policy))
  {
    assert FirstDefect(BindingFindings(proof, current, policy))
           == FirstAmong(BindingFindings(proof, current, policy), 7);
  }

  lemma UnknownFirstCons(head: NodeId, rest: seq<NodeId>, configured: set<NodeId>, unique: set<NodeId>)
    ensures UnknownFirst([head] + rest, configured, unique) <==>
            head !in configured || (head !in unique && UnknownFirst(rest, configured, unique + {head}))
  {
    var voters := [head] + rest;
    forall i | 0 < i < |voters|
      ensures voters[i] == rest[i - 1]
      ensures Fits(voters[..i], configured, unique) <==>
              head in configured && head !in unique && Fits(rest[..i - 1], configured, unique + {head})
    {
      assert voters[..i] == [head] + rest[..i - 1];
      FitsCons(head, rest[..i - 1], configured, unique);
    }
    assert voters[0] == head && Fits(voters[..0], configured, unique);
    hide Fits;
    forall i | 0 <= i < |rest| ensures rest[i] == voters[i + 1] && rest[..i] == rest[..(i + 1) - 1] {
    }
  }

  lemma {:induction false} ScanReportsFirst(voters: seq<NodeId>, configured: set<NodeId>, unique: set<NodeId>)
    ensures ScanVoters(voters, configured, unique) == Err(UnknownVoter) <==> UnknownFirst(voters, configured, unique)
    ensures ScanVoters(voters, configured, unique).Err? ==>
              ScanVoters(voters, configured, unique).error in {UnknownVoter, DuplicateVoter}
    decreases |voters|
  {
    if voters != [] {
      var head, rest := voters[0], voters[1..];
      assert voters == [head] + rest;
      ScanReportsFirst(rest, configured, unique + {head});
      UnknownFirstCons(head, rest, configured, unique);
      hide UnknownFirst;
    }
  }

  lemma {:induction false} ScanStopsAt(voters: seq<NodeId>, configured: set<NodeId>, unique: set<NodeId>)
    requires ScanVoters(voters, configured, unique) == Err(DuplicateVoter)
    ensures Distinct(voters) ==> exists v :: v in voters && v in unique
    decreases |voters|
  {
    var head, rest := voters[0], voters[1..];
    assert voters == [head] + rest;
    DistinctCons(head, rest);
    hide Distinct;
    if head in unique {
      assert head in voters;
    } else {
      ScanStopsAt(rest, configured, unique + {head});
    }
  }

  lemma QuorumReportsFirst(proof: PromotionProof, policy: SafetyPolicy)
    ensures ErrorOf(QuorumVerdict(proof, policy)) == FirstDefect(QuorumFindings(proof, policy))
  {
    var voters := proof.quorum.voters;
    ScanReportsFirst(voters, policy.voters, {});
    ScanAcceptsDistinctVoters(voters, policy.voters, {});
    if ScanVoters(voters, policy.voters, {}) == Err(DuplicateVoter) {
      ScanStopsAt(voters, policy.voters, {});
    }
    hide ScanVoters;
    hide Distinct;
    hide UnknownFirst;
    assert FirstDefect(QuorumFindings(proof, policy)) == FirstAmong(QuorumFindings(proof, policy), 5);
  }

  lemma FenceReportsFirst(proof: PromotionProof, current: AuthorityState, policy: SafetyPolicy, nowMs: U64)
    ensures ErrorOf(ValidateFence(proof, current, policy, Collect(proof.quorum.voters), nowMs))
            == FirstDefect(FenceFindings(proof, current, policy, nowMs))
  {
    assert FirstDefect(FenceFindings(proof, current, policy, nowMs))
           == FirstAmong(FenceFindings(proof, current, policy, nowMs), 9);
  }

  lemma StateReportsFirst(proof: PromotionProof, policy: SafetyPolicy, nowMs: U64)
    ensures ErrorOf(ValidateState(proof, policy, nowMs)) == FirstDefect(StateFindings(proof, policy, nowMs))
  {
    assert FirstDefect(StateFindings(proof, policy, nowMs)) == FirstAmong(StateFindings(proof, policy, nowMs), 4);
  }

  lemma HealthReportsFirst(proof: PromotionProof, policy: SafetyPolicy, nowMs: U64)
    ensures ErrorOf(ValidateHealth(proof, policy, nowMs)) == FirstDefect(HealthFindings(proof, policy, nowMs))
  {
    assert FirstDefect(HealthFindings(proof, policy, nowMs)) == FirstAmong(HealthFindings(proof, policy, nowMs), 5);
  }

  lemma LeaseReportsFirst(proof: PromotionProof, current: AuthorityState, policy: SafetyPolicy, nowMs: U64, safeMs: U64)
    requires safeMs == ExclusionTime(proof, current, policy)
    ensures ErrorOf(ValidateLease(proof, policy, safeMs, nowMs))
            == FirstDefect(LeaseFindings(proof, current, policy, nowMs))
  {
    assert FirstDefect(LeaseFindings(proof, current, policy, nowMs))
           == FirstAmong(LeaseFindings(proof, current, policy, nowMs), 5);
  }

  lemma FindingsInStages(proof: PromotionProof, current: AuthorityState, policy: SafetyPolicy, nowMs: U64)
    ensures
      var bindings := FirstDefect(BindingFindings(proof, current, policy));
      var quorum := FirstDefect(QuorumFindings(proof, policy));
      var fence := FirstDefect(FenceFindings(proof, current, policy, nowMs));
      var state := FirstDefect(StateFindings(proof, policy, nowMs));
      var health := FirstDefect(HealthFindings(proof, policy, nowMs));
      FirstDefect(AllFindings(proof, current, policy, nowMs)) ==
        if bindings.Some? then bindings
        else if quorum.Some? then quorum
        else if fence.Some? then fence
        else if state.Some? then state
        else if health.Some? then health
        else FirstDefect(LeaseFindings(proof, current, policy, nowMs))
  {
    var l5 := LeaseFindings(proof, current, policy, nowMs);
    var l4 := HealthFindings(proof, policy, nowMs) + l5;
    var l3 := StateFindings(proof, policy, nowMs) + l4;
    var l2 := FenceFindings(proof, current, policy, nowMs) + l3;
    var l1 := QuorumFindings(proof, policy) + l2;
    FirstDefectOfBoth(HealthFindings(proof, policy, nowMs), l5);
    FirstDefectOfBoth(StateFindings(proof, policy, nowMs), l4);
    FirstDefectOfBoth(FenceFindings(proof, current, policy, nowMs), l3);
    FirstDefectOfBoth(QuorumFindings(proof, policy), l2);
    FirstDefectOfBoth(BindingFindings(proof, current, policy), l1);
  }

  /**
   The validator reports an error exactly when it is the first defect of the
   evidence in the order of the checks, and accepts exactly when there is none.
   */
  lemma RefusalIsFirstDefect(proof: PromotionProof, current: AuthorityState, policy: SafetyPolicy, nowMs: U64)
    ensures ErrorOf(PromotionVerdict(proof, current, policy, nowMs))
            == FirstDefect(AllFindings(proof, current, policy, nowMs))
  {
    hide FirstDefect;
    hide AllFindings;
    hide BindingFindings;
    hide QuorumFindings;
    hide FenceFindings;
    hide StateFindings;
    hide HealthFindings;
    hide LeaseFindings;
    hide CheckBindings;
    hide QuorumVerdict;
    hide ValidateFence;
    hide ValidateState;
    hide ValidateHealth;
    hide ValidateLease;
    hide QuorumMet;
    hide ExclusionTime;
    FindingsInStages(proof, current, policy, nowMs);
    BindingsReportFirst(proof, current, policy);
    QuorumReportsFirst(proof, policy);
    QuorumVerdictIffMet(proof, policy);
    FenceReportsFirst(proof, current, policy, nowMs);
    FenceVerdictIffAuthoritative(proof, current, policy, nowMs);
    StateReportsFirst(proof, policy, nowMs);
    HealthReportsFirst(proof, policy, nowMs);
    var fence := ValidateFence(proof, current, policy, Collect(proof.quorum.voters), nowMs);
    if fence.Ok? {
      LeaseReportsFirst(proof, current, policy, nowMs, fence.value.1);
    }
  }

  // ------------------------------------------------- interval of acceptance

  /** The latest start among the evidence and the lease. */
  ghost function AcceptedFrom(proof: PromotionProof): int {
    var newest := Max(Max(proof.fence.observedAtMs, proof.state.observedAtMs), proof.health.observedAtMs);
    Max(newest, proof.lease.notBeforeMs)
  }

  /** The earliest exclusive end among the evidence and the lease. */
  ghost function AcceptedUntil(proof: PromotionProof, policy: SafetyPolicy): int {
    var oldest := Min(Min(proof.fence.observedAtMs, proof.state.observedAtMs), proof.health.observedAtMs);
    Min(oldest + policy.maxEvidenceAgeMs + 1, proof.lease.expiresAtMs)
  }

  /** For a fixed proof the accepting times form one interval, and all of them yield one capability. */
  lemma AcceptanceIsOneInterval(proof: PromotionProof, current: AuthorityState, policy: SafetyPolicy)
    ensures forall nowMs: U64 ::
              PromotionVerdict(proof, current, policy, nowMs).Ok? <==>
              (Sound(proof, current, policy) && AcceptedFrom(proof) <= nowMs < AcceptedUntil(proof, policy))
    ensures forall s: U64, t: U64 ::
              PromotionVerdict(proof, current, policy, s).Ok? && PromotionVerdict(proof, current, policy, t).Ok? ==>
              PromotionVerdict(proof, current, policy, s) == PromotionVerdict(proof, current, policy, t)
  {
    forall nowMs: U64
      ensures PromotionVerdict(proof, current, policy, nowMs).Ok? <==>
              (Sound(proof, current, policy) && AcceptedFrom(proof) <= nowMs < AcceptedUntil(proof, policy))
      ensures PromotionVerdict(proof, current, policy, nowMs).Ok? ==>
                PromotionVerdict(proof, current, policy, nowMs)
                == Ok(CapabilityOf(proof, ClassOf(proof.fence.mechanism)))
    {
      VerdictIffAdmissible(proof, current, policy, nowMs);
    }
  }

  // ----------------------------------------------------- quorum intersection

  /**
   Two proofs accepted under one safe policy share a voter, whatever the
   authority and the time they were judged against. A required witness signed
   both, verified both fences and is neither candidate.
   */
  lemma AcceptedQuorumsIntersect(policy: SafetyPolicy, p: PromotionProof, pCurrent: AuthorityState, pNow: U64,
                                 q: PromotionProof, qCurrent: AuthorityState, qNow: U64)
    requires SafePolicy(policy)
    requires PromotionVerdict(p, pCurrent, policy, pNow).Ok?
    requires PromotionVerdict(q, qCurrent, policy, qNow).Ok?
    ensures Distinct(p.quorum.voters) && Distinct(q.quorum.voters)
    ensures exists v :: v in p.quorum.voters && v in q.quorum.voters
    ensures policy.requiredWitness.Some? ==>
              var required := policy.requiredWitness.value;
              && required in p.quorum.voters && required in q.quorum.voters
              && p.fence.verifier == q.fence.verifier == required
              && required != p.candidate && required != q.candidate
  {
    VerdictIffAdmissible(p, pCurrent, policy, pNow);
    VerdictIffAdmissible(q, qCurrent, policy, qNow);
    ScanAcceptsDistinctVoters(p.quorum.voters, policy.voters, {});
    ScanAcceptsDistinctVoters(q.quorum.voters, policy.voters, {});
    assert Collect(p.quorum.voters) * Collect(q.quorum.voters) != {};
    var v :| v in Collect(p.quorum.voters) * Collect(q.quorum.voters);
    assert v in p.quorum.voters && v in q.quorum.voters;
  }

  // ------------------------------------------------------ chained authority

  datatype Link = Link(proof: PromotionProof, nowMs: U64)

  /** The authority that an accepted proof installs. */
  function Installed(proof: PromotionProof): AuthorityState {
    AuthorityState(proof.epoch, Some(proof.candidate), Some(proof.lease.expiresAtMs))
  }

  ghost function AuthorityAt(start: AuthorityState, links: seq<Link>, k: nat): AuthorityState
    requires k <= |links|
  {
    if k == 0 then start else Installed(links[k - 1].proof)
  }

  /** Link k is accepted against the authority that the previous link installed. */
  ghost predicate LinkAccepted(start: AuthorityState, policy: SafetyPolicy, links: seq<Link>, k: nat)
    requires k < |links|
  {
    PromotionVerdict(links[k].proof, AuthorityAt(start, links, k), policy, links[k].nowMs).Ok?
  }

  ghost predicate Chain(start: AuthorityState, policy: SafetyPolicy, links: seq<Link>) {
    forall k | 0 <= k < |links| :: LinkAccepted(start, policy, links, k)
  }

  lemma LinkAdmissible(start: AuthorityState, policy: SafetyPolicy, links: seq<Link>, k: nat)
    requires Chain(start, policy, links) && k < |links|
    ensures Admissible(links[k].proof, AuthorityAt(start, links, k), policy, links[k].nowMs)
  {
    assert LinkAccepted(start, policy, links, k);
    VerdictIffAdmissible(links[k].proof, AuthorityAt(start, links, k), policy, links[k].nowMs);
  }

  lemma LinkRaisesEpoch(start: AuthorityState, policy: SafetyPolicy, links: seq<Link>, k: nat)
    requires Chain(start, policy, links) && k < |links|
    ensures AuthorityAt(start, links, k).epoch < AuthorityAt(start, links, k + 1).epoch
  {
    LinkAdmissible(start, policy, links, k);
  }

  /** Epochs of a chain strictly increase, above the epoch it started from. */
  lemma {:induction false} ChainEpochsIncrease(start: AuthorityState, policy: SafetyPolicy, links: seq<Link>, i: nat,
                                               j: nat)
    requires Chain(start, policy, links)
    requires i < j <= |links|
    ensures AuthorityAt(start, links, i).epoch + (j - i) <= AuthorityAt(start, links, j).epoch
    decreases j
  {
    hide *;
    LinkRaisesEpoch(start, policy, links, j - 1);
    if i < j - 1 {
      ChainEpochsIncrease(start, policy, links, i, j - 1);
    }
  }

  /** Holders alternate, every later link fences exactly its predecessor, and bootstrap can only come first. */
  lemma ChainHandsOver(start: AuthorityState, policy: SafetyPolicy, links: seq<Link>, k: nat)
    requires Chain(start, policy, links)
    requires k < |links|
    ensures Some(links[k].proof.candidate) != AuthorityAt(start, links, k).holder
    ensures links[k].proof.fence.target == AuthorityAt(start, links, k).holder
    ensures links[k].proof.fence.mechanism == Bootstrap <==> k == 0 && start.holder == None
  {
    LinkAdmissible(start, policy, links, k);
  }

  /** What one gate-expiry hand-over guarantees about the leases on either side of it. */
  ghost predicate GuardElapsed(policy: SafetyPolicy, before: Link, after: Link) {
    && before.proof.lease.expiresAtMs + policy.leaseGuardMs <= after.proof.lease.notBeforeMs
    && after.proof.lease.notBeforeMs <= after.nowMs < after.proof.lease.expiresAtMs
  }

  lemma ExpiryFenceWaitsForGuard(start: AuthorityState, policy: SafetyPolicy, links: seq<Link>, k: nat)
    requires Chain(start, policy, links)
    requires 0 < k < |links|
    requires links[k].proof.fence.mechanism == EffectGateExpired
    ensures GuardElapsed(policy, links[k - 1], links[k])
  {
    LinkAdmissible(start, policy, links, k);
  }

  lemma {:induction false} GuardsAccumulate(policy: SafetyPolicy, links: seq<Link>, i: nat, j: nat)
    requires i < j < |links|
    requires forall k | i < k <= j :: GuardElapsed(policy, links[k - 1], links[k])
    ensures links[j].proof.lease.notBeforeMs >=
              links[i].proof.lease.expiresAtMs + (j - i) * policy.leaseGuardMs + (j - i - 1)
    decreases j
  {
    assert GuardElapsed(policy, links[j - 1], links[j]);
    if i < j - 1 {
      GuardsAccumulate(policy, links, i, j - 1);
      assert GuardElapsed(policy, links[j - 2], links[j - 1]);
      assert (j - i) * policy.leaseGuardMs == (j - 1 - i) * policy.leaseGuardMs + policy.leaseGuardMs;
    }
  }

  /**
   When every hand-over from link i+1 to link j relied on gate expiry, the
   lease of j starts after the lease of i by all the guards in between and at
   least one millisecond of lease per intermediate link.
   */
  lemma ChainLeasesSeparated(start: AuthorityState, policy: SafetyPolicy, links: seq<Link>, i: nat, j: nat)
    requires Chain(start, policy, links)
    requires i < j < |links|
    requires forall k | i < k <= j :: links[k].proof.fence.mechanism == EffectGateExpired
    ensures links[j].proof.lease.notBeforeMs >=
              links[i].proof.lease.expiresAtMs + (j - i) * policy.leaseGuardMs + (j - i - 1)
    ensures links[j].nowMs >= links[j].proof.lease.notBeforeMs
  {
    forall k | i < k <= j ensures GuardElapsed(policy, links[k - 1], links[k]) {
      ExpiryFenceWaitsForGuard(start, policy, links, k);
    }
    GuardsAccumulate(policy, links, i, j);
    assert GuardElapsed(policy, links[j - 1], links[j]);
  }
}
