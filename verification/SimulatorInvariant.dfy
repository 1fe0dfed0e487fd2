/**
 The inductive invariant of the model, and the proof that the composition
 inside a promotion collapses to a small guard wherever the invariant holds.
 */
module SimulatorInvariant {
  import opened Types
  import opened Promotion
  import opened PromotionProperties
  import opened GateTransitions
  import opened Explorer
  import opened Simulator

  function Other(node: Node): Node {
    match node
    case A => B
    case B => A
  }

  // ---------------------------------------------------------------- invariant

  /**
   Fenced nodes are off, nodes that are off have no gate, a gate belongs to the
   current boot, and the holder has accepted its epoch.
   */
  ghost predicate NodeSound(s: ModelState, node: Node) {
    var n := s.At(node);
    && (n.fenced ==> !n.powered)
    && (!n.powered ==> n.gate.None?)
    && (n.gate.Some? ==> n.gate.value.incarnation == n.incarnation)
    && n.acceptedEpoch <= s.epoch
    && (s.metadataHolder == Some(node) ==> n.acceptedEpoch == s.epoch)
  }

  /** A holder, a lease and a positive epoch come together, and the lease was granted for three ticks. */
  ghost predicate MetadataSound(s: ModelState) {
    && (s.metadataHolder.Some? <==> s.epoch > 0)
    && (s.metadataLeaseExpiresAtTick.Some? <==> s.epoch > 0)
    && (s.epoch > 0 ==> 3 <= s.metadataLeaseExpiresAtTick.value <= s.nowTick + 3)
  }

  /** The holder's gate is the current one; any other gate is one epoch old and long expired. */
  ghost predicate GateSound(s: ModelState, node: Node)
    requires MetadataSound(s)
  {
    s.At(node).gate.Some? ==>
      var gate := s.At(node).gate.value;
      && s.epoch > 0
      && if s.metadataHolder == Some(node)
         then gate.epoch == s.epoch && gate.expiresAtTick == s.metadataLeaseExpiresAtTick.value
         else gate.epoch + 1 == s.epoch && gate.expiresAtTick + 4 <= s.metadataLeaseExpiresAtTick.value
  }

  /** Some node could still be promoted: it is not fenced and is not the holder. */
  ghost predicate CandidateLeft(s: ModelState) {
    exists node: Node :: !s.At(node).fenced && s.metadataHolder != Some(node)
  }

  /** Every epoch but the first, and but one after a fence, cost four ticks. */
  ghost predicate EpochSound(s: ModelState)
    requires MetadataSound(s)
  {
    s.epoch > 0 ==>
      && (CandidateLeft(s) ==> 4 * s.epoch - 1 <= s.metadataLeaseExpiresAtTick.value)
      && 4 * (s.epoch - 1) - 1 <= s.metadataLeaseExpiresAtTick.value
  }

  ghost predicate Inv(s: ModelState) {
    && NodeSound(s, A) && NodeSound(s, B)
    && MetadataSound(s)
    && GateSound(s, A) && GateSound(s, B)
    && EpochSound(s)
  }

  // -------------------------------------------------- promotion and its guard

  /** Ready to be judged: the candidate can run, reach the witness and is not already active. */
  predicate Eligible(s: ModelState, candidate: Node) {
    var node := s.At(candidate);
    && node.powered && !node.fenced && node.connectedToWitness && s.witnessUp
    && !s.Effective(candidate)
    && s.nowTick <= 252
  }

  /** Nobody holds authority, or the other node does and is fenced or past its expiry and one guard tick. */
  predicate PredecessorExcluded(s: ModelState, candidate: Node) {
    s.metadataHolder.Some? ==>
      && s.metadataHolder.value == Other(candidate)
      && (s.At(Other(candidate)).fenced
          || (s.metadataLeaseExpiresAtTick.Some? && s.metadataLeaseExpiresAtTick.value + 1 <= s.nowTick))
  }

  predicate Guard(s: ModelState, candidate: Node) {
    Eligible(s, candidate) && s.At(candidate).caughtUp && PredecessorExcluded(s, candidate)
  }

  /** A promotion decided by the guard alone, with the reason each refusal is given. */
  function GuardedPromote(s: ModelState, candidate: Node): Outcome<ModelState, Rejection>
    requires s.epoch < U64_MAX
  {
    var node := s.At(candidate);
    if Guard(s, candidate) then Applied(Promoted(s, candidate, s.epoch + 1, s.nowTick + 3))
    else if !node.powered || node.fenced then Rejected(CandidateUnavailable)
    else if !node.connectedToWitness || !s.witnessUp then Rejected(NoQuorum)
    else if s.Effective(candidate) then Rejected(AlreadyEffective)
    else if s.nowTick > 252 then Rejected(NoStateChange)
    else if s.metadataHolder == Some(candidate) then Rejected(AlreadyEffective)
    else if !PredecessorExcluded(s, candidate) then Rejected(OldGateEffective)
    else Rejected(CandidateBehind)
  }

  lemma IdentifiersDistinct()
    ensures NodeIdOf(A) != NodeIdOf(B)
    ensures forall node: Node :: NodeIdOf(node) != WITNESS_ID
    ensures !STATE_ROOT.IsZero()
  {
    assert NodeIdOf(A).text[5] != NodeIdOf(B).text[5];
    assert |NodeIdOf(A).text| != |WITNESS_ID.text|;
    assert |NodeIdOf(B).text| != |WITNESS_ID.text|;
    assert STATE_ROOT.bytes[0] == 1;
  }

  const MODEL_POLICY := SafetyPolicy(
    WORKLOAD, POLICY_HASH, {NodeIdOf(A), NodeIdOf(B)}, {NodeIdOf(A), NodeIdOf(B), WITNESS_ID},
    2, Some(WITNESS_ID), 3, 500, 300, 100, true)

  lemma ModelPolicyIsSafe()
    ensures ModelPolicy() == Ok(MODEL_POLICY)
  {
    IdentifiersDistinct();
    var voters := [NodeIdOf(A), NodeIdOf(B), WITNESS_ID];
    assert Collect([NodeIdOf(A), NodeIdOf(B)]) == {NodeIdOf(A), NodeIdOf(B)};
    assert Collect(voters) == {NodeIdOf(A), NodeIdOf(B), WITNESS_ID};
    assert |Collect(voters)| == 3;
  }

  lemma ModelQuorumAccepted(s: ModelState, candidate: Node, newEpoch: Epoch, expiresAtTick: U8)
    ensures QuorumVerdict(ProofFor(s, candidate, newEpoch, expiresAtTick), MODEL_POLICY)
            == Ok({NodeIdOf(candidate), WITNESS_ID})
  {
    IdentifiersDistinct();
    var proof := ProofFor(s, candidate, newEpoch, expiresAtTick);
    assert Collect(proof.quorum.voters) == {NodeIdOf(candidate), WITNESS_ID};
    QuorumVerdictIffMet(proof, MODEL_POLICY);
  }

  /** What the real validator answers to the model's evidence. */
  lemma ModelVerdict(s: ModelState, candidate: Node)
    requires Inv(s) && Eligible(s, candidate) && s.epoch < U64_MAX
    ensures
      var proof := ProofFor(s, candidate, s.epoch + 1, s.nowTick + 3);
      var verdict := PromotionVerdict(proof, AuthorityOf(s), MODEL_POLICY, Millis(s.nowTick));
      verdict ==
        if s.metadataHolder == Some(candidate) then Err(CandidateAlreadyHoldsAuthority)
        else if !PredecessorExcluded(s, candidate) then Err(FenceGuardNotElapsed)
        else if !s.At(candidate).caughtUp then Err(CandidateStateBehind)
        else Ok(CapabilityOf(proof, ClassOf(proof.fence.mechanism)))
  {
    IdentifiersDistinct();
    ModelQuorumAccepted(s, candidate, s.epoch + 1, s.nowTick + 3);
    var proof := ProofFor(s, candidate, s.epoch + 1, s.nowTick + 3);
    hide QuorumVerdict;
    if s.metadataHolder != Some(candidate) {
      assert CheckBindings(proof, AuthorityOf(s), MODEL_POLICY) == Ok(());
    }
  }

  /**
   The whole handshake on any gate, at one reading: it succeeds exactly for a
   capability of this gate whose lease is running, without a rollback, when the
   gate is not open and the capability is newer than its memory or is the very
   one already staged.
   */
  lemma HandshakeSucceedsExactly(g: GateView, nowMs: U64, a: ValidatedPromotion, holder: NodeId, epoch: Epoch)
    ensures OpenedGate(g, nowMs, a, holder, epoch).Some? <==>
            && (a.candidate, a.workload, a.policyHash, a.candidateIncarnation)
               == (g.node, g.workload, g.policyHash, g.incarnation)
            && (holder, epoch) == (a.candidate, a.epoch)
            && g.lastObservedMs <= nowMs
            && a.notBeforeMs <= nowMs < a.expiresAtMs
            && (g.state == Staged(a) || (!g.state.Open? && g.state.LastEpoch() < a.epoch))
    ensures OpenedGate(g, nowMs, a, holder, epoch).Some? ==>
              OpenedGate(g, nowMs, a, holder, epoch).value ==
              g.(lastObservedMs := nowMs, state := Open(a.candidate, a.epoch, a.expiresAtMs))
  {
    var (staged, record) := StageTransition(g, nowMs, a);
    if record.Ok? {
      assert record.value == RecordFor(staged, a);
      var (prepared, confirmed) := ConfirmTransition(staged, record.value);
      assert confirmed.Ok? <==> staged.state == Staged(a);
    }
  }

  /** The gate that a promotion leaves behind: open for the candidate at the new epoch until the new expiry. */
  function PromotionGate(s: ModelState, candidate: Node): GateView
    requires Eligible(s, candidate) && s.epoch < U64_MAX
  {
    Recovered(NodeIdOf(candidate), WORKLOAD, POLICY_HASH, RecoveryOf(s, candidate))
      .(state := Open(NodeIdOf(candidate), s.epoch + 1, Millis(s.nowTick + 3)))
  }

  /** A gate recovered for the candidate opens for the validated capability and passes its first check. */
  lemma ModelGateOpens(s: ModelState, candidate: Node, fenceClass: FenceClass)
    requires Inv(s) && Eligible(s, candidate) && s.epoch < U64_MAX
    ensures
      var gate := Recovered(NodeIdOf(candidate), WORKLOAD, POLICY_HASH, RecoveryOf(s, candidate));
      var authorization := CapabilityOf(ProofFor(s, candidate, s.epoch + 1, s.nowTick + 3), fenceClass);
      OpenedGate(gate, Millis(s.nowTick), authorization, NodeIdOf(candidate), s.epoch + 1)
      == Some(PromotionGate(s, candidate))
  {
    var gate := Recovered(NodeIdOf(candidate), WORKLOAD, POLICY_HASH, RecoveryOf(s, candidate));
    var authorization := CapabilityOf(ProofFor(s, candidate, s.epoch + 1, s.nowTick + 3), fenceClass);
    hide OpenedGate;
    HandshakeSucceedsExactly(gate, Millis(s.nowTick), authorization, NodeIdOf(candidate), s.epoch + 1);
  }

  /** The core accepts an eligible candidate exactly under the guard, and says why not otherwise. */
  lemma CoreCollapses(s: ModelState, candidate: Node)
    requires Inv(s) && Eligible(s, candidate) && s.epoch < U64_MAX
    ensures CoreDecision(s, candidate, s.epoch + 1, s.nowTick + 3) ==
            if s.metadataHolder == Some(candidate) then Err(AlreadyEffective)
            else if !PredecessorExcluded(s, candidate) then Err(OldGateEffective)
            else if !s.At(candidate).caughtUp then Err(CandidateBehind)
            else Ok(PromotionGate(s, candidate))
  {
    hide PromotionVerdict;
    hide OpenedGate;
    hide ModelPolicy;
    hide Inv;
    hide PredecessorExcluded;
    hide ProofFor;
    hide AuthorityOf;
    hide CapabilityOf;
    hide Recovered;
    hide RecoveryOf;
    hide PromotionGate;
    ModelPolicyIsSafe();
    ModelVerdict(s, candidate);
    ModelGateOpens(s, candidate, ClassOf(ProofFor(s, candidate, s.epoch + 1, s.nowTick + 3).fence.mechanism));
  }

  /** In every invariant state the composition of validator and gate is the guard, refusal by refusal. */
  lemma PromoteCollapses(s: ModelState, candidate: Node)
    requires Inv(s)
    ensures s.epoch <= 65
    ensures PromoteOutcome(s, candidate) == GuardedPromote(s, candidate)
  {
    hide CoreDecision;
    hide PromotionGate;
    if Eligible(s, candidate) {
      CoreCollapses(s, candidate);
    }
  }
}
