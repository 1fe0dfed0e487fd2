/**
 The compact two-node-plus-witness model: its states, the nineteen actions,
 and promotion as the composition of the validator and a local gate.
 */
module Simulator {
  import opened Types
  import opened Promotion
  import opened GateTransitions
  import opened Gate
  import opened Explorer

  datatype Node = A | B

  datatype GateLease = GateLease(epoch: Epoch, incarnation: Incarnation, expiresAtTick: U8)

  datatype NodeState = NodeState(
    powered: bool,
    connectedToWitness: bool,
    fenced: bool,
    caughtUp: bool,
    acceptedEpoch: Epoch,
    incarnation: Incarnation,
    gate: Option<GateLease>)
  {
    predicate GateIsEffective(nowTick: U8) {
      && powered
      && !fenced
      && gate.Some?
      && gate.value.epoch > 0
      && gate.value.incarnation == incarnation
      && nowTick < gate.value.expiresAtTick
    }
  }

  const INITIAL_NODE := NodeState(true, true, false, true, 0, 1, None)

  datatype ModelState = ModelState(
    nowTick: U8,
    epoch: Epoch,
    metadataHolder: Option<Node>,
    metadataLeaseExpiresAtTick: Option<U8>,
    witnessUp: bool,
    a: NodeState,
    b: NodeState)
  {
    function At(node: Node): NodeState {
      match node
      case A => a
      case B => b
    }

    function With(node: Node, value: NodeState): ModelState {
      match node
      case A => this.(a := value)
      case B => this.(b := value)
    }

    predicate Effective(node: Node) {
      At(node).GateIsEffective(nowTick)
    }

    function ActiveWriters(): nat {
      (if a.GateIsEffective(nowTick) then 1 else 0) + (if b.GateIsEffective(nowTick) then 1 else 0)
    }
  }

  const INITIAL_STATE := ModelState(0, 0, None, None, true, INITIAL_NODE, INITIAL_NODE)

  datatype Action =
    | PartitionA | HealA | PartitionB | HealB
    | StopWitness | StartWitness
    | CrashA | RestartA | CrashB | RestartB
    | FenceA | FenceB
    | LagA | CatchUpA | LagB | CatchUpB
    | PromoteA | PromoteB
    | AdvanceTime
  {
    function Candidate(): Option<Node> {
      match this
      case PromoteA => Some(A)
      case PromoteB => Some(B)
      case _ => None
    }
  }

  const ALL_ACTIONS: seq<Action> := [
    PartitionA, HealA, PartitionB, HealB, StopWitness, StartWitness, CrashA, RestartA, CrashB, RestartB,
    FenceA, FenceB, LagA, CatchUpA, LagB, CatchUpB, PromoteA, PromoteB, AdvanceTime]

  datatype Rejection =
    | NoQuorum
    | CandidateUnavailable
    | CandidateBehind
    | OldGateEffective
    | AlreadyEffective
    | CoreRefused
    | NoStateChange

  // ------------------------------------------------- fault actions as functions

  function Crashed(node: NodeState): NodeState {
    if node.powered then node.(powered := false, gate := None) else node
  }

  function Restarted(node: NodeState): NodeState {
    if node.powered || node.fenced || node.incarnation == U64_MAX then node
    else node.(powered := true, connectedToWitness := true, incarnation := node.incarnation + 1, gate := None)
  }

  function Fenced(node: NodeState): NodeState {
    node.(fenced := true, powered := false, gate := None)
  }

  /** The state after a fault action; promotions and time are not faults. */
  function Faulted(s: ModelState, action: Action): ModelState {
    match action
    case PartitionA => s.With(A, s.a.(connectedToWitness := false))
    case HealA => s.With(A, s.a.(connectedToWitness := true))
    case PartitionB => s.With(B, s.b.(connectedToWitness := false))
    case HealB => s.With(B, s.b.(connectedToWitness := true))
    case StopWitness => s.(witnessUp := false)
    case StartWitness => s.(witnessUp := true)
    case CrashA => s.With(A, Crashed(s.a))
    case RestartA => s.With(A, Restarted(s.a))
    case CrashB => s.With(B, Crashed(s.b))
    case RestartB => s.With(B, Restarted(s.b))
    case FenceA => s.With(A, Fenced(s.a))
    case FenceB => s.With(B, Fenced(s.b))
    case LagA => s.With(A, s.a.(caughtUp := false))
    case CatchUpA => s.With(A, s.a.(caughtUp := true))
    case LagB => s.With(B, s.b.(caughtUp := false))
    case CatchUpB => s.With(B, s.b.(caughtUp := true))
    case _ => s
  }

  // --------------------------------------------------------------- promotion

  function NodeIdOf(node: Node): NodeId {
    match node
    case A => NodeId("node-a")
    case B => NodeId("node-b")
  }

  function Filled(byte: U8): Bytes32 {
    seq(32, _ => byte)
  }

  const WITNESS_ID := NodeId("witness")
  const WORKLOAD := WorkloadId("model-workload")
  const POLICY_HASH := PolicyHash(Filled(5))
  const STATE_ROOT := StateRoot(Filled(1))
  const REQUIRED_COMMIT: CommitIndex := 10

  /** Logical time of a tick in milliseconds. */
  function Millis(tick: U8): U64 {
    tick * 100
  }

  function AuthorityOf(s: ModelState): AuthorityState {
    AuthorityState(
      s.epoch,
      if s.metadataHolder.Some? then Some(NodeIdOf(s.metadataHolder.value)) else None,
      if s.metadataLeaseExpiresAtTick.Some? then Some(Millis(s.metadataLeaseExpiresAtTick.value)) else None)
  }

  function FenceMechanismFor(s: ModelState): FenceMechanism {
    if s.metadataHolder.None? then Bootstrap
    else if s.At(s.metadataHolder.value).fenced then HardwarePower
    else EffectGateExpired
  }

  /** The evidence bundle the model assembles for a candidate. */
  function ProofFor(s: ModelState, candidate: Node, newEpoch: Epoch, expiresAtTick: U8): PromotionProof {
    var node := s.At(candidate);
    var id := NodeIdOf(candidate);
    var nowMs := Millis(s.nowTick);
    PromotionProof(
      WORKLOAD, id, node.incarnation, newEpoch, POLICY_HASH,
      QuorumCertificate(newEpoch, WORKLOAD, id, node.incarnation, POLICY_HASH, REQUIRED_COMMIT, STATE_ROOT,
                        nowMs, Millis(expiresAtTick), [id, WITNESS_ID]),
      FenceReceipt(newEpoch, AuthorityOf(s).holder, WITNESS_ID, FenceMechanismFor(s), nowMs),
      StateEvidence(REQUIRED_COMMIT, if node.caughtUp then REQUIRED_COMMIT else 9, STATE_ROOT, nowMs),
      HealthAttestation(WORKLOAD, id, node.incarnation, newEpoch, node.powered, 3, nowMs),
      LeaseGrant(WORKLOAD, id, node.incarnation, newEpoch, nowMs, Millis(expiresAtTick)))
  }

  function ModelPolicy(): Result<SafetyPolicy, PolicyError> {
    NewPolicy(WORKLOAD, POLICY_HASH, [NodeIdOf(A), NodeIdOf(B)], [NodeIdOf(A), NodeIdOf(B), WITNESS_ID],
              2, Some(WITNESS_ID), 3, 500, 300, 100, true)
  }

  function RecoveryOf(s: ModelState, candidate: Node): GateRecoveryState {
    GateRecoveryState(s.At(candidate).acceptedEpoch, s.At(candidate).incarnation, Millis(s.nowTick))
  }

  /** Stage, confirm, activate and check on one gate; nothing if any of them refuses. */
  function OpenedGate(g: GateView, nowMs: U64, authorization: ValidatedPromotion, holder: NodeId, epoch: Epoch)
    : Option<GateView>
  {
    var (staged, record) := StageTransition(g, nowMs, authorization);
    if record.Err? then None
    else
      var (prepared, confirmed) := ConfirmTransition(staged, record.value);
      if confirmed.Err? then None
      else
        var (active, receipt) := ActivateTransition(prepared, nowMs);
        if receipt.Err? then None
        else
          var (checked, effect) := CheckTransition(active, nowMs, holder, epoch);
          if effect.Err? then None else Some(checked)
  }

  /** How the model reports a refusal of the validator. */
  function RejectionOf(error: ProofError): Rejection {
    match error
    case CandidateStateBehind => CandidateBehind
    case FenceGuardNotElapsed => OldGateEffective
    case CandidateAlreadyHoldsAuthority => AlreadyEffective
    case _ => CoreRefused
  }

  /** The state a successful promotion installs: new metadata and the candidate's compact lease. */
  function Promoted(s: ModelState, candidate: Node, newEpoch: Epoch, expiresAtTick: U8): ModelState {
    var node := s.At(candidate);
    var lease := GateLease(newEpoch, node.incarnation, expiresAtTick);
    s.(epoch := newEpoch, metadataHolder := Some(candidate), metadataLeaseExpiresAtTick := Some(expiresAtTick))
     .With(candidate, node.(acceptedEpoch := newEpoch, gate := Some(lease)))
  }

  /** The gate a promotion leaves open, if the validator and the gate both agree. */
  function CoreDecision(s: ModelState, candidate: Node, newEpoch: Epoch, expiresAtTick: U8)
    : Result<GateView, Rejection>
  {
    var nowMs := Millis(s.nowTick);
    var id := NodeIdOf(candidate);
    match ModelPolicy()
    case Err(_) => Err(CoreRefused)
    case Ok(policy) =>
      match PromotionVerdict(ProofFor(s, candidate, newEpoch, expiresAtTick), AuthorityOf(s), policy, nowMs)
      case Err(error) => Err(RejectionOf(error))
      case Ok(authorization) =>
        var gate := Recovered(id, WORKLOAD, POLICY_HASH, RecoveryOf(s, candidate));
        match OpenedGate(gate, nowMs, authorization, id, newEpoch)
        case None => Err(CoreRefused)
        case Some(active) => Ok(active)
  }

  function PromoteOutcome(s: ModelState, candidate: Node): Outcome<ModelState, Rejection> {
    var node := s.At(candidate);
    if !node.powered || node.fenced then Rejected(CandidateUnavailable)
    else if !node.connectedToWitness || !s.witnessUp then Rejected(NoQuorum)
    else if node.GateIsEffective(s.nowTick) then Rejected(AlreadyEffective)
    else
      match (CheckedAdd(s.epoch, 1), CheckedAddU8(s.nowTick, 3))
      case (Some(newEpoch), Some(expiresAtTick)) =>
        (match CoreDecision(s, candidate, newEpoch, expiresAtTick)
         case Err(reason) => Rejected(reason)
         case Ok(_) => Applied(Promoted(s, candidate, newEpoch, expiresAtTick)))
      case _ => Rejected(NoStateChange)
  }

  /** The transition function of the model. */
  function Step(s: ModelState, action: Action): Outcome<ModelState, Rejection> {
    if action.Candidate().Some? then PromoteOutcome(s, action.Candidate().value)
    else if action == AdvanceTime then
      match CheckedAddU8(s.nowTick, 1)
      case None => Rejected(NoStateChange)
      case Some(tick) => Applied(s.(nowTick := tick))
    else if Faulted(s, action) == s then Rejected(NoStateChange)
    else Applied(Faulted(s, action))
  }

  // ------------------------------------------------- the model as procedures

  /** A cloned state under edit; each method reports whether it changed anything. */
  class Draft {
    var state: ModelState

    constructor (state: ModelState)
      ensures this.state == state
    {
      this.state := state;
    }

    method SetWitness(up: bool) returns (changed: bool)
      modifies this
      ensures state == old(state).(witnessUp := up)
      ensures changed <==> state != old(state)
    {
      changed := state.witnessUp != up;
      state := state.(witnessUp := up);
    }

    method SetConnection(node: Node, connected: bool) returns (changed: bool)
      modifies this
      ensures state == old(state).With(node, old(state).At(node).(connectedToWitness := connected))
      ensures changed <==> state != old(state)
    {
      var n := state.At(node);
      changed := n.connectedToWitness != connected;
      state := state.With(node, n.(connectedToWitness := connected));
    }

    method SetCaughtUp(node: Node, caughtUp: bool) returns (changed: bool)
      modifies this
      ensures state == old(state).With(node, old(state).At(node).(caughtUp := caughtUp))
      ensures changed <==> state != old(state)
    {
      var n := state.At(node);
      changed := n.caughtUp != caughtUp;
      state := state.With(node, n.(caughtUp := caughtUp));
    }

    method Crash(node: Node) returns (changed: bool)
      modifies this
      ensures state == old(state).With(node, Crashed(old(state).At(node)))
      ensures changed <==> state != old(state)
    {
      var n := state.At(node);
      if !n.powered {
        return false;
      }
      state := state.With(node, n.(powered := false, gate := None));
      return true;
    }

    method Restart(node: Node) returns (changed: bool)
      modifies this
      ensures state == old(state).With(node, Restarted(old(state).At(node)))
      ensures changed <==> state != old(state)
    {
      var n := state.At(node);
      if n.powered || n.fenced {
        return false;
      }
      var incarnation := CheckedAdd(n.incarnation, 1);
      if incarnation.None? {
        return false;
      }
      var booted := n.(powered := true, connectedToWitness := true, incarnation := incarnation.value, gate := None);
      state := state.With(node, booted);
      return true;
    }

    method FenceNode(node: Node) returns (changed: bool)
      modifies this
      ensures state == old(state).With(node, Fenced(old(state).At(node)))
      ensures changed <==> state != old(state)
    {
      var n := state.At(node);
      changed := !n.fenced || n.powered || n.gate.Some?;
      state := state.With(node, n.(fenced := true, powered := false, gate := None));
    }

    method AdvanceClock() returns (changed: bool)
      modifies this
      ensures changed <==> old(state).nowTick < U8_MAX
      ensures state == if changed then old(state).(nowTick := old(state).nowTick + 1) else old(state)
    {
      var tick := CheckedAddU8(state.nowTick, 1);
      if tick.None? {
        return false;
      }
      state := state.(nowTick := tick.value);
      return true;
    }
  }

  /** One action, as the source runs it: promotions go to the core, everything else edits a clone. */
  method Apply(s: ModelState, action: Action) returns (outcome: Outcome<ModelState, Rejection>)
    ensures outcome == Step(s, action)
  {
    var candidate := action.Candidate();
    if candidate.Some? {
      outcome := Promote(s, candidate.value);
      return;
    }
    var next := new Draft(s);
    var changed := false;
    match action {
      case PartitionA => changed := next.SetConnection(A, false);
      case HealA => changed := next.SetConnection(A, true);
      case PartitionB => changed := next.SetConnection(B, false);
      case HealB => changed := next.SetConnection(B, true);
      case StopWitness => changed := next.SetWitness(false);
      case StartWitness => changed := next.SetWitness(true);
      case CrashA => changed := next.Crash(A);
      case RestartA => changed := next.Restart(A);
      case CrashB => changed := next.Crash(B);
      case RestartB => changed := next.Restart(B);
      case FenceA => changed := next.FenceNode(A);
      case FenceB => changed := next.FenceNode(B);
      case LagA => changed := next.SetCaughtUp(A, false);
      case CatchUpA => changed := next.SetCaughtUp(A, true);
      case LagB => changed := next.SetCaughtUp(B, false);
      case CatchUpB => changed := next.SetCaughtUp(B, true);
      case AdvanceTime => changed := next.AdvanceClock();
      case _ =>
    }
    outcome := if changed then Applied(next.state) else Rejected(NoStateChange);
  }

  /** A promotion, through the validator procedure and a real gate object. */
  method Promote(s: ModelState, candidate: Node) returns (outcome: Outcome<ModelState, Rejection>)
    ensures outcome == PromoteOutcome(s, candidate)
  {
    var node := s.At(candidate);
    if !node.powered || node.fenced {
      return Rejected(CandidateUnavailable);
    }
    if !node.connectedToWitness || !s.witnessUp {
      return Rejected(NoQuorum);
    }
    if node.GateIsEffective(s.nowTick) {
      return Rejected(AlreadyEffective);
    }
    var newEpoch := CheckedAdd(s.epoch, 1);
    if newEpoch.None? {
      return Rejected(NoStateChange);
    }
    var expiresAtTick := CheckedAddU8(s.nowTick, 3);
    if expiresAtTick.None? {
      return Rejected(NoStateChange);
    }
    var nowMs := Millis(s.nowTick);
    var id := NodeIdOf(candidate);
    var policy := ModelPolicy();
    if policy.Err? {
      return Rejected(CoreRefused);
    }
    var proof := ProofFor(s, candidate, newEpoch.value, expiresAtTick.value);
    var authorization := ValidatePromotion(proof, AuthorityOf(s), policy.value, nowMs);
    if authorization.Err? {
      return Rejected(RejectionOf(authorization.error));
    }
    var gate := new EffectGate.Recover(id, WORKLOAD, POLICY_HASH, RecoveryOf(s, candidate));
    var record := gate.Stage(nowMs, authorization.value);
    if record.Err? {
      return Rejected(CoreRefused);
    }
    var confirmed := gate.ConfirmPersisted(record.value);
    if confirmed.Err? {
      return Rejected(CoreRefused);
    }
    var receipt := gate.Activate(nowMs);
    if receipt.Err? {
      return Rejected(CoreRefused);
    }
    var effect := gate.CheckEffect(nowMs, id, newEpoch.value);
    if effect.Err? {
      return Rejected(CoreRefused);
    }
    return Applied(Promoted(s, candidate, newEpoch.value, expiresAtTick.value));
  }

  // -------------------------------------------------------------- exploration

  /** The explored system: the initial state, all actions, and which refusals are counted. */
  const SIMULATION: System<ModelState, Action, Rejection> := System(
    INITIAL_STATE,
    ALL_ACTIONS,
    (s: ModelState, action: Action) => Step(s, action),
    (s: ModelState) => s.ActiveWriters(),
    (action: Action, reason: Rejection) => action.Candidate().Some? && reason != NoStateChange)

  ghost function ActionIndex(action: Action): nat {
    match action
    case PartitionA => 0 case HealA => 1 case PartitionB => 2 case HealB => 3
    case StopWitness => 4 case StartWitness => 5 case CrashA => 6 case RestartA => 7
    case CrashB => 8 case RestartB => 9 case FenceA => 10 case FenceB => 11
    case LagA => 12 case CatchUpA => 13 case LagB => 14 case CatchUpB => 15
    case PromoteA => 16 case PromoteB => 17 case AdvanceTime => 18
  }

  lemma ActionAtIndex(action: Action)
    ensures ActionIndex(action) < |ALL_ACTIONS| && ALL_ACTIONS[ActionIndex(action)] == action
  {
  }

  lemma IndexOfAction(i: nat)
    requires i < |ALL_ACTIONS|
    ensures ActionIndex(ALL_ACTIONS[i]) == i
  {
  }

  /** The action list names every action once. */
  lemma ActionsListedOnce()
    ensures NoRepeats(SIMULATION.actions)
    ensures forall action: Action :: action in SIMULATION.actions
  {
    hide ActionIndex;
    forall i, j | 0 <= i < j < |SIMULATION.actions| ensures SIMULATION.actions[i] != SIMULATION.actions[j] {
      IndexOfAction(i);
      IndexOfAction(j);
    }
    forall action: Action ensures action in SIMULATION.actions {
      ActionAtIndex(action);
    }
  }
}
