/** The node-local, fail-closed effect gate as transitions between values of its fields. */
module GateTransitions {
  import opened Types
  import opened Promotion

  datatype SelfFenceReason = LeaseExpiry | ExplicitClose | SafetyFault

  datatype GateState =
    | Closed(lastEpoch: Epoch)
    | Staged(authorization: ValidatedPromotion)
    | Prepared(authorization: ValidatedPromotion)
    | Open(holder: NodeId, epoch: Epoch, expiresAtMs: U64)
    | SelfFenced(lastEpoch: Epoch, reason: SelfFenceReason)
  {
    /** Highest epoch this gate has accepted. */
    function LastEpoch(): Epoch {
      match this
      case Closed(lastEpoch) => lastEpoch
      case SelfFenced(lastEpoch, _) => lastEpoch
      case Staged(authorization) => authorization.epoch
      case Prepared(authorization) => authorization.epoch
      case Open(_, epoch, _) => epoch
    }
  }

  datatype ContinuityReceipt = ContinuityReceipt(
    workload: WorkloadId,
    holder: NodeId,
    incarnation: Incarnation,
    epoch: Epoch,
    activatedAtMs: U64,
    expiresAtMs: U64,
    durableCommit: CommitIndex,
    stateRoot: StateRoot,
    fenceClass: FenceClass,
    policyHash: PolicyHash)

  datatype GateRecoveryState = GateRecoveryState(
    acceptedEpoch: Epoch,
    incarnation: Incarnation,
    lastObservedMs: U64)

  datatype GatePersistenceRecord = GatePersistenceRecord(
    node: NodeId,
    workload: WorkloadId,
    policyHash: PolicyHash,
    acceptedEpoch: Epoch,
    incarnation: Incarnation,
    lastObservedMs: U64)

  datatype GateError =
    | GateBindingMismatch
    | WrongCandidate
    | IncarnationMismatch
    | StaleAuthorization
    | AlreadyOpen
    | NotStaged
    | PersistenceMismatch
    | NotPrepared
    | LeaseNotStarted
    | LeaseExpired
    | GateClosed
    | ClockRollback

  /** The value of a gate's fields at one instant. */
  datatype GateView = GateView(
    node: NodeId,
    workload: WorkloadId,
    policyHash: PolicyHash,
    incarnation: Incarnation,
    lastObservedMs: U64,
    state: GateState)

  // ----------------------------------------------- transitions on gate views

  function Recovered(node: NodeId, workload: WorkloadId, policyHash: PolicyHash, recovery: GateRecoveryState)
    : GateView
  {
    GateView(node, workload, policyHash, recovery.incarnation, recovery.lastObservedMs, Closed(recovery.acceptedEpoch))
  }

  function RecordFor(g: GateView, authorization: ValidatedPromotion): GatePersistenceRecord {
    GatePersistenceRecord(g.node, g.workload, g.policyHash, authorization.epoch, g.incarnation, g.lastObservedMs)
  }

  function Fence(g: GateView, reason: SelfFenceReason): GateView {
    g.(state := SelfFenced(g.state.LastEpoch(), reason))
  }

  /** The gate after a clock reading; a reading below the last one fences the gate. */
  function Observed(g: GateView, nowMs: U64): GateView {
    if nowMs < g.lastObservedMs then Fence(g, SafetyFault) else g.(lastObservedMs := nowMs)
  }

  function StageTransition(before: GateView, nowMs: U64, authorization: ValidatedPromotion)
    : (GateView, Result<GatePersistenceRecord, GateError>)
  {
    var g := Observed(before, nowMs);
    if nowMs < before.lastObservedMs then (g, Err(ClockRollback))
    else if authorization.workload != g.workload || authorization.policyHash != g.policyHash
    then (g, Err(GateBindingMismatch))
    else if authorization.candidate != g.node then (g, Err(WrongCandidate))
    else if authorization.candidateIncarnation != g.incarnation then (g, Err(IncarnationMismatch))
    else if (g.state.Staged? || g.state.Prepared?) && g.state.authorization == authorization
    then (g, Ok(RecordFor(g, authorization)))
    else if g.state.Open? then (g, Err(AlreadyOpen))
    else if authorization.epoch <= g.state.LastEpoch() then (g, Err(StaleAuthorization))
    else (g.(state := Staged(authorization)), Ok(RecordFor(g, authorization)))
  }

  function ConfirmTransition(g: GateView, record: GatePersistenceRecord): (GateView, Result<(), GateError>) {
    if !g.state.Staged? then (g, Err(NotStaged))
    else if RecordFor(g, g.state.authorization) != record then (g, Err(PersistenceMismatch))
    else (g.(state := Prepared(g.state.authorization)), Ok(()))
  }

  function ReceiptFor(authorization: ValidatedPromotion, nowMs: U64): ContinuityReceipt {
    ContinuityReceipt(authorization.workload, authorization.candidate, authorization.candidateIncarnation,
                      authorization.epoch, nowMs, authorization.expiresAtMs, authorization.durableCommit,
                      authorization.stateRoot, authorization.fenceClass, authorization.policyHash)
  }

  function ActivateTransition(before: GateView, nowMs: U64): (GateView, Result<ContinuityReceipt, GateError>) {
    var g := Observed(before, nowMs);
    if nowMs < before.lastObservedMs then (g, Err(ClockRollback))
    else if !g.state.Prepared? then (g, Err(NotPrepared))
    else
      var authorization := g.state.authorization;
      if nowMs < authorization.notBeforeMs then (g, Err(LeaseNotStarted))
      else if nowMs >= authorization.expiresAtMs then (Fence(g, LeaseExpiry), Err(LeaseExpired))
      else
        (g.(state := Open(authorization.candidate, authorization.epoch, authorization.expiresAtMs)),
         Ok(ReceiptFor(authorization, nowMs)))
  }

  function CheckTransition(before: GateView, nowMs: U64, holder: NodeId, epoch: Epoch)
    : (GateView, Result<(), GateError>)
  {
    var g := Observed(before, nowMs);
    if nowMs < before.lastObservedMs then (g, Err(ClockRollback))
    else if !g.state.Open? then (g, Err(GateClosed))
    else if nowMs >= g.state.expiresAtMs then (Fence(g, LeaseExpiry), Err(LeaseExpired))
    else if g.state.holder != holder then (g, Err(WrongCandidate))
    else if g.state.epoch != epoch then (g, Err(StaleAuthorization))
    else (g, Ok(()))
  }

  function TickTransition(before: GateView, nowMs: U64): (GateView, Result<bool, GateError>) {
    var g := Observed(before, nowMs);
    if nowMs < before.lastObservedMs then (g, Err(ClockRollback))
    else if g.state.Open? && nowMs >= g.state.expiresAtMs then (Fence(g, LeaseExpiry), Ok(true))
    else (g, Ok(false))
  }

  // ------------------------------------------------------- calls and history

  /** One call on a gate; the clock reading of the call is an arbitrary input. */
  datatype Call =
    | StageCall(nowMs: U64, authorization: ValidatedPromotion)
    | ConfirmCall(record: GatePersistenceRecord)
    | ActivateCall(nowMs: U64)
    | CheckCall(nowMs: U64, holder: NodeId, epoch: Epoch)
    | TickCall(nowMs: U64)
    | CloseCall
    | FaultCall

  datatype Reply =
    | Recorded(record: GatePersistenceRecord)
    | Activated(receipt: ContinuityReceipt)
    | Ticked(expired: bool)
    | Accepted
    | Refused(error: GateError)

  function Respond(g: GateView, call: Call): (GateView, Reply) {
    match call
    case StageCall(nowMs, authorization) =>
      var (next, r) := StageTransition(g, nowMs, authorization);
      (next, if r.Ok? then Recorded(r.value) else Refused(r.error))
    case ConfirmCall(record) =>
      var (next, r) := ConfirmTransition(g, record);
      (next, if r.Ok? then Accepted else Refused(r.error))
    case ActivateCall(nowMs) =>
      var (next, r) := ActivateTransition(g, nowMs);
      (next, if r.Ok? then Activated(r.value) else Refused(r.error))
    case CheckCall(nowMs, holder, epoch) =>
      var (next, r) := CheckTransition(g, nowMs, holder, epoch);
      (next, if r.Ok? then Accepted else Refused(r.error))
    case TickCall(nowMs) =>
      var (next, r) := TickTransition(g, nowMs);
      (next, if r.Ok? then Ticked(r.value) else Refused(r.error))
    case CloseCall => (Fence(g, ExplicitClose), Accepted)
    case FaultCall => (Fence(g, SafetyFault), Accepted)
  }

  /** The gate after the first k calls of a history. */
  function StateAfter(origin: GateView, calls: seq<Call>, k: nat): GateView
    requires k <= |calls|
  {
    if k == 0 then origin else Respond(StateAfter(origin, calls, k - 1), calls[k - 1]).0
  }

  function ReplyTo(origin: GateView, calls: seq<Call>, k: nat): Reply
    requires k < |calls|
  {
    Respond(StateAfter(origin, calls, k), calls[k]).1
  }

  /** Later calls do not change what earlier calls did. */
  lemma {:induction false} HistoryIsAppendOnly(origin: GateView, calls: seq<Call>, more: seq<Call>, k: nat)
    requires k <= |calls|
    ensures StateAfter(origin, calls + more, k) == StateAfter(origin, calls, k)
  {
    if k > 0 {
      HistoryIsAppendOnly(origin, calls, more, k - 1);
      assert (calls + more)[k - 1] == calls[k - 1];
    }
  }
}
