/**
 What the replies of a gate say: which reason a refusal names, what a clock
 reading does, and that calls and replies together determine the gate's state.
 */
module GateReplies {
  import opened Types
  import opened Findings
  import opened Promotion
  import opened GateTransitions
  import opened GateHistory

  // -------------------------------------------------------- honest refusals

  type Reason = Finding<GateError>

  ghost predicate Bound(g: GateView, a: ValidatedPromotion) {
    (a.candidate, a.workload, a.policyHash, a.candidateIncarnation) == (g.node, g.workload, g.policyHash, g.incarnation)
  }

  /** The record names this gate, this epoch and the time observed last. */
  ghost predicate Names(record: GatePersistenceRecord, g: GateView, epoch: Epoch) {
    && (record.node, record.workload, record.policyHash, record.incarnation)
       == (g.node, g.workload, g.policyHash, g.incarnation)
    && (record.acceptedEpoch, record.lastObservedMs) == (epoch, g.lastObservedMs)
  }

  ghost predicate Waits(state: GateState, a: ValidatedPromotion) {
    state in {Staged(a), Prepared(a)}
  }

  /** Every reason to refuse the call, in the order in which reasons are reported. */
  ghost function Reasons(g: GateView, call: Call): seq<Reason> {
    match call
    case StageCall(nowMs, a) =>
      [(ClockRollback, nowMs < g.lastObservedMs),
       (GateBindingMismatch, (a.workload, a.policyHash) != (g.workload, g.policyHash)),
       (WrongCandidate, a.candidate != g.node),
       (IncarnationMismatch, a.candidateIncarnation != g.incarnation),
       (AlreadyOpen, g.state.Open?),
       (StaleAuthorization, a.epoch <= g.state.LastEpoch() && !Waits(g.state, a))]
    case ConfirmCall(record) =>
      [(NotStaged, !g.state.Staged?),
       (PersistenceMismatch, g.state.Staged? && !Names(record, g, g.state.authorization.epoch))]
    case ActivateCall(nowMs) =>
      [(ClockRollback, nowMs < g.lastObservedMs),
       (NotPrepared, !g.state.Prepared?),
       (LeaseNotStarted, g.state.Prepared? && nowMs < g.state.authorization.notBeforeMs),
       (LeaseExpired, g.state.Prepared? && g.state.authorization.expiresAtMs <= nowMs)]
    case CheckCall(nowMs, holder, epoch) =>
      [(ClockRollback, nowMs < g.lastObservedMs),
       (GateClosed, !g.state.Open?),
       (LeaseExpired, g.state.Open? && g.state.expiresAtMs <= nowMs),
       (WrongCandidate, g.state.Open? && g.state.holder != holder),
       (StaleAuthorization, g.state.Open? && g.state.epoch != epoch)]
    case TickCall(nowMs) => [(ClockRollback, nowMs < g.lastObservedMs)]
    case CloseCall => []
    case FaultCall => []
  }

  ghost function RefusalOf(reply: Reply): Option<GateError> {
    if reply.Refused? then Some(reply.error) else None
  }

  /** A gate refuses a call exactly when there is a reason to, and names the first one. */
  lemma RefusalIsFirstReason(g: GateView, call: Call)
    ensures RefusalOf(Respond(g, call).1) == FirstDefect(Reasons(g, call))
  {
    match call {
      case StageCall(_, _) => assert FirstDefect(Reasons(g, call)) == FirstAmong(Reasons(g, call), 6);
      case ConfirmCall(_) => assert FirstDefect(Reasons(g, call)) == FirstAmong(Reasons(g, call), 2);
      case ActivateCall(_) => assert FirstDefect(Reasons(g, call)) == FirstAmong(Reasons(g, call), 4);
      case CheckCall(_, _, _) => assert FirstDefect(Reasons(g, call)) == FirstAmong(Reasons(g, call), 5);
      case TickCall(_) => assert FirstDefect(Reasons(g, call)) == FirstAmong(Reasons(g, call), 1);
      case CloseCall => assert FirstDefect(Reasons(g, call)) == FirstAmong(Reasons(g, call), 0);
      case FaultCall => assert FirstDefect(Reasons(g, call)) == FirstAmong(Reasons(g, call), 0);
    }
  }

  // ---------------------------------------------------------- clock readings

  /** The reading of a call that observes the clock. */
  ghost function ReadingOf(call: Call): Option<U64> {
    match call
    case StageCall(nowMs, _) => Some(nowMs)
    case ActivateCall(nowMs) => Some(nowMs)
    case CheckCall(nowMs, _, _) => Some(nowMs)
    case TickCall(nowMs) => Some(nowMs)
    case _ => None
  }

  lemma CallObservesReading(g: GateView, call: Call)
    ensures Respond(g, call).0.lastObservedMs ==
            if ReadingOf(call).Some? && g.lastObservedMs < ReadingOf(call).value then ReadingOf(call).value
            else g.lastObservedMs
  {
  }

  lemma StateAfterCall(origin: GateView, calls: seq<Call>, k: nat)
    requires k < |calls|
    ensures StateAfter(origin, calls, k + 1) == Respond(StateAfter(origin, calls, k), calls[k]).0
  {
    hide Respond;
  }

  /** The observed time is the largest of the recovered time and all readings so far. */
  lemma {:induction false} ObservedTimeIsMaximum(origin: GateView, calls: seq<Call>, k: nat)
    requires k <= |calls|
    ensures origin.lastObservedMs <= StateAfter(origin, calls, k).lastObservedMs
    ensures forall i | 0 <= i < k && ReadingOf(calls[i]).Some? ::
              ReadingOf(calls[i]).value <= StateAfter(origin, calls, k).lastObservedMs
    ensures StateAfter(origin, calls, k).lastObservedMs != origin.lastObservedMs ==>
              exists i :: 0 <= i < k && ReadingOf(calls[i]) == Some(StateAfter(origin, calls, k).lastObservedMs)
  {
    if k > 0 {
      ObservedTimeIsMaximum(origin, calls, k - 1);
      CallObservesReading(StateAfter(origin, calls, k - 1), calls[k - 1]);
      hide Respond;
    }
  }

  /**
   A rollback is noticed by whichever call meets it: a reading is refused as a
   rollback exactly when some earlier reading, or the recovered time, is larger,
   and it leaves the gate fenced.
   */
  lemma RollbackNoticed(origin: GateView, calls: seq<Call>, k: nat)
    requires k < |calls| && ReadingOf(calls[k]).Some?
    ensures ReplyTo(origin, calls, k) == Refused(ClockRollback) <==>
            || ReadingOf(calls[k]).value < origin.lastObservedMs
            || exists i ::
                 && 0 <= i < k && ReadingOf(calls[i]).Some?
                 && ReadingOf(calls[k]).value < ReadingOf(calls[i]).value
    ensures ReplyTo(origin, calls, k) == Refused(ClockRollback) ==>
              StateAfter(origin, calls, k + 1).state == SelfFenced(LastEpochAt(origin, calls, k), SafetyFault)
  {
    ObservedTimeIsMaximum(origin, calls, k);
    hide StateAfter;
    assert StateAfter(origin, calls, k + 1) == Respond(StateAfter(origin, calls, k), calls[k]).0;
  }

  /**
   No gate is open past its expiry once a check or a tick has read the clock,
   and a tick reports an expiry exactly when it ends an open lease.
   */
  lemma ExpiryNoticed(origin: GateView, calls: seq<Call>, k: nat)
    requires k < |calls| && (calls[k].CheckCall? || calls[k].TickCall?)
    ensures
      var before, after := StateAfter(origin, calls, k).state, StateAfter(origin, calls, k + 1).state;
      && (after.Open? ==> calls[k].nowMs < after.expiresAtMs)
      && (calls[k].TickCall? && ReplyTo(origin, calls, k) != Refused(ClockRollback) ==>
            ReplyTo(origin, calls, k) == Ticked(before.Open? && before.expiresAtMs <= calls[k].nowMs))
      && (ReplyTo(origin, calls, k) == Ticked(true) ==> after == SelfFenced(before.epoch, LeaseExpiry))
  {
    var g := StateAfter(origin, calls, k);
    hide StateAfter;
    assert StateAfter(origin, calls, k + 1) == Respond(g, calls[k]).0 by {
      StateAfterCall(origin, calls, k);
    }
  }

  // ------------------------------------------------- the state behind replies

  ghost function FenceReason(call: Call, reply: Reply): SelfFenceReason {
    if call == CloseCall then ExplicitClose
    else if call == FaultCall || reply == Refused(ClockRollback) then SafetyFault
    else LeaseExpiry
  }

  /** What one reply tells about the state, without the clock, the fields of the gate or the reason of a refusal. */
  ghost function Told(state: GateState, call: Call, reply: Reply): GateState {
    if Revokes(call, reply) then SelfFenced(state.LastEpoch(), FenceReason(call, reply))
    else if call.StageCall? && reply.Recorded? && !Waits(state, call.authorization) then Staged(call.authorization)
    else if call.ConfirmCall? && reply == Accepted && state.Staged? then Prepared(state.authorization)
    else if reply.Activated? then Open(reply.receipt.holder, reply.receipt.epoch, reply.receipt.expiresAtMs)
    else state
  }

  ghost function ToldAfter(state: GateState, calls: seq<Call>, replies: seq<Reply>, k: nat): GateState
    requires k <= |calls| == |replies|
  {
    if k == 0 then state else Told(ToldAfter(state, calls, replies, k - 1), calls[k - 1], replies[k - 1])
  }

  lemma ReplyTellsState(g: GateView, call: Call)
    ensures Respond(g, call).0.state == Told(g.state, call, Respond(g, call).1)
  {
  }

  /** Whoever keeps the calls and replies of a gate knows its state: everything that is not reported changes nothing. */
  lemma {:induction false} RepliesTellState(origin: GateView, calls: seq<Call>, replies: seq<Reply>, k: nat)
    requires k <= |calls| == |replies|
    requires forall i | 0 <= i < k :: replies[i] == ReplyTo(origin, calls, i)
    ensures StateAfter(origin, calls, k).state == ToldAfter(origin.state, calls, replies, k)
  {
    if k > 0 {
      hide Respond;
      hide Told;
      RepliesTellState(origin, calls, replies, k - 1);
      ReplyTellsState(StateAfter(origin, calls, k - 1), calls[k - 1]);
      assert replies[k - 1] == ReplyTo(origin, calls, k - 1);
    }
  }

  /** A refused confirmation leaves the gate exactly as it was. */
  lemma RefusedConfirmationChangesNothing(g: GateView, record: GatePersistenceRecord)
    ensures Respond(g, ConfirmCall(record)).1.Refused? ==> Respond(g, ConfirmCall(record)).0 == g
    ensures Respond(g, ConfirmCall(record)).1.Refused? <==>
            !(g.state.Staged? && Names(record, g, g.state.authorization.epoch))
  {
    ReplyTellsState(g, ConfirmCall(record));
  }

  // ------------------------------------------- how long a capability can wait

  /** Call k revoked the gate, confirmed or activated the waiting capability, or staged another one. */
  ghost predicate EndsWait(origin: GateView, calls: seq<Call>, k: nat, a: ValidatedPromotion)
    requires k < |calls|
  {
    var reply := ReplyTo(origin, calls, k);
    || Revokes(calls[k], reply)
    || (calls[k].ConfirmCall? && reply == Accepted)
    || reply.Activated?
    || (calls[k].StageCall? && reply.Recorded? && calls[k].authorization != a)
  }

  /** The wait of a in this state is over, and nothing can bring it back. */
  ghost predicate WaitOver(state: GateState, held: GateState, a: ValidatedPromotion) {
    && state != held
    && a.epoch <= state.LastEpoch()
    && (held.Prepared? ==> state != Staged(a))
  }

  lemma CallEndsWait(origin: GateView, calls: seq<Call>, k: nat, a: ValidatedPromotion)
    requires k < |calls| && Waits(StateAfter(origin, calls, k).state, a)
    ensures
      var held, after := StateAfter(origin, calls, k).state, StateAfter(origin, calls, k + 1).state;
      if EndsWait(origin, calls, k, a) then WaitOver(after, held, a) else after == held
  {
    StateAfterCall(origin, calls, k);
    hide StateAfter;
  }

  lemma CallKeepsWaitOver(origin: GateView, calls: seq<Call>, k: nat, held: GateState, a: ValidatedPromotion)
    requires k < |calls| && Waits(held, a) && WaitOver(StateAfter(origin, calls, k).state, held, a)
    ensures WaitOver(StateAfter(origin, calls, k + 1).state, held, a)
  {
    StateAfterCall(origin, calls, k);
    hide StateAfter;
  }

  lemma {:induction false} UndisturbedWaits(origin: GateView, calls: seq<Call>, i: nat, j: nat, a: ValidatedPromotion)
    requires i <= j <= |calls|
    requires Waits(StateAfter(origin, calls, i).state, a)
    requires forall k | i <= k < j :: !EndsWait(origin, calls, k, a)
    ensures StateAfter(origin, calls, j).state == StateAfter(origin, calls, i).state
    decreases j
  {
    if i < j {
      hide *;
      UndisturbedWaits(origin, calls, i, j - 1, a);
      CallEndsWait(origin, calls, j - 1, a);
    }
  }

  lemma {:induction false} WaitOverForever(origin: GateView, calls: seq<Call>, i: nat, j: nat, held: GateState,
                                           a: ValidatedPromotion)
    requires i <= j <= |calls|
    requires Waits(held, a) && WaitOver(StateAfter(origin, calls, i).state, held, a)
    ensures WaitOver(StateAfter(origin, calls, j).state, held, a)
    decreases j
  {
    if i < j {
      hide *;
      WaitOverForever(origin, calls, i, j - 1, held, a);
      CallKeepsWaitOver(origin, calls, j - 1, held, a);
    }
  }

  lemma FirstEnd(origin: GateView, calls: seq<Call>, i: nat, j: nat, a: ValidatedPromotion) returns (k: nat)
    requires j <= |calls|
    requires exists m :: i <= m < j && EndsWait(origin, calls, m, a)
    ensures i <= k < j && EndsWait(origin, calls, k, a)
    ensures forall m | i <= m < k :: !EndsWait(origin, calls, m, a)
  {
    hide *;
    var some :| i <= some < j && EndsWait(origin, calls, some, a);
    k := i;
    while !EndsWait(origin, calls, k, a)
      invariant i <= k <= some
      invariant forall m | i <= m < k :: !EndsWait(origin, calls, m, a)
      decreases some - k
    {
      k := k + 1;
    }
  }

  lemma WaitOverMoved(state: GateState, held: GateState, a: ValidatedPromotion)
    requires WaitOver(state, held, a)
    ensures state != held
  {
  }

  lemma EndedNeverWaitsAgain(origin: GateView, calls: seq<Call>, i: nat, k: nat, j: nat, a: ValidatedPromotion)
    requires i <= k < j <= |calls|
    requires Waits(StateAfter(origin, calls, i).state, a)
    requires EndsWait(origin, calls, k, a)
    requires forall m | i <= m < k :: !EndsWait(origin, calls, m, a)
    ensures StateAfter(origin, calls, j).state != StateAfter(origin, calls, i).state
  {
    hide *;
    var held := StateAfter(origin, calls, i).state;
    UndisturbedWaits(origin, calls, i, k, a);
    CallEndsWait(origin, calls, k, a);
    WaitOverForever(origin, calls, k + 1, j, held, a);
    WaitOverMoved(StateAfter(origin, calls, j).state, held, a);
  }

  /**
   A staged or prepared capability waits exactly until it is confirmed or
   activated, another one is staged, or the gate is revoked: failed
   confirmations, early activations and clock readings do not touch it.
   */
  lemma WaitsUntilMoved(origin: GateView, calls: seq<Call>, i: nat, j: nat, a: ValidatedPromotion)
    requires i <= j <= |calls|
    requires Waits(StateAfter(origin, calls, i).state, a)
    ensures StateAfter(origin, calls, j).state == StateAfter(origin, calls, i).state <==>
            forall k | i <= k < j :: !EndsWait(origin, calls, k, a)
  {
    hide *;
    if forall k | i <= k < j :: !EndsWait(origin, calls, k, a) {
      UndisturbedWaits(origin, calls, i, j, a);
    } else {
      var k := FirstEnd(origin, calls, i, j, a);
      EndedNeverWaitsAgain(origin, calls, i, k, j, a);
    }
  }
}
