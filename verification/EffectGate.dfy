/** The effect gate as an object whose methods update its fields in place. */
module Gate {
  import opened Types
  import opened Promotion
  import opened GateTransitions
  import opened GateHistory

  /**
   The gate as an object that updates its fields in place. The clock is not a
   field: each method that reads it takes the reading as an argument. The ghost
   history ties every reachable object state to the transitions above.
   */
  class EffectGate {
    const node: NodeId
    const workload: WorkloadId
    const policyHash: PolicyHash
    const incarnation: Incarnation
    var lastObservedMs: U64
    var state: GateState
    ghost const origin: GateView
    ghost var history: seq<Call>

    ghost function View(): GateView
      reads this
    {
      GateView(node, workload, policyHash, incarnation, lastObservedMs, state)
    }

    /** The fields are what the recorded calls make of the recovered gate. */
    ghost predicate Valid()
      reads this
    {
      && origin.state.Closed?
      && View() == StateAfter(origin, history, |history|)
    }

    constructor Recover(node: NodeId, workload: WorkloadId, policyHash: PolicyHash, recovery: GateRecoveryState)
      ensures Valid() && history == []
      ensures View() == origin == Recovered(node, workload, policyHash, recovery)
    {
      this.node := node;
      this.workload := workload;
      this.policyHash := policyHash;
      incarnation := recovery.incarnation;
      lastObservedMs := recovery.lastObservedMs;
      state := Closed(recovery.acceptedEpoch);
      origin := Recovered(node, workload, policyHash, recovery);
      history := [];
    }

    ghost method Record(call: Call)
      requires origin.state.Closed?
      requires View() == Respond(StateAfter(origin, history, |history|), call).0
      modifies this`history
      ensures Valid() && history == old(history) + [call]
    {
      HistoryIsAppendOnly(origin, history, [call], |history|);
      history := history + [call];
    }

    method ObserveTime(nowMs: U64) returns (r: Result<U64, GateError>)
      modifies this`lastObservedMs, this`state
      ensures View() == Observed(old(View()), nowMs)
      ensures r == if nowMs < old(lastObservedMs) then Err(ClockRollback) else Ok(nowMs)
    {
      if nowMs < lastObservedMs {
        state := SelfFenced(state.LastEpoch(), SafetyFault);
        return Err(ClockRollback);
      }
      lastObservedMs := nowMs;
      return Ok(nowMs);
    }

    method PersistenceRecord(authorization: ValidatedPromotion) returns (record: GatePersistenceRecord)
      ensures record == RecordFor(View(), authorization)
    {
      record := GatePersistenceRecord(node, workload, policyHash, authorization.epoch, incarnation, lastObservedMs);
    }

    method Stage(nowMs: U64, authorization: ValidatedPromotion) returns (r: Result<GatePersistenceRecord, GateError>)
      requires Valid()
      modifies this
      ensures Valid() && history == old(history) + [StageCall(nowMs, authorization)]
      ensures (View(), r) == StageTransition(old(View()), nowMs, authorization)
    {
      var observed := ObserveTime(nowMs);
      if observed.Err? {
        r := Err(observed.error);
      } else if authorization.workload != workload || authorization.policyHash != policyHash {
        r := Err(GateBindingMismatch);
      } else if authorization.candidate != node {
        r := Err(WrongCandidate);
      } else if authorization.candidateIncarnation != incarnation {
        r := Err(IncarnationMismatch);
      } else if (state.Staged? || state.Prepared?) && state.authorization == authorization {
        var record := PersistenceRecord(state.authorization);
        r := Ok(record);
      } else if state.Open? {
        r := Err(AlreadyOpen);
      } else if authorization.epoch <= state.LastEpoch() {
        r := Err(StaleAuthorization);
      } else {
        var record := PersistenceRecord(authorization);
        state := Staged(authorization);
        r := Ok(record);
      }
      Record(StageCall(nowMs, authorization));
    }

    /** The state is taken out, inspected and put back or replaced, as the source does it. */
    method ConfirmPersisted(record: GatePersistenceRecord) returns (r: Result<(), GateError>)
      requires Valid()
      modifies this
      ensures Valid() && history == old(history) + [ConfirmCall(record)]
      ensures (View(), r) == ConfirmTransition(old(View()), record)
    {
      var lastEpoch := state.LastEpoch();
      var taken := state;
      state := Closed(lastEpoch);
      if taken.Staged? {
        var expected := PersistenceRecord(taken.authorization);
        if expected != record {
          state := Staged(taken.authorization);
          r := Err(PersistenceMismatch);
        } else {
          state := Prepared(taken.authorization);
          r := Ok(());
        }
      } else {
        state := taken;
        r := Err(NotStaged);
      }
      Record(ConfirmCall(record));
    }

    method Activate(nowMs: U64) returns (r: Result<ContinuityReceipt, GateError>)
      requires Valid()
      modifies this
      ensures Valid() && history == old(history) + [ActivateCall(nowMs)]
      ensures (View(), r) == ActivateTransition(old(View()), nowMs)
      ensures r.Ok? ==> origin.state.lastEpoch < r.value.epoch
      ensures r.Ok? ==> forall i | 0 <= i < |old(history)| && ReplyTo(origin, old(history), i).Activated? ::
                          ReplyTo(origin, old(history), i).receipt.epoch < r.value.epoch
    {
      var observed := ObserveTime(nowMs);
      if observed.Err? {
        r := Err(observed.error);
      } else if !state.Prepared? {
        r := Err(NotPrepared);
      } else if nowMs < state.authorization.notBeforeMs {
        r := Err(LeaseNotStarted);
      } else if nowMs >= state.authorization.expiresAtMs {
        state := SelfFenced(state.authorization.epoch, LeaseExpiry);
        r := Err(LeaseExpired);
      } else {
        var receipt := ReceiptFor(state.authorization, nowMs);
        state := Open(receipt.holder, receipt.epoch, receipt.expiresAtMs);
        r := Ok(receipt);
      }
      Record(ActivateCall(nowMs));
      if r.Ok? {
        NextReceiptIsNewer(origin, old(history), ActivateCall(nowMs), 0);
        forall i: nat | i < |old(history)| && ReplyTo(origin, old(history), i).Activated?
          ensures ReplyTo(origin, old(history), i).receipt.epoch < r.value.epoch
        {
          NextReceiptIsNewer(origin, old(history), ActivateCall(nowMs), i);
        }
      }
    }

    method CheckEffect(nowMs: U64, holder: NodeId, epoch: Epoch) returns (r: Result<(), GateError>)
      requires Valid()
      modifies this
      ensures Valid() && history == old(history) + [CheckCall(nowMs, holder, epoch)]
      ensures (View(), r) == CheckTransition(old(View()), nowMs, holder, epoch)
      ensures r.Ok? <==> EffectAuthorized(origin, history, |old(history)|)
    {
      var observed := ObserveTime(nowMs);
      if observed.Err? {
        r := Err(observed.error);
      } else if !state.Open? {
        r := Err(GateClosed);
      } else if nowMs >= state.expiresAtMs {
        state := SelfFenced(state.epoch, LeaseExpiry);
        r := Err(LeaseExpired);
      } else if state.holder != holder {
        r := Err(WrongCandidate);
      } else if state.epoch != epoch {
        r := Err(StaleAuthorization);
      } else {
        r := Ok(());
      }
      Record(CheckCall(nowMs, holder, epoch));
      NextEffectIffAuthorized(origin, old(history), CheckCall(nowMs, holder, epoch));
    }

    method Tick(nowMs: U64) returns (r: Result<bool, GateError>)
      requires Valid()
      modifies this
      ensures Valid() && history == old(history) + [TickCall(nowMs)]
      ensures (View(), r) == TickTransition(old(View()), nowMs)
    {
      var observed := ObserveTime(nowMs);
      if observed.Err? {
        r := Err(observed.error);
      } else if state.Open? && nowMs >= state.expiresAtMs {
        state := SelfFenced(state.epoch, LeaseExpiry);
        r := Ok(true);
      } else {
        r := Ok(false);
      }
      Record(TickCall(nowMs));
    }

    method Close()
      requires Valid()
      modifies this
      ensures Valid() && history == old(history) + [CloseCall]
      ensures View() == Fence(old(View()), ExplicitClose)
    {
      state := SelfFenced(state.LastEpoch(), ExplicitClose);
      Record(CloseCall);
    }

    method ReportFault()
      requires Valid()
      modifies this
      ensures Valid() && history == old(history) + [FaultCall]
      ensures View() == Fence(old(View()), SafetyFault)
    {
      state := SelfFenced(state.LastEpoch(), SafetyFault);
      Record(FaultCall);
    }
  }
}
