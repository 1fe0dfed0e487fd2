/** What every history of calls on one gate life guarantees, whatever the clock readings are. */
module GateHistory {
  import opened Types
  import opened Promotion
  import opened PromotionProperties
  import opened GateTransitions

  // ------------------------------------------------- memory and spent epochs

  ghost function LastEpochAt(origin: GateView, calls: seq<Call>, k: nat): Epoch
    requires k <= |calls|
  {
    StateAfter(origin, calls, k).state.LastEpoch()
  }

  ghost predicate SameBinding(g: GateView, h: GateView) {
    (g.node, g.workload, g.policyHash, g.incarnation) == (h.node, h.workload, h.policyHash, h.incarnation)
  }

  lemma CallRemembers(g: GateView, call: Call)
    ensures g.state.LastEpoch() <= Respond(g, call).0.state.LastEpoch()
    ensures g.lastObservedMs <= Respond(g, call).0.lastObservedMs
    ensures SameBinding(g, Respond(g, call).0)
  {
  }

  /** Accepted epoch and observed time only grow, and the binding never changes. */
  lemma {:induction false} MemoryNeverDecreases(origin: GateView, calls: seq<Call>, i: nat, j: nat)
    requires i <= j <= |calls|
    ensures LastEpochAt(origin, calls, i) <= LastEpochAt(origin, calls, j)
    ensures StateAfter(origin, calls, i).lastObservedMs <= StateAfter(origin, calls, j).lastObservedMs
    ensures SameBinding(StateAfter(origin, calls, i), StateAfter(origin, calls, j))
    decreases j
  {
    if i < j {
      MemoryNeverDecreases(origin, calls, i, j - 1);
      CallRemembers(StateAfter(origin, calls, j - 1), calls[j - 1]);
      hide Respond;
    }
  }

  /** Epoch e was accepted and nothing still waiting to open carries it. */
  ghost predicate Consumed(g: GateView, e: Epoch) {
    match g.state
    case Closed(lastEpoch) => e <= lastEpoch
    case SelfFenced(lastEpoch, _) => e <= lastEpoch
    case Staged(authorization) => e < authorization.epoch
    case Prepared(authorization) => e < authorization.epoch
    case Open(_, epoch, _) => e <= epoch
  }

  ghost predicate OpenAt(g: GateView, e: Epoch) {
    g.state.Open? && g.state.epoch == e
  }

  lemma CallKeepsConsumed(g: GateView, call: Call, e: Epoch)
    requires Consumed(g, e)
    ensures Consumed(Respond(g, call).0, e)
    ensures !OpenAt(g, e) ==> !OpenAt(Respond(g, call).0, e)
  {
  }

  lemma {:induction false} ConsumedForever(origin: GateView, calls: seq<Call>, i: nat, j: nat, e: Epoch)
    requires i <= j <= |calls|
    requires Consumed(StateAfter(origin, calls, i), e)
    ensures Consumed(StateAfter(origin, calls, j), e)
    ensures !OpenAt(StateAfter(origin, calls, i), e) ==> !OpenAt(StateAfter(origin, calls, j), e)
    decreases j
  {
    if i < j {
      ConsumedForever(origin, calls, i, j - 1, e);
      CallKeepsConsumed(StateAfter(origin, calls, j - 1), calls[j - 1], e);
      hide Respond;
      hide Consumed;
    }
  }

  /** An activation consumes its epoch, and is newer than every epoch consumed before. */
  lemma ActivationIsFresh(g: GateView, call: Call)
    requires Respond(g, call).1.Activated?
    ensures Consumed(Respond(g, call).0, Respond(g, call).1.receipt.epoch)
    ensures forall e: Epoch | Consumed(g, e) :: e < Respond(g, call).1.receipt.epoch
  {
  }

  /** The receipt that a call would add to a history is newer than everything before it. */
  lemma NextReceiptIsNewer(origin: GateView, calls: seq<Call>, call: Call, i: nat)
    requires origin.state.Closed?
    requires Respond(StateAfter(origin, calls, |calls|), call).1.Activated?
    ensures origin.state.lastEpoch < Respond(StateAfter(origin, calls, |calls|), call).1.receipt.epoch
    ensures i < |calls| && ReplyTo(origin, calls, i).Activated? ==>
              ReplyTo(origin, calls, i).receipt.epoch
              < Respond(StateAfter(origin, calls, |calls|), call).1.receipt.epoch
  {
    assert Consumed(StateAfter(origin, calls, 0), origin.state.lastEpoch);
    hide Respond;
    hide Consumed;
    ActivationIsFresh(StateAfter(origin, calls, |calls|), call);
    ConsumedForever(origin, calls, 0, |calls|, origin.state.lastEpoch);
    if i < |calls| && ReplyTo(origin, calls, i).Activated? {
      ActivationIsFresh(StateAfter(origin, calls, i), calls[i]);
      ConsumedForever(origin, calls, i + 1, |calls|, ReplyTo(origin, calls, i).receipt.epoch);
    }
  }

  /** Receipts of one life carry strictly increasing epochs, all above the recovered one. */
  lemma ReceiptsStrictlyIncrease(origin: GateView, calls: seq<Call>, i: nat, j: nat)
    requires origin.state.Closed?
    requires i < j < |calls|
    requires ReplyTo(origin, calls, i).Activated? && ReplyTo(origin, calls, j).Activated?
    ensures origin.state.lastEpoch < ReplyTo(origin, calls, i).receipt.epoch < ReplyTo(origin, calls, j).receipt.epoch
  {
    assert Consumed(StateAfter(origin, calls, 0), origin.state.lastEpoch);
    hide Respond;
    hide Consumed;
    ConsumedForever(origin, calls, 0, i, origin.state.lastEpoch);
    ActivationIsFresh(StateAfter(origin, calls, i), calls[i]);
    ConsumedForever(origin, calls, i + 1, j, ReplyTo(origin, calls, i).receipt.epoch);
    ActivationIsFresh(StateAfter(origin, calls, j), calls[j]);
  }

  /** Once a gate has left Open at an epoch, no later check for that epoch succeeds in that life. */
  lemma ClosedEpochNeverReopens(origin: GateView, calls: seq<Call>, i: nat, j: nat, k: nat)
    requires i < j <= k < |calls|
    requires StateAfter(origin, calls, i).state.Open?
    requires !OpenAt(StateAfter(origin, calls, j), StateAfter(origin, calls, i).state.epoch)
    ensures calls[k].CheckCall? && calls[k].epoch == StateAfter(origin, calls, i).state.epoch ==>
              ReplyTo(origin, calls, k) != Accepted
  {
    var e := StateAfter(origin, calls, i).state.epoch;
    ConsumedForever(origin, calls, i, j, e);
    ConsumedForever(origin, calls, j, k, e);
  }

  /** The call closed the gate, reported a fault, met a clock rollback or noticed an expiry. */
  ghost predicate Revokes(call: Call, reply: Reply) {
    || call == CloseCall
    || call == FaultCall
    || reply in {Refused(ClockRollback), Refused(LeaseExpired), Ticked(true)}
  }

  /** After a revocation no epoch accepted so far is ever effective again in that life. */
  lemma RevocationIsFinal(origin: GateView, calls: seq<Call>, i: nat, k: nat)
    requires i < k < |calls|
    requires Revokes(calls[i], ReplyTo(origin, calls, i))
    ensures calls[k].CheckCall? && calls[k].epoch <= LastEpochAt(origin, calls, i) ==>
              ReplyTo(origin, calls, k) != Accepted
  {
    var g := StateAfter(origin, calls, i + 1);
    assert g.state.SelfFenced? && g.state.lastEpoch == LastEpochAt(origin, calls, i);
    if calls[k].CheckCall? && calls[k].epoch <= g.state.lastEpoch {
      ConsumedForever(origin, calls, i + 1, k, calls[k].epoch);
    }
  }

  ghost predicate RevokedBy(origin: GateView, calls: seq<Call>, k: nat)
    requires k < |calls|
  {
    Revokes(calls[k], ReplyTo(origin, calls, k))
  }

  lemma CallOnOpenGate(g: GateView, call: Call)
    requires g.state.Open?
    ensures
      var (after, reply) := Respond(g, call);
      if Revokes(call, reply) then after.state.SelfFenced? && after.state.lastEpoch == g.state.epoch
      else after.state == g.state && !reply.Recorded?
  {
  }

  lemma {:induction false} UnrevokedStaysOpen(origin: GateView, calls: seq<Call>, i: nat, j: nat)
    requires i <= j <= |calls|
    requires StateAfter(origin, calls, i).state.Open?
    requires forall k | i <= k < j :: !RevokedBy(origin, calls, k)
    ensures StateAfter(origin, calls, j).state == StateAfter(origin, calls, i).state
    decreases j
  {
    if i < j {
      UnrevokedStaysOpen(origin, calls, i, j - 1);
      CallOnOpenGate(StateAfter(origin, calls, j - 1), calls[j - 1]);
      assert !RevokedBy(origin, calls, j - 1);
      hide Respond;
    }
  }

  lemma RevocationFences(g: GateView, call: Call)
    requires Revokes(call, Respond(g, call).1)
    ensures Respond(g, call).0.state.SelfFenced? && Respond(g, call).0.state.lastEpoch == g.state.LastEpoch()
  {
  }

  lemma RevokedStaysClosed(origin: GateView, calls: seq<Call>, k: nat, j: nat, e: Epoch)
    requires k < j <= |calls|
    requires RevokedBy(origin, calls, k) && e <= LastEpochAt(origin, calls, k)
    ensures !OpenAt(StateAfter(origin, calls, j), e)
  {
    RevocationFences(StateAfter(origin, calls, k), calls[k]);
    hide Respond;
    hide Revokes;
    assert StateAfter(origin, calls, k + 1).state.SelfFenced?;
    ConsumedForever(origin, calls, k + 1, j, e);
  }

  /**
   An open gate keeps its authority exactly as long as nothing revokes it: no
   refusal other than a rollback or an expiry, and no other call, takes it away.
   */
  lemma OpenLastsUntilRevoked(origin: GateView, calls: seq<Call>, i: nat, j: nat)
    requires i <= j <= |calls|
    requires StateAfter(origin, calls, i).state.Open?
    ensures StateAfter(origin, calls, j).state == StateAfter(origin, calls, i).state <==>
            forall k | i <= k < j :: !RevokedBy(origin, calls, k)
  {
    hide Respond;
    hide Revokes;
    hide StateAfter;
    hide RevokedBy;
    if forall k | i <= k < j :: !RevokedBy(origin, calls, k) {
      UnrevokedStaysOpen(origin, calls, i, j);
    } else {
      var k :| i <= k < j && RevokedBy(origin, calls, k);
      MemoryNeverDecreases(origin, calls, i, k);
      RevokedStaysClosed(origin, calls, k, j, StateAfter(origin, calls, i).state.epoch);
    }
  }

  lemma {:induction false} OpenOrFencedUntilStaged(origin: GateView, calls: seq<Call>, i: nat, k: nat)
    requires i <= k <= |calls|
    requires StateAfter(origin, calls, i).state.Open?
    requires forall t | i <= t < k :: !ReplyTo(origin, calls, t).Recorded?
    ensures
      var was, state := StateAfter(origin, calls, i).state, StateAfter(origin, calls, k).state;
      state == was || (state.SelfFenced? && state.lastEpoch == was.epoch)
    decreases k
  {
    if i < k {
      OpenOrFencedUntilStaged(origin, calls, i, k - 1);
      assert !ReplyTo(origin, calls, k - 1).Recorded?;
    }
  }

  /**
   An open gate, even one whose lease has run out, takes no capability before
   it is revoked; the first one it stages afterwards is any newer one of its
   own. So an expired gate must notice its expiry before it can be staged again.
   */
  lemma StagesNextOnceRevoked(origin: GateView, calls: seq<Call>, i: nat, k: nat)
    requires i < k < |calls|
    requires StateAfter(origin, calls, i).state.Open?
    requires forall t | i <= t < k :: !ReplyTo(origin, calls, t).Recorded?
    requires calls[k].StageCall?
    ensures
      var g, a := StateAfter(origin, calls, k), calls[k].authorization;
      ReplyTo(origin, calls, k).Recorded? <==>
        && (exists t :: i <= t < k && RevokedBy(origin, calls, t))
        && StateAfter(origin, calls, i).state.epoch < a.epoch
        && (a.candidate, a.workload, a.policyHash, a.candidateIncarnation)
           == (g.node, g.workload, g.policyHash, g.incarnation)
        && g.lastObservedMs <= calls[k].nowMs
  {
    OpenOrFencedUntilStaged(origin, calls, i, k);
    OpenLastsUntilRevoked(origin, calls, i, k);
    hide StateAfter;
    hide RevokedBy;
  }

  // --------------------------------------------------- authority of an effect

  ghost predicate StateIs(origin: GateView, calls: seq<Call>, t: nat, state: GateState)
    requires t <= |calls|
  {
    StateAfter(origin, calls, t).state == state
  }

  /** The gate state is the same after every call from number `from` up to state k. */
  ghost predicate HeldSince(origin: GateView, calls: seq<Call>, from: nat, k: nat, state: GateState) {
    && from < k <= |calls|
    && forall t | from < t <= k :: StateIs(origin, calls, t, state)
  }

  lemma {:induction false} HoldOneMore(origin: GateView, calls: seq<Call>, from: nat, k: nat, state: GateState)
    requires from <= k < |calls|
    requires from == k || HeldSince(origin, calls, from, k, state)
    requires StateAfter(origin, calls, k + 1).state == state
    ensures HeldSince(origin, calls, from, k + 1, state)
  {
    assert StateIs(origin, calls, k + 1, state);
  }

  /** The capability staged by call i is bound to this gate and has stayed staged up to state k. */
  ghost predicate StagedSince(origin: GateView, calls: seq<Call>, i: nat, k: nat) {
    && i < |calls|
    && calls[i].StageCall?
    && ReplyTo(origin, calls, i).Recorded?
    && var a := calls[i].authorization;
    && (a.candidate, a.workload, a.policyHash, a.candidateIncarnation)
       == (origin.node, origin.workload, origin.policyHash, origin.incarnation)
    && HeldSince(origin, calls, i, k, Staged(a))
  }

  /** Call j confirmed the durable record of that capability, which has stayed prepared up to state k. */
  ghost predicate PreparedSince(origin: GateView, calls: seq<Call>, i: nat, j: nat, k: nat) {
    && StagedSince(origin, calls, i, j)
    && j < |calls|
    && calls[j] == ConfirmCall(RecordFor(StateAfter(origin, calls, j), calls[i].authorization))
    && ReplyTo(origin, calls, j) == Accepted
    && HeldSince(origin, calls, j, k, Prepared(calls[i].authorization))
  }

  ghost function OpenFor(a: ValidatedPromotion): GateState {
    Open(a.candidate, a.epoch, a.expiresAtMs)
  }

  /** Call m activated that capability inside its lease, and the gate has stayed open up to state k. */
  ghost predicate OpenedSince(origin: GateView, calls: seq<Call>, i: nat, j: nat, m: nat, k: nat) {
    && PreparedSince(origin, calls, i, j, m)
    && m < |calls|
    && calls[m].ActivateCall?
    && var a := calls[i].authorization;
    && ReplyTo(origin, calls, m) == Activated(ReceiptFor(a, calls[m].nowMs))
    && HeldSince(origin, calls, m, k, OpenFor(a))
    && a.notBeforeMs <= calls[m].nowMs <= StateAfter(origin, calls, k).lastObservedMs
  }

  /**
   Call k is an effect check backed by one capability: staged by call i,
   confirmed by call j, activated by call m, never closed since, and asked for
   by its own holder and epoch inside its lease without a clock rollback.
   */
  ghost predicate AuthorizedBy(origin: GateView, calls: seq<Call>, k: nat, i: nat, j: nat, m: nat) {
    && k < |calls|
    && OpenedSince(origin, calls, i, j, m, k)
    && calls[k].CheckCall?
    && var a := calls[i].authorization;
    && (calls[k].holder, calls[k].epoch) == (a.candidate, a.epoch)
    && StateAfter(origin, calls, k).lastObservedMs <= calls[k].nowMs < a.expiresAtMs
  }

  ghost predicate EffectAuthorized(origin: GateView, calls: seq<Call>, k: nat) {
    exists i: nat, j: nat, m: nat :: AuthorizedBy(origin, calls, k, i, j, m)
  }

  /** How one call can bring a gate into each of the states that lead to an effect. */
  lemma NewStateHasCause(g: GateView, call: Call)
    ensures
      var (after, reply) := Respond(g, call);
      after.state != g.state ==>
        && (after.state.Staged? ==>
              && call.StageCall? && reply.Recorded? && after.state == Staged(call.authorization)
              && (call.authorization.candidate, call.authorization.workload, call.authorization.policyHash,
                  call.authorization.candidateIncarnation) == (g.node, g.workload, g.policyHash, g.incarnation))
        && (after.state.Prepared? ==>
              && g.state == Staged(after.state.authorization)
              && call == ConfirmCall(RecordFor(g, after.state.authorization)) && reply == Accepted)
        && (after.state.Open? ==>
              && g.state.Prepared? && after.state == OpenFor(g.state.authorization)
              && call.ActivateCall? && reply == Activated(ReceiptFor(g.state.authorization, call.nowMs))
              && g.state.authorization.notBeforeMs <= call.nowMs == after.lastObservedMs)
  {
  }

  lemma {:induction false} StagedHasCause(origin: GateView, calls: seq<Call>, k: nat) returns (i: nat)
    requires origin.state.Closed?
    requires k <= |calls| && StateAfter(origin, calls, k).state.Staged?
    ensures StagedSince(origin, calls, i, k)
    decreases k
  {
    var before, state := StateAfter(origin, calls, k - 1), StateAfter(origin, calls, k).state;
    NewStateHasCause(before, calls[k - 1]);
    MemoryNeverDecreases(origin, calls, 0, k - 1);
    if before.state == state {
      i := StagedHasCause(origin, calls, k - 1);
      assert StateIs(origin, calls, k - 1, Staged(calls[i].authorization));
      HoldOneMore(origin, calls, i, k - 1, state);
    } else {
      i := k - 1;
      HoldOneMore(origin, calls, i, k - 1, state);
    }
  }

  lemma {:induction false} PreparedHasCause(origin: GateView, calls: seq<Call>, k: nat) returns (i: nat, j: nat)
    requires origin.state.Closed?
    requires k <= |calls| && StateAfter(origin, calls, k).state.Prepared?
    ensures PreparedSince(origin, calls, i, j, k)
    decreases k
  {
    var before, state := StateAfter(origin, calls, k - 1), StateAfter(origin, calls, k).state;
    NewStateHasCause(before, calls[k - 1]);
    if before.state == state {
      i, j := PreparedHasCause(origin, calls, k - 1);
      assert StateIs(origin, calls, k - 1, Prepared(calls[i].authorization));
      HoldOneMore(origin, calls, j, k - 1, state);
    } else {
      i := StagedHasCause(origin, calls, k - 1);
      j := k - 1;
      assert StateIs(origin, calls, k - 1, Staged(calls[i].authorization));
      HoldOneMore(origin, calls, j, k - 1, state);
    }
  }

  lemma {:induction false} OpenHasCause(origin: GateView, calls: seq<Call>, k: nat) returns (i: nat, j: nat, m: nat)
    requires origin.state.Closed?
    requires k <= |calls| && StateAfter(origin, calls, k).state.Open?
    ensures OpenedSince(origin, calls, i, j, m, k)
    decreases k
  {
    var before, state := StateAfter(origin, calls, k - 1), StateAfter(origin, calls, k).state;
    NewStateHasCause(before, calls[k - 1]);
    if before.state == state {
      i, j, m := OpenHasCause(origin, calls, k - 1);
      assert StateIs(origin, calls, k - 1, OpenFor(calls[i].authorization));
      HoldOneMore(origin, calls, m, k - 1, state);
      MemoryNeverDecreases(origin, calls, k - 1, k);
    } else {
      i, j := PreparedHasCause(origin, calls, k - 1);
      m := k - 1;
      assert StateIs(origin, calls, k - 1, Prepared(calls[i].authorization));
      HoldOneMore(origin, calls, m, k - 1, state);
    }
  }

  /** An effect is allowed if and only if a complete chain of authority stands behind it. */
  lemma EffectIffAuthorized(origin: GateView, calls: seq<Call>, k: nat)
    requires origin.state.Closed?
    requires k < |calls| && calls[k].CheckCall?
    ensures ReplyTo(origin, calls, k) == Accepted <==> EffectAuthorized(origin, calls, k)
  {
    if ReplyTo(origin, calls, k) == Accepted {
      var i, j, m := OpenHasCause(origin, calls, k);
      assert StateIs(origin, calls, k, OpenFor(calls[i].authorization));
      assert AuthorizedBy(origin, calls, k, i, j, m);
    }
    if EffectAuthorized(origin, calls, k) {
      var i: nat, j: nat, m: nat :| AuthorizedBy(origin, calls, k, i, j, m);
      assert StateIs(origin, calls, k, OpenFor(calls[i].authorization));
    }
  }

  /** The same, for the call that a history is about to record. */
  lemma NextEffectIffAuthorized(origin: GateView, calls: seq<Call>, call: Call)
    requires origin.state.Closed? && call.CheckCall?
    ensures Respond(StateAfter(origin, calls, |calls|), call).1 == Accepted <==>
            EffectAuthorized(origin, calls + [call], |calls|)
  {
    HistoryIsAppendOnly(origin, calls, [call], |calls|);
    EffectIffAuthorized(origin, calls + [call], |calls|);
  }

  /** The capability came out of the validator under this policy. */
  ghost predicate IssuedUnder(a: ValidatedPromotion, policy: SafetyPolicy) {
    exists proof, current, nowMs: U64 :: PromotionVerdict(proof, current, policy, nowMs) == Ok(a)
  }

  lemma IssuedWindow(a: ValidatedPromotion, policy: SafetyPolicy)
    requires IssuedUnder(a, policy)
    ensures (a.workload, a.policyHash) == (policy.workload, policy.policyHash)
    ensures a.candidate in policy.candidates
    ensures a.notBeforeMs < a.expiresAtMs <= a.notBeforeMs + policy.maxLeaseDurationMs
  {
    var proof, current, nowMs: U64 :| PromotionVerdict(proof, current, policy, nowMs) == Ok(a);
    VerdictIffAdmissible(proof, current, policy, nowMs);
  }

  /** Only the validator constructs capabilities, so every staged one was issued under some policy. */
  ghost predicate OnlyIssuedStaged(calls: seq<Call>) {
    forall k | 0 <= k < |calls| && calls[k].StageCall? :: exists policy :: IssuedUnder(calls[k].authorization, policy)
  }

  /**
   End to end: an allowed effect happens on the capability's own node inside a
   validated window that is no longer than the maximum of the policy the gate
   is pinned to.
   */
  lemma EffectInsideValidatedWindow(origin: GateView, calls: seq<Call>, k: nat)
    requires origin.state.Closed?
    requires OnlyIssuedStaged(calls)
    requires k < |calls| && calls[k].CheckCall? && ReplyTo(origin, calls, k) == Accepted
    ensures exists policy, a ::
              && IssuedUnder(a, policy)
              && (policy.workload, policy.policyHash) == (origin.workload, origin.policyHash)
              && a.candidate == origin.node == calls[k].holder && origin.node in policy.candidates
              && a.candidateIncarnation == origin.incarnation
              && a.epoch == calls[k].epoch
              && origin.state.lastEpoch < a.epoch
              && a.notBeforeMs <= calls[k].nowMs < a.expiresAtMs <= a.notBeforeMs + policy.maxLeaseDurationMs
  {
    EffectIffAuthorized(origin, calls, k);
    var i: nat, j: nat, m: nat :| AuthorizedBy(origin, calls, k, i, j, m);
    var a := calls[i].authorization;
    var policy :| IssuedUnder(a, policy);
    IssuedWindow(a, policy);
    assert StateIs(origin, calls, m, Prepared(a));
    hide Respond;
    hide IssuedUnder;
    ConsumedForever(origin, calls, 0, m, origin.state.lastEpoch);
  }

  /** The receipt carries the fields of this proof and the time of its activation. */
  ghost predicate Attests(receipt: ContinuityReceipt, proof: PromotionProof, activatedAtMs: U64) {
    && (receipt.workload, receipt.holder, receipt.incarnation, receipt.epoch, receipt.policyHash)
       == (proof.workload, proof.candidate, proof.candidateIncarnation, proof.epoch, proof.policyHash)
    && (receipt.durableCommit, receipt.stateRoot) == (proof.state.durableCommit, proof.quorum.stateRoot)
    && proof.quorum.requiredCommit <= receipt.durableCommit
    && receipt.expiresAtMs == proof.quorum.leaseExpiresAtMs
    && receipt.fenceClass == ClassOf(proof.fence.mechanism)
    && proof.quorum.leaseNotBeforeMs <= activatedAtMs == receipt.activatedAtMs < receipt.expiresAtMs
  }

  /** Every receipt reports a proof that the validator accepted, field by field as the voters bound it. */
  lemma ReceiptAttestsProof(origin: GateView, calls: seq<Call>, m: nat)
    requires origin.state.Closed?
    requires OnlyIssuedStaged(calls)
    requires m < |calls| && ReplyTo(origin, calls, m).Activated?
    ensures calls[m].ActivateCall?
    ensures exists proof, current, policy, nowMs: U64 ::
              && PromotionVerdict(proof, current, policy, nowMs).Ok?
              && Attests(ReplyTo(origin, calls, m).receipt, proof, calls[m].nowMs)
  {
    var i, j := PreparedHasCause(origin, calls, m);
    assert StateIs(origin, calls, m, Prepared(calls[i].authorization));
    var a := calls[i].authorization;
    var policy :| IssuedUnder(a, policy);
    var proof, current, nowMs: U64 :| PromotionVerdict(proof, current, policy, nowMs) == Ok(a);
    VerdictIffAdmissible(proof, current, policy, nowMs);
    hide PromotionVerdict;
    assert Attests(ReplyTo(origin, calls, m).receipt, proof, calls[m].nowMs);
  }

  // ----------------------------------------- one capability per staged epoch

  /** Whatever is staged or prepared at the epoch of a is a itself. */
  ghost predicate PinnedTo(g: GateView, a: ValidatedPromotion) {
    && a.epoch <= g.state.LastEpoch()
    && ((g.state.Staged? || g.state.Prepared?) && g.state.authorization.epoch == a.epoch ==> g.state.authorization == a)
  }

  lemma CallKeepsPinned(g: GateView, call: Call, a: ValidatedPromotion)
    requires PinnedTo(g, a)
    ensures PinnedTo(Respond(g, call).0, a)
  {
  }

  lemma {:induction false} PinnedForever(origin: GateView, calls: seq<Call>, i: nat, j: nat, a: ValidatedPromotion)
    requires i <= j <= |calls|
    requires PinnedTo(StateAfter(origin, calls, i), a)
    ensures PinnedTo(StateAfter(origin, calls, j), a)
    decreases j
  {
    if i < j {
      PinnedForever(origin, calls, i, j - 1, a);
      CallKeepsPinned(StateAfter(origin, calls, j - 1), calls[j - 1], a);
      hide Respond;
      hide PinnedTo;
    }
  }

  /** Two successful stages of one epoch in one life carried the same capability. */
  lemma StagedEpochIdentifiesCapability(origin: GateView, calls: seq<Call>, i: nat, j: nat)
    requires i < j < |calls|
    requires calls[i].StageCall? && ReplyTo(origin, calls, i).Recorded?
    requires calls[j].StageCall? && ReplyTo(origin, calls, j).Recorded?
    requires calls[i].authorization.epoch == calls[j].authorization.epoch
    ensures calls[i].authorization == calls[j].authorization
  {
    PinnedForever(origin, calls, i + 1, j, calls[i].authorization);
  }

  /** On one gate: which records confirm it, and that a fresh restage always does. */
  lemma ConfirmAnswersRecord(g: GateView, a: ValidatedPromotion, record: GatePersistenceRecord, nowMs: U64)
    requires PinnedTo(g, a)
    requires (a.candidate, a.workload, a.policyHash, a.candidateIncarnation)
             == (g.node, g.workload, g.policyHash, g.incarnation)
    requires record == RecordFor(g, a).(lastObservedMs := record.lastObservedMs)
    ensures Respond(g, ConfirmCall(record)).1 == Accepted <==>
            g.state == Staged(a) && g.lastObservedMs == record.lastObservedMs
    ensures g.state == Staged(a) && g.lastObservedMs <= nowMs ==>
              var (restaged, reply) := Respond(g, StageCall(nowMs, a));
              && reply.Recorded?
              && Respond(restaged, ConfirmCall(reply.record)) == (restaged.(state := Prepared(a)), Accepted)
  {
  }

  /**
   A record issued by call i confirms the gate at state k exactly when its
   capability is still staged and no later reading moved the observed time;
   restaging the capability always yields a record that confirms.
   */
  lemma RecordConfirmsUntilTimeMoves(origin: GateView, calls: seq<Call>, i: nat, k: nat, nowMs: U64)
    requires i < k <= |calls|
    requires calls[i].StageCall? && ReplyTo(origin, calls, i).Recorded?
    ensures
      var a := calls[i].authorization;
      var g := StateAfter(origin, calls, k);
      var issued := ReplyTo(origin, calls, i).record;
      && (Respond(g, ConfirmCall(issued)).1 == Accepted <==>
            g.state == Staged(a) && g.lastObservedMs == StateAfter(origin, calls, i + 1).lastObservedMs)
      && (g.state == Staged(a) && g.lastObservedMs <= nowMs ==>
            var (restaged, reply) := Respond(g, StageCall(nowMs, a));
            && reply.Recorded?
            && Respond(restaged, ConfirmCall(reply.record)) == (restaged.(state := Prepared(a)), Accepted))
  {
    var a := calls[i].authorization;
    var g := StateAfter(origin, calls, i + 1);
    assert PinnedTo(g, a) && ReplyTo(origin, calls, i).record == RecordFor(g, a);
    assert (a.candidate, a.workload, a.policyHash, a.candidateIncarnation)
           == (g.node, g.workload, g.policyHash, g.incarnation);
    hide StateAfter;
    hide PinnedTo;
    PinnedForever(origin, calls, i + 1, k, a);
    MemoryNeverDecreases(origin, calls, i + 1, k);
    ConfirmAnswersRecord(StateAfter(origin, calls, k), a, RecordFor(g, a), nowMs);
  }
}
