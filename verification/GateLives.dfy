/**
 A gate across process lives: the durable anti-replay state, the records that
 wait to be committed, and the assumptions the core makes about its adapter.
 */
module GateLives {
  import opened Types
  import opened Promotion
  import opened PromotionProperties
  import opened GateTransitions
  import opened GateHistory

  /** One node: the running gate, its durable state, and the records issued but not yet durable, oldest first. */
  datatype Host = Host(
    gate: GateView,
    disk: GateRecoveryState,
    pending: seq<GatePersistenceRecord>,
    committed: set<GatePersistenceRecord>)

  datatype Event =
    | Boot(incarnation: Incarnation)
    | Persist
    | Invoke(call: Call)

  /**
   What the adapter and the boot sequence promise: a life gets an incarnation
   above every earlier one, and only durable records are confirmed.
   */
  ghost predicate Allowed(h: Host, event: Event) {
    match event
    case Boot(incarnation) => h.disk.incarnation < incarnation
    case Persist => h.pending != []
    case Invoke(call) => call.ConfirmCall? ==> call.record in h.committed
  }

  function Booted(h: Host, incarnation: Incarnation): Host {
    var disk := h.disk.(incarnation := incarnation);
    Host(Recovered(h.gate.node, h.gate.workload, h.gate.policyHash, disk), disk, [], h.committed)
  }

  function Persisted(h: Host): Host
    requires h.pending != []
  {
    var record := h.pending[0];
    Host(h.gate, GateRecoveryState(record.acceptedEpoch, record.incarnation, record.lastObservedMs),
         h.pending[1..], h.committed + {record})
  }

  function Invoked(h: Host, call: Call): Host {
    var (gate, reply) := Respond(h.gate, call);
    h.(gate := gate, pending := if reply.Recorded? then h.pending + [reply.record] else h.pending)
  }

  function Next(h: Host, event: Event): Host {
    match event
    case Boot(incarnation) => Booted(h, incarnation)
    case Persist => if h.pending == [] then h else Persisted(h)
    case Invoke(call) => Invoked(h, call)
  }

  function HostAfter(start: Host, events: seq<Event>, k: nat): Host
    requires k <= |events|
  {
    if k == 0 then start else Next(HostAfter(start, events, k - 1), events[k - 1])
  }

  ghost predicate LegalAt(start: Host, events: seq<Event>, k: nat)
    requires k < |events|
  {
    Allowed(HostAfter(start, events, k), events[k])
  }

  ghost predicate Legal(start: Host, events: seq<Event>) {
    forall k | 0 <= k < |events| :: LegalAt(start, events, k)
  }

  /** A node that has just recovered its first life. */
  ghost predicate Fresh(h: Host) {
    && h.gate == Recovered(h.gate.node, h.gate.workload, h.gate.policyHash, h.disk)
    && h.pending == []
    && h.committed == {}
  }

  /** The receipt that event k emitted, if it emitted one. */
  ghost function ReceiptAt(start: Host, events: seq<Event>, k: nat): Option<ContinuityReceipt>
    requires k < |events|
  {
    if events[k].Invoke? then
      var reply := Respond(HostAfter(start, events, k).gate, events[k].call).1;
      if reply.Activated? then Some(reply.receipt) else None
    else None
  }

  // ------------------------------------------------------ durability invariant

  ghost predicate PendingInOrder(h: Host) {
    && (forall i | 0 <= i < |h.pending| ::
          && h.disk.acceptedEpoch <= h.pending[i].acceptedEpoch <= h.gate.state.LastEpoch()
          && h.disk.lastObservedMs <= h.pending[i].lastObservedMs <= h.gate.lastObservedMs
          && h.pending[i].incarnation == h.gate.incarnation)
    && forall i, j | 0 <= i < j < |h.pending| ::
         && h.pending[i].acceptedEpoch <= h.pending[j].acceptedEpoch
         && h.pending[i].lastObservedMs <= h.pending[j].lastObservedMs
  }

  /** The durable state is at least as new as the record. */
  ghost predicate Covers(disk: GateRecoveryState, record: GatePersistenceRecord) {
    && record.acceptedEpoch <= disk.acceptedEpoch
    && record.incarnation <= disk.incarnation
    && record.lastObservedMs <= disk.lastObservedMs
  }

  ghost predicate Durable(h: Host) {
    && h.gate.incarnation == h.disk.incarnation
    && h.disk.acceptedEpoch <= h.gate.state.LastEpoch()
    && h.disk.lastObservedMs <= h.gate.lastObservedMs
    && PendingInOrder(h)
    && (forall record | record in h.committed :: Covers(h.disk, record))
    && (h.gate.state.Prepared? || h.gate.state.Open? ==> h.gate.state.LastEpoch() <= h.disk.acceptedEpoch)
  }

  lemma RecordIsCurrent(g: GateView, call: Call)
    requires Respond(g, call).1.Recorded?
    ensures
      var (after, reply) := Respond(g, call);
      && reply.record.acceptedEpoch == after.state.LastEpoch()
      && reply.record.lastObservedMs == after.lastObservedMs
      && reply.record.incarnation == after.incarnation
  {
  }

  lemma CallKeepsPendingInOrder(h: Host, call: Call)
    requires Durable(h)
    ensures PendingInOrder(Invoked(h, call))
  {
    hide Respond;
    hide GateState.LastEpoch;
    CallRemembers(h.gate, call);
    if Respond(h.gate, call).1.Recorded? {
      RecordIsCurrent(h.gate, call);
    }
  }

  lemma CallKeepsDurable(h: Host, call: Call)
    requires Durable(h) && Allowed(h, Invoke(call))
    ensures Durable(Invoked(h, call))
  {
    CallKeepsPendingInOrder(h, call);
    hide PendingInOrder;
  }

  lemma EventKeepsDurable(h: Host, event: Event)
    requires Durable(h) && Allowed(h, event)
    ensures Durable(Next(h, event))
    ensures h.disk.acceptedEpoch <= Next(h, event).disk.acceptedEpoch
    ensures h.disk.incarnation <= Next(h, event).disk.incarnation
    ensures h.disk.lastObservedMs <= Next(h, event).disk.lastObservedMs
  {
    if event.Invoke? {
      CallKeepsDurable(h, event.call);
    }
  }

  lemma {:induction false} AlwaysDurable(start: Host, events: seq<Event>, k: nat)
    requires Fresh(start) && Legal(start, events) && k <= |events|
    ensures Durable(HostAfter(start, events, k))
  {
    if k > 0 {
      AlwaysDurable(start, events, k - 1);
      assert LegalAt(start, events, k - 1);
      EventKeepsDurable(HostAfter(start, events, k - 1), events[k - 1]);
    }
  }

  /** Epoch and time on disk are those of the start or of some record that was committed. */
  ghost predicate DiskAttained(start: Host, h: Host) {
    && (h.disk.acceptedEpoch == start.disk.acceptedEpoch
        || exists record :: record in h.committed && record.acceptedEpoch == h.disk.acceptedEpoch)
    && (h.disk.lastObservedMs == start.disk.lastObservedMs
        || exists record :: record in h.committed && record.lastObservedMs == h.disk.lastObservedMs)
  }

  lemma EventKeepsAttained(start: Host, h: Host, event: Event)
    requires DiskAttained(start, h)
    ensures DiskAttained(start, Next(h, event))
  {
    if event.Persist? && h.pending != [] {
      assert h.pending[0] in Next(h, event).committed;
    }
    assert forall record | record in h.committed :: record in Next(h, event).committed;
  }

  /**
   What is on disk is exactly the newest of what has been committed: no
   committed record is newer, and epoch and time each come from the start or
   from some committed record.
   */
  lemma {:induction false} DiskIsDurableMaximum(start: Host, events: seq<Event>, k: nat)
    requires Fresh(start) && Legal(start, events) && k <= |events|
    ensures forall record | record in HostAfter(start, events, k).committed ::
              Covers(HostAfter(start, events, k).disk, record)
    ensures DiskAttained(start, HostAfter(start, events, k))
  {
    AlwaysDurable(start, events, k);
    if k > 0 {
      DiskIsDurableMaximum(start, events, k - 1);
      EventKeepsAttained(start, HostAfter(start, events, k - 1), events[k - 1]);
      hide Next;
    }
  }

  ghost predicate Kept(h: Host, record: GatePersistenceRecord) {
    record in h.pending || record in h.committed
  }

  lemma EventKeepsRecord(h: Host, event: Event, record: GatePersistenceRecord)
    requires Kept(h, record) && !event.Boot?
    ensures Kept(Next(h, event), record)
  {
    if event.Persist? && h.pending != [] {
      assert h.pending == [h.pending[0]] + h.pending[1..];
    }
  }

  /** A record issued in a life is waiting or durable at every later point of that life, whatever else happens. */
  lemma {:induction false} IssuedRecordNotLost(start: Host, events: seq<Event>, i: nat, j: nat)
    requires i < j <= |events|
    requires events[i].Invoke? && Respond(HostAfter(start, events, i).gate, events[i].call).1.Recorded?
    requires forall k | i < k < j :: !events[k].Boot?
    ensures Kept(HostAfter(start, events, j), Respond(HostAfter(start, events, i).gate, events[i].call).1.record)
    decreases j
  {
    if i + 1 < j {
      IssuedRecordNotLost(start, events, i, j - 1);
      EventKeepsRecord(HostAfter(start, events, j - 1), events[j - 1],
                       Respond(HostAfter(start, events, i).gate, events[i].call).1.record);
      hide Next;
      hide Respond;
    }
  }

  /** Persisting n times makes the n oldest waiting records durable and leaves the others and the gate alone. */
  lemma {:induction false} PersistsDrainPending(start: Host, events: seq<Event>, i: nat, n: nat)
    requires i + n <= |events| && n <= |HostAfter(start, events, i).pending|
    requires forall k | i <= k < i + n :: events[k].Persist?
    ensures HostAfter(start, events, i + n).pending == HostAfter(start, events, i).pending[n..]
    ensures forall record | record in HostAfter(start, events, i).pending[..n] ::
              record in HostAfter(start, events, i + n).committed
    ensures HostAfter(start, events, i + n).gate == HostAfter(start, events, i).gate
    decreases n
  {
    if n > 0 {
      hide Respond;
      var waiting := HostAfter(start, events, i).pending;
      PersistsDrainPending(start, events, i, n - 1);
      var before := HostAfter(start, events, i + n - 1);
      assert HostAfter(start, events, i + n) == Next(before, Persist);
      hide HostAfter;
      assert before.pending[0] == waiting[n - 1] && before.pending[1..] == waiting[n..];
      assert waiting[..n] == waiting[..n - 1] + [waiting[n - 1]];
    }
  }

  /** Epoch e is on disk and the running gate will not open it again. */
  ghost predicate Retired(h: Host, e: Epoch) {
    e <= h.disk.acceptedEpoch && Consumed(h.gate, e)
  }

  lemma EventKeepsRetired(h: Host, event: Event, e: Epoch)
    requires Durable(h) && Allowed(h, event) && Retired(h, e)
    ensures Retired(Next(h, event), e)
  {
    EventKeepsDurable(h, event);
  }

  lemma {:induction false} RetiredForever(start: Host, events: seq<Event>, i: nat, j: nat, e: Epoch)
    requires Fresh(start) && Legal(start, events)
    requires i <= j <= |events|
    requires Retired(HostAfter(start, events, i), e)
    ensures Retired(HostAfter(start, events, j), e)
    decreases j
  {
    if i < j {
      RetiredForever(start, events, i, j - 1, e);
      AlwaysDurable(start, events, j - 1);
      assert LegalAt(start, events, j - 1);
      EventKeepsRetired(HostAfter(start, events, j - 1), events[j - 1], e);
    }
  }

  lemma ReceiptRetires(h: Host, call: Call, e: Epoch)
    requires Durable(h) && call.ActivateCall?
    requires Respond(h.gate, call).1.Activated?
    ensures Retired(Invoked(h, call), Respond(h.gate, call).1.receipt.epoch)
    ensures Retired(h, e) ==> e < Respond(h.gate, call).1.receipt.epoch
  {
  }

  /** Over any number of process lives the epochs of all receipts strictly increase. */
  lemma ReceiptsIncreaseAcrossLives(start: Host, events: seq<Event>, i: nat, j: nat)
    requires Fresh(start) && Legal(start, events)
    requires i < j < |events|
    requires ReceiptAt(start, events, i).Some? && ReceiptAt(start, events, j).Some?
    ensures start.disk.acceptedEpoch < ReceiptAt(start, events, i).value.epoch < ReceiptAt(start, events, j).value.epoch
  {
    var first := ReceiptAt(start, events, i).value.epoch;
    AlwaysDurable(start, events, i);
    AlwaysDurable(start, events, j);
    RetiredForever(start, events, 0, i, start.disk.acceptedEpoch);
    ReceiptRetires(HostAfter(start, events, i), events[i].call, start.disk.acceptedEpoch);
    RetiredForever(start, events, i + 1, j, first);
    ReceiptRetires(HostAfter(start, events, j), events[j].call, first);
  }

  // ---------------------------------------------------- effects across lives

  /** The epoch for which event k allowed an effect, if it allowed one. */
  ghost function EffectAt(start: Host, events: seq<Event>, k: nat): Option<Epoch>
    requires k < |events|
  {
    if
      && events[k].Invoke? && events[k].call.CheckCall?
      && Respond(HostAfter(start, events, k).gate, events[k].call).1 == Accepted
    then Some(events[k].call.epoch)
    else None
  }

  /** Epoch e is retired, and the running gate is not open at it either. */
  ghost predicate Spent(h: Host, e: Epoch) {
    Retired(h, e) && !OpenAt(h.gate, e)
  }

  lemma EventKeepsSpent(h: Host, event: Event, e: Epoch)
    requires Durable(h) && Allowed(h, event) && Spent(h, e)
    ensures Spent(Next(h, event), e)
  {
    EventKeepsRetired(h, event, e);
    if event.Invoke? {
      CallKeepsConsumed(h.gate, event.call, e);
    }
  }

  lemma {:induction false} SpentForever(start: Host, events: seq<Event>, i: nat, j: nat, e: Epoch)
    requires Fresh(start) && Legal(start, events)
    requires i <= j <= |events|
    requires Spent(HostAfter(start, events, i), e)
    ensures Spent(HostAfter(start, events, j), e)
    decreases j
  {
    if i < j {
      SpentForever(start, events, i, j - 1, e);
      AlwaysDurable(start, events, j - 1);
      assert LegalAt(start, events, j - 1);
      EventKeepsSpent(HostAfter(start, events, j - 1), events[j - 1], e);
    }
  }

  lemma EffectRetires(h: Host, call: Call, e: Epoch)
    requires Durable(h) && call.CheckCall? && Respond(h.gate, call).1 == Accepted
    ensures Retired(h, call.epoch)
    ensures Retired(h, e) ==> e <= call.epoch
    ensures Spent(h, e) ==> e < call.epoch
  {
  }

  /**
   Over any number of process lives the epochs of allowed effects never
   decrease, and effects of different lives never share an epoch.
   */
  lemma EffectsIncreaseAcrossLives(start: Host, events: seq<Event>, i: nat, j: nat)
    requires Fresh(start) && Legal(start, events)
    requires i < j < |events|
    requires EffectAt(start, events, i).Some? && EffectAt(start, events, j).Some?
    ensures start.disk.acceptedEpoch < EffectAt(start, events, i).value <= EffectAt(start, events, j).value
    ensures (exists b | i < b < j :: events[b].Boot?) ==>
              EffectAt(start, events, i).value < EffectAt(start, events, j).value
  {
    var e := EffectAt(start, events, i).value;
    AlwaysDurable(start, events, i);
    AlwaysDurable(start, events, j);
    SpentForever(start, events, 0, i, start.disk.acceptedEpoch);
    EffectRetires(HostAfter(start, events, i), events[i].call, start.disk.acceptedEpoch);
    RetiredForever(start, events, i, j, e);
    EffectRetires(HostAfter(start, events, j), events[j].call, e);
    if b :| i < b < j && events[b].Boot? {
      RetiredForever(start, events, i, b + 1, e);
      assert Spent(HostAfter(start, events, b + 1), e);
      SpentForever(start, events, b + 1, j, e);
    }
  }

  lemma {:induction false} IncarnationsOnlyGrow(start: Host, events: seq<Event>, i: nat, j: nat)
    requires Fresh(start) && Legal(start, events)
    requires i <= j <= |events|
    ensures HostAfter(start, events, i).gate.incarnation <= HostAfter(start, events, j).gate.incarnation
    decreases j
  {
    if i < j {
      IncarnationsOnlyGrow(start, events, i, j - 1);
      AlwaysDurable(start, events, j - 1);
      assert LegalAt(start, events, j - 1);
      EventKeepsDurable(HostAfter(start, events, j - 1), events[j - 1]);
    }
  }

  /** No life, however often the process restarts, works with a time before one that is already durable. */
  lemma {:induction false} DurableTimeNeverDecreases(start: Host, events: seq<Event>, i: nat, j: nat)
    requires Fresh(start) && Legal(start, events)
    requires i <= j <= |events|
    ensures HostAfter(start, events, i).disk.lastObservedMs <= HostAfter(start, events, j).disk.lastObservedMs
    ensures HostAfter(start, events, i).disk.lastObservedMs <= HostAfter(start, events, j).gate.lastObservedMs
    decreases j
  {
    AlwaysDurable(start, events, j);
    if i < j {
      DurableTimeNeverDecreases(start, events, i, j - 1);
      AlwaysDurable(start, events, j - 1);
      assert LegalAt(start, events, j - 1);
      EventKeepsDurable(HostAfter(start, events, j - 1), events[j - 1]);
    }
  }

  /** Once a life has started, no capability issued to an earlier incarnation is ever staged. */
  lemma EarlierCapabilityNeverStaged(start: Host, events: seq<Event>, i: nat, j: nat)
    requires Fresh(start) && Legal(start, events)
    requires i < j < |events|
    requires events[i].Boot?
    requires events[j].Invoke? && events[j].call.StageCall?
    requires events[j].call.authorization.candidateIncarnation < events[i].incarnation
    ensures Respond(HostAfter(start, events, j).gate, events[j].call).1.Refused?
  {
    IncarnationsOnlyGrow(start, events, i + 1, j);
    assert HostAfter(start, events, i + 1).gate.incarnation == events[i].incarnation;
  }

  // ----------------------------------------- what the promise is needed for

  /** The voters' evidence for a capability supports the same capability for any other incarnation. */
  lemma CapabilityCanBeReissued(a: ValidatedPromotion, policy: SafetyPolicy, incarnation: Incarnation)
    requires IssuedUnder(a, policy)
    ensures IssuedUnder(a.(candidateIncarnation := incarnation), policy)
  {
    var proof, current, nowMs: U64 :| PromotionVerdict(proof, current, policy, nowMs) == Ok(a);
    var again := proof.(candidateIncarnation := incarnation,
                        quorum := proof.quorum.(candidateIncarnation := incarnation),
                        health := proof.health.(incarnation := incarnation),
                        lease := proof.lease.(incarnation := incarnation));
    hide PromotionVerdict;
    VerdictIffAdmissible(proof, current, policy, nowMs);
    VerdictIffAdmissible(again, current, policy, nowMs);
    assert PromotionVerdict(again, current, policy, nowMs) == Ok(a.(candidateIncarnation := incarnation));
  }

  ghost predicate StagesOnlyIssued(calls: seq<Call>, policy: SafetyPolicy) {
    forall k | 0 <= k < |calls| && calls[k].StageCall? :: IssuedUnder(calls[k].authorization, policy)
  }

  ghost predicate ActivatesAt(g: GateView, calls: seq<Call>, k: nat, e: Epoch) {
    k < |calls| && ReplyTo(g, calls, k).Activated? && ReplyTo(g, calls, k).receipt.epoch == e
  }

  /** Some use of the gate with capabilities issued under the policy activates epoch e. */
  ghost predicate CanActivate(g: GateView, policy: SafetyPolicy, e: Epoch) {
    exists calls, k: nat :: StagesOnlyIssued(calls, policy) && ActivatesAt(g, calls, k, e)
  }

  lemma ActivatesOnlyAboveRecovered(g: GateView, calls: seq<Call>, k: nat, e: Epoch)
    requires g.state.Closed? && ActivatesAt(g, calls, k, e)
    ensures g.state.lastEpoch < e
  {
    ConsumedForever(g, calls, 0, k, g.state.lastEpoch);
    ActivationIsFresh(StateAfter(g, calls, k), calls[k]);
  }

  /** Stage, confirm the returned record at once, activate, all at one reading. */
  function ActivationCalls(g: GateView, a: ValidatedPromotion, nowMs: U64): seq<Call> {
    [StageCall(nowMs, a), ConfirmCall(RecordFor(g.(lastObservedMs := nowMs), a)), ActivateCall(nowMs)]
  }

  lemma ActivationCallsActivate(g: GateView, a: ValidatedPromotion, nowMs: U64)
    requires g.state.Closed? && g.state.lastEpoch < a.epoch
    requires (a.candidate, a.workload, a.policyHash, a.candidateIncarnation)
             == (g.node, g.workload, g.policyHash, g.incarnation)
    requires g.lastObservedMs <= nowMs && a.notBeforeMs <= nowMs < a.expiresAtMs
    ensures ActivatesAt(g, ActivationCalls(g, a, nowMs), 2, a.epoch)
  {
    var calls := ActivationCalls(g, a, nowMs);
    var staged := g.(lastObservedMs := nowMs, state := Staged(a));
    assert StateAfter(g, calls, 0) == g;
    assert StateAfter(g, calls, 1) == staged;
    assert RecordFor(staged, a) == RecordFor(g.(lastObservedMs := nowMs), a);
    assert StateAfter(g, calls, 2) == staged.(state := Prepared(a));
  }

  /**
   What a rebooted gate can do to an epoch depends on the disk alone, however
   the node got there: the epoch can be activated, under a capability issued to
   the new incarnation, exactly while it is not durable.
   */
  lemma EpochReopensUnlessDurable(h: Host, a: ValidatedPromotion, policy: SafetyPolicy, reboot: Incarnation, nowMs: U64)
    requires IssuedUnder(a, policy)
    requires (a.candidate, a.workload, a.policyHash) == (h.gate.node, h.gate.workload, h.gate.policyHash)
    requires h.disk.lastObservedMs <= nowMs && a.notBeforeMs <= nowMs < a.expiresAtMs
    ensures CanActivate(Booted(h, reboot).gate, policy, a.epoch) <==> h.disk.acceptedEpoch < a.epoch
  {
    var g := Booted(h, reboot).gate;
    hide IssuedUnder;
    hide ActivatesAt;
    if CanActivate(g, policy, a.epoch) {
      var calls, k: nat :| StagesOnlyIssued(calls, policy) && ActivatesAt(g, calls, k, a.epoch);
      ActivatesOnlyAboveRecovered(g, calls, k, a.epoch);
    }
    if h.disk.acceptedEpoch < a.epoch {
      var again := a.(candidateIncarnation := reboot);
      CapabilityCanBeReissued(a, policy, reboot);
      ActivationCallsActivate(g, again, nowMs);
      assert StagesOnlyIssued(ActivationCalls(g, again, nowMs), policy);
    }
  }

  /** Confirm every record as soon as it is issued: a life whose adapter never commits anything. */
  function UncommittedLife(h: Host, a: ValidatedPromotion, nowMs: U64): Host {
    var calls := ActivationCalls(h.gate, a, nowMs);
    Invoked(Invoked(Invoked(h, calls[0]), calls[1]), calls[2])
  }

  lemma UncommittedLifeIsActivation(h: Host, a: ValidatedPromotion, nowMs: U64)
    ensures UncommittedLife(h, a, nowMs).gate == StateAfter(h.gate, ActivationCalls(h.gate, a, nowMs), 3)
    ensures UncommittedLife(h, a, nowMs).disk == h.disk
  {
    var calls := ActivationCalls(h.gate, a, nowMs);
    hide Respond;
    assert StateAfter(h.gate, calls, 0) == h.gate;
    assert StateAfter(h.gate, calls, 1) == Invoked(h, calls[0]).gate;
    assert StateAfter(h.gate, calls, 2) == Invoked(Invoked(h, calls[0]), calls[1]).gate;
    assert StateAfter(h.gate, calls, 3) == UncommittedLife(h, a, nowMs).gate;
  }

  /**
   The adapter's promise cannot be dropped. If only the confirmation breaks it,
   by naming a record that is not durable, the gate activates an epoch, and after
   a correctly numbered reboot the same epoch can be activated again, for any
   capability that could be activated once.
   */
  lemma FalseConfirmationReplaysEpoch(h: Host, a: ValidatedPromotion, policy: SafetyPolicy, reboot: Incarnation,
                                      nowMs: U64)
    requires h.gate == Recovered(h.gate.node, h.gate.workload, h.gate.policyHash, h.disk)
    requires IssuedUnder(a, policy)
    requires (a.candidate, a.workload, a.policyHash, a.candidateIncarnation)
             == (h.gate.node, h.gate.workload, h.gate.policyHash, h.gate.incarnation)
    requires h.disk.acceptedEpoch < a.epoch
    requires h.disk.lastObservedMs <= nowMs && a.notBeforeMs <= nowMs < a.expiresAtMs
    requires h.disk.incarnation < reboot
    ensures
      var crashed := UncommittedLife(h, a, nowMs);
      var calls := ActivationCalls(h.gate, a, nowMs);
      && (Durable(h) ==> !Allowed(Invoked(h, calls[0]), Invoke(calls[1])))
      && ActivatesAt(h.gate, calls, 2, a.epoch)
      && Allowed(crashed, Boot(reboot))
      && CanActivate(Booted(crashed, reboot).gate, policy, a.epoch)
  {
    hide IssuedUnder;
    hide CanActivate;
    hide ActivatesAt;
    hide UncommittedLife;
    ActivationCallsActivate(h.gate, a, nowMs);
    UncommittedLifeIsActivation(h, a, nowMs);
    MemoryNeverDecreases(h.gate, ActivationCalls(h.gate, a, nowMs), 0, 3);
    EpochReopensUnlessDurable(UncommittedLife(h, a, nowMs), a, policy, reboot, nowMs);
  }
}
