/** What each action needs, what it changes and what it leaves alone, on every run. */
module SimulatorActions {
  import opened Types
  import opened Explorer
  import opened Simulator
  import opened SimulatorInvariant
  import opened SimulatorSafety
  import opened SimulatorEpochs
  import opened SimulatorHandover

  // ------------------------------------------------------- when actions apply

  predicate CanRestart(n: NodeState) {
    !n.powered && !n.fenced && n.incarnation < U64_MAX
  }

  /** The action has something to do. */
  predicate Useful(s: ModelState, action: Action) {
    match action
    case PartitionA => s.a.connectedToWitness
    case PartitionB => s.b.connectedToWitness
    case HealA => !s.a.connectedToWitness
    case HealB => !s.b.connectedToWitness
    case StopWitness => s.witnessUp
    case StartWitness => !s.witnessUp
    case CrashA => s.a.powered
    case CrashB => s.b.powered
    case RestartA => CanRestart(s.a)
    case RestartB => CanRestart(s.b)
    case FenceA => !s.a.fenced
    case FenceB => !s.b.fenced
    case LagA => s.a.caughtUp
    case LagB => s.b.caughtUp
    case CatchUpA => !s.a.caughtUp
    case CatchUpB => !s.b.caughtUp
    case PromoteA => Guard(s, A)
    case PromoteB => Guard(s, B)
    case AdvanceTime => s.nowTick < U8_MAX
  }

  lemma FaultUseful(s: ModelState, action: Action)
    requires NodeSound(s, A) && NodeSound(s, B)
    requires action.Candidate().None? && action != AdvanceTime
    ensures Faulted(s, action) != s <==> Useful(s, action)
  {
  }

  /** In reachable states an action applies exactly when it has something to do, and an idle one reports just that. */
  lemma AppliesIffUseful(s: ModelState, action: Action)
    requires Reachable(s)
    ensures Step(s, action).Applied? <==> Useful(s, action)
    ensures action.Candidate().None? && Step(s, action).Rejected? ==> Step(s, action) == Rejected(NoStateChange)
  {
    hide PromoteOutcome;
    hide Reachable;
    hide NodeSound;
    hide Faulted;
    hide Guard;
    ReachableInv(s);
    if action.Candidate().Some? {
      PromotionIffGuard(s, action.Candidate().value);
    } else if action != AdvanceTime {
      FaultUseful(s, action);
    }
  }

  // -------------------------------------------------- what an action changes

  /**
   Authority changes hands only by a promotion: metadata, memory and lease are
   written together by the node's own, a gate is dropped by a crash, a restart
   or a fence of its node, and nothing else touches any of them.
   */
  lemma AuthorityChangesOnlyBy(s: ModelState, action: Action, node: Node)
    requires Step(s, action).Applied?
    ensures
      var t := Step(s, action).next;
      var n, m := s.At(node), t.At(node);
      && t.nowTick == s.nowTick + (if action == AdvanceTime then 1 else 0)
      && m.incarnation == n.incarnation + (if action == RestartOf(node) then 1 else 0)
      && m.acceptedEpoch == (if action == PromoteOf(node) then t.epoch else n.acceptedEpoch)
      && m.gate == (if action == PromoteOf(node) then Some(GateLease(t.epoch, n.incarnation, t.nowTick + 3))
                    else if action in {CrashOf(node), RestartOf(node), FenceOf(node)} then None
                    else n.gate)
      && (action == PromoteOf(node) ==>
            t.metadataHolder == Some(node) && t.metadataLeaseExpiresAtTick == Some(t.nowTick + 3))
      && (action.Candidate().None? ==>
            (t.epoch, t.metadataHolder, t.metadataLeaseExpiresAtTick)
            == (s.epoch, s.metadataHolder, s.metadataLeaseExpiresAtTick))
  {
    hide CoreDecision;
  }

  /** The last action of the run that switches something decides it; without one it stays as it was. */
  ghost function LastWord(trace: seq<Action>, on: set<Action>, off: set<Action>, start: bool): bool {
    if trace == [] then start
    else if trace[|trace| - 1] in on then true
    else if trace[|trace| - 1] in off then false
    else LastWord(trace[..|trace| - 1], on, off, start)
  }

  lemma LastWordStep(trace: seq<Action>, on: set<Action>, off: set<Action>, start: bool)
    requires trace != []
    ensures LastWord(trace, on, off, start) ==
            var action := trace[|trace| - 1];
            (action in on || (LastWord(trace[..|trace| - 1], on, off, start) && action !in off))
  {
  }

  /**
   On any run power, connection, fence, lag and witness are what the last action
   that concerns them made of them. So no other action repairs a fault, and none
   causes one.
   */
  lemma {:induction false} StatusIsLastWord(s: ModelState, trace: seq<Action>, node: Node)
    requires Run(s, trace).Some?
    ensures
      var n, t := s.At(node), Run(s, trace).value;
      var m := t.At(node);
      && m.powered == LastWord(trace, {RestartOf(node)}, {CrashOf(node), FenceOf(node)}, n.powered)
      && m.connectedToWitness
         == LastWord(trace, {HealOf(node), RestartOf(node)}, {PartitionOf(node)}, n.connectedToWitness)
      && m.fenced == LastWord(trace, {FenceOf(node)}, {}, n.fenced)
      && m.caughtUp == LastWord(trace, {CatchUpOf(node)}, {LagOf(node)}, n.caughtUp)
      && t.witnessUp == LastWord(trace, {StartWitness}, {StopWitness}, s.witnessUp)
    decreases |trace|
  {
    if trace == [] {
      assert Run(s, trace) == Some(s);
    } else {
      hide Step;
      hide Run;
      hide LastWord;
      var before, action := RunEndsInStep(s, trace);
      StatusIsLastWord(s, trace[..|trace| - 1], node);
      StepStatus(before, action, node);
      LastWordStep(trace, {RestartOf(node)}, {CrashOf(node), FenceOf(node)}, s.At(node).powered);
      LastWordStep(trace, {HealOf(node), RestartOf(node)}, {PartitionOf(node)}, s.At(node).connectedToWitness);
      LastWordStep(trace, {FenceOf(node)}, {}, s.At(node).fenced);
      LastWordStep(trace, {CatchUpOf(node)}, {LagOf(node)}, s.At(node).caughtUp);
      LastWordStep(trace, {StartWitness}, {StopWitness}, s.witnessUp);
    }
  }
}
