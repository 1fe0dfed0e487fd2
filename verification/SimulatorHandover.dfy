/** Handing authority over: the time gap, what faults and fences do to it, and when it is still possible. */
module SimulatorHandover {
  import opened Types
  import opened Explorer
  import opened Simulator
  import opened SimulatorInvariant
  import opened SimulatorSafety
  import opened SimulatorEpochs

  // ------------------------------------------------------------- handover gap

  /** Node x, effective until tick e, was fenced, still holds that lease, or the lease and a tick are over. */
  ghost predicate StillHeldOrOver(t: ModelState, x: Node, e: U8) {
    || t.At(x).fenced
    || (t.metadataHolder == Some(x) && t.metadataLeaseExpiresAtTick == Some(e))
    || e + 1 <= t.nowTick
  }

  lemma StepKeepsGap(t: ModelState, action: Action, x: Node, e: U8)
    requires Inv(t) && Step(t, action).Applied? && StillHeldOrOver(t, x, e)
    ensures StillHeldOrOver(Step(t, action).next, x, e)
  {
    hide PromoteOutcome;
    StepEpoch(t, action);
    if action.Candidate().Some? {
      PromoteCollapses(t, action.Candidate().value);
    }
  }

  lemma {:induction false} RunKeepsGap(s: ModelState, trace: seq<Action>, x: Node, e: U8)
    requires Inv(s) && Run(s, trace).Some? && StillHeldOrOver(s, x, e)
    ensures StillHeldOrOver(Run(s, trace).value, x, e)
    decreases |trace|
  {
    if trace != [] {
      hide Step;
      hide Inv;
      hide StillHeldOrOver;
      var before, action := RunEndsInStep(s, trace);
      RunKeepsInv(s, trace[..|trace| - 1]);
      RunKeepsGap(s, trace[..|trace| - 1], x, e);
      StepKeepsGap(before, action, x, e);
    }
  }

  /** If one node is effective and later the other is, while the first is unfenced, two ticks lie in between. */
  lemma HandoverTakesTwoTicks(s: ModelState, trace: seq<Action>, x: Node)
    requires Reachable(s) && s.Effective(x)
    requires Run(s, trace).Some?
    requires Run(s, trace).value.Effective(Other(x)) && !Run(s, trace).value.At(x).fenced
    ensures s.nowTick + 2 <= Run(s, trace).value.nowTick
  {
    ReachableInv(s);
    RunKeepsInv(s, trace);
    RunKeepsGap(s, trace, x, s.metadataLeaseExpiresAtTick.value);
  }

  // -------------------------------------------------- who can change the writer

  function CrashOf(node: Node): Action { if node == A then CrashA else CrashB }

  function FenceOf(node: Node): Action { if node == A then FenceA else FenceB }

  /**
   A node starts writing only by its own promotion, and stops only by its own
   crash, its own fence or the tick that ends its lease. Partitions, witness
   outages, lag, restarts and everything that happens to the other node change
   nothing.
   */
  lemma WriterChangesOnlyBy(s: ModelState, action: Action, node: Node)
    requires Reachable(s) && Step(s, action).Applied?
    ensures
      var t := Step(s, action).next;
      && (t.Effective(node) && !s.Effective(node) <==> action == PromoteOf(node))
      && (s.Effective(node) && !t.Effective(node) <==>
            && s.Effective(node)
            && (action in {CrashOf(node), FenceOf(node)}
                || (action == AdvanceTime && s.At(node).gate.value.expiresAtTick == s.nowTick + 1)))
  {
    hide PromoteOutcome;
    hide Reachable;
    ReachableInv(s);
    if action.Candidate().Some? {
      PromoteCollapses(s, action.Candidate().value);
      if action != PromoteOf(node) {
        assert action.Candidate().value == Other(node);
      }
    }
  }

  /** A fence is final: no continuation makes a fenced node effective again. */
  lemma {:induction false} FencedNeverWritesAgain(s: ModelState, trace: seq<Action>, node: Node)
    requires Reachable(s) && s.At(node).fenced
    requires Run(s, trace).Some?
    ensures Run(s, trace).value.At(node).fenced && !Run(s, trace).value.Effective(node)
    decreases |trace|
  {
    if trace != [] {
      hide Step;
      hide Inv;
      hide Reachable;
      var before, action := RunEndsInStep(s, trace);
      FencedNeverWritesAgain(s, trace[..|trace| - 1], node);
      ReachableInv(s);
      RunKeepsInv(s, trace[..|trace| - 1]);
      StepEpoch(before, action);
    }
  }

  // ----------------------------------------------------- faults and their repair

  function RestartOf(node: Node): Action { if node == A then RestartA else RestartB }

  function HealOf(node: Node): Action { if node == A then HealA else HealB }

  function CatchUpOf(node: Node): Action { if node == A then CatchUpA else CatchUpB }

  function PartitionOf(node: Node): Action { if node == A then PartitionA else PartitionB }

  function LagOf(node: Node): Action { if node == A then LagA else LagB }

  ghost predicate PowerAfter(n: NodeState, m: NodeState, action: Action, node: Node) {
    && m.powered == (action == RestartOf(node) || (n.powered && action != CrashOf(node) && action != FenceOf(node)))
    && m.fenced == (n.fenced || action == FenceOf(node))
  }

  ghost predicate LinkAfter(n: NodeState, m: NodeState, action: Action, node: Node) {
    && m.connectedToWitness
       == (action == HealOf(node) || action == RestartOf(node)
           || (n.connectedToWitness && action != PartitionOf(node)))
    && m.caughtUp == (action == CatchUpOf(node) || (n.caughtUp && action != LagOf(node)))
  }

  lemma FaultPower(s: ModelState, action: Action, node: Node)
    requires Faulted(s, action) != s
    ensures PowerAfter(s.At(node), Faulted(s, action).At(node), action, node)
  {
  }

  lemma FaultLink(s: ModelState, action: Action, node: Node)
    requires Faulted(s, action) != s
    ensures LinkAfter(s.At(node), Faulted(s, action).At(node), action, node)
    ensures Faulted(s, action).witnessUp == (action == StartWitness || (s.witnessUp && action != StopWitness))
  {
  }

  lemma StepStatus(s: ModelState, action: Action, node: Node)
    requires Step(s, action).Applied?
    ensures PowerAfter(s.At(node), Step(s, action).next.At(node), action, node)
    ensures LinkAfter(s.At(node), Step(s, action).next.At(node), action, node)
    ensures Step(s, action).next.witnessUp == (action == StartWitness || (s.witnessUp && action != StopWitness))
  {
    hide CoreDecision;
    hide Faulted;
    if action.Candidate().None? && action != AdvanceTime {
      FaultPower(s, action, node);
      FaultLink(s, action, node);
    }
  }

  /** The faults that stand in the way of the node's promotion. */
  function FaultsOn(node: Node): set<Action> {
    {PartitionOf(node), StopWitness, CrashOf(node), FenceOf(node), LagOf(node)}
  }

  /** The actions that undo the effect of such a fault; nothing undoes a fence. */
  function RepairsOf(fault: Action, node: Node): set<Action> {
    if fault == PartitionOf(node) then {HealOf(node), RestartOf(node)}
    else if fault == StopWitness then {StartWitness}
    else if fault == CrashOf(node) then {RestartOf(node)}
    else if fault == LagOf(node) then {CatchUpOf(node)}
    else {}
  }

  ghost predicate Impaired(s: ModelState, fault: Action, node: Node) {
    var n := s.At(node);
    if fault == PartitionOf(node) then !n.connectedToWitness
    else if fault == StopWitness then !s.witnessUp
    else if fault == CrashOf(node) then !n.powered
    else if fault == LagOf(node) then !n.caughtUp
    else n.fenced
  }

  lemma FaultImpairs(s: ModelState, fault: Action, node: Node)
    requires fault in FaultsOn(node)
    ensures fault.Candidate().None? && fault != AdvanceTime
    ensures Impaired(Faulted(s, fault), fault, node)
  {
  }

  lemma StepKeepsImpaired(s: ModelState, action: Action, fault: Action, node: Node)
    requires fault in FaultsOn(node) && Impaired(s, fault, node)
    requires Step(s, action).Applied? && action !in RepairsOf(fault, node)
    ensures Impaired(Step(s, action).next, fault, node)
  {
    hide Step;
    StepStatus(s, action, node);
  }

  lemma ImpairedNotPromoted(s: ModelState, fault: Action, node: Node)
    requires Inv(s) && fault in FaultsOn(node) && Impaired(s, fault, node)
    ensures !PromoteOutcome(s, node).Applied?
  {
    hide PromoteOutcome;
    PromoteCollapses(s, node);
  }

  lemma {:induction false} ImpairedRun(s: ModelState, trace: seq<Action>, fault: Action, node: Node)
    requires Inv(s) && fault in FaultsOn(node) && Impaired(s, fault, node)
    requires Run(s, trace).Some?
    requires forall action | action in trace :: action !in RepairsOf(fault, node)
    ensures Inv(Run(s, trace).value) && Impaired(Run(s, trace).value, fault, node)
    ensures PromoteOf(node) !in trace
    decreases |trace|
  {
    if trace != [] {
      hide Step;
      hide Inv;
      hide Impaired;
      hide FaultsOn;
      hide RepairsOf;
      var before, action := RunEndsInStep(s, trace);
      var shorter := trace[..|trace| - 1];
      assert trace == shorter + [action];
      ImpairedRun(s, shorter, fault, node);
      StepKeepsInv(before, action);
      StepKeepsImpaired(before, action, fault, node);
      ImpairedNotPromoted(before, fault, node);
      PromotionStep(before, node);
    }
  }

  lemma PromotionStep(s: ModelState, node: Node)
    ensures Step(s, PromoteOf(node)) == PromoteOutcome(s, node)
  {
    hide PromoteOutcome;
  }

  lemma FaultStep(s: ModelState, action: Action)
    requires action.Candidate().None? && action != AdvanceTime
    ensures Faulted(s, action) != s ==> Step(s, action) == Applied(Faulted(s, action))
  {
    hide PromoteOutcome;
    hide Faulted;
  }

  /**
   A partition, a witness outage, a crash, a lag or a fence keeps the node from
   being promoted on every run, for as long as no matching repair happens.
   */
  lemma FaultBlocksUntilRepaired(s: ModelState, fault: Action, node: Node, trace: seq<Action>)
    requires Reachable(s) && fault in FaultsOn(node)
    requires Run(Faulted(s, fault), trace).Some?
    requires forall action | action in trace :: action !in RepairsOf(fault, node)
    ensures PromoteOf(node) !in trace
    ensures !PromoteOutcome(Run(Faulted(s, fault), trace).value, node).Applied?
  {
    hide PromoteOutcome;
    hide Reachable;
    hide Run;
    hide Inv;
    hide Impaired;
    hide FaultsOn;
    hide RepairsOf;
    ReachableInv(s);
    FaultImpairs(s, fault, node);
    FaultedKeepsInv(s, fault);
    ImpairedRun(Faulted(s, fault), trace, fault, node);
    ImpairedNotPromoted(Run(Faulted(s, fault), trace).value, fault, node);
  }

  /**
   Fencing the holder lets the other node succeed it at once, whenever that node
   can run and has caught up. Crashing the holder never does: the other node is
   promotable after the crash exactly if it was before.
   */
  lemma FenceExcludesCrashDoesNot(s: ModelState, node: Node)
    requires Reachable(s) && s.metadataHolder == Some(node)
    ensures PromoteOutcome(Faulted(s, FenceOf(node)), Other(node)).Applied? <==>
            Eligible(s, Other(node)) && s.At(Other(node)).caughtUp
    ensures PromoteOutcome(Faulted(s, CrashOf(node)), Other(node)).Applied? <==>
            PromoteOutcome(s, Other(node)).Applied?
  {
    hide PromoteOutcome;
    hide Reachable;
    ReachableInv(s);
    FaultedKeepsInv(s, FenceOf(node));
    FaultedKeepsInv(s, CrashOf(node));
    hide Inv;
    PromoteCollapses(s, Other(node));
    PromoteCollapses(Faulted(s, FenceOf(node)), Other(node));
    PromoteCollapses(Faulted(s, CrashOf(node)), Other(node));
  }

  // ---------------------------------------------------------- no safety deadlock

  /** Extend a run by one action when it is needed; `t` is the state that results either way. */
  lemma RunIfNeeded(s: ModelState, trace: seq<Action>, action: Action, needed: bool, t: ModelState)
    returns (longer: seq<Action>)
    requires Run(s, trace).Some?
    requires if needed then Step(Run(s, trace).value, action) == Applied(t) else Run(s, trace).value == t
    ensures |longer| <= |trace| + 1
    ensures Run(s, longer) == Some(t)
  {
    hide Step;
    hide Run;
    longer := trace;
    if needed {
      RunExtends(s, trace, action);
      longer := trace + [action];
    }
  }

  /** The node after booting it, or reconnecting it if it is already on. */
  function Revived(node: NodeState): NodeState {
    if node.powered then node.(connectedToWitness := true) else Restarted(node)
  }

  /** The state after up to four repairs: node and witness up, state caught up, the other holder fenced. */
  function Repaired(s: ModelState, node: Node): ModelState {
    var s1 := s.With(node, Revived(s.At(node)));
    var s2 := s1.(witnessUp := true);
    var s3 := s2.With(node, s2.At(node).(caughtUp := true));
    if s.metadataHolder == Some(Other(node)) then s3.With(Other(node), Fenced(s3.At(Other(node)))) else s3
  }

  lemma RepairActions(s: ModelState, node: Node)
    ensures !s.At(node).fenced && (s.At(node).powered || s.At(node).incarnation < U64_MAX) ==>
              Faulted(s, if s.At(node).powered then HealOf(node) else RestartOf(node))
              == s.With(node, Revived(s.At(node)))
    ensures Faulted(s, StartWitness) == s.(witnessUp := true)
    ensures Faulted(s, CatchUpOf(node)) == s.With(node, s.At(node).(caughtUp := true))
  {
  }

  lemma RunFault(s: ModelState, trace: seq<Action>, action: Action, t: ModelState) returns (longer: seq<Action>)
    requires Run(s, trace).Some?
    requires action.Candidate().None? && action != AdvanceTime
    requires Faulted(Run(s, trace).value, action) == t
    ensures |longer| <= |trace| + 1
    ensures Run(s, longer) == Some(t)
  {
    hide Run;
    hide Step;
    hide Faulted;
    FaultStep(Run(s, trace).value, action);
    longer := RunIfNeeded(s, trace, action, t != Run(s, trace).value, t);
  }

  lemma RepairRun(s: ModelState, node: Node) returns (trace: seq<Action>)
    requires !s.At(node).fenced
    requires s.At(node).powered || s.At(node).incarnation < U64_MAX
    ensures |trace| <= 4
    ensures Run(s, trace) == Some(Repaired(s, node))
  {
    assert Run(s, []) == Some(s);
    hide Run;
    hide Faulted;
    var n := s.At(node);
    var s1 := s.With(node, Revived(n));
    RepairActions(s, node);
    trace := RunFault(s, [], if n.powered then HealOf(node) else RestartOf(node), s1);
    var s2 := s1.(witnessUp := true);
    RepairActions(s1, node);
    trace := RunFault(s, trace, StartWitness, s2);
    var s3 := s2.With(node, s2.At(node).(caughtUp := true));
    RepairActions(s2, node);
    trace := RunFault(s, trace, CatchUpOf(node), s3);
    if s.metadataHolder == Some(Other(node)) {
      FenceAction(s3, Other(node));
      trace := RunFault(s, trace, FenceOf(Other(node)), Repaired(s, node));
    }
  }

  lemma FenceAction(s: ModelState, node: Node)
    ensures Faulted(s, FenceOf(node)) == s.With(node, Fenced(s.At(node)))
  {
  }

  lemma RepairedSatisfiesGuard(s: ModelState, node: Node)
    requires Inv(s) && s.nowTick <= 252
    requires !s.At(node).fenced && s.metadataHolder != Some(node)
    requires s.At(node).powered || s.At(node).incarnation < U64_MAX
    requires Inv(Repaired(s, node))
    ensures Guard(Repaired(s, node), node)
  {
  }

  lemma PromotedIsSoleWriter(t: ModelState, node: Node)
    requires Inv(t) && Guard(t, node) && t.epoch < U64_MAX
    ensures var u := Promoted(t, node, t.epoch + 1, t.nowTick + 3);
            u.Effective(node) && u.ActiveWriters() == 1
  {
  }

  /** The node could be made to run: it is unfenced, not the holder, and on or able to boot. */
  predicate Promotable(s: ModelState, node: Node) {
    && !s.At(node).fenced && s.metadataHolder != Some(node)
    && (s.At(node).powered || s.At(node).incarnation < U64_MAX)
  }

  lemma PromoteByGuard(t: ModelState, node: Node)
    requires Inv(t) && Guard(t, node)
    ensures t.epoch < U64_MAX
    ensures Step(t, PromoteOf(node)) == Applied(Promoted(t, node, t.epoch + 1, t.nowTick + 3))
  {
    hide PromoteOutcome;
    PromoteCollapses(t, node);
  }

  lemma RepairAndPromote(s: ModelState, node: Node) returns (trace: seq<Action>)
    requires Inv(s) && s.nowTick <= 252 && Promotable(s, node)
    ensures 0 < |trace| <= 5 && trace[|trace| - 1] == PromoteOf(node)
    ensures Run(s, trace).Some?
    ensures Run(s, trace).value.Effective(node) && Run(s, trace).value.ActiveWriters() == 1
  {
    hide PromoteOutcome;
    hide Run;
    hide Inv;
    hide Guard;
    hide Repaired;
    hide GuardedPromote;
    var repairs := RepairRun(s, node);
    var t := Repaired(s, node);
    RunKeepsInv(s, repairs);
    RepairedSatisfiesGuard(s, node);
    PromoteByGuard(t, node);
    RunExtends(s, repairs, PromoteOf(node));
    PromotedIsSoleWriter(t, node);
    trace := repairs + [PromoteOf(node)];
  }

  /**
   From any reachable state with time left, any unfenced node that is not the
   holder, and is on or can still boot, becomes the one and only effective
   writer within five actions.
   */
  lemma NoSafetyDeadlock(s: ModelState, node: Node)
    requires Reachable(s) && s.nowTick <= 252 && Promotable(s, node)
    ensures exists trace ::
              && |trace| <= 5
              && Run(s, trace).Some?
              && Run(s, trace).value.Effective(node)
              && Run(s, trace).value.ActiveWriters() == 1
  {
    hide Reachable;
    hide Run;
    hide Inv;
    hide Promotable;
    ReachableInv(s);
    var trace := RepairAndPromote(s, node);
  }

  /** Authority can still change hands: there is time for a lease, and a node to take it. */
  ghost predicate Live(s: ModelState) {
    s.nowTick <= 252 && exists node: Node :: Promotable(s, node)
  }

  lemma GuardNeedsLife(s: ModelState, candidate: Node)
    requires Inv(s)
    ensures Guard(s, candidate) ==> Live(s)
  {
    assert Guard(s, candidate) ==> Promotable(s, candidate);
  }

  lemma DeadStep(s: ModelState, action: Action)
    requires Inv(s) && !Live(s) && Step(s, action).Applied?
    ensures action.Candidate().None? && !Live(Step(s, action).next)
  {
    hide PromoteOutcome;
    if action.Candidate().Some? {
      GuardNeedsLife(s, action.Candidate().value);
      PromoteCollapses(s, action.Candidate().value);
    } else if s.nowTick <= 252 {
      assert !Promotable(s, A) && !Promotable(s, B);
    }
  }

  lemma {:induction false} DeadRun(s: ModelState, trace: seq<Action>)
    requires Inv(s) && !Live(s) && Run(s, trace).Some?
    ensures PromotionCount(trace) == 0 && !Live(Run(s, trace).value)
    decreases |trace|
  {
    if trace != [] {
      hide Inv;
      hide Step;
      hide Live;
      var before, action := RunEndsInStep(s, trace);
      RunKeepsInv(s, trace[..|trace| - 1]);
      DeadRun(s, trace[..|trace| - 1]);
      DeadStep(before, action);
    }
  }

  /**
   Some continuation promotes a node exactly when there is time for one more
   lease and some node is unfenced, not the holder, and on or able to boot. In
   every other reachable state no run ever promotes a node again.
   */
  lemma PromotionPossibleIffLive(s: ModelState)
    requires Reachable(s)
    ensures (exists trace :: Run(s, trace).Some? && PromotionCount(trace) > 0) <==> Live(s)
  {
    hide Reachable;
    hide Run;
    hide Inv;
    hide Promotable;
    ReachableInv(s);
    if Live(s) {
      var node: Node :| Promotable(s, node);
      var trace := RepairAndPromote(s, node);
      assert PromotionCount(trace) > 0;
    } else {
      forall trace | Run(s, trace).Some? ensures PromotionCount(trace) == 0 {
        DeadRun(s, trace);
      }
    }
  }
}
