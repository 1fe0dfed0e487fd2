/** Safety of the model over every run, and the exploration that inherits it. */
module SimulatorSafety {
  import opened Types
  import opened Explorer
  import opened Simulator
  import opened SimulatorInvariant

  // --------------------------------------------------------------------- runs

  ghost function From(s: ModelState): System<ModelState, Action, Rejection> {
    SIMULATION.(initial := s)
  }

  /** The state after a sequence of applied actions, starting in s. */
  ghost function Run(s: ModelState, trace: seq<Action>): Option<ModelState> {
    Replay(From(s), trace)
  }

  /** Some run leads from s to t. */
  ghost predicate Leads(s: ModelState, t: ModelState) {
    exists trace :: Run(s, trace) == Some(t)
  }

  ghost predicate Reachable(s: ModelState) {
    Leads(INITIAL_STATE, s)
  }

  lemma RunEndsInStep(s: ModelState, trace: seq<Action>) returns (before: ModelState, action: Action)
    requires trace != [] && Run(s, trace).Some?
    ensures Run(s, trace[..|trace| - 1]) == Some(before)
    ensures action == trace[|trace| - 1]
    ensures Step(before, action) == Applied(Run(s, trace).value)
  {
    before := Run(s, trace[..|trace| - 1]).value;
    action := trace[|trace| - 1];
  }

  lemma RunExtends(s: ModelState, trace: seq<Action>, action: Action)
    requires Run(s, trace).Some? && Step(Run(s, trace).value, action).Applied?
    ensures Run(s, trace + [action]) == Some(Step(Run(s, trace).value, action).next)
  {
    ActionsListedOnce();
    ReplayStep(From(s), trace, action);
  }

  // ------------------------------------------------------ the invariant holds

  lemma FaultKeepsNodes(s: ModelState, action: Action)
    requires Inv(s) && action.Candidate().None? && action != AdvanceTime
    ensures NodeSound(Faulted(s, action), A) && NodeSound(Faulted(s, action), B)
    ensures MetadataSound(Faulted(s, action))
    ensures GateSound(Faulted(s, action), A) && GateSound(Faulted(s, action), B)
  {
  }

  lemma FaultKeepsFences(s: ModelState, action: Action)
    requires action.Candidate().None? && action != AdvanceTime
    ensures CandidateLeft(Faulted(s, action)) ==> CandidateLeft(s)
  {
    var t := Faulted(s, action);
    assert forall node: Node :: s.At(node).fenced ==> t.At(node).fenced;
  }

  lemma PromotionKeepsEpochs(s: ModelState, candidate: Node)
    requires Inv(s) && Guard(s, candidate) && s.epoch < U64_MAX
    ensures
      var t := Promoted(s, candidate, s.epoch + 1, s.nowTick + 3);
      && MetadataSound(t) && EpochSound(t)
  {
    var t := Promoted(s, candidate, s.epoch + 1, s.nowTick + 3);
    assert CandidateLeft(s) by {
      assert !s.At(candidate).fenced && s.metadataHolder != Some(candidate);
    }
    if CandidateLeft(t) {
      var node: Node :| !t.At(node).fenced && t.metadataHolder != Some(node);
      assert node == Other(candidate) && !s.At(node).fenced;
    }
  }

  lemma PromotionKeepsNodes(s: ModelState, candidate: Node)
    requires Inv(s) && Guard(s, candidate) && s.epoch < U64_MAX
    ensures
      var t := Promoted(s, candidate, s.epoch + 1, s.nowTick + 3);
      && MetadataSound(t)
      && NodeSound(t, A) && NodeSound(t, B) && GateSound(t, A) && GateSound(t, B)
  {
  }

  lemma TimeKeepsInv(s: ModelState)
    requires Inv(s) && s.nowTick < U8_MAX
    ensures Inv(s.(nowTick := s.nowTick + 1))
  {
    var t := s.(nowTick := s.nowTick + 1);
    assert CandidateLeft(t) ==> CandidateLeft(s) by {
      assert forall node: Node :: s.At(node) == t.At(node);
    }
  }

  lemma FaultedKeepsInv(s: ModelState, action: Action)
    requires Inv(s) && action.Candidate().None? && action != AdvanceTime
    ensures Inv(Faulted(s, action))
  {
    FaultKeepsNodes(s, action);
    FaultKeepsFences(s, action);
    hide NodeSound;
    hide GateSound;
    hide CandidateLeft;
  }

  lemma PromotionKeepsInv(s: ModelState, candidate: Node)
    requires Inv(s) && PromoteOutcome(s, candidate).Applied?
    ensures Inv(PromoteOutcome(s, candidate).next)
  {
    hide PromoteOutcome;
    PromoteCollapses(s, candidate);
    PromotionKeepsEpochs(s, candidate);
    PromotionKeepsNodes(s, candidate);
    hide Guard;
    hide Promoted;
    hide NodeSound;
    hide GateSound;
    hide EpochSound;
  }

  lemma StepKeepsInv(s: ModelState, action: Action)
    requires Inv(s) && Step(s, action).Applied?
    ensures Inv(Step(s, action).next)
  {
    hide PromoteOutcome;
    hide Faulted;
    hide Inv;
    if action.Candidate().Some? {
      PromotionKeepsInv(s, action.Candidate().value);
    } else if action == AdvanceTime {
      TimeKeepsInv(s);
    } else {
      FaultedKeepsInv(s, action);
    }
  }

  lemma {:induction false} RunKeepsInv(s: ModelState, trace: seq<Action>)
    requires Inv(s) && Run(s, trace).Some?
    ensures Inv(Run(s, trace).value)
    decreases |trace|
  {
    if trace != [] {
      hide Inv;
      hide Step;
      var before, action := RunEndsInStep(s, trace);
      RunKeepsInv(s, trace[..|trace| - 1]);
      StepKeepsInv(before, action);
    }
  }

  lemma ReachableInv(s: ModelState)
    requires Reachable(s)
    ensures Inv(s)
  {
    var trace :| Run(INITIAL_STATE, trace) == Some(s);
    RunKeepsInv(INITIAL_STATE, trace);
  }

  lemma ReachableStep(s: ModelState, action: Action)
    requires Reachable(s) && Step(s, action).Applied?
    ensures Reachable(Step(s, action).next)
  {
    hide Step;
    hide Run;
    var trace :| Run(INITIAL_STATE, trace) == Some(s);
    RunExtends(INITIAL_STATE, trace, action);
  }

  // ------------------------------------------------------------ single writer

  /** At most one node is effective, and it is the holder with a gate of the current epoch and boot. */
  lemma SingleWriter(s: ModelState)
    requires Reachable(s)
    ensures s.ActiveWriters() <= 1
    ensures forall node: Node | s.Effective(node) ::
              && s.metadataHolder == Some(node)
              && s.metadataLeaseExpiresAtTick.Some?
              && s.At(node).acceptedEpoch == s.epoch
              && s.At(node).gate == Some(GateLease(s.epoch, s.At(node).incarnation, s.metadataLeaseExpiresAtTick.value))
  {
    hide Reachable;
    ReachableInv(s);
  }

  /** The count of writers is the size of the set of effective nodes. */
  lemma WritersCounted(s: ModelState)
    ensures s.ActiveWriters() == |set node: Node | s.Effective(node)|
  {
    var a, b := s.Effective(A), s.Effective(B);
    assert s.ActiveWriters() == (if a then 1 else 0) + (if b then 1 else 0);
    assert (set node: Node | s.Effective(node)) == (if a then {A} else {}) + (if b then {B} else {});
  }

  /** In any state, reachable or not, losing a single condition of an effective gate ends its effect. */
  lemma EveryConditionCounts(n: NodeState, nowTick: U8)
    requires n.GateIsEffective(nowTick)
    ensures !n.(powered := false).GateIsEffective(nowTick)
    ensures !n.(fenced := true).GateIsEffective(nowTick)
    ensures !n.(gate := None).GateIsEffective(nowTick)
    ensures !n.(gate := Some(n.gate.value.(epoch := 0))).GateIsEffective(nowTick)
    ensures forall boot: Incarnation ::
              n.(incarnation := boot).GateIsEffective(nowTick) <==> boot == n.incarnation
    ensures forall tick: U8 :: n.GateIsEffective(tick) <==> tick < n.gate.value.expiresAtTick
  {
  }

  /** The attempts of an action that apply. */
  ghost function AppliedAttempts(attempts: set<(ModelState, Action)>): set<(ModelState, Action)> {
    set p | p in attempts && Step(p.0, p.1).Applied?
  }

  /** The attempted promotions that were refused for a reason other than that nothing would change. */
  ghost function RefusedPromotions(attempts: set<(ModelState, Action)>): set<(ModelState, Action)> {
    set p | p in attempts && p.1.Candidate().Some?
            && PromoteOutcome(p.0, p.1.Candidate().value).Rejected?
            && PromoteOutcome(p.0, p.1.Candidate().value).reason != NoStateChange
  }

  /** The attempts that lead to a state with more than one writer. */
  ghost function TwoWriterAttempts(attempts: set<(ModelState, Action)>): set<(ModelState, Action)> {
    set p | p in AppliedAttempts(attempts) && Step(p.0, p.1).next.ActiveWriters() > 1
  }

  /** What the report counts: applied actions, refused promotions, and steps into a state with two writers. */
  lemma CountersMean(attempts: set<(ModelState, Action)>)
    ensures Taken(SIMULATION, attempts) == AppliedAttempts(attempts)
    ensures Refusals(SIMULATION, attempts) == RefusedPromotions(attempts)
    ensures Violating(SIMULATION, attempts) == TwoWriterAttempts(attempts)
  {
    hide PromoteOutcome;
  }

  lemma LogCounts(attempts: set<(ModelState, Action)>, violations: seq<Violation<Action>>)
    requires LogComplete(SIMULATION, attempts, violations)
    ensures |violations| == |Violating(SIMULATION, attempts)|
  {
    hide LogSound;
    hide Violating;
    hide LogOrdered;
  }

  /** An exploration attempts every action in every state that fewer applied actions than its depth reach. */
  lemma AttemptsMean(depth: nat)
    ensures forall s, action ::
              (s, action) in Attempts(SIMULATION, depth) <==>
              exists trace :: |trace| < depth && Run(INITIAL_STATE, trace) == Some(s)
  {
    forall s, action: Action
      ensures (s, action) in Attempts(SIMULATION, depth) <==>
              exists trace :: |trace| < depth && Run(INITIAL_STATE, trace) == Some(s)
    {
      hide Run;
      NearerMeans(depth, s);
      ActionsListedOnce();
    }
  }

  lemma NearerMeans(depth: nat, s: ModelState)
    ensures s in Below(SIMULATION, depth) <==> exists trace :: |trace| < depth && Run(INITIAL_STATE, trace) == Some(s)
  {
    hide *;
    RunIsReplay();
    BelowIffReplay(SIMULATION, depth, s);
  }

  /** The exploration of the model: exact, with shortest traces, and safe at every depth. */
  method Explore(depth: nat)
    returns (report: Report<Action>, ghost seen: map<ModelState, seq<Action>>,
             ghost attempts: set<(ModelState, Action)>)
    ensures report.IsSafe()
    ensures report.depth == depth
    ensures report.statesExplored == |seen|
    ensures report.transitionsExplored == |AppliedAttempts(attempts)|
    ensures report.rejectedPromotions == |RefusedPromotions(attempts)|
    ensures |report.violations| == |TwoWriterAttempts(attempts)|
    ensures forall s, action ::
              (s, action) in attempts <==> exists trace :: |trace| < depth && Run(INITIAL_STATE, trace) == Some(s)
    ensures forall s :: s in seen <==> exists trace :: |trace| <= depth && Run(INITIAL_STATE, trace) == Some(s)
    ensures forall s, trace | s in seen && Run(INITIAL_STATE, trace) == Some(s) ::
              Run(INITIAL_STATE, seen[s]) == Some(s) && |seen[s]| <= |trace|
  {
    ActionsListedOnce();
    RunIsReplay();
    hide *;
    report, seen := Search(SIMULATION, depth);
    attempts := Attempts(SIMULATION, depth);
    CountersMean(attempts);
    LogCounts(attempts, report.violations);
    AttemptsMean(depth);
    assert |seen| == |seen.Keys|;
    ReportIsSafe(depth, report);
    SeenStatesAreRuns(depth, seen);
  }

  lemma RunIsReplay()
    ensures From(INITIAL_STATE) == SIMULATION
    ensures forall trace :: Run(INITIAL_STATE, trace) == Replay(SIMULATION, trace)
  {
    hide Replay;
  }

  lemma SeenStatesAreRuns(depth: nat, seen: map<ModelState, seq<Action>>)
    requires seen.Keys == Within(SIMULATION, depth) && TracesShortest(SIMULATION, seen)
    ensures forall s :: s in seen <==> exists trace :: |trace| <= depth && Run(INITIAL_STATE, trace) == Some(s)
    ensures forall s, trace | s in seen && Run(INITIAL_STATE, trace) == Some(s) ::
              Run(INITIAL_STATE, seen[s]) == Some(s) && |seen[s]| <= |trace|
  {
    RunIsReplay();
    hide Run;
    hide Replay;
    hide Within;
    hide AtDistance;
    StoredTracesAreShortest(SIMULATION, seen);
    forall s ensures s in seen <==> exists trace :: |trace| <= depth && Run(INITIAL_STATE, trace) == Some(s) {
      WithinIffReplay(SIMULATION, depth, s);
    }
  }

  lemma ReportIsSafe(depth: nat, report: Report<Action>)
    requires LogComplete(SIMULATION, Attempts(SIMULATION, depth), report.violations)
    ensures report.IsSafe()
  {
    RunIsReplay();
    hide Replay;
    hide Run;
    hide LogComplete;
    forall trace | |trace| <= depth ensures !ViolatingRun(SIMULATION, trace) {
      if Replay(SIMULATION, trace).Some? {
        assert Run(INITIAL_STATE, trace).Some?;
        SingleWriter(Replay(SIMULATION, trace).value);
      }
    }
    SafeIffNoViolatingRun(SIMULATION, depth, report);
  }

  // ---------------------------------------------------------- promotion guard

  /** In a reachable state a promotion applies exactly under the guard and is never refused by the core itself. */
  lemma PromotionIffGuard(s: ModelState, candidate: Node)
    requires Reachable(s)
    ensures s.epoch <= 65
    ensures PromoteOutcome(s, candidate) == GuardedPromote(s, candidate)
    ensures PromoteOutcome(s, candidate).Applied? <==> Guard(s, candidate)
    ensures PromoteOutcome(s, candidate) != Rejected(CoreRefused)
  {
    hide PromoteOutcome;
    hide Inv;
    hide Reachable;
    ReachableInv(s);
    PromoteCollapses(s, candidate);
  }
}
