/** How far the epoch can climb: a bound on every run, what a fence costs, and a run that attains the bound. */
module SimulatorEpochs {
  import opened Types
  import opened Explorer
  import opened Simulator
  import opened SimulatorInvariant
  import opened SimulatorSafety

  /** No run passes epoch 65; without a fence every epoch but the first costs four ticks. */
  lemma EpochBounded(s: ModelState)
    requires Reachable(s)
    ensures s.epoch <= 65
    ensures s.epoch >= 1 && !s.a.fenced && !s.b.fenced ==>
              s.metadataLeaseExpiresAtTick.Some? && 4 * s.epoch - 1 <= s.metadataLeaseExpiresAtTick.value
  {
    ReachableInv(s);
    if s.epoch >= 1 && !s.a.fenced && !s.b.fenced {
      var free := if s.metadataHolder == Some(A) then B else A;
      assert !s.At(free).fenced && s.metadataHolder != Some(free);
    }
  }

  ghost function PromotionCount(trace: seq<Action>): nat {
    if trace == [] then 0
    else PromotionCount(trace[..|trace| - 1]) + if trace[|trace| - 1].Candidate().Some? then 1 else 0
  }

  lemma StepEpoch(s: ModelState, action: Action)
    requires Step(s, action).Applied?
    ensures Step(s, action).next.epoch == s.epoch + if action.Candidate().Some? then 1 else 0
    ensures forall node: Node :: s.At(node).fenced ==> Step(s, action).next.At(node).fenced
    ensures s.nowTick <= Step(s, action).next.nowTick
  {
    hide CoreDecision;
  }

  /** The epoch counts the applied promotions of a run. */
  lemma {:induction false} EpochCountsPromotions(s: ModelState, trace: seq<Action>)
    requires Run(s, trace).Some?
    ensures Run(s, trace).value.epoch == s.epoch + PromotionCount(trace)
    decreases |trace|
  {
    if trace != [] {
      hide Step;
      var before, action := RunEndsInStep(s, trace);
      EpochCountsPromotions(s, trace[..|trace| - 1]);
      StepEpoch(before, action);
    }
  }

  /** Promotions that can still apply once some node is fenced. */
  ghost function PromotionsLeft(s: ModelState): nat {
    if CandidateLeft(s) then 1 else 0
  }

  lemma FencedStep(s: ModelState, action: Action)
    requires Inv(s) && Step(s, action).Applied?
    requires s.a.fenced || s.b.fenced
    ensures var t := Step(s, action).next;
            && (t.a.fenced || t.b.fenced)
            && t.epoch + PromotionsLeft(t) <= s.epoch + PromotionsLeft(s)
  {
    hide PromoteOutcome;
    StepEpoch(s, action);
    var t := Step(s, action).next;
    assert s.At(A).fenced || s.At(B).fenced;
    assert t.At(A).fenced || t.At(B).fenced;
    if action.Candidate().Some? {
      var candidate := action.Candidate().value;
      PromoteCollapses(s, candidate);
      assert !s.At(candidate).fenced && s.metadataHolder != Some(candidate);
      assert t.metadataHolder == Some(candidate) && t.At(Other(candidate)).fenced;
      assert !CandidateLeft(t);
    } else {
      assert t.metadataHolder == s.metadataHolder;
    }
  }

  lemma {:induction false} FencedRun(s: ModelState, trace: seq<Action>)
    requires Inv(s) && Run(s, trace).Some?
    requires s.a.fenced || s.b.fenced
    ensures var t := Run(s, trace).value;
            && (t.a.fenced || t.b.fenced)
            && t.epoch + PromotionsLeft(t) <= s.epoch + PromotionsLeft(s)
    decreases |trace|
  {
    if trace != [] {
      hide Step;
      hide Inv;
      hide PromotionsLeft;
      var before, action := RunEndsInStep(s, trace);
      RunKeepsInv(s, trace[..|trace| - 1]);
      FencedRun(s, trace[..|trace| - 1]);
      FencedStep(before, action);
    }
  }

  /** After the first fence of any node, at most one more promotion applies on any continuation. */
  lemma AtMostOnePromotionAfterFence(s: ModelState, trace: seq<Action>)
    requires Reachable(s) && (s.a.fenced || s.b.fenced)
    requires Run(s, trace).Some?
    ensures PromotionCount(trace) <= 1
  {
    ReachableInv(s);
    FencedRun(s, trace);
    EpochCountsPromotions(s, trace);
  }

  // ------------------------------------------------------ the bound is attained

  /** The node promoted k-th when the nodes take turns, starting with A. */
  ghost function Turn(k: nat): Node {
    if k % 2 == 1 then A else B
  }

  ghost function PromotedNode(k: nat): NodeState
    requires 1 <= k <= 64
  {
    INITIAL_NODE.(acceptedEpoch := k, gate := Some(GateLease(k, 1, 4 * (k - 1) + 3)))
  }

  /** The state right after k promotions taken in turn, each as early as the guard allows. */
  ghost function Ladder(k: nat): ModelState
    requires 1 <= k <= 64
  {
    ModelState(4 * (k - 1), k, Some(Turn(k)), Some(4 * (k - 1) + 3), true, INITIAL_NODE, INITIAL_NODE)
      .With(Turn(k), PromotedNode(k))
      .With(Other(Turn(k)), if k == 1 then INITIAL_NODE else PromotedNode(k - 1))
  }

  lemma TimeReachable(s: ModelState, ticks: nat)
    requires Reachable(s) && s.nowTick + ticks <= U8_MAX
    ensures Reachable(s.(nowTick := s.nowTick + ticks))
  {
    hide PromoteOutcome;
    hide Reachable;
    if ticks > 0 {
      TimeReachable(s, ticks - 1);
      var t := s.(nowTick := s.nowTick + ticks - 1);
      assert Step(t, AdvanceTime) == Applied(s.(nowTick := s.nowTick + ticks));
      ReachableStep(t, AdvanceTime);
    }
  }

  function PromoteOf(node: Node): Action {
    match node
    case A => PromoteA
    case B => PromoteB
  }

  lemma GuardReaches(s: ModelState, candidate: Node)
    requires Reachable(s) && Guard(s, candidate) && s.epoch < U64_MAX
    ensures Reachable(Promoted(s, candidate, s.epoch + 1, s.nowTick + 3))
  {
    hide PromoteOutcome;
    hide Reachable;
    PromotionIffGuard(s, candidate);
    assert Step(s, PromoteOf(candidate)) == PromoteOutcome(s, candidate);
    ReachableStep(s, PromoteOf(candidate));
  }

  /** Four ticks after a promotion the other node satisfies the guard, and its promotion is the next rung. */
  lemma LadderRung(k: nat)
    requires 1 <= k <= 63
    ensures
      var s := Ladder(k).(nowTick := 4 * k);
      && Guard(s, Turn(k + 1))
      && Promoted(s, Turn(k + 1), k + 1, 4 * k + 3) == Ladder(k + 1)
  {
    assert Turn(k + 1) == Other(Turn(k));
  }

  lemma InitialReachable()
    ensures Reachable(INITIAL_STATE)
  {
    hide Step;
    assert Run(INITIAL_STATE, []) == Some(INITIAL_STATE);
  }

  lemma LadderStarts()
    ensures Reachable(Ladder(1))
  {
    hide PromoteOutcome;
    hide Reachable;
    InitialReachable();
    GuardReaches(INITIAL_STATE, A);
    assert Promoted(INITIAL_STATE, A, 1, 3) == Ladder(1);
  }

  lemma LadderClimbs(k: nat)
    requires 1 <= k <= 63 && Reachable(Ladder(k))
    ensures Reachable(Ladder(k + 1))
  {
    hide Reachable;
    hide Guard;
    hide Promoted;
    hide PromoteOutcome;
    LadderRung(k);
    assert Ladder(k).nowTick == 4 * (k - 1) && Ladder(k).epoch == k;
    TimeReachable(Ladder(k), 4);
    GuardReaches(Ladder(k).(nowTick := 4 * k), Turn(k + 1));
  }

  lemma {:induction false} LadderReachable(k: nat)
    requires 1 <= k <= 64
    ensures Reachable(Ladder(k))
  {
    hide *;
    if k == 1 {
      LadderStarts();
    } else {
      LadderReachable(k - 1);
      LadderClimbs(k - 1);
    }
  }

  /** Epoch 65 is reached: sixty-four turns, then a fence of the last holder and one more promotion. */
  lemma EpochBoundAttained()
    ensures exists s :: Reachable(s) && s.epoch == 65
  {
    hide PromoteOutcome;
    hide Reachable;
    LadderReachable(64);
    var s := Ladder(64);
    assert Turn(64) == B;
    assert Step(s, FenceB) == Applied(s.With(B, Fenced(s.b)));
    ReachableStep(s, FenceB);
    var t := s.With(B, Fenced(s.b));
    GuardReaches(t, A);
    assert Reachable(Promoted(t, A, 65, 255));
  }
}
