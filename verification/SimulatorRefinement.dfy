/**
 The model against the core: the compact lease answers as the real gate would,
 and every run of the model is a chain of accepted promotion proofs.
 */
module SimulatorRefinement {
  import opened Types
  import opened Promotion
  import opened PromotionProperties
  import opened GateTransitions
  import opened Explorer
  import opened Simulator
  import opened SimulatorInvariant
  import opened SimulatorSafety
  import opened SimulatorEpochs
  import opened SimulatorHandover

  // -------------------------------------------- the compact lease and the gate

  /** Either the model takes a step or the kept gate is asked about an effect at the current tick. */
  datatype Probe = Do(action: Action) | Ask

  /** Actions after which the model no longer relies on the lease of this promotion. */
  predicate EndsLease(node: Node, action: Action) {
    action in {CrashOf(node), FenceOf(node), PromoteOf(node)}
  }

  function Answer(t: ModelState, gate: GateView, node: Node, epoch: Epoch): (GateView, Result<(), GateError>) {
    CheckTransition(gate, Millis(t.nowTick), NodeIdOf(node), epoch)
  }

  /** Model and gate side by side under any interleaving of applied actions and questions. */
  ghost function Watch(s: ModelState, gate: GateView, node: Node, epoch: Epoch, probes: seq<Probe>)
    : Option<(ModelState, GateView)>
  {
    if probes == [] then Some((s, gate))
    else
      var before := Watch(s, gate, node, epoch, probes[..|probes| - 1]);
      if before.None? then None
      else
        var (t, g) := before.value;
        match probes[|probes| - 1]
        case Ask => Some((t, Answer(t, g, node, epoch).0))
        case Do(action) =>
          if !EndsLease(node, action) && Step(t, action).Applied? then Some((Step(t, action).next, g)) else None
  }

  /** The node still carries the lease, and the gate is open for it or closed itself after its expiry. */
  ghost predicate Follows(t: ModelState, gate: GateView, node: Node, epoch: Epoch, expiresAtTick: U8) {
    var n := t.At(node);
    && epoch > 0
    && n.powered && !n.fenced
    && n.gate == Some(GateLease(epoch, n.incarnation, expiresAtTick))
    && gate.lastObservedMs <= Millis(t.nowTick)
    && (gate.state == Open(NodeIdOf(node), epoch, Millis(expiresAtTick))
        || (gate.state.SelfFenced? && expiresAtTick <= t.nowTick))
  }

  lemma FollowsAnswersAlike(t: ModelState, gate: GateView, node: Node, epoch: Epoch, e: U8)
    requires Follows(t, gate, node, epoch, e)
    ensures Answer(t, gate, node, epoch).1.Ok? <==> t.Effective(node)
    ensures Follows(t, Answer(t, gate, node, epoch).0, node, epoch, e)
  {
  }

  lemma OtherActionsKeepLease(t: ModelState, action: Action, node: Node)
    requires Inv(t) && Step(t, action).Applied? && !EndsLease(node, action)
    requires t.At(node).powered
    ensures
      var u := Step(t, action).next;
      && u.At(node).powered
      && u.At(node).fenced == t.At(node).fenced
      && u.At(node).gate == t.At(node).gate
      && u.At(node).incarnation == t.At(node).incarnation
      && t.nowTick <= u.nowTick
  {
    hide PromoteOutcome;
    if action.Candidate().Some? {
      PromoteCollapses(t, action.Candidate().value);
      assert action.Candidate().value == Other(node);
    }
  }

  lemma {:induction false} WatchFollows(s: ModelState, gate: GateView, node: Node, epoch: Epoch, e: U8,
                                        probes: seq<Probe>)
    requires Inv(s) && Follows(s, gate, node, epoch, e)
    requires Watch(s, gate, node, epoch, probes).Some?
    ensures
      var (t, g) := Watch(s, gate, node, epoch, probes).value;
      Inv(t) && Follows(t, g, node, epoch, e)
    decreases |probes|
  {
    if probes != [] {
      hide Inv;
      hide Step;
      hide Answer;
      hide EndsLease;
      WatchFollows(s, gate, node, epoch, e, probes[..|probes| - 1]);
      var (t, g) := Watch(s, gate, node, epoch, probes[..|probes| - 1]).value;
      match probes[|probes| - 1] {
        case Ask => FollowsAnswersAlike(t, g, node, epoch, e);
        case Do(action) =>
          StepKeepsInv(t, action);
          OtherActionsKeepLease(t, action, node);
      }
    }
  }

  lemma PromotionStartsFollowing(s: ModelState, node: Node)
    requires Inv(s) && Guard(s, node) && s.epoch < U64_MAX
    ensures Follows(Promoted(s, node, s.epoch + 1, s.nowTick + 3), PromotionGate(s, node), node, s.epoch + 1,
                    s.nowTick + 3)
  {
  }

  /**
   Keep the gate that a promotion opened and ask it at any later ticks: until
   the node crashes, is fenced or is promoted again it allows effects exactly
   when the compact lease says the node is effective.
   */
  lemma LeaseRefinesGate(s: ModelState, node: Node, probes: seq<Probe>)
    requires Reachable(s) && Guard(s, node)
    ensures s.epoch < U64_MAX
    ensures Step(s, PromoteOf(node)) == Applied(Promoted(s, node, s.epoch + 1, s.nowTick + 3))
    ensures CoreDecision(s, node, s.epoch + 1, s.nowTick + 3) == Ok(PromotionGate(s, node))
    ensures
      var start := Promoted(s, node, s.epoch + 1, s.nowTick + 3);
      var watched := Watch(start, PromotionGate(s, node), node, s.epoch + 1, probes);
      watched.Some? ==>
        var (t, gate) := watched.value;
        Answer(t, gate, node, s.epoch + 1).1.Ok? <==> t.Effective(node)
  {
    hide Reachable;
    hide Inv;
    hide CoreDecision;
    hide Step;
    hide PromotionGate;
    hide Promoted;
    hide Follows;
    hide Answer;
    hide Watch;
    ReachableInv(s);
    PromoteByGuard(s, node);
    CoreCollapses(s, node);
    PromotionStartsFollowing(s, node);
    StepKeepsInv(s, PromoteOf(node));
    var start := Promoted(s, node, s.epoch + 1, s.nowTick + 3);
    var watched := Watch(start, PromotionGate(s, node), node, s.epoch + 1, probes);
    if watched.Some? {
      WatchFollows(start, PromotionGate(s, node), node, s.epoch + 1, s.nowTick + 3, probes);
      FollowsAnswersAlike(watched.value.0, watched.value.1, node, s.epoch + 1, s.nowTick + 3);
    }
  }

  // -------------------------------------------------------- boots and old proofs

  ghost function RestartCount(trace: seq<Action>, node: Node): nat {
    if trace == [] then 0
    else RestartCount(trace[..|trace| - 1], node) + if trace[|trace| - 1] == RestartOf(node) then 1 else 0
  }

  lemma StepCountsBoots(s: ModelState, action: Action, node: Node)
    requires Step(s, action).Applied?
    ensures Step(s, action).next.At(node).incarnation ==
            s.At(node).incarnation + if action == RestartOf(node) then 1 else 0
  {
    hide CoreDecision;
  }

  /** The incarnation of a node counts its restarts on any run. */
  lemma {:induction false} IncarnationCountsRestarts(s: ModelState, trace: seq<Action>, node: Node)
    requires Run(s, trace).Some?
    ensures Run(s, trace).value.At(node).incarnation == s.At(node).incarnation + RestartCount(trace, node)
    decreases |trace|
  {
    if trace != [] {
      hide Step;
      var before, action := RunEndsInStep(s, trace);
      IncarnationCountsRestarts(s, trace[..|trace| - 1], node);
      StepCountsBoots(before, action, node);
    }
  }

  /** A capability issued to a node before it restarted never opens the gate of a later boot. */
  lemma RestartInvalidatesCapabilities(s: ModelState, trace: seq<Action>, node: Node, a: ValidatedPromotion, nowMs: U64)
    requires Run(s, trace).Some? && RestartCount(trace, node) > 0
    requires a.candidateIncarnation == s.At(node).incarnation
    ensures
      var gate := Recovered(NodeIdOf(node), WORKLOAD, POLICY_HASH, RecoveryOf(Run(s, trace).value, node));
      OpenedGate(gate, nowMs, a, a.candidate, a.epoch).None?
  {
    hide Run;
    hide OpenedGate;
    IncarnationCountsRestarts(s, trace, node);
    var gate := Recovered(NodeIdOf(node), WORKLOAD, POLICY_HASH, RecoveryOf(Run(s, trace).value, node));
    HandshakeSucceedsExactly(gate, nowMs, a, a.candidate, a.epoch);
  }

  /**
   In any state whatever, a node whose durable memory is ahead of the metadata
   is not promoted: the gate it would recover refuses the stale epoch.
   */
  lemma NewerMemoryBlocksPromotion(s: ModelState, node: Node)
    requires s.epoch < s.At(node).acceptedEpoch
    ensures PromoteOutcome(s, node).Rejected?
  {
    if s.epoch < U64_MAX && s.nowTick <= 252 {
      CoreRefusesStaleMemory(s, node, s.epoch + 1, s.nowTick + 3);
      hide CoreDecision;
    }
  }

  lemma CoreRefusesStaleMemory(s: ModelState, node: Node, newEpoch: Epoch, expiresAtTick: U8)
    requires newEpoch <= s.At(node).acceptedEpoch
    ensures CoreDecision(s, node, newEpoch, expiresAtTick).Err?
  {
    hide PromotionVerdict;
    hide OpenedGate;
    hide ModelPolicy;
    ModelPolicyIsSafe();
    var proof := ProofFor(s, node, newEpoch, expiresAtTick);
    var verdict := PromotionVerdict(proof, AuthorityOf(s), MODEL_POLICY, Millis(s.nowTick));
    VerdictIffAdmissible(proof, AuthorityOf(s), MODEL_POLICY, Millis(s.nowTick));
    if verdict.Ok? {
      HandshakeSucceedsExactly(Recovered(NodeIdOf(node), WORKLOAD, POLICY_HASH, RecoveryOf(s, node)), Millis(s.nowTick),
                               verdict.value, NodeIdOf(node), newEpoch);
    }
  }

  // ------------------------------------------------------ runs as proof chains

  /** The proof and time behind a promotion of the model. */
  ghost function LinkOf(s: ModelState, node: Node): Link
    requires PromoteOutcome(s, node).Applied?
  {
    Link(ProofFor(s, node, s.epoch + 1, s.nowTick + 3), Millis(s.nowTick))
  }

  /** The proofs a run submits, one at each of its promotions, built from the state the promotion starts in. */
  ghost function LinksOf(s: ModelState, trace: seq<Action>): seq<Link>
    requires Run(s, trace).Some?
    decreases |trace|
  {
    if trace == [] then []
    else
      var shorter, action := trace[..|trace| - 1], trace[|trace| - 1];
      LinksOf(s, shorter)
      + if action.Candidate().Some? then [LinkOf(Run(s, shorter).value, action.Candidate().value)] else []
  }

  lemma PromotionIsLink(s: ModelState, node: Node)
    requires Inv(s) && PromoteOutcome(s, node).Applied?
    ensures PromotionVerdict(LinkOf(s, node).proof, AuthorityOf(s), MODEL_POLICY, LinkOf(s, node).nowMs).Ok?
    ensures AuthorityOf(PromoteOutcome(s, node).next) == Installed(LinkOf(s, node).proof)
  {
    hide PromotionVerdict;
    hide PromoteOutcome;
    PromoteCollapses(s, node);
    hide Inv;
    ModelVerdict(s, node);
  }

  lemma OtherStepKeepsAuthority(s: ModelState, action: Action)
    requires Step(s, action).Applied? && action.Candidate().None?
    ensures AuthorityOf(Step(s, action).next) == AuthorityOf(s)
  {
    hide PromoteOutcome;
  }

  lemma ChainExtends(start: AuthorityState, policy: SafetyPolicy, links: seq<Link>, link: Link)
    requires Chain(start, policy, links)
    requires PromotionVerdict(link.proof, AuthorityAt(start, links, |links|), policy, link.nowMs).Ok?
    ensures Chain(start, policy, links + [link])
    ensures AuthorityAt(start, links + [link], |links| + 1) == Installed(link.proof)
  {
    hide PromotionVerdict;
    var longer := links + [link];
    forall k | 0 <= k < |longer| ensures LinkAccepted(start, policy, longer, k) {
      assert AuthorityAt(start, longer, k) == AuthorityAt(start, links, k);
      if k < |links| {
        assert LinkAccepted(start, policy, links, k);
      }
    }
  }

  lemma {:induction false} LinksAreChain(s: ModelState, trace: seq<Action>)
    requires Inv(s) && Run(s, trace).Some?
    ensures |LinksOf(s, trace)| == PromotionCount(trace)
    ensures Chain(AuthorityOf(s), MODEL_POLICY, LinksOf(s, trace))
    ensures AuthorityAt(AuthorityOf(s), LinksOf(s, trace), PromotionCount(trace)) == AuthorityOf(Run(s, trace).value)
    decreases |trace|
  {
    if trace != [] {
      hide Inv;
      hide Chain;
      hide AuthorityOf;
      hide PromoteOutcome;
      hide PromotionVerdict;
      var shorter := trace[..|trace| - 1];
      var before, action := RunEndsInStep(s, trace);
      RunKeepsInv(s, shorter);
      LinksAreChain(s, shorter);
      if action.Candidate().Some? {
        var node := action.Candidate().value;
        PromotionIsLink(before, node);
        ChainExtends(AuthorityOf(s), MODEL_POLICY, LinksOf(s, shorter), LinkOf(before, node));
      } else {
        OtherStepKeepsAuthority(before, action);
        assert LinksOf(s, trace) == LinksOf(s, shorter);
      }
    }
  }

  lemma {:induction false} PrefixRuns(s: ModelState, trace: seq<Action>, k: nat)
    requires Run(s, trace).Some? && k <= |trace|
    ensures Run(s, trace[..k]).Some?
    ensures LinksOf(s, trace[..k]) <= LinksOf(s, trace)
    decreases |trace|
  {
    if k < |trace| {
      hide Step;
      var shorter := trace[..|trace| - 1];
      var before, action := RunEndsInStep(s, trace);
      PrefixRuns(s, shorter, k);
      assert trace[..k] == shorter[..k];
    } else {
      assert trace[..k] == trace;
    }
  }

  /**
   Every run of the model is justified by the proofs of its own promotions: the
   real validator accepts them one after the other under one safe policy, each
   against the authority in force when it was submitted, and they end in the
   authority that the model's metadata records.
   */
  lemma RunsAreProofChains(trace: seq<Action>)
    requires Run(INITIAL_STATE, trace).Some?
    ensures SafePolicy(MODEL_POLICY)
    ensures |LinksOf(INITIAL_STATE, trace)| == PromotionCount(trace)
    ensures Chain(INITIAL_AUTHORITY, MODEL_POLICY, LinksOf(INITIAL_STATE, trace))
    ensures AuthorityAt(INITIAL_AUTHORITY, LinksOf(INITIAL_STATE, trace), PromotionCount(trace))
            == AuthorityOf(Run(INITIAL_STATE, trace).value)
  {
    hide Run;
    hide Chain;
    ModelPolicyIsSafe();
    PolicyConstruction(WORKLOAD, POLICY_HASH, [NodeIdOf(A), NodeIdOf(B)], [NodeIdOf(A), NodeIdOf(B), WITNESS_ID],
                       2, Some(WITNESS_ID), 3, 500, 300, 100, true);
    assert AuthorityOf(INITIAL_STATE) == INITIAL_AUTHORITY;
    LinksAreChain(INITIAL_STATE, trace);
  }

  /** The link at the position of a promotion is the proof that this very promotion built, and installs its outcome. */
  lemma PromotionOwnsLink(trace: seq<Action>, k: nat)
    requires Run(INITIAL_STATE, trace).Some?
    requires k < |trace| && trace[k].Candidate().Some?
    ensures Run(INITIAL_STATE, trace[..k]).Some?
    ensures
      var before, node := Run(INITIAL_STATE, trace[..k]).value, trace[k].Candidate().value;
      var i := PromotionCount(trace[..k]);
      && PromoteOutcome(before, node).Applied?
      && i < |LinksOf(INITIAL_STATE, trace)|
      && LinksOf(INITIAL_STATE, trace)[i] == LinkOf(before, node)
      && AuthorityAt(INITIAL_AUTHORITY, LinksOf(INITIAL_STATE, trace), i) == AuthorityOf(before)
  {
    hide PromoteOutcome;
    hide Inv;
    PrefixRuns(INITIAL_STATE, trace, k + 1);
    PrefixRuns(INITIAL_STATE, trace[..k + 1], k);
    assert trace[..k + 1][..k] == trace[..k];
    var before, action := RunEndsInStep(INITIAL_STATE, trace[..k + 1]);
    RunsAreProofChains(trace[..k]);
  }
}
