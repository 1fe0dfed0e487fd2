# QuorumArc Gate 0, verified

A Dafny model of QuorumArc's safety core and of the simulator that explores it.
QuorumArc lets a node create external effects only after a *promotion proof*
(quorum, fence, durable state, health, lease, policy) has been validated and a
local *effect gate* has been staged, durably confirmed and activated. The
simulator runs two data nodes and a witness through nineteen fault and control
actions and looks for a state with two effective writers.

The project models three parts and proves the theorems that cross them.

| file | content |
|---|---|
| `Types.dfy` | machine integers with checked arithmetic, options and results, identifiers |
| `Findings.dfy` | ordered checks of some evidence, and the first that fails |
| `Promotion.dfy` | evidence, safety policy, the ordered validator as functions and as procedures |
| `PromotionProperties.dfy` | acceptance as an order-free rule, acceptance interval, the error reported for every defect, quorum intersection, chains of authorities |
| `GateTransitions.dfy` | the gate as transitions between values of its fields, and histories of calls |
| `GateHistory.dfy` | laws of every history of one gate life, for arbitrary clock readings |
| `GateReplies.dfy` | which reason a gate refuses for, what a clock reading does, and the state that replies tell |
| `EffectSeparation.dfy` | one writer at a time for any gates fed by one chain of accepted proofs |
| `EffectGate.dfy` | the gate object with fields updated in place and a ghost history |
| `GateLives.dfy` | one node over many process lives with durable anti-replay state |
| `Explorer.dfy` | breadth-first exploration of any transition system, and what its report means |
| `Simulator.dfy` | the two-node model, promotion as a composition of validator and gate, and the same as procedures |
| `SimulatorInvariant.dfy` | the inductive invariant, and promotion collapsing to a small guard |
| `SimulatorSafety.dfy` | single writer on every run, safety of every exploration |
| `SimulatorEpochs.dfy` | the epoch bound 65, the cost of a fence, and a run that attains the bound |
| `SimulatorHandover.dfy` | who can change the writer, the hand-over gap, faults and repairs, when a promotion is still possible |
| `SimulatorActions.dfy` | when each action applies, what it changes and what it leaves alone, on every run |
| `SimulatorRefinement.dfy` | the compact lease against the real gate, runs as chains of accepted proofs |

How the model is built:

- Integers are bounded subset types. Every place where the source can overflow
  goes through a checked addition or subtraction that returns an option.
- A clock reading is an argument of each gate call, so nothing is assumed about
  the clock. Persistence appears as explicit records and, in `GateLives.dfy`,
  as an explicit promise (`Allowed`) of the adapter and the boot sequence.
- Each procedure that loops or updates fields is proved equal to a function of
  its inputs or of the old fields; the theorems are about those functions. The
  gate object carries a ghost history that ties its fields to them.
- `Promote` builds the proof, runs the validator and drives a gate object, as
  the source does. That it collapses to a guard is a theorem, not the model.
- The exploration loop is written for any step function; its three nested loops
  are the methods `Search`, `ExpandLayer` and `ExpandState`. `Explore` runs it
  on the two-node model.
- Statements of the form `hide F` inside proofs only narrow what the verifier
  looks at.

Where prose and code differ, the code is modelled. The list of checks in
`spec/promotion-proof-v0.1.md` does not mention that a candidate which already
holds authority is refused; the code refuses it, and the model follows it. An
open gate refuses a new capability even after its lease expired, until a tick or
a check notices the expiry or something else revokes it (`StagesNextOnceRevoked`).

## Model

| member | source | states |
|---|---|---|
| PromotionProperties.PolicyConstruction | crates/quorumarc-core/src/proof.rs:191-252 | a policy is constructed exactly when any two voter groups of quorum size share a member, its witness votes but is no candidate and its bounds are positive; otherwise the first defect in the order of the checks is reported |
| PromotionProperties.QuorumsIntersectIffMajority | crates/quorumarc-core/src/proof.rs:218-220 | the size test of the constructor is exact: all voter groups of quorum size intersect pairwise if and only if the quorum is more than half of the voters |
| Promotion.ValidateQuorum | crates/quorumarc-core/src/proof.rs:575-602 | the one-pass scan with a growing set gives the verdict and the first error of the voter specification |
| PromotionProperties.QuorumVerdictIffMet | crates/quorumarc-core/src/proof.rs:575-602 | the scan accepts exactly a duplicate-free list of configured voters that reaches the quorum, contains the candidate and the required witness; it returns those voters |
| Promotion.ValidatePromotion | crates/quorumarc-core/src/proof.rs:504-573 | the validator procedure over the looping quorum check agrees with the verdict function, error by error |
| PromotionProperties.VerdictIffAdmissible | crates/quorumarc-core/src/proof.rs:504-732 | the ordered validator accepts exactly the proofs that satisfy one order-free rule over bindings, quorum, fence, freshness, state, health and lease, stated in unbounded time; the capability holds, field by field, what the voters certified, the durable commit and the fence class |
| PromotionProperties.RefusalIsFirstDefect | crates/quorumarc-core/src/proof.rs:504-732 | the validator reports an error exactly when it is the first defect of the evidence in the order of the checks, and accepts exactly when there is none |
| PromotionProperties.AcceptanceIsOneInterval | crates/quorumarc-core/src/proof.rs:544-573 | for one proof the accepting times are exactly one interval from the latest start to the earliest end of evidence and lease, and all of them yield the same capability |
| PromotionProperties.AcceptedQuorumsIntersect | crates/quorumarc-core/src/proof.rs:575-619 | any two proofs accepted under one safe policy, at whatever times and authorities, share a voter; a required witness is in both, verified both fences and is neither candidate |
| PromotionProperties.ChainEpochsIncrease | crates/quorumarc-core/src/proof.rs:516-518 | in a chain where each accepted proof becomes the next authority, epochs grow by at least one per link |
| PromotionProperties.ChainHandsOver | crates/quorumarc-core/src/proof.rs:522-524 | in such a chain neighbouring holders differ, every later link fences exactly its predecessor, and bootstrap is the mechanism of the first link of an empty authority and of no other |
| PromotionProperties.ChainLeasesSeparated | crates/quorumarc-core/src/proof.rs:645-658 | links joined by gate-expiry fences have leases separated by all guards in between plus one millisecond per intermediate link |
| GateHistory.MemoryNeverDecreases | crates/quorumarc-core/src/gate.rs:407-419 | over any calls and readings the accepted epoch and the observed time never decrease and the binding never changes |
| GateHistory.ReceiptsStrictlyIncrease | crates/quorumarc-core/src/gate.rs:291-326 | receipts of one life carry strictly increasing epochs above the recovered one |
| GateHistory.ClosedEpochNeverReopens | crates/quorumarc-core/src/gate.rs:329-355 | once the gate has left Open at an epoch, no later effect check for it succeeds in that life |
| GateHistory.RevocationIsFinal | crates/quorumarc-core/src/gate.rs:379-394 | after a close, a fault, a clock rollback or a noticed expiry, no epoch accepted so far is ever effective again |
| GateHistory.OpenLastsUntilRevoked | crates/quorumarc-core/src/gate.rs:329-394 | over any calls an open gate keeps its authority exactly as long as no close, fault, rollback or noticed expiry occurs; no other refusal or call takes it away |
| GateHistory.StagesNextOnceRevoked | crates/quorumarc-core/src/gate.rs:252-267 | an open gate, even one whose lease ran out, stages nothing before it is revoked; the first capability it stages afterwards is exactly a newer one bound to it, without a rollback |
| GateHistory.EffectIffAuthorized | crates/quorumarc-core/src/gate.rs:329-355 | an effect is allowed if and only if one capability bound to this gate was staged, confirmed and activated with no close since, and holder, epoch and clock match it |
| GateHistory.EffectInsideValidatedWindow | crates/quorumarc-core/src/gate.rs:235-355 | an allowed effect lies inside a validated lease window on the capability's own node, no longer than the maximum of the policy the gate is pinned to |
| GateHistory.ReceiptAttestsProof | crates/quorumarc-core/src/gate.rs:307-324 | every receipt reports, field by field, a proof that the validator accepted, and an activation time inside the lease the voters bound |
| GateHistory.StagedEpochIdentifiesCapability | crates/quorumarc-core/src/gate.rs:252-267 | two successful stages of one epoch in one life carried the same capability |
| GateHistory.RecordConfirmsUntilTimeMoves | crates/quorumarc-core/src/gate.rs:271-288 | an issued record confirms exactly while its capability is staged and observed time has not moved; restaging always yields a record that confirms |
| GateReplies.RefusalIsFirstReason | crates/quorumarc-core/src/gate.rs:235-376 | a gate refuses a call exactly when some reason to refuse it holds, and names the first one in the order of its checks |
| GateReplies.ObservedTimeIsMaximum | crates/quorumarc-core/src/gate.rs:407-419 | over any calls the observed time is the largest of the recovered time and all readings so far |
| GateReplies.RollbackNoticed | crates/quorumarc-core/src/gate.rs:407-419 | a reading is refused as a rollback exactly when an earlier reading or the recovered time is larger, and the gate is then fenced by a fault at its last epoch |
| GateReplies.ExpiryNoticed | crates/quorumarc-core/src/gate.rs:329-376 | no gate is open past its expiry after a check or a tick, and a tick reports an expiry exactly when it ends an open lease |
| GateReplies.RepliesTellState | crates/quorumarc-core/src/gate.rs:235-394 | calls and replies together determine the state, with the reason of every fence: what is not reported changes nothing |
| GateReplies.RefusedConfirmationChangesNothing | crates/quorumarc-core/src/gate.rs:271-288 | a confirmation is refused exactly if no staged capability of this gate, epoch and observed time is named, and leaves the gate as it was |
| GateReplies.WaitsUntilMoved | crates/quorumarc-core/src/gate.rs:235-326 | a staged or prepared capability waits exactly until it is confirmed or activated, another one is staged, or the gate is revoked |
| Gate.EffectGate.Recover | crates/quorumarc-core/src/gate.rs:208-226 | a recovered gate is closed at the durable epoch with the durable incarnation and time |
| Gate.EffectGate.Stage | crates/quorumarc-core/src/gate.rs:235-268 | staging in place performs the stage transition and is recorded in the history |
| Gate.EffectGate.ConfirmPersisted | crates/quorumarc-core/src/gate.rs:271-288 | taking the state out and restoring or replacing it performs the confirm transition |
| Gate.EffectGate.Activate | crates/quorumarc-core/src/gate.rs:291-326 | activation in place performs the transition, and its receipt is newer than the recovered epoch and every earlier receipt of the object |
| Gate.EffectGate.CheckEffect | crates/quorumarc-core/src/gate.rs:329-355 | the object allows an effect if and only if its own history authorizes it |
| Gate.EffectGate.Tick | crates/quorumarc-core/src/gate.rs:358-376 | a tick in place performs the tick transition |
| Gate.EffectGate.Close | crates/quorumarc-core/src/gate.rs:379-385 | an explicit close fences the gate and keeps its epoch memory |
| Gate.EffectGate.ReportFault | crates/quorumarc-core/src/gate.rs:388-394 | a reported fault fences the gate and keeps its epoch memory |
| GateLives.ReceiptsIncreaseAcrossLives | crates/quorumarc-core/src/gate.rs:94-114 | with records durable in issue order before confirmation and growing incarnations, receipts strictly increase over all process lives |
| GateLives.EffectsIncreaseAcrossLives | crates/quorumarc-core/src/gate.rs:329-355 | under the same promise the epochs of allowed effects never decrease, and effects of different lives have strictly increasing epochs |
| GateLives.DurableTimeNeverDecreases | crates/quorumarc-core/src/gate.rs:130-132 | durable time never decreases and no life works below a durable time |
| GateLives.DiskIsDurableMaximum | crates/quorumarc-core/src/gate.rs:94-131 | under the same promise the recovery state is exactly the newest of what was committed: nothing committed is newer, and its epoch and time were committed or there from the start |
| GateLives.EarlierCapabilityNeverStaged | crates/quorumarc-core/src/gate.rs:248-250 | once a life has booted, capabilities issued to earlier incarnations are never staged |
| GateLives.EpochReopensUnlessDurable | docs/SAFETY.md:23-28 | whatever happened before, a rebooted gate can activate an epoch, under a capability the validator issues to the new incarnation, exactly while that epoch is not on disk |
| GateLives.FalseConfirmationReplaysEpoch | docs/SAFETY.md:23-28 | without the adapter's promise the guarantee is lost: after a record was confirmed before it was durable, a correctly numbered reboot can activate the same epoch again under a newly issued capability |
| EffectSeparation.OneWriterAtATime | docs/SAFETY.md:7 | for any two gates fed by one chain of accepted proofs, effects of one epoch come from one node and boot, and an effect of a later epoch follows every effect of an earlier one by more than the guard unless an external fence lies in between |
| Explorer.WithinIffReplay | crates/quorumarc-sim/src/lib.rs:592-626 | the layers of the search are exactly the states that runs of bounded length reach |
| Explorer.ExpandState | crates/quorumarc-sim/src/lib.rs:595-620 | trying all actions in one state keeps visited states, traces, counters and the violation log exact |
| Explorer.ExpandLayer | crates/quorumarc-sim/src/lib.rs:594-621 | expanding a frontier in any order makes the search exact for the next layer |
| Explorer.Search | crates/quorumarc-sim/src/lib.rs:583-632 | at every depth the search visits exactly the states within it, counts applied attempts and refused promotions exactly, and logs every violating attempt once in order of length |
| Explorer.StoredTracesAreShortest | crates/quorumarc-sim/src/lib.rs:605-608 | no run reaches a visited state in fewer actions than its stored trace |
| Explorer.FirstViolationIsShortest | crates/quorumarc-sim/src/lib.rs:597-604 | for every step function all reported violations replay, and the first is as short as any violating run within the depth |
| Explorer.SafeIffNoViolatingRun | crates/quorumarc-sim/src/lib.rs:571-578 | a report is safe exactly when no nonempty run within the depth ends with two writers |
| Simulator.Draft.Crash | crates/quorumarc-sim/src/lib.rs:475-483 | a crash turns the node off and drops its gate, and reports whether the state changed |
| Simulator.Draft.Restart | crates/quorumarc-sim/src/lib.rs:485-498 | a restart boots an unfenced node with the next incarnation and no gate, and reports whether the state changed |
| Simulator.Draft.FenceNode | crates/quorumarc-sim/src/lib.rs:538-545 | a fence turns the node off for good, and reports whether the state changed |
| Simulator.Apply | crates/quorumarc-sim/src/lib.rs:264-301 | editing a clone and reporting a change is the transition function of the model |
| Simulator.Promote | crates/quorumarc-sim/src/lib.rs:303-459 | building the proof, validating it and driving a real gate object gives the promotion outcome of the transition function |
| SimulatorInvariant.HandshakeSucceedsExactly | crates/quorumarc-core/src/gate.rs:235-355 | stage, confirm, activate and check at one reading succeed on any gate exactly for its own, running, sufficiently new (or already staged) capability, and then leave it open for precisely that capability |
| SimulatorInvariant.CoreCollapses | crates/quorumarc-sim/src/lib.rs:315-445 | for an eligible candidate, validator and gate together accept exactly when the predecessor is excluded and the state caught up, and they leave exactly this gate open |
| SimulatorInvariant.PromoteCollapses | crates/quorumarc-sim/src/lib.rs:303-459 | in every invariant state a promotion equals the small guard, refusal by refusal |
| SimulatorSafety.StepKeepsInv | crates/quorumarc-sim/src/lib.rs:264-301 | every applied action keeps the invariant that ties gates, holder, lease, fences and epochs together |
| SimulatorSafety.SingleWriter | crates/quorumarc-sim/src/lib.rs:129-132 | after any run at most one node is effective, and it is the holder with a gate of the current epoch and boot |
| SimulatorSafety.WritersCounted | crates/quorumarc-sim/src/lib.rs:129-132 | the count of active writers is the number of effective nodes |
| SimulatorSafety.EveryConditionCounts | crates/quorumarc-sim/src/lib.rs:67-77 | in any state an effective gate stops being so when the node loses power, is fenced, reboots or drops its gate, when the gate has no epoch, and exactly from its expiry tick on |
| SimulatorSafety.Explore | crates/quorumarc-sim/src/lib.rs:581-633 | exploring the model to any depth visits exactly the states that runs of that length reach, by shortest traces; its counters are the applied actions and the refused promotions other than idle ones, attempted in every state nearer than the depth; and it finds no violation |
| SimulatorSafety.PromotionIffGuard | crates/quorumarc-sim/src/lib.rs:303-459 | in every reachable state a promotion applies exactly under the guard and the core is never the reason of a refusal |
| SimulatorEpochs.EpochBounded | crates/quorumarc-sim/src/lib.rs:315-320 | no run passes epoch 65, and without fences each epoch after the first costs four ticks |
| SimulatorEpochs.EpochCountsPromotions | crates/quorumarc-sim/src/lib.rs:447-450 | the epoch of a state counts the applied promotions of the run that led to it |
| SimulatorEpochs.AtMostOnePromotionAfterFence | crates/quorumarc-sim/src/lib.rs:538-545 | once a node is fenced, any continuation applies at most one more promotion |
| SimulatorEpochs.EpochBoundAttained | crates/quorumarc-sim/src/lib.rs:447-458 | some run reaches epoch 65 |
| SimulatorHandover.WriterChangesOnlyBy | crates/quorumarc-sim/src/lib.rs:67-77 | a node starts writing exactly by its own promotion and stops exactly by its own crash, fence or the tick that ends its lease |
| SimulatorActions.AppliesIffUseful | crates/quorumarc-sim/src/lib.rs:264-301 | in reachable states an action applies exactly when it has something to do, and an idle one is reported as no state change |
| SimulatorActions.StatusIsLastWord | crates/quorumarc-sim/src/lib.rs:461-545 | on any run power, connection, fence, lag and witness are what the last action that concerns them made of them; no other action repairs or causes a fault |
| SimulatorActions.AuthorityChangesOnlyBy | crates/quorumarc-sim/src/lib.rs:447-498 | epoch, holder and lease change only by a promotion, memory and gate only by the node's own promotion, except that its crash, restart and fence drop the gate; time and incarnation only by ticks and restarts |
| SimulatorHandover.FencedNeverWritesAgain | crates/quorumarc-sim/src/lib.rs:538-545 | no continuation makes a fenced node effective |
| SimulatorHandover.FaultBlocksUntilRepaired | crates/quorumarc-sim/src/lib.rs:303-310 | after a partition, witness outage, crash, lag or fence no run promotes the node before the matching repair, and nothing repairs a fence |
| SimulatorHandover.FenceExcludesCrashDoesNot | crates/quorumarc-sim/src/lib.rs:336-346 | after a fence of the holder the other node's promotion applies exactly if that node can run and has caught up; after a crash of the holder it applies exactly if it did before |
| SimulatorHandover.HandoverTakesTwoTicks | crates/quorumarc-core/src/proof.rs:645-658 | along any run, effectiveness of one node and later of the other, the first still unfenced, are at least two ticks apart |
| SimulatorHandover.NoSafetyDeadlock | crates/quorumarc-sim/src/lib.rs:264-301 | with time left, any unfenced node that is not the holder and can run becomes the only effective writer within five actions |
| SimulatorHandover.PromotionPossibleIffLive | crates/quorumarc-sim/src/lib.rs:303-459 | some run promotes a node exactly when there is time for a lease and some node is unfenced, not the holder and able to run; in every other reachable state authority is never granted again |
| SimulatorRefinement.LeaseRefinesGate | crates/quorumarc-sim/src/lib.rs:431-457 | the gate opened inside a promotion, asked at any later ticks, allows effects exactly when the compact lease is effective, until crash, fence or re-promotion |
| SimulatorRefinement.IncarnationCountsRestarts | crates/quorumarc-sim/src/lib.rs:485-498 | on any run the incarnation of a node counts its restarts |
| SimulatorRefinement.RestartInvalidatesCapabilities | crates/quorumarc-core/src/gate.rs:248-250 | a capability issued to a node before a restart never opens the gate of a later boot |
| SimulatorRefinement.NewerMemoryBlocksPromotion | crates/quorumarc-sim/src/lib.rs:431-445 | in any state, reachable or not, a node whose accepted epoch is ahead of the metadata is not promoted |
| SimulatorRefinement.RunsAreProofChains | crates/quorumarc-sim/src/lib.rs:321-428 | the proofs that a run's own promotions build form a chain accepted by the real validator under one safe policy, one per promotion, ending in the recorded authority |
| SimulatorRefinement.PromotionOwnsLink | crates/quorumarc-sim/src/lib.rs:348-459 | the chain's link at the position of a promotion is the proof built from the very state it starts in, judged against the authority recorded there |

## Left out

- The order in which ordered maps are walked: the exploration may take the states of a layer in any order, and its contract holds for each; which of several equally short traces is stored is therefore open.
- Identifier character rules, byte getters, display texts and error messages: identifiers are compared for equality only.
- The ownership rules that make a capability impossible to clone: a capability is a value, and `OnlyIssuedStaged` states that only the validator makes them.
- Real persistence, real clocks, signatures, networking and hardware fencing, which the source treats as trust boundaries.
- Concurrent metadata views, message delay, witness double votes and clock skew, which the source documents as outside its model.
- The width of counters and collection sizes in reports: they are natural numbers.
- The command-line programs of the simulator, the agent and the witness: argument parsing and printing.
- Explorer.Search: requires that no action is listed twice, which the action list of the model satisfies (`ActionsListedOnce`).
