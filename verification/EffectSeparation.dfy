/**
 The first safety invariant for the core itself: gates whose capabilities come
 from one chain of accepted proofs never let two authorities act side by side.
 */
module EffectSeparation {
  import opened Types
  import opened Promotion
  import opened PromotionProperties
  import opened GateTransitions
  import opened GateHistory

  /** The capability is the one that the validator issued for link i of the chain. */
  ghost predicate IssuedByLink(start: AuthorityState, policy: SafetyPolicy, links: seq<Link>, i: nat,
                               a: ValidatedPromotion) {
    && i < |links|
    && PromotionVerdict(links[i].proof, AuthorityAt(start, links, i), policy, links[i].nowMs) == Ok(a)
  }

  ghost predicate StagesOnlyFrom(start: AuthorityState, policy: SafetyPolicy, links: seq<Link>, calls: seq<Call>) {
    forall k | 0 <= k < |calls| && calls[k].StageCall? ::
      exists i: nat :: IssuedByLink(start, policy, links, i, calls[k].authorization)
  }

  /** Call k is an allowed effect of a gate that stages only capabilities of the chain. */
  ghost predicate Effect(start: AuthorityState, policy: SafetyPolicy, links: seq<Link>, origin: GateView,
                         calls: seq<Call>, k: nat) {
    && origin.state.Closed?
    && StagesOnlyFrom(start, policy, links, calls)
    && k < |calls| && calls[k].CheckCall?
    && ReplyTo(origin, calls, k) == Accepted
  }

  /** Link m was accepted because an external mechanism had fenced the authority before it. */
  ghost predicate FencedExternally(start: AuthorityState, links: seq<Link>, m: nat) {
    && m < |links|
    && links[m].proof.fence.mechanism in {HardwarePower, StorageReservation}
    && links[m].proof.fence.target == AuthorityAt(start, links, m).holder
  }

  lemma LinkCapability(start: AuthorityState, policy: SafetyPolicy, links: seq<Link>, i: nat, a: ValidatedPromotion)
    requires IssuedByLink(start, policy, links, i, a)
    ensures a == CapabilityOf(links[i].proof, ClassOf(links[i].proof.fence.mechanism))
  {
    VerdictIffAdmissible(links[i].proof, AuthorityAt(start, links, i), policy, links[i].nowMs);
  }

  /** Every effect belongs to one link: its gate is the candidate's, and it happens inside that link's lease. */
  lemma EffectHasLink(start: AuthorityState, policy: SafetyPolicy, links: seq<Link>, origin: GateView, calls: seq<Call>,
                      k: nat) returns (i: nat)
    requires Effect(start, policy, links, origin, calls, k)
    ensures i < |links|
    ensures (origin.node, origin.incarnation) == (links[i].proof.candidate, links[i].proof.candidateIncarnation)
    ensures (origin.workload, origin.policyHash) == (links[i].proof.workload, links[i].proof.policyHash)
    ensures (calls[k].holder, calls[k].epoch) == (links[i].proof.candidate, links[i].proof.epoch)
    ensures links[i].proof.lease.notBeforeMs <= calls[k].nowMs < links[i].proof.lease.expiresAtMs
  {
    EffectIffAuthorized(origin, calls, k);
    hide ReplyTo;
    hide StateAfter;
    hide IssuedByLink;
    var s: nat, j: nat, m: nat :| AuthorizedBy(origin, calls, k, s, j, m);
    i :| IssuedByLink(start, policy, links, i, calls[s].authorization);
    LinkCapability(start, policy, links, i, calls[s].authorization);
    assert i < |links| by {
      assert IssuedByLink(start, policy, links, i, calls[s].authorization);
    }
  }

  lemma ExpiryLinksSeparated(start: AuthorityState, policy: SafetyPolicy, links: seq<Link>, i: nat, j: nat)
    requires Chain(start, policy, links) && i < j < |links|
    requires forall m | i < m <= j :: links[m].proof.fence.mechanism == EffectGateExpired
    ensures links[i].proof.lease.expiresAtMs + policy.leaseGuardMs <= links[j].proof.lease.notBeforeMs
  {
    hide Chain;
    ChainLeasesSeparated(start, policy, links, i, j);
    AtLeastOnce(j - i, policy.leaseGuardMs);
  }

  lemma AtLeastOnce(n: nat, guard: nat)
    requires n > 0
    ensures guard <= n * guard
  {
  }

  lemma OtherFenceIsExternal(start: AuthorityState, policy: SafetyPolicy, links: seq<Link>, m: nat)
    requires Chain(start, policy, links) && 0 < m < |links|
    requires links[m].proof.fence.mechanism != EffectGateExpired
    ensures FencedExternally(start, links, m)
  {
    hide PromotionVerdict;
    ChainHandsOver(start, policy, links, m);
    LinkAdmissible(start, policy, links, m);
  }

  lemma LinksSeparated(start: AuthorityState, policy: SafetyPolicy, links: seq<Link>, i: nat, j: nat)
    requires Chain(start, policy, links) && i < j < |links|
    ensures links[i].proof.epoch < links[j].proof.epoch
    ensures
      || links[i].proof.lease.expiresAtMs + policy.leaseGuardMs <= links[j].proof.lease.notBeforeMs
      || exists m :: i < m <= j && FencedExternally(start, links, m)
  {
    hide Chain;
    ChainEpochsIncrease(start, policy, links, i + 1, j + 1);
    if forall m | i < m <= j :: links[m].proof.fence.mechanism == EffectGateExpired {
      ExpiryLinksSeparated(start, policy, links, i, j);
    } else {
      var m :| i < m <= j && links[m].proof.fence.mechanism != EffectGateExpired;
      OtherFenceIsExternal(start, policy, links, m);
    }
  }

  /**
   At most one externally effective writer. Two effects of one epoch come from
   the same node and boot. An effect of a later epoch follows every effect of an
   earlier one by more than the guard, whichever gates and clock readings are
   involved, unless a proof in between rests on an external fence.
   */
  lemma OneWriterAtATime(start: AuthorityState, policy: SafetyPolicy, links: seq<Link>,
                         origin: GateView, calls: seq<Call>, k: nat,
                         other: GateView, otherCalls: seq<Call>, n: nat)
    requires Chain(start, policy, links)
    requires Effect(start, policy, links, origin, calls, k)
    requires Effect(start, policy, links, other, otherCalls, n)
    ensures calls[k].epoch == otherCalls[n].epoch ==>
              SameBinding(origin, other) && calls[k].holder == otherCalls[n].holder == origin.node
    ensures calls[k].epoch < otherCalls[n].epoch ==>
              || calls[k].nowMs + policy.leaseGuardMs < otherCalls[n].nowMs
              || exists m: nat ::
                   && FencedExternally(start, links, m)
                   && calls[k].epoch < links[m].proof.epoch <= otherCalls[n].epoch
  {
    hide Effect;
    hide FencedExternally;
    hide Chain;
    var i := EffectHasLink(start, policy, links, origin, calls, k);
    var j := EffectHasLink(start, policy, links, other, otherCalls, n);
    if i < j {
      LinksSeparated(start, policy, links, i, j);
      if m :| i < m <= j && FencedExternally(start, links, m) {
        LinksSeparated(start, policy, links, i, m);
        if m < j {
          LinksSeparated(start, policy, links, m, j);
        }
      }
    } else if j < i {
      LinksSeparated(start, policy, links, j, i);
    }
  }
}
