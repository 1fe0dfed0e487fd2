/**
 Breadth-first exploration of a deterministic transition system, with its
 report. The system is a parameter: the laws below hold for every step function.
 */
module Explorer {
  import opened Types

  datatype Outcome<+S, +R> = Applied(next: S) | Rejected(reason: R)

  /** What is explored: where it starts, which actions are tried, and what counts as a refused promotion. */
  datatype System<!S, !A, !R> = System(
    initial: S,
    actions: seq<A>,
    step: (S, A) -> Outcome<S, R>,
    writers: S -> nat,
    refusal: (A, R) -> bool)

  datatype Violation<+A> = Violation(trace: seq<A>, activeWriters: nat)

  datatype Report<+A> = Report(
    depth: nat,
    statesExplored: nat,
    transitionsExplored: nat,
    rejectedPromotions: nat,
    violations: seq<Violation<A>>)
  {
    predicate IsSafe() {
      violations == []
    }
  }

  // ----------------------------------------------------- runs and distances

  /** The state that a sequence of applied actions leads to, if every action applies. */
  ghost function Replay<S, A, R>(sys: System<S, A, R>, trace: seq<A>): Option<S> {
    if trace == [] then Some(sys.initial)
    else
      var before := Replay(sys, trace[..|trace| - 1]);
      var action := trace[|trace| - 1];
      if before.Some? && action in sys.actions && sys.step(before.value, action).Applied?
      then Some(sys.step(before.value, action).next)
      else None
  }

  lemma ReplayStep<S, A, R>(sys: System<S, A, R>, trace: seq<A>, action: A)
    requires Replay(sys, trace).Some? && action in sys.actions
    requires sys.step(Replay(sys, trace).value, action).Applied?
    ensures Replay(sys, trace + [action]) == Some(sys.step(Replay(sys, trace).value, action).next)
  {
    assert (trace + [action])[..|trace|] == trace;
  }

  /** Every attempt of an action in a state of the given set. */
  ghost function Pairs<S(!new), A(!new), R>(sys: System<S, A, R>, states: set<S>): set<(S, A)> {
    set s, a | s in states && a in sys.actions :: (s, a)
  }

  ghost function Taken<S(!new), A(!new), R>(sys: System<S, A, R>, pairs: set<(S, A)>): set<(S, A)> {
    set p | p in pairs && sys.step(p.0, p.1).Applied?
  }

  ghost predicate IsRefusal<S, A, R>(sys: System<S, A, R>, p: (S, A)) {
    sys.step(p.0, p.1).Rejected? && sys.refusal(p.1, sys.step(p.0, p.1).reason)
  }

  ghost function Refusals<S(!new), A(!new), R>(sys: System<S, A, R>, pairs: set<(S, A)>): set<(S, A)> {
    set p | p in pairs && IsRefusal(sys, p)
  }

  ghost predicate Violates<S, A, R>(sys: System<S, A, R>, p: (S, A)) {
    sys.step(p.0, p.1).Applied? && sys.writers(sys.step(p.0, p.1).next) > 1
  }

  ghost function Violating<S(!new), A(!new), R>(sys: System<S, A, R>, pairs: set<(S, A)>): set<(S, A)> {
    set p | p in pairs && Violates(sys, p)
  }

  /** The initial state and everything the given attempts lead to. */
  ghost function Reached<S(!new), A(!new), R>(sys: System<S, A, R>, pairs: set<(S, A)>): set<S> {
    {sys.initial} + set p | p in Taken(sys, pairs) :: sys.step(p.0, p.1).next
  }

  /** The states reachable in at most n applied actions. */
  ghost function Within<S(!new), A(!new), R>(sys: System<S, A, R>, n: nat): set<S> {
    if n == 0 then {sys.initial} else Reached(sys, Pairs(sys, Within(sys, n - 1)))
  }

  /** The states reachable in fewer than n applied actions. */
  ghost function Below<S(!new), A(!new), R>(sys: System<S, A, R>, n: nat): set<S> {
    if n == 0 then {} else Within(sys, n - 1)
  }

  ghost predicate AtDistance<S(!new), A(!new), R>(sys: System<S, A, R>, s: S, n: nat) {
    s in Within(sys, n) && s !in Below(sys, n)
  }

  lemma ReachedGrows<S(!new), A(!new), R>(sys: System<S, A, R>, few: set<S>, many: set<S>)
    requires few <= many
    ensures Reached(sys, Pairs(sys, few)) <= Reached(sys, Pairs(sys, many))
  {
    assert Taken(sys, Pairs(sys, few)) <= Taken(sys, Pairs(sys, many));
  }

  lemma {:induction false} WithinGrows<S(!new), A(!new), R>(sys: System<S, A, R>, m: nat, n: nat)
    requires m <= n
    ensures Within(sys, m) <= Within(sys, n)
    decreases n
  {
    if 0 < m < n {
      WithinGrows(sys, m - 1, n - 1);
      ReachedGrows(sys, Within(sys, m - 1), Within(sys, n - 1));
    }
  }

  lemma {:induction false} WithinStopsGrowing<S(!new), A(!new), R>(sys: System<S, A, R>, m: nat, n: nat)
    requires m <= n
    requires Within(sys, m + 1) == Within(sys, m)
    ensures Within(sys, n) == Within(sys, m)
    decreases n
  {
    if m < n {
      WithinStopsGrowing(sys, m, n - 1);
    }
  }

  lemma {:induction false} ReplayIsWithin<S(!new), A(!new), R>(sys: System<S, A, R>, trace: seq<A>)
    requires Replay(sys, trace).Some?
    ensures Replay(sys, trace).value in Within(sys, |trace|)
    decreases |trace|
  {
    if trace != [] {
      var before := trace[..|trace| - 1];
      ReplayIsWithin(sys, before);
      assert (Replay(sys, before).value, trace[|trace| - 1]) in Taken(sys, Pairs(sys, Within(sys, |before|)));
    }
  }

  lemma WithinHasStep<S(!new), A(!new), R>(sys: System<S, A, R>, n: nat, s: S) returns (p: (S, A))
    requires n > 0 && s in Within(sys, n) && s != sys.initial
    ensures p.0 in Within(sys, n - 1) && p.1 in sys.actions
    ensures sys.step(p.0, p.1).Applied? && sys.step(p.0, p.1).next == s
  {
    p :| p in Taken(sys, Pairs(sys, Within(sys, n - 1))) && sys.step(p.0, p.1).next == s;
  }

  lemma {:induction false} WithinHasReplay<S(!new), A(!new), R>(sys: System<S, A, R>, n: nat, s: S)
    returns (trace: seq<A>)
    requires s in Within(sys, n)
    ensures |trace| <= n && Replay(sys, trace) == Some(s)
    decreases n
  {
    if n == 0 || s == sys.initial {
      trace := [];
    } else {
      hide Within;
      hide Replay;
      var p := WithinHasStep(sys, n, s);
      var before := WithinHasReplay(sys, n - 1, p.0);
      ReplayStep(sys, before, p.1);
      trace := before + [p.1];
    }
  }

  /** The layers are exactly the runs of bounded length. */
  lemma WithinIffReplay<S(!new), A(!new), R>(sys: System<S, A, R>, n: nat, s: S)
    ensures s in Within(sys, n) <==> exists trace :: |trace| <= n && Replay(sys, trace) == Some(s)
  {
    if s in Within(sys, n) {
      var trace := WithinHasReplay(sys, n, s);
    }
    forall trace | |trace| <= n && Replay(sys, trace) == Some(s) ensures s in Within(sys, n) {
      ReplayIsWithin(sys, trace);
      WithinGrows(sys, |trace|, n);
    }
  }

  /** The states nearer than n are exactly those that shorter runs reach. */
  lemma BelowIffReplay<S(!new), A(!new), R>(sys: System<S, A, R>, n: nat, s: S)
    ensures s in Below(sys, n) <==> exists trace :: |trace| < n && Replay(sys, trace) == Some(s)
  {
    hide Within;
    hide Replay;
    if n > 0 {
      WithinIffReplay(sys, n - 1, s);
    }
  }

  // ------------------------------------------------------------- bookkeeping

  lemma TakenGrows<S(!new), A(!new), R>(sys: System<S, A, R>, done: set<(S, A)>, p: (S, A))
    ensures Taken(sys, done + {p}) == Taken(sys, done) + if sys.step(p.0, p.1).Applied? then {p} else {}
  {
  }

  lemma TakenAttempt<S(!new), A(!new), R>(sys: System<S, A, R>, done: set<(S, A)>, p: (S, A))
    requires p !in done
    ensures |Taken(sys, done + {p})| == |Taken(sys, done)| + if sys.step(p.0, p.1).Applied? then 1 else 0
    ensures Reached(sys, done + {p}) ==
            Reached(sys, done) + if sys.step(p.0, p.1).Applied? then {sys.step(p.0, p.1).next} else {}
  {
    TakenGrows(sys, done, p);
    assert p !in Taken(sys, done);
    hide Taken;
  }

  lemma RefusedAttempt<S(!new), A(!new), R>(sys: System<S, A, R>, done: set<(S, A)>, p: (S, A))
    requires p !in done
    ensures |Refusals(sys, done + {p})| == |Refusals(sys, done)| + if IsRefusal(sys, p) then 1 else 0
  {
    assert Refusals(sys, done + {p}) == Refusals(sys, done) + if IsRefusal(sys, p) then {p} else {};
  }

  lemma ViolatingAttempt<S(!new), A(!new), R>(sys: System<S, A, R>, done: set<(S, A)>, p: (S, A))
    requires p !in done
    ensures Violating(sys, done + {p}) == Violating(sys, done) + if Violates(sys, p) then {p} else {}
    ensures |Violating(sys, done + {p})| == |Violating(sys, done)| + if Violates(sys, p) then 1 else 0
  {
    assert Violating(sys, done + {p}) == Violating(sys, done) + if Violates(sys, p) then {p} else {};
  }

  /** Every seen state has a trace that replays to it and is as long as its distance. */
  ghost predicate TracesShortest<S(!new), A(!new), R>(sys: System<S, A, R>, seen: map<S, seq<A>>) {
    forall s | s in seen :: Replay(sys, seen[s]) == Some(s) && AtDistance(sys, s, |seen[s]|)
  }

  /** The seen states whose trace has the given length, with their traces. */
  ghost predicate IsLayer<S(!new), A(!new)>(seen: map<S, seq<A>>, n: nat, layer: map<S, seq<A>>) {
    && (forall s :: s in layer <==> s in seen && |seen[s]| == n)
    && forall s | s in layer :: layer[s] == seen[s]
  }

  /** The violation's trace replays to a violating state along a shortest path to its last step, the culprit p. */
  ghost predicate Exhibits<S(!new), A(!new), R>(sys: System<S, A, R>, v: Violation<A>, p: (S, A)) {
    && v.trace != []
    && Replay(sys, v.trace[..|v.trace| - 1]) == Some(p.0)
    && v.trace[|v.trace| - 1] == p.1
    && AtDistance(sys, p.0, |v.trace| - 1)
    && Violates(sys, p)
    && Replay(sys, v.trace) == Some(sys.step(p.0, p.1).next)
    && v.activeWriters == sys.writers(sys.step(p.0, p.1).next)
  }

  ghost predicate LogSound<S(!new), A(!new), R>(sys: System<S, A, R>, pairs: set<(S, A)>,
                                                violations: seq<Violation<A>>, culprits: seq<(S, A)>) {
    && |culprits| == |violations|
    && forall i | 0 <= i < |violations| :: Exhibits(sys, violations[i], culprits[i]) && culprits[i] in pairs
  }

  ghost predicate LogOrdered<A>(violations: seq<Violation<A>>) {
    forall i, j | 0 <= i <= j < |violations| :: |violations[i].trace| <= |violations[j].trace|
  }

  /** One entry per violating attempt, in order of trace length. */
  ghost predicate LogExact<S(!new), A(!new), R>(sys: System<S, A, R>, pairs: set<(S, A)>,
                                                violations: seq<Violation<A>>, culprits: seq<(S, A)>) {
    && |violations| == |Violating(sys, pairs)|
    && LogSound(sys, Violating(sys, pairs), violations, culprits)
    && (forall p | p in Violating(sys, pairs) :: p in culprits)
    && LogOrdered(violations)
  }

  /** Every violating attempt made is logged exactly once, with a shortest trace, in order of length. */
  ghost predicate LogComplete<S(!new), A(!new), R>(sys: System<S, A, R>, pairs: set<(S, A)>,
                                                   violations: seq<Violation<A>>) {
    exists culprits :: LogExact(sys, pairs, violations, culprits)
  }

  lemma LogQuietAttempt<S(!new), A(!new), R>(sys: System<S, A, R>, done: set<(S, A)>, violations: seq<Violation<A>>,
                                             culprits: seq<(S, A)>, p: (S, A))
    requires LogExact(sys, done, violations, culprits)
    requires p !in done && !Violates(sys, p)
    ensures LogExact(sys, done + {p}, violations, culprits)
  {
    ViolatingAttempt(sys, done, p);
    assert Violating(sys, done + {p}) == Violating(sys, done);
  }

  ghost function RecordOf<S, A, R>(sys: System<S, A, R>, trace: seq<A>, p: (S, A)): Violation<A>
    requires Violates(sys, p)
  {
    Violation(trace + [p.1], sys.writers(sys.step(p.0, p.1).next))
  }

  lemma RecordExhibits<S(!new), A(!new), R>(sys: System<S, A, R>, trace: seq<A>, p: (S, A))
    requires p.1 in sys.actions && Violates(sys, p)
    requires Replay(sys, trace) == Some(p.0) && AtDistance(sys, p.0, |trace|)
    ensures Exhibits(sys, RecordOf(sys, trace, p), p)
  {
    ReplayStep(sys, trace, p.1);
    assert RecordOf(sys, trace, p).trace[..|trace|] == trace;
  }

  lemma LogAppend<S(!new), A(!new), R>(sys: System<S, A, R>, pairs: set<(S, A)>, violations: seq<Violation<A>>,
                                       culprits: seq<(S, A)>, v: Violation<A>, p: (S, A))
    requires LogSound(sys, pairs, violations, culprits) && Exhibits(sys, v, p)
    ensures LogSound(sys, pairs + {p}, violations + [v], culprits + [p])
  {
    hide Exhibits;
    var log, blamed := violations + [v], culprits + [p];
    forall i | 0 <= i < |log| ensures Exhibits(sys, log[i], blamed[i]) && blamed[i] in pairs + {p} {
      if i < |violations| {
        assert log[i] == violations[i] && blamed[i] == culprits[i];
      }
    }
  }

  lemma OrderAppend<A>(violations: seq<Violation<A>>, v: Violation<A>)
    requires LogOrdered(violations)
    requires forall i | 0 <= i < |violations| :: |violations[i].trace| <= |v.trace|
    ensures LogOrdered(violations + [v])
  {
  }

  lemma LogViolation<S(!new), A(!new), R>(sys: System<S, A, R>, done: set<(S, A)>, violations: seq<Violation<A>>,
                                          culprits: seq<(S, A)>, v: Violation<A>, p: (S, A))
    requires LogExact(sys, done, violations, culprits)
    requires p !in done && Violates(sys, p) && Exhibits(sys, v, p)
    requires forall i | 0 <= i < |violations| :: |violations[i].trace| <= |v.trace|
    ensures LogExact(sys, done + {p}, violations + [v], culprits + [p])
  {
    ViolatingAttempt(sys, done, p);
    LogAppend(sys, Violating(sys, done), violations, culprits, v, p);
    OrderAppend(violations, v);
    hide Violating;
    hide LogSound;
    hide LogOrdered;
    hide Exhibits;
    forall q | q in Violating(sys, done + {p}) ensures q in culprits + [p] {
      if q == p {
        assert (culprits + [p])[|culprits|] == p;
      }
    }
  }

  /** A state first reached by extending a shortest trace is one step further away. */
  lemma NewStateIsNextLayer<S(!new), A(!new), R>(sys: System<S, A, R>, trace: seq<A>, p: (S, A))
    requires Replay(sys, trace) == Some(p.0)
    requires p.1 in sys.actions && sys.step(p.0, p.1).Applied?
    requires sys.step(p.0, p.1).next !in Within(sys, |trace|)
    ensures Replay(sys, trace + [p.1]) == Some(sys.step(p.0, p.1).next)
    ensures AtDistance(sys, sys.step(p.0, p.1).next, |trace + [p.1]|)
  {
    hide Within;
    hide Replay;
    ReplayStep(sys, trace, p.1);
    ReplayIsWithin(sys, trace + [p.1]);
  }

  ghost predicate NoRepeats<A>(actions: seq<A>) {
    forall i, j | 0 <= i < j < |actions| :: actions[i] != actions[j]
  }

  /** What a search has gathered so far: visited states, the layer being built, the counters and the log. */
  datatype Progress<!S(==), +A> = Progress(
    seen: map<S, seq<A>>,
    next: map<S, seq<A>>,
    transitions: nat,
    rejected: nat,
    violations: seq<Violation<A>>)

  ghost predicate NoDeeper<S(!new), A>(seen: map<S, seq<A>>, n: nat) {
    forall s | s in seen :: |seen[s]| <= n
  }

  /** Visited states are exactly those reached by the attempts made, with shortest traces; the new ones form `next`. */
  ghost predicate SeenExact<S(!new), A(!new), R>(sys: System<S, A, R>, layer: nat, done: set<(S, A)>,
                                                 seen: map<S, seq<A>>, next: map<S, seq<A>>) {
    && Within(sys, layer) <= seen.Keys
    && seen.Keys == Reached(sys, done)
    && TracesShortest(sys, seen)
    && NoDeeper(seen, layer + 1)
    && IsLayer(seen, layer + 1, next)
  }

  /** The counters and the log are exact for the attempts made. */
  ghost predicate TallyExact<S(!new), A(!new), R>(sys: System<S, A, R>, layer: nat, done: set<(S, A)>, transitions: nat,
                                                  rejected: nat, violations: seq<Violation<A>>) {
    && transitions == |Taken(sys, done)|
    && rejected == |Refusals(sys, done)|
    && LogComplete(sys, done, violations)
    && forall i | 0 <= i < |violations| :: |violations[i].trace| <= layer + 1
  }

  ghost predicate Consistent<S(!new), A(!new), R>(sys: System<S, A, R>, layer: nat, done: set<(S, A)>,
                                                  st: Progress<S, A>) {
    && SeenExact(sys, layer, done, st.seen, st.next)
    && TallyExact(sys, layer, done, st.transitions, st.rejected, st.violations)
  }

  lemma RejectedKeepsSeen<S(!new), A(!new), R>(sys: System<S, A, R>, layer: nat, done: set<(S, A)>,
                                               st: Progress<S, A>, p: (S, A))
    requires SeenExact(sys, layer, done, st.seen, st.next)
    requires p !in done && sys.step(p.0, p.1).Rejected?
    ensures SeenExact(sys, layer, done + {p}, st.seen, st.next)
  {
    TakenAttempt(sys, done, p);
  }

  lemma RejectedKeepsTally<S(!new), A(!new), R>(sys: System<S, A, R>, layer: nat, done: set<(S, A)>,
                                                st: Progress<S, A>, p: (S, A))
    requires TallyExact(sys, layer, done, st.transitions, st.rejected, st.violations)
    requires p !in done && sys.step(p.0, p.1).Rejected?
    ensures TallyExact(sys, layer, done + {p}, st.transitions,
                       st.rejected + if IsRefusal(sys, p) then 1 else 0, st.violations)
  {
    TakenAttempt(sys, done, p);
    RefusedAttempt(sys, done, p);
    var culprits :| LogExact(sys, done, st.violations, culprits);
    LogQuietAttempt(sys, done, st.violations, culprits, p);
  }

  lemma InsertIntoLayer<S(!new), A(!new)>(seen: map<S, seq<A>>, n: nat, layer: map<S, seq<A>>, s: S, t: seq<A>)
    requires IsLayer(seen, n, layer) && NoDeeper(seen, n) && s !in seen && |t| == n
    ensures IsLayer(seen[s := t], n, layer[s := t]) && NoDeeper(seen[s := t], n)
  {
  }

  lemma OldStateKeepsSeen<S(!new), A(!new), R>(sys: System<S, A, R>, layer: nat, done: set<(S, A)>,
                                               st: Progress<S, A>, p: (S, A))
    requires SeenExact(sys, layer, done, st.seen, st.next)
    requires p !in done && sys.step(p.0, p.1).Applied? && sys.step(p.0, p.1).next in st.seen
    ensures SeenExact(sys, layer, done + {p}, st.seen, st.next)
  {
    TakenAttempt(sys, done, p);
    hide Within;
    hide Reached;
    hide TracesShortest;
    hide IsLayer;
    assert st.seen.Keys + {sys.step(p.0, p.1).next} == st.seen.Keys;
  }

  lemma InsertShortestTrace<S(!new), A(!new), R>(sys: System<S, A, R>, seen: map<S, seq<A>>, s: S, t: seq<A>)
    requires TracesShortest(sys, seen) && s !in seen
    requires Replay(sys, t) == Some(s) && AtDistance(sys, s, |t|)
    ensures TracesShortest(sys, seen[s := t])
  {
    hide Replay;
    hide AtDistance;
  }

  lemma NewStateKeepsSeen<S(!new), A(!new), R>(sys: System<S, A, R>, layer: nat, done: set<(S, A)>,
                                               st: Progress<S, A>, trace: seq<A>, p: (S, A))
    requires SeenExact(sys, layer, done, st.seen, st.next)
    requires p !in done && p.1 in sys.actions && sys.step(p.0, p.1).Applied?
    requires sys.step(p.0, p.1).next !in st.seen
    requires Replay(sys, trace) == Some(p.0) && |trace| == layer
    ensures
      var s, t := sys.step(p.0, p.1).next, trace + [p.1];
      SeenExact(sys, layer, done + {p}, st.seen[s := t], st.next[s := t])
  {
    var s, t := sys.step(p.0, p.1).next, trace + [p.1];
    hide Within;
    hide Reached;
    hide Replay;
    hide AtDistance;
    hide IsLayer;
    hide NoDeeper;
    hide TracesShortest;
    TakenAttempt(sys, done, p);
    NewStateIsNextLayer(sys, trace, p);
    InsertIntoLayer(st.seen, layer + 1, st.next, s, t);
    InsertShortestTrace(sys, st.seen, s, t);
    assert st.seen[s := t].Keys == st.seen.Keys + {s};
  }

  lemma AppliedKeepsTally<S(!new), A(!new), R>(sys: System<S, A, R>, layer: nat, done: set<(S, A)>,
                                               st: Progress<S, A>, trace: seq<A>, p: (S, A))
    requires TallyExact(sys, layer, done, st.transitions, st.rejected, st.violations)
    requires p !in done && p.1 in sys.actions && sys.step(p.0, p.1).Applied?
    requires Replay(sys, trace) == Some(p.0) && AtDistance(sys, p.0, |trace|) && |trace| == layer
    ensures if Violates(sys, p)
            then TallyExact(sys, layer, done + {p}, st.transitions + 1, st.rejected,
                            st.violations + [RecordOf(sys, trace, p)])
            else TallyExact(sys, layer, done + {p}, st.transitions + 1, st.rejected, st.violations)
  {
    hide Within;
    hide Replay;
    hide LogExact;
    TakenAttempt(sys, done, p);
    RefusedAttempt(sys, done, p);
    var culprits :| LogExact(sys, done, st.violations, culprits);
    if Violates(sys, p) {
      RecordExhibits(sys, trace, p);
      LogViolation(sys, done, st.violations, culprits, RecordOf(sys, trace, p), p);
    } else {
      LogQuietAttempt(sys, done, st.violations, culprits, p);
    }
  }

  /** The attempts a search to the given depth makes: every action in every state nearer than the depth. */
  ghost function Attempts<S(!new), A(!new), R>(sys: System<S, A, R>, depth: nat): set<(S, A)> {
    Pairs(sys, Below(sys, depth))
  }

  lemma DistanceUnique<S(!new), A(!new), R>(sys: System<S, A, R>, s: S, m: nat, n: nat)
    requires AtDistance(sys, s, m) && AtDistance(sys, s, n)
    ensures m == n
  {
    hide Within;
    if m < n {
      WithinGrows(sys, m, n - 1);
    } else if n < m {
      WithinGrows(sys, n, m - 1);
    }
  }

  lemma LayerIffDistance<S(!new), A(!new), R>(sys: System<S, A, R>, n: nat, seen: map<S, seq<A>>,
                                              layer: map<S, seq<A>>, s: S)
    requires TracesShortest(sys, seen) && IsLayer(seen, n, layer)
    requires s in seen
    ensures s in layer <==> AtDistance(sys, s, n)
  {
    hide AtDistance;
    hide Replay;
    if AtDistance(sys, s, n) {
      DistanceUnique(sys, s, |seen[s]|, n);
    }
  }

  lemma SplitByLayer<S(!new)>(within: set<S>, below: set<S>, layer: set<S>, seen: set<S>)
    requires below <= within <= seen && layer <= seen
    requires forall s | s in seen :: s in layer <==> s in within && s !in below
    ensures layer !! below && below + layer == within
  {
  }

  lemma LayerComplete<S(!new), A(!new), R>(sys: System<S, A, R>, n: nat, seen: map<S, seq<A>>, layer: map<S, seq<A>>)
    requires TracesShortest(sys, seen) && IsLayer(seen, n, layer)
    requires Within(sys, n) <= seen.Keys
    ensures layer.Keys !! Below(sys, n)
    ensures Below(sys, n) + layer.Keys == Within(sys, n)
  {
    if n > 0 {
      WithinGrows(sys, n - 1, n);
    }
    hide Within;
    hide TracesShortest;
    forall s | s in seen.Keys ensures s in layer.Keys <==> s in Within(sys, n) && s !in Below(sys, n) {
      LayerIffDistance(sys, n, seen, layer, s);
    }
    SplitByLayer(Within(sys, n), Below(sys, n), layer.Keys, seen.Keys);
  }

  /** The first i actions tried in one state. */
  ghost function Tried<S(!new), A(!new), R>(sys: System<S, A, R>, state: S, i: nat): set<(S, A)>
    requires i <= |sys.actions|
  {
    set k | 0 <= k < i :: (state, sys.actions[k])
  }

  lemma TriedStep<S(!new), A(!new), R>(sys: System<S, A, R>, state: S, i: nat)
    requires NoRepeats(sys.actions) && i < |sys.actions|
    ensures (state, sys.actions[i]) !in Tried(sys, state, i)
    ensures Tried(sys, state, i + 1) == Tried(sys, state, i) + {(state, sys.actions[i])}
  {
  }

  lemma TriedAll<S(!new), A(!new), R>(sys: System<S, A, R>, state: S)
    ensures Tried(sys, state, 0) == {}
    ensures Tried(sys, state, |sys.actions|) == Pairs(sys, {state})
  {
    forall p | p in Pairs(sys, {state}) ensures p in Tried(sys, state, |sys.actions|) {
      var k :| 0 <= k < |sys.actions| && sys.actions[k] == p.1;
      assert p == (state, sys.actions[k]);
    }
  }

  /** One attempt of an action, with the updates the exploration makes for either outcome. */
  method Attempt<S(==, !new), A(==, !new), R(!new)>(
    sys: System<S, A, R>, ghost layer: nat, state: S, trace: seq<A>, action: A, start: Progress<S, A>,
    ghost done: set<(S, A)>)
    returns (st: Progress<S, A>)
    requires Consistent(sys, layer, done, start)
    requires Replay(sys, trace) == Some(state) && AtDistance(sys, state, |trace|) && |trace| == layer
    requires action in sys.actions && (state, action) !in done
    ensures Consistent(sys, layer, done + {(state, action)}, st)
    ensures start.seen.Keys <= st.seen.Keys
    ensures forall s | s in start.seen :: st.seen[s] == start.seen[s]
    ensures forall s | s in st.seen && s !in start.seen :: |st.seen[s]| == layer + 1
  {
    st := start;
    ghost var p := (state, action);
    hide SeenExact;
    hide TallyExact;
    hide Replay;
    hide AtDistance;
    match sys.step(state, action) {
      case Applied(reached) =>
        if reached in start.seen {
          OldStateKeepsSeen(sys, layer, done, start, p);
        } else {
          NewStateKeepsSeen(sys, layer, done, start, trace, p);
        }
        AppliedKeepsTally(sys, layer, done, start, trace, p);
        var nextTrace := trace + [action];
        var activeWriters := sys.writers(reached);
        st := st.(transitions := st.transitions + 1);
        if activeWriters > 1 {
          st := st.(violations := st.violations + [Violation(nextTrace, activeWriters)]);
        }
        if reached !in st.seen {
          st := st.(seen := st.seen[reached := nextTrace], next := st.next[reached := nextTrace]);
        }
      case Rejected(reason) =>
        RejectedKeepsSeen(sys, layer, done, start, p);
        RejectedKeepsTally(sys, layer, done, start, p);
        if sys.refusal(action, reason) {
          st := st.(rejected := st.rejected + 1);
        }
    }
  }

  /** The inner loop: every action is tried in one state of the frontier. */
  method ExpandState<S(==, !new), A(==, !new), R(!new)>(
    sys: System<S, A, R>, ghost layer: nat, state: S, trace: seq<A>, start: Progress<S, A>,
    ghost done: set<(S, A)>)
    returns (st: Progress<S, A>)
    requires NoRepeats(sys.actions)
    requires Consistent(sys, layer, done, start)
    requires Replay(sys, trace) == Some(state) && AtDistance(sys, state, |trace|) && |trace| == layer
    requires forall a :: (state, a) !in done
    ensures Consistent(sys, layer, done + Pairs(sys, {state}), st)
    ensures start.seen.Keys <= st.seen.Keys
    ensures forall s | s in start.seen :: st.seen[s] == start.seen[s]
    ensures forall s | s in st.seen && s !in start.seen :: |st.seen[s]| == layer + 1
  {
    hide *;
    st := start;
    var i := 0;
    TriedAll(sys, state);
    assert done + Tried(sys, state, 0) == done;
    while i < |sys.actions|
      invariant 0 <= i <= |sys.actions|
      invariant Consistent(sys, layer, done + Tried(sys, state, i), st)
      invariant start.seen.Keys <= st.seen.Keys
      invariant forall s | s in start.seen :: st.seen[s] == start.seen[s]
      invariant forall s | s in st.seen && s !in start.seen :: |st.seen[s]| == layer + 1
    {
      var action := sys.actions[i];
      TriedStep(sys, state, i);
      assert done + Tried(sys, state, i + 1) == done + Tried(sys, state, i) + {(state, action)};
      st := Attempt(sys, layer, state, trace, action, st, done + Tried(sys, state, i));
      i := i + 1;
    }
  }

  /** One state of the frontier is expanded; the layer it belongs to stays the same. */
  method ExpandFrontierState<S(==, !new), A(==, !new), R(!new)>(
    sys: System<S, A, R>, ghost layer: nat, frontier: map<S, seq<A>>, state: S, start: Progress<S, A>,
    ghost expanded: set<S>)
    returns (st: Progress<S, A>)
    requires NoRepeats(sys.actions)
    requires Consistent(sys, layer, Pairs(sys, expanded), start)
    requires IsLayer(start.seen, layer, frontier)
    requires state in frontier && state !in expanded
    ensures Consistent(sys, layer, Pairs(sys, expanded + {state}), st)
    ensures IsLayer(st.seen, layer, frontier)
  {
    FrontierState(sys, layer, start.seen, frontier, expanded, state);
    st := ExpandState(sys, layer, state, frontier[state], start, Pairs(sys, expanded));
    SameLayer(start.seen, st.seen, layer, frontier);
    PairsUnion(sys, expanded, {state});
  }

  /** The middle loop: every state of the frontier is expanded, in any order. */
  method ExpandLayer<S(==, !new), A(==, !new), R(!new)>(
    sys: System<S, A, R>, ghost layer: nat, frontier: map<S, seq<A>>, start: Progress<S, A>)
    returns (st: Progress<S, A>)
    requires NoRepeats(sys.actions)
    requires Consistent(sys, layer, Pairs(sys, Below(sys, layer)), start)
    requires IsLayer(start.seen, layer, frontier)
    ensures Consistent(sys, layer, Pairs(sys, Within(sys, layer)), st)
  {
    hide *;
    st := start;
    var rest := frontier.Keys;
    ghost var below := Below(sys, layer);
    LayerIsNew(sys, layer, start, frontier);
    assert below + (frontier.Keys - rest) == below;
    while rest != {}
      invariant rest <= frontier.Keys
      invariant Consistent(sys, layer, Pairs(sys, below + (frontier.Keys - rest)), st)
      invariant IsLayer(st.seen, layer, frontier)
      decreases rest
    {
      var state :| state in rest;
      st := ExpandFrontierState(sys, layer, frontier, state, st, below + (frontier.Keys - rest));
      assert below + (frontier.Keys - (rest - {state})) == below + (frontier.Keys - rest) + {state};
      rest := rest - {state};
    }
    assert below + (frontier.Keys - rest) == Within(sys, layer);
  }

  lemma LayerIsNew<S(!new), A(!new), R>(sys: System<S, A, R>, layer: nat, st: Progress<S, A>,
                                        frontier: map<S, seq<A>>)
    requires Consistent(sys, layer, Pairs(sys, Below(sys, layer)), st)
    requires IsLayer(st.seen, layer, frontier)
    ensures frontier.Keys !! Below(sys, layer)
    ensures Below(sys, layer) + frontier.Keys == Within(sys, layer)
  {
    LayerComplete(sys, layer, st.seen, frontier);
  }

  lemma ReachedBelow<S(!new), A(!new), R>(sys: System<S, A, R>, n: nat)
    ensures Reached(sys, Pairs(sys, Below(sys, n))) == Within(sys, n)
  {
    if n == 0 {
      assert Taken(sys, Pairs(sys, Below(sys, 0))) == {};
    }
  }

  lemma PairsUnion<S(!new), A(!new), R>(sys: System<S, A, R>, a: set<S>, b: set<S>)
    ensures Pairs(sys, a + b) == Pairs(sys, a) + Pairs(sys, b)
  {
  }

  lemma FrontierState<S(!new), A(!new), R>(sys: System<S, A, R>, layer: nat, seen: map<S, seq<A>>,
                                           frontier: map<S, seq<A>>, expanded: set<S>, s: S)
    requires TracesShortest(sys, seen) && IsLayer(seen, layer, frontier) && s in frontier
    requires s !in expanded
    ensures Replay(sys, frontier[s]) == Some(s) && AtDistance(sys, s, |frontier[s]|) && |frontier[s]| == layer
    ensures forall a :: (s, a) !in Pairs(sys, expanded)
  {
  }

  /** Adding states of the next layer does not change a layer. */
  lemma SameLayer<S(!new), A(!new)>(before: map<S, seq<A>>, after: map<S, seq<A>>, n: nat, layer: map<S, seq<A>>)
    requires IsLayer(before, n, layer)
    requires before.Keys <= after.Keys
    requires forall s | s in before :: after[s] == before[s]
    requires forall s | s in after && s !in before :: |after[s]| == n + 1
    ensures IsLayer(after, n, layer)
  {
  }

  lemma SearchStarts<S(!new), A(!new), R>(sys: System<S, A, R>)
    ensures Consistent(sys, 0, Pairs(sys, Below(sys, 0)), Progress(map[sys.initial := []], map[], 0, 0, []))
    ensures IsLayer<S, A>(map[sys.initial := []], 0, map[sys.initial := []])
  {
    var none := Pairs(sys, Below(sys, 0));
    assert none == {};
    assert Taken(sys, none) == {} && Refusals(sys, none) == {} && Violating(sys, none) == {};
    assert Reached(sys, none) == {sys.initial};
    assert LogExact(sys, none, [], []);
  }

  lemma NextLayer<S(!new), A(!new), R>(sys: System<S, A, R>, layer: nat, st: Progress<S, A>)
    requires Consistent(sys, layer, Pairs(sys, Within(sys, layer)), st)
    ensures Consistent(sys, layer + 1, Pairs(sys, Below(sys, layer + 1)), st.(next := map[]))
    ensures IsLayer(st.seen, layer + 1, st.next)
  {
  }

  /** A search whose last layer produced nothing new has seen everything there is. */
  lemma NothingNewCloses<S(!new), A(!new), R>(sys: System<S, A, R>, layer: nat, seen: map<S, seq<A>>)
    requires SeenExact(sys, layer, Pairs(sys, Within(sys, layer)), seen, map[])
    ensures Within(sys, layer + 1) == Within(sys, layer)
  {
    forall s | s in Within(sys, layer + 1) ensures s in Within(sys, layer) {
      assert s in seen && |seen[s]| <= layer;
      WithinGrows(sys, |seen[s]|, layer);
    }
    WithinGrows(sys, layer, layer + 1);
  }

  lemma SeenAtDepth<S(!new), A(!new), R>(sys: System<S, A, R>, layer: nat, depth: nat, done: set<(S, A)>,
                                         seen: map<S, seq<A>>)
    requires layer < depth
    requires SeenExact(sys, layer, done, seen, map[])
    requires done == Pairs(sys, Below(sys, depth))
    ensures SeenExact(sys, depth, done, seen, map[])
  {
  }

  lemma TallyAtDepth<S(!new), A(!new), R>(sys: System<S, A, R>, layer: nat, depth: nat, done: set<(S, A)>,
                                          st: Progress<S, A>)
    requires layer < depth
    requires TallyExact(sys, layer, done, st.transitions, st.rejected, st.violations)
    ensures TallyExact(sys, depth, done, st.transitions, st.rejected, st.violations)
  {
  }

  lemma NothingNew<S(!new), A(!new), R>(sys: System<S, A, R>, layer: nat, depth: nat, st: Progress<S, A>)
    requires layer < depth
    requires Consistent(sys, layer, Pairs(sys, Within(sys, layer)), st)
    requires st.next == map[]
    ensures Consistent(sys, depth, Pairs(sys, Below(sys, depth)), st)
  {
    hide Within;
    hide Pairs;
    hide SeenExact;
    hide TallyExact;
    NothingNewCloses(sys, layer, st.seen);
    WithinStopsGrowing(sys, layer, depth - 1);
    var done := Pairs(sys, Within(sys, layer));
    SeenAtDepth(sys, layer, depth, done, st.seen);
    TallyAtDepth(sys, layer, depth, done, st);
  }

  lemma SearchEnds<S(!new), A(!new), R>(sys: System<S, A, R>, depth: nat, st: Progress<S, A>)
    requires Consistent(sys, depth, Pairs(sys, Below(sys, depth)), st)
    ensures st.seen.Keys == Within(sys, depth) && |st.seen| == |Within(sys, depth)|
    ensures TracesShortest(sys, st.seen)
    ensures st.transitions == |Taken(sys, Attempts(sys, depth))|
    ensures st.rejected == |Refusals(sys, Attempts(sys, depth))|
    ensures LogComplete(sys, Attempts(sys, depth), st.violations)
  {
    hide Within;
    hide LogExact;
    ReachedBelow(sys, depth);
    assert |st.seen| == |st.seen.Keys|;
  }

  /**
   The outer loop of the breadth-first search. The order in which the source
   walks a layer is fixed by its ordered maps; here any order is possible, and
   the whole contract holds for every one of them. The visited states and their
   traces, a local of the source, are returned as a ghost for the contract.
   */
  method Search<S(==, !new), A(==, !new), R(!new)>(sys: System<S, A, R>, depth: nat)
    returns (report: Report<A>, ghost seen: map<S, seq<A>>)
    requires NoRepeats(sys.actions)
    ensures report.depth == depth
    ensures report.statesExplored == |Within(sys, depth)|
    ensures report.transitionsExplored == |Taken(sys, Attempts(sys, depth))|
    ensures report.rejectedPromotions == |Refusals(sys, Attempts(sys, depth))|
    ensures LogComplete(sys, Attempts(sys, depth), report.violations)
    ensures seen.Keys == Within(sys, depth) && TracesShortest(sys, seen)
  {
    hide *;
    var st := Progress(map[sys.initial := []], map[], 0, 0, []);
    var frontier: map<S, seq<A>> := map[sys.initial := []];
    SearchStarts(sys);
    var layer := 0;
    while layer < depth
      invariant 0 <= layer <= depth
      invariant Consistent(sys, layer, Pairs(sys, Below(sys, layer)), st)
      invariant IsLayer(st.seen, layer, frontier)
      invariant st.next == map[]
    {
      st := ExpandLayer(sys, layer, frontier, st);
      if st.next == map[] {
        NothingNew(sys, layer, depth, st);
        break;
      }
      NextLayer(sys, layer, st);
      frontier := st.next;
      st := st.(next := map[]);
      layer := layer + 1;
    }
    SearchEnds(sys, depth, st);
    seen := st.seen;
    report := Report(depth, |st.seen|, st.transitions, st.rejected, st.violations);
  }

  // --------------------------------------------------- laws about the report

  /** Some nonempty run of at most n applied actions ends in a state with more than one writer. */
  ghost predicate ViolatingRun<S(!new), A(!new), R>(sys: System<S, A, R>, trace: seq<A>) {
    trace != [] && Replay(sys, trace).Some? && sys.writers(Replay(sys, trace).value) > 1
  }

  lemma ViolatingRunHasCulprit<S(!new), A(!new), R>(sys: System<S, A, R>, depth: nat, trace: seq<A>)
    requires ViolatingRun(sys, trace) && |trace| <= depth
    ensures Replay(sys, trace[..|trace| - 1]).Some?
    ensures (Replay(sys, trace[..|trace| - 1]).value, trace[|trace| - 1])
            in Violating(sys, Pairs(sys, Below(sys, depth)))
  {
    var before := trace[..|trace| - 1];
    ReplayIsWithin(sys, before);
    WithinGrows(sys, |before|, depth - 1);
  }

  lemma ReportedViolationReplays<S(!new), A(!new), R>(sys: System<S, A, R>, depth: nat, v: Violation<A>, p: (S, A))
    requires Exhibits(sys, v, p) && p in Violating(sys, Pairs(sys, Below(sys, depth)))
    ensures ViolatingRun(sys, v.trace) && |v.trace| <= depth
    ensures v.activeWriters == sys.writers(Replay(sys, v.trace).value)
  {
    hide Within;
    if |v.trace| > depth {
      WithinGrows(sys, depth - 1, |v.trace| - 2);
      assert false;
    }
  }

  lemma RunNotShorterThanDistance<S(!new), A(!new), R>(sys: System<S, A, R>, trace: seq<A>, s: S, n: nat)
    requires Replay(sys, trace) == Some(s) && AtDistance(sys, s, n)
    ensures n <= |trace|
  {
    ReplayIsWithin(sys, trace);
    if |trace| < n {
      WithinGrows(sys, |trace|, n - 1);
    }
  }

  /** No run reaches a visited state in fewer actions than its stored trace. */
  lemma StoredTracesAreShortest<S(!new), A(!new), R>(sys: System<S, A, R>, seen: map<S, seq<A>>)
    requires TracesShortest(sys, seen)
    ensures forall s, trace | s in seen && Replay(sys, trace) == Some(s) :: |seen[s]| <= |trace|
  {
    hide Replay;
    hide AtDistance;
    forall s, trace | s in seen && Replay(sys, trace) == Some(s) ensures |seen[s]| <= |trace| {
      RunNotShorterThanDistance(sys, trace, s, |seen[s]|);
    }
  }

  lemma FirstBoundsRun<S(!new), A(!new), R>(sys: System<S, A, R>, depth: nat, violations: seq<Violation<A>>,
                                            culprits: seq<(S, A)>, trace: seq<A>)
    requires LogExact(sys, Attempts(sys, depth), violations, culprits)
    requires ViolatingRun(sys, trace) && |trace| <= depth
    ensures violations != [] && |violations[0].trace| <= |trace|
  {
    ViolatingRunHasCulprit(sys, depth, trace);
    hide Violating;
    hide Replay;
    hide Within;
    hide Pairs;
    var p := (Replay(sys, trace[..|trace| - 1]).value, trace[|trace| - 1]);
    assert p in culprits;
    var i :| 0 <= i < |culprits| && culprits[i] == p;
    RunNotShorterThanDistance(sys, trace[..|trace| - 1], p.0, |violations[i].trace| - 1);
  }

  /**
   Every logged violation replays, and the first one is as short as any
   violating run within the depth, for every step function. The initial state
   itself is never reported, so only runs of at least one action count.
   */
  lemma FirstViolationIsShortest<S(!new), A(!new), R>(sys: System<S, A, R>, depth: nat, violations: seq<Violation<A>>)
    requires LogComplete(sys, Attempts(sys, depth), violations)
    ensures forall v | v in violations ::
              && ViolatingRun(sys, v.trace) && |v.trace| <= depth
              && v.activeWriters == sys.writers(Replay(sys, v.trace).value)
    ensures forall trace | ViolatingRun(sys, trace) && |trace| <= depth ::
              violations != [] && |violations[0].trace| <= |trace|
  {
    var culprits :| LogExact(sys, Attempts(sys, depth), violations, culprits);
    forall v | v in violations
      ensures ViolatingRun(sys, v.trace) && |v.trace| <= depth
      ensures v.activeWriters == sys.writers(Replay(sys, v.trace).value)
    {
      var i :| 0 <= i < |violations| && violations[i] == v;
      ReportedViolationReplays(sys, depth, v, culprits[i]);
    }
    forall trace | ViolatingRun(sys, trace) && |trace| <= depth
      ensures violations != [] && |violations[0].trace| <= |trace|
    {
      FirstBoundsRun(sys, depth, violations, culprits, trace);
    }
  }

  /** A report is safe exactly when no nonempty run within the depth ends with two writers. */
  lemma SafeIffNoViolatingRun<S(!new), A(!new), R>(sys: System<S, A, R>, depth: nat, report: Report<A>)
    requires LogComplete(sys, Attempts(sys, depth), report.violations)
    ensures report.IsSafe() <==> forall trace | |trace| <= depth :: !ViolatingRun(sys, trace)
  {
    hide LogComplete;
    hide ViolatingRun;
    FirstViolationIsShortest(sys, depth, report.violations);
    if !report.IsSafe() {
      assert report.violations[0] in report.violations;
    }
  }
}
