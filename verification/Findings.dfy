/** Ordered checks of some evidence, and the first of them that fails. */
module Findings {
  import opened Types

  /** A check: the error it is reported as, and whether the evidence fails it. */
  type Finding<E> = (E, bool)

  /** The first error among the first n findings that fail. */
  ghost function FirstAmong<E>(findings: seq<Finding<E>>, n: nat): Option<E>
    requires n <= |findings|
    decreases n
  {
    if n == 0 then None
    else if FirstAmong(findings, n - 1).Some? then FirstAmong(findings, n - 1)
    else if findings[n - 1].1 then Some(findings[n - 1].0)
    else None
  }

  ghost function FirstDefect<E>(findings: seq<Finding<E>>): Option<E> {
    FirstAmong(findings, |findings|)
  }

  ghost function ErrorOf<T, E>(r: Result<T, E>): Option<E> {
    if r.Err? then Some(r.error) else None
  }

  lemma {:induction false} FirstAmongPrefix<E>(a: seq<Finding<E>>, b: seq<Finding<E>>, n: nat)
    requires n <= |a|
    ensures FirstAmong(a + b, n) == FirstAmong(a, n)
  {
    if n > 0 {
      FirstAmongPrefix(a, b, n - 1);
    }
  }

  lemma {:induction false} FirstAmongBoth<E>(a: seq<Finding<E>>, b: seq<Finding<E>>, n: nat)
    requires n <= |b|
    ensures FirstAmong(a + b, |a| + n) == if FirstDefect(a).Some? then FirstDefect(a) else FirstAmong(b, n)
  {
    if n == 0 {
      FirstAmongPrefix(a, b, |a|);
    } else {
      FirstAmongBoth(a, b, n - 1);
    }
  }

  lemma FirstDefectOfBoth<E>(a: seq<Finding<E>>, b: seq<Finding<E>>)
    ensures FirstDefect(a + b) == if FirstDefect(a).Some? then FirstDefect(a) else FirstDefect(b)
  {
    FirstAmongBoth(a, b, |b|);
  }
}
