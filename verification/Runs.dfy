/**
 Complete runs of a loop that makes one pass and then continues for as long as
 a condition holds afterwards. All four optimizers have this shape.
 */
module Runs {

  datatype Machine<!S> = Machine(init: S -> bool, step: (S, S) -> bool, continues: S -> bool)

  /** States of a run that may still go on: every state but the first and the last asked for another pass. */
  ghost predicate IsPrefix<S(!new)>(m: Machine<S>, run: seq<S>) {
    && |run| >= 1
    && m.init(run[0])
    && (forall i | 0 < i < |run| :: m.step(run[i - 1], run[i]))
    && (forall i | 0 < i < |run| - 1 :: m.continues(run[i]))
  }

  ghost predicate IsRun<S(!new)>(m: Machine<S>, run: seq<S>) {
    IsPrefix(m, run) && |run| >= 2 && !m.continues(run[|run| - 1])
  }

  function Last<S>(run: seq<S>): S
    requires |run| >= 1
  {
    run[|run| - 1]
  }

  lemma Extend<S(!new)>(m: Machine<S>, run: seq<S>, t: S)
    requires IsPrefix(m, run) && m.step(Last(run), t)
    requires |run| == 1 || m.continues(Last(run))
    ensures IsPrefix(m, run + [t])
  {
    var r := run + [t];
    forall i | 0 < i < |r| ensures m.step(r[i - 1], r[i]) {
      assert r[i - 1] == run[i - 1];
      assert i < |run| ==> r[i] == run[i];
    }
  }

  /** One pass may be a whole run. */
  lemma OnePass<S(!new)>(m: Machine<S>, s: S, t: S)
    requires m.init(s) && m.step(s, t) && !m.continues(t)
    ensures IsRun(m, [s, t]) && Last([s, t]) == t
  {
  }

  /** What holds initially and is kept by every pass holds in every state of a run. */
  lemma {:induction false} Invariant<S(!new)>(m: Machine<S>, inv: S -> bool, run: seq<S>, i: nat)
    requires IsPrefix(m, run) && i < |run|
    requires forall s :: m.init(s) ==> inv(s)
    requires forall s, t :: inv(s) && m.step(s, t) ==> inv(t)
    ensures inv(run[i])
  {
    if i > 0 {
      Invariant(m, inv, run, i - 1);
      assert m.step(run[i - 1], run[i]);
    }
  }
}
