/**
 * A deterministic machine given by its step function: each step either yields
 * the next state or stops. The facts here hold whatever the step does, so the
 * patrol's own run inherits them.
 */
module Machine {
  import opened Wrappers

  /** The state after `n` steps from `s`, or None once the machine has stopped. */
  function Iterate<S>(step: S -> Option<S>, s: S, n: nat): Option<S>
  {
    if n == 0 then Some(s)
    else
      match Iterate(step, s, n - 1)
      case None => None
      case Some(t) => step(t)
  }

  /** A stopped machine stays stopped. */
  lemma {:induction false} StoppedStaysStopped<S>(step: S -> Option<S>, s: S, i: nat, j: nat)
    ensures i <= j && Iterate(step, s, i).None? ==> Iterate(step, s, j).None?
    decreases j
  {
    if i < j {
      StoppedStaysStopped(step, s, i, j - 1);
    }
  }

  /** Two moments in the same state stay in the same state `m` steps later. */
  lemma {:induction false} SameStateSameFuture<S>(step: S -> Option<S>, s: S, i: nat, j: nat, m: nat)
    requires Iterate(step, s, i) == Iterate(step, s, j)
    ensures Iterate(step, s, i + m) == Iterate(step, s, j + m)
    decreases m
  {
    if m > 0 {
      SameStateSameFuture(step, s, i, j, m - 1);
    }
  }

  /** A machine that comes back to a running state runs forever. */
  lemma {:induction false} RepeatRunsForever<S>(step: S -> Option<S>, s: S, i: nat, j: nat, n: nat)
    requires i < j && Iterate(step, s, i) == Iterate(step, s, j) && Iterate(step, s, j).Some?
    ensures Iterate(step, s, n).Some?
    decreases n
  {
    if n <= j {
      StoppedStaysStopped(step, s, n, j);
    } else {
      SameStateSameFuture(step, s, i, j, n - j);
      RepeatRunsForever(step, s, i, j, i + (n - j));
    }
  }

  /** Machines whose steps agree on every state run alike. */
  lemma {:induction false} SameStepSameRun<S>(step1: S -> Option<S>, step2: S -> Option<S>, s: S, n: nat)
    requires forall t :: step1(t) == step2(t)
    ensures Iterate(step1, s, n) == Iterate(step2, s, n)
  {
    if n > 0 {
      SameStepSameRun(step1, step2, s, n - 1);
    }
  }
}
