/** The stop-checked loop of lib/genetic/Task.js:56-69, over any step that
    may fail: test the stop predicate, and while it answers false take one
    more step. The engine instantiates the step with one iteration. */
module Generations {
  import opened Wrappers

  /** `n` steps in a row from `s`, with no stop test in between; `None` as
      soon as one of them fails. */
  function Steps<S>(next: S -> Option<S>, s: S, n: nat): Option<S>
    decreases n
  {
    if n == 0 then Some(s)
    else
      match next(s)
      case None => None
      case Some(t) => Steps(next, t, n - 1)
  }

  /** How the loop ends: stopped after `iterations` steps, failed in the step
      after `iterations` successful ones, or out of fuel. */
  datatype Ending<S> =
    | Stopped(state: S, iterations: nat)
    | Failed(iterations: nat)
    | OutOfFuel(state: S)

  /** The stop test comes before every step; at most `fuel` steps are taken. */
  function Loop<S>(next: S -> Option<S>, stop: S -> bool, s: S, fuel: nat): (r: Ending<S>)
    ensures r.Stopped? ==> stop(r.state) && r.iterations <= fuel
    ensures r.Failed? ==> r.iterations < fuel
    decreases fuel
  {
    if stop(s) then Stopped(s, 0)
    else if fuel == 0 then OutOfFuel(s)
    else
      match next(s)
      case None => Failed(0)
      case Some(t) =>
        match Loop(next, stop, t, fuel - 1)
        case Stopped(last, n) => Stopped(last, n + 1)
        case Failed(n) => Failed(n + 1)
        case OutOfFuel(last) => OutOfFuel(last)
  }

  /** The first `count` states from `s` exist and answer false to the stop test. */
  predicate PassedBefore<S>(next: S -> Option<S>, stop: S -> bool, s: S, count: nat)
  {
    forall m :: 0 <= m < count ==> Steps(next, s, m).Some? && !stop(Steps(next, s, m).value)
  }

  /** A state that answers false, followed by `count` states that answer
      false, gives `count + 1` states that answer false. */
  lemma PassedBeforeStep<S>(next: S -> Option<S>, stop: S -> bool, s: S, t: S, count: nat)
    requires !stop(s) && next(s) == Some(t)
    requires PassedBefore(next, stop, t, count)
    ensures PassedBefore(next, stop, s, count + 1)
  {
    forall m | 0 <= m < count + 1
      ensures Steps(next, s, m).Some? && !stop(Steps(next, s, m).value)
    {
      if 0 < m {
        assert Steps(next, s, m) == Steps(next, t, m - 1);
      }
    }
  }

  /** The loop stops at the first state of the step sequence that satisfies
      the stop predicate: it is the state `iterations` steps reach, and every
      earlier state was tested and answered false. A failure is the step
      taken from the state `iterations` steps reach, after that state too
      answered false. */
  lemma {:induction false} LoopStopsAtFirst<S>(next: S -> Option<S>, stop: S -> bool, s: S, fuel: nat)
    ensures var r := Loop(next, stop, s, fuel);
            r.Stopped? ==> Steps(next, s, r.iterations) == Some(r.state) && PassedBefore(next, stop, s, r.iterations)
    ensures var r := Loop(next, stop, s, fuel);
            r.Failed? ==>
              && PassedBefore(next, stop, s, r.iterations + 1)
              && next(Steps(next, s, r.iterations).value).None?
    decreases fuel
  {
    if !stop(s) && 0 < fuel {
      if next(s).None? {
        assert PassedBefore(next, stop, s, 1) by {
          assert Steps(next, s, 0) == Some(s);
        }
      } else {
        var t := next(s).value;
        LoopStopsAtFirst(next, stop, t, fuel - 1);
        var r := Loop(next, stop, t, fuel - 1);
        if r.Stopped? {
          PassedBeforeStep(next, stop, s, t, r.iterations);
        } else if r.Failed? {
          PassedBeforeStep(next, stop, s, t, r.iterations + 1);
          assert Steps(next, s, r.iterations + 1) == Steps(next, t, r.iterations);
        }
      }
    }
  }

  /** Every step from a state satisfying `inv` succeeds and keeps `inv`. */
  ghost predicate NeverFailsFrom<S(!new)>(next: S -> Option<S>, inv: S -> bool)
  {
    forall t :: inv(t) ==> next(t).Some? && inv(next(t).value)
  }

  /** Steps that keep an invariant and raise a counter by one keep the
      invariant over `n` steps and raise the counter by `n`. */
  lemma {:induction false} StepsCount<S>(next: S -> Option<S>, inv: S -> bool, count: S -> int, s: S, n: nat)
    requires inv(s)
    requires forall t :: inv(t) && next(t).Some? ==> inv(next(t).value) && count(next(t).value) == count(t) + 1
    ensures Steps(next, s, n).Some? ==> inv(Steps(next, s, n).value) && count(Steps(next, s, n).value) == count(s) + n
    decreases n
  {
    if 0 < n && next(s).Some? {
      StepsCount(next, inv, count, next(s).value, n - 1);
    }
  }

  /** Steps that never fail from an invariant they keep never make the loop fail. */
  lemma {:induction false} LoopNeverFails<S(!new)>(next: S -> Option<S>, stop: S -> bool, inv: S -> bool, s: S, fuel: nat)
    requires inv(s)
    requires NeverFailsFrom(next, inv)
    ensures !Loop(next, stop, s, fuel).Failed?
    decreases fuel
  {
    if !stop(s) && 0 < fuel {
      LoopNeverFails(next, stop, inv, next(s).value, fuel - 1);
    }
  }
}
