/** Runs of a step system. The system is its partial `next` function: a step is enabled where `next` is defined. */
module Runs {

  ghost predicate Run<S, T>(next: (S, T) --> S, s: S, steps: seq<T>)
    decreases |steps|
  {
    steps == [] || (next.requires(s, steps[0]) && Run(next, next(s, steps[0]), steps[1..]))
  }

  ghost function Final<S, T>(next: (S, T) --> S, s: S, steps: seq<T>): S
    requires Run(next, s, steps)
    decreases |steps|
  {
    if steps == [] then s else Final(next, next(s, steps[0]), steps[1..])
  }

  /** What every step keeps, every run keeps. */
  lemma {:induction false} RunKeeps<S(!new), T(!new)>(next: (S, T) --> S, inv: S -> bool, s: S, steps: seq<T>)
    requires inv(s) && Run(next, s, steps)
    requires forall s, step :: inv(s) && next.requires(s, step) ==> inv(next(s, step))
    ensures inv(Final(next, s, steps))
    decreases |steps|
  {
    if steps != [] {
      RunKeeps(next, inv, next(s, steps[0]), steps[1..]);
    }
  }

  lemma {:induction false} RunsJoin<S, T>(next: (S, T) --> S, s: S, a: seq<T>, b: seq<T>)
    requires Run(next, s, a) && Run(next, Final(next, s, a), b)
    ensures Run(next, s, a + b) && Final(next, s, a + b) == Final(next, Final(next, s, a), b)
    decreases |a|
  {
    if a == [] {
      assert a + b == b;
    } else {
      assert (a + b)[1..] == a[1..] + b;
      RunsJoin(next, next(s, a[0]), a[1..], b);
    }
  }

  lemma {:induction false} OneStep<S, T>(next: (S, T) --> S, s: S, step: T)
    requires next.requires(s, step)
    ensures Run(next, s, [step]) && Final(next, s, [step]) == next(s, step)
  {
    assert [step][1..] == [];
  }

  lemma {:induction false} RunExtends<S, T>(next: (S, T) --> S, s: S, steps: seq<T>, step: T)
    requires Run(next, s, steps) && next.requires(Final(next, s, steps), step)
    ensures Run(next, s, steps + [step]) && Final(next, s, steps + [step]) == next(Final(next, s, steps), step)
  {
    OneStep(next, Final(next, s, steps), step);
    RunsJoin(next, s, steps, [step]);
  }

  /** A run written out state by state. */
  lemma {:induction false} RunThrough<S, T>(next: (S, T) --> S, states: seq<S>, steps: seq<T>)
    requires |states| == |steps| + 1
    requires forall i :: 0 <= i < |steps| ==> next.requires(states[i], steps[i]) && states[i + 1] == next(states[i], steps[i])
    ensures Run(next, states[0], steps) && Final(next, states[0], steps) == states[|steps|]
    decreases |steps|
  {
    if steps != [] {
      RunThrough(next, states[1..], steps[1..]);
    }
  }
}
