/** Runs of a state machine whose next state is a function of the state and a move. */
module Runs {
  function Run<S, M>(next: (S, M) -> S, s: S, ms: seq<M>): S
    decreases |ms|
  {
    if ms == [] then s else Run(next, next(s, ms[0]), ms[1..])
  }

  /** Some run leads from s to t. */
  ghost predicate Reaches<S, M(!new)>(next: (S, M) -> S, s: S, t: S) {
    exists ms: seq<M> :: t == Run(next, s, ms)
  }

  lemma {:induction false} RunAppend<S, M>(next: (S, M) -> S, s: S, ms: seq<M>, ms': seq<M>)
    ensures Run(next, s, ms + ms') == Run(next, Run(next, s, ms), ms')
    decreases |ms|
  {
    if ms == [] {
      assert ms + ms' == ms';
    } else {
      assert (ms + ms')[1..] == ms[1..] + ms';
      RunAppend(next, next(s, ms[0]), ms[1..], ms');
    }
  }

  lemma ReachesSelf<S, M(!new)>(next: (S, M) -> S, s: S)
    ensures Reaches(next, s, s)
  {
    assert s == Run(next, s, []);
  }

  /** One more move. */
  lemma After<S, M(!new)>(next: (S, M) -> S, s: S, t: S, m: M) returns (u: S)
    requires Reaches(next, s, t)
    ensures u == next(t, m) && Reaches(next, s, u)
  {
    u := next(t, m);
    var ms :| t == Run(next, s, ms);
    RunAppend(next, s, ms, [m]);
    assert Run(next, t, [m]) == Run(next, u, []);
    assert u == Run(next, s, ms + [m]);
  }

  /** What every step keeps, every run keeps. */
  lemma {:induction false} RunKeeps<S(!new), M(!new)>(next: (S, M) -> S, inv: S -> bool, s: S, ms: seq<M>)
    requires forall s, m :: inv(s) ==> inv(next(s, m))
    requires inv(s)
    ensures inv(Run(next, s, ms))
    decreases |ms|
  {
    if ms != [] {
      RunKeeps(next, inv, next(s, ms[0]), ms[1..]);
    }
  }
}
