/** Runs of a transition system, given by its steps. */
module Runs {

  /** `acts`, step by step, lead from `s` to `s'`. */
  ghost predicate Path<S(!new), A(!new)>(step: (S, A, S) -> bool, s: S, acts: seq<A>, s': S)
    decreases |acts|
  {
    if acts == [] then s' == s
    else exists s1 :: step(s, acts[0], s1) && Path(step, s1, acts[1..], s')
  }

  lemma PathCons<S(!new), A(!new)>(step: (S, A, S) -> bool, s: S, act: A, s1: S, acts: seq<A>, s': S)
    requires step(s, act, s1) && Path(step, s1, acts, s')
    ensures Path(step, s, [act] + acts, s')
  {
    assert ([act] + acts)[1..] == acts;
  }

  lemma {:induction false} PathConcat<S(!new), A(!new)>(step: (S, A, S) -> bool, s: S, xs: seq<A>, s1: S, ys: seq<A>, s2: S)
    requires Path(step, s, xs, s1) && Path(step, s1, ys, s2)
    ensures Path(step, s, xs + ys, s2)
    decreases |xs|
  {
    if xs == [] {
      assert xs + ys == ys;
    } else {
      var r :| step(s, xs[0], r) && Path(step, r, xs[1..], s1);
      PathConcat(step, r, xs[1..], s1, ys, s2);
      PathCons(step, s, xs[0], r, xs[1..] + ys, s2);
      assert xs + ys == [xs[0]] + (xs[1..] + ys);
    }
  }

  /** What every step keeps, every run keeps. */
  lemma {:induction false} PathKeeps<S(!new), A(!new)>(step: (S, A, S) -> bool, inv: S -> bool, s: S, acts: seq<A>, s': S)
    requires inv(s) && Path(step, s, acts, s')
    requires forall a, x, b :: inv(a) && step(a, x, b) ==> inv(b)
    ensures inv(s')
    decreases |acts|
  {
    if acts != [] {
      var s1 :| step(s, acts[0], s1) && Path(step, s1, acts[1..], s');
      PathKeeps(step, inv, s1, acts[1..], s');
    }
  }
}
