/** Runs of a labelled transition system: a run is the sequence of actions taken, first to last. */
module Runs {

  /** The state a run ends in. */
  ghost function Exec<S, A>(step: (S, A) -> S, s: S, acts: seq<A>): S {
    if acts == [] then s
    else step(Exec(step, s, acts[..|acts| - 1]), acts[|acts| - 1])
  }

  lemma ExecSnoc<S, A>(step: (S, A) -> S, s: S, acts: seq<A>, a: A)
    ensures Exec(step, s, acts + [a]) == step(Exec(step, s, acts), a)
  {
    assert (acts + [a])[..|acts|] == acts;
  }

  lemma {:induction false} ExecConcat<S, A>(step: (S, A) -> S, s: S, first: seq<A>, second: seq<A>)
    ensures Exec(step, s, first + second) == Exec(step, Exec(step, s, first), second)
    decreases |second|
  {
    if second == [] {
      assert first + second == first;
    } else {
      var n := |second| - 1;
      assert (first + second)[..|first + second| - 1] == first + second[..n];
      ExecConcat(step, s, first, second[..n]);
    }
  }

  /** The run that repeats one action. */
  ghost function Repeat<A>(a: A, n: nat): (r: seq<A>)
    ensures |r| == n && forall i :: 0 <= i < n ==> r[i] == a
  {
    seq(n, _ => a)
  }

  /** A run that repeats an action starts with it. */
  lemma ExecRepeat<S, A>(step: (S, A) -> S, s: S, a: A, n: nat)
    ensures Exec(step, s, Repeat(a, n + 1)) == Exec(step, step(s, a), Repeat(a, n))
  {
    assert [] + [a] == [a] && Repeat(a, n + 1) == [a] + Repeat(a, n);
    ExecSnoc(step, s, [], a);
    ExecConcat(step, s, [a], Repeat(a, n));
  }

  lemma ExecRepeatTwice<S, A>(step: (S, A) -> S, s: S, a: A, n: nat)
    ensures Exec(step, s, Repeat(a, n + 2)) == Exec(step, step(step(s, a), a), Repeat(a, n))
  {
    ExecRepeat(step, s, a, n + 1);
    ExecRepeat(step, step(s, a), a, n);
  }
}
