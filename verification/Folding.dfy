/**
 Reading a list element by element into a state, and the invariants of doing so.
 */
module Folding {

  /** A predicate stated "for every u that is unfolded" stays folded, for the verifier, until Unfold is mentioned. */
  predicate Unfold(u: int) { true }

  /** Feed the elements, with their places, to a step function. */
  function Fold<S, E>(step: (S, nat, E) -> S, s: S, list: seq<E>): S {
    if list == [] then s
    else
      var n := |list| - 1;
      step(Fold(step, s, list[..n]), n, list[n])
  }

  /** Whatever holds at the start and survives each step holds at the end. */
  lemma {:induction false} FoldKeeps<S(!new), E>(step: (S, nat, E) -> S, s: S, list: seq<E>, inv: (S, nat) -> bool)
    requires inv(s, 0)
    requires forall t, i: nat | i < |list| && inv(t, i) :: inv(step(t, i, list[i]), i + 1)
    ensures inv(Fold(step, s, list), |list|)
    decreases |list|
  {
    if list != [] {
      var n := |list| - 1;
      forall t, i: nat | i < n && inv(t, i) ensures inv(step(t, i, list[..n][i]), i + 1) {
        assert inv(step(t, i, list[i]), i + 1);
      }
      FoldKeeps(step, s, list[..n], inv);
      var t := Fold(step, s, list[..n]);
      assert inv(t, n);
      assert inv(step(t, n, list[n]), n + 1);
    }
  }

  lemma FoldNext<S, E>(step: (S, nat, E) -> S, s: S, list: seq<E>, x: E)
    ensures Fold(step, s, list + [x]) == step(Fold(step, s, list), |list|, x)
  {
    assert (list + [x])[..|list|] == list;
  }

  lemma FoldOn<S, E>(step: (S, nat, E) -> S, s: S, list: seq<E>, n: nat)
    requires n < |list|
    ensures Fold(step, s, list[..n + 1]) == step(Fold(step, s, list[..n]), n, list[n])
  {
    assert list[..n + 1] == list[..n] + [list[n]];
    FoldNext(step, s, list[..n], list[n]);
  }
}
