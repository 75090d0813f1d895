/** Left folds over sequences. */
module Fold {

  function FoldLeft<S, B>(f: (S, B) -> S, state: S, bs: seq<B>): S {
    if bs == [] then state else FoldLeft(f, f(state, bs[0]), bs[1..])
  }

  lemma {:induction false} FoldConcat<S, B>(f: (S, B) -> S, state: S, bs: seq<B>, cs: seq<B>)
    ensures FoldLeft(f, state, bs + cs) == FoldLeft(f, FoldLeft(f, state, bs), cs)
    decreases |bs|
  {
    if bs == [] {
      assert bs + cs == cs;
    } else {
      FoldConcat(f, f(state, bs[0]), bs[1..], cs);
      assert (bs + cs)[1..] == bs[1..] + cs;
    }
  }

  lemma FoldSnoc<S, B>(f: (S, B) -> S, state: S, bs: seq<B>, b: B)
    ensures FoldLeft(f, state, bs + [b]) == f(FoldLeft(f, state, bs), b)
  {
    FoldConcat(f, state, bs, [b]);
    assert [b][1..] == [];
  }

  ghost predicate InjectiveInState<S(!new), B(!new)>(f: (S, B) -> S) {
    forall x, y, b :: f(x, b) == f(y, b) ==> x == y
  }

  lemma {:induction false} FoldInjective<S(!new), B(!new)>(f: (S, B) -> S, x: S, y: S, bs: seq<B>)
    requires InjectiveInState(f)
    requires FoldLeft(f, x, bs) == FoldLeft(f, y, bs)
    ensures x == y
    decreases |bs|
  {
    if bs != [] { FoldInjective(f, f(x, bs[0]), f(y, bs[0]), bs[1..]); }
  }
}
