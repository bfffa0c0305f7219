/** Runs of a machine, for any step function: what the step systems share. */
module Machines {

  function Run<S, E>(step: (S, E) -> S, st: S, es: seq<E>): S
    decreases |es|
  {
    if es == [] then st else step(Run(step, st, es[..|es| - 1]), es[|es| - 1])
  }

  lemma RunLast<S, E>(step: (S, E) -> S, st: S, es: seq<E>)
    requires es != []
    ensures Run(step, st, es) == step(Run(step, st, es[..|es| - 1]), es[|es| - 1])
  {
  }

  lemma RunSnoc<S, E>(step: (S, E) -> S, st: S, es: seq<E>, e: E)
    ensures Run(step, st, es + [e]) == step(Run(step, st, es), e)
  {
    assert (es + [e])[..|es|] == es;
  }

  lemma RunOne<S, E>(step: (S, E) -> S, st: S, e: E)
    ensures Run(step, st, [e]) == step(st, e)
  {
    RunSnoc(step, st, [], e);
    assert [] + [e] == [e];
  }

  lemma RunTwo<S, E>(step: (S, E) -> S, st: S, es: seq<E>, a: E, b: E)
    ensures Run(step, st, es + [a, b]) == step(step(Run(step, st, es), a), b)
  {
    RunSnoc(step, st, es, a);
    RunSnoc(step, st, es + [a], b);
    assert es + [a, b] == es + [a] + [b];
  }

  lemma RunThree<S, E>(step: (S, E) -> S, st: S, es: seq<E>, a: E, b: E, c: E)
    ensures Run(step, st, es + [a, b, c]) == step(step(step(Run(step, st, es), a), b), c)
  {
    RunTwo(step, st, es, a, b);
    RunSnoc(step, st, es + [a, b], c);
    assert es + [a, b, c] == es + [a, b] + [c];
  }

  lemma {:induction false} RunConcat<S, E>(step: (S, E) -> S, st: S, a: seq<E>, b: seq<E>)
    ensures Run(step, st, a + b) == Run(step, Run(step, st, a), b)
    decreases |b|
  {
    if b == [] {
      assert a + b == a;
    } else {
      var front, e := b[..|b| - 1], b[|b| - 1];
      RunConcat(step, st, a, front);
      assert a + b == (a + front) + [e] && b == front + [e];
      RunSnoc(step, st, a + front, e);
      RunSnoc(step, Run(step, st, a), front, e);
    }
  }

  lemma RunCons<S, E>(step: (S, E) -> S, st: S, es: seq<E>)
    requires es != []
    ensures Run(step, st, es) == Run(step, step(st, es[0]), es[1..])
  {
    RunOne(step, st, es[0]);
    RunConcat(step, st, [es[0]], es[1..]);
    assert es == [es[0]] + es[1..];
  }

  // ---------------------------------------------------------------- what a run puts out

  /** The outputs of a machine along a sequence of inputs. */
  function Outputs<S, E, M>(step: (S, E) -> S, out: (S, E) -> seq<M>, st: S, es: seq<E>): seq<M> {
    if es == [] then [] else out(st, es[0]) + Outputs(step, out, step(st, es[0]), es[1..])
  }

  lemma {:induction false} OutputsConcat<S, E, M>(step: (S, E) -> S, out: (S, E) -> seq<M>, st: S, a: seq<E>, b: seq<E>)
    ensures Outputs(step, out, st, a + b) == Outputs(step, out, st, a) + Outputs(step, out, Run(step, st, a), b)
    decreases |a|
  {
    if a == [] {
      assert a + b == b;
    } else {
      OutputsConcat(step, out, step(st, a[0]), a[1..], b);
      RunCons(step, st, a);
      assert (a + b)[0] == a[0] && (a + b)[1..] == a[1..] + b;
    }
  }

  lemma OutputsOne<S, E, M>(step: (S, E) -> S, out: (S, E) -> seq<M>, st: S, e: E)
    ensures Outputs(step, out, st, [e]) == out(st, e)
  {
    assert [e][1..] == [];
    assert Outputs(step, out, step(st, e), []) == [];
  }
}
