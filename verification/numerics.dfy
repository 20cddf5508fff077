/**
 The floating-point library calls the learner depends on, kept abstract.
 `math.exp`, `math.log` and the priority exponent `x ** 0.6` cannot be
 computed over Dafny's exact reals, so they are passed in as a `Numerics`
 record; `Sound` lists the facts about them that the model's proofs use. The
 decay rate `LAMBDA` is defined from `log` as the source defines it.
 */
module Numerics {

  /** `MAX_EPSILON`, `MIN_EPSILON`, `EXPLORATION_STOP`. */
  const MaxEpsilon: real := 1.0
  const MinEpsilon: real := 0.0
  const ExplorationStop: nat := 1200

  /** `exp` is `math.exp`, `log` is `math.log` and `powAlpha(x)` is `x ** 0.6`. */
  datatype Numerics = Numerics(exp: real -> real, log: real -> real, powAlpha: real -> real)

  /**
   What the model relies on: `exp` is positive, equals 1 at 0 and increases;
   `log` inverts it on positive arguments; `x ** 0.6` is positive for positive
   `x`.
   */
  ghost predicate Sound(n: Numerics)
  {
    && n.exp(0.0) == 1.0
    && (forall x: real :: n.exp(x) > 0.0)
    && (forall x: real, y: real :: x <= y ==> n.exp(x) <= n.exp(y))
    && (forall x: real :: x > 0.0 ==> n.exp(n.log(x)) == x)
    && (forall x: real :: x > 0.0 ==> n.powAlpha(x) > 0.0)
  }

  /** `LAMBDA = -math.log(0.01) / EXPLORATION_STOP`. */
  function Lambda(n: Numerics): real
  {
    -n.log(0.01) / ExplorationStop as real
  }

  /** The decay rate is positive: `log(0.01)` lies below `log(1) = 0`. */
  lemma LambdaPositive(n: Numerics)
    requires Sound(n)
    ensures Lambda(n) > 0.0
  {
    assert n.exp(n.log(0.01)) == 0.01 < n.exp(0.0);
  }

  /** Scaling by a draw from `[0, 1]` stays within `[0, x]`. */
  lemma ScaleWithin(x: real, u: real)
    requires x >= 0.0 && 0.0 <= u <= 1.0
    ensures 0.0 <= x * u <= x
  {
    assert x - x * u == x * (1.0 - u);
  }

  /** Scaling a positive `x` by a draw from `[0, 1)` stays below `x`. */
  lemma ScaleBelow(x: real, u: real)
    requires x > 0.0 && 0.0 <= u < 1.0
    ensures 0.0 <= x * u < x
  {
    assert x - x * u == x * (1.0 - u);
  }

  /** The exploration rate after `steps` observations. */
  function Epsilon(n: Numerics, steps: nat): (eps: real)
    requires Sound(n)
    ensures MinEpsilon < eps <= MaxEpsilon
  {
    MinEpsilon + (MaxEpsilon - MinEpsilon) * n.exp(-Lambda(n) * steps as real)
  }

  /** Exploration starts at `MAX_EPSILON`. */
  lemma EpsilonStartsAtMax(n: Numerics)
    requires Sound(n)
    ensures Epsilon(n, 0) == MaxEpsilon
  {
  }

  /** The exploration rate never grows as steps accumulate. */
  lemma EpsilonDecays(n: Numerics, s: nat, s': nat)
    requires Sound(n) && s <= s'
    ensures Epsilon(n, s') <= Epsilon(n, s)
  {
    LambdaPositive(n);
    assert -Lambda(n) * s' as real <= -Lambda(n) * s as real;
  }

  /**
   `LAMBDA`'s definition is what makes `EXPLORATION_STOP` the step at which
   the exploration rate has fallen to 0.01.
   */
  lemma EpsilonAtExplorationStop(n: Numerics)
    requires Sound(n)
    ensures Epsilon(n, ExplorationStop) == 0.01
  {
    assert -Lambda(n) * ExplorationStop as real == n.log(0.01);
    assert n.exp(n.log(0.01)) == 0.01;
  }
}
