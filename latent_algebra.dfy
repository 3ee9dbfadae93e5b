/** Arithmetic on latent feature vectors, over exact reals. */
module LatentAlgebra {

  /** Sum of u[f] * v[f] over f in 0..n-1. */
  function Dot(u: seq<real>, v: seq<real>, n: nat): real
    requires n <= |u| && n <= |v|
  {
    if n == 0 then 0.0 else Dot(u, v, n - 1) + u[n - 1] * v[n - 1]
  }

  /** x raised to the power 2 (`Math.pow(x, 2)`). */
  function Square(x: real): real
  {
    x * x
  }

  /** Sum of the squares of v[f] over f in 0..n-1. */
  function SumSquares(v: seq<real>, n: nat): real
    requires n <= |v|
  {
    if n == 0 then 0.0 else SumSquares(v, n - 1) + Square(v[n - 1])
  }

  /** Squared Euclidean length of the whole vector. */
  function NormSqr(v: seq<real>): real
  {
    SumSquares(v, |v|)
  }

  lemma {:induction false} SquareNonNegative(x: real)
    ensures Square(x) >= 0.0
  {
    if x < 0.0 {
      assert x * x == (-x) * (-x);
    }
  }

  /** The predicted rating does not depend on which argument is the user. */
  lemma {:induction false} DotSymmetric(u: seq<real>, v: seq<real>, n: nat)
    requires n <= |u| && n <= |v|
    ensures Dot(u, v, n) == Dot(v, u, n)
  {
    if n > 0 {
      DotSymmetric(u, v, n - 1);
    }
  }

  lemma {:induction false} SumSquaresIsSelfDot(v: seq<real>, n: nat)
    requires n <= |v|
    ensures SumSquares(v, n) == Dot(v, v, n)
    ensures SumSquares(v, n) >= 0.0
  {
    if n > 0 {
      SumSquaresIsSelfDot(v, n - 1);
      SquareNonNegative(v[n - 1]);
    }
  }

  /** The squared norm is the dot product of a vector with itself, hence at least 0. */
  lemma NormSqrIsSelfDot(v: seq<real>)
    ensures NormSqr(v) == Dot(v, v, |v|)
    ensures NormSqr(v) >= 0.0
  {
    SumSquaresIsSelfDot(v, |v|);
  }
}
