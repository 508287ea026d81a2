/** Dense vectors and matrices of exact reals, as the script uses numpy arrays:
    sums, inner products and the matrix-vector product `np.dot(A, c)`. */
module Vectors {

  /** Sum of the entries of a vector, accumulated from the left. */
  function Sum(x: seq<real>): real
  {
    if |x| == 0 then 0.0 else Sum(x[..|x| - 1]) + x[|x| - 1]
  }

  /** Inner product of two vectors of equal length (one row of `np.dot`). */
  function Dot(a: seq<real>, b: seq<real>): real
    requires |a| == |b|
  {
    if |a| == 0 then 0.0 else Dot(a[..|a| - 1], b[..|b| - 1]) + a[|a| - 1] * b[|b| - 1]
  }

  /** Extending both prefixes by one entry adds that entry's product. */
  lemma DotPrefixStep(a: seq<real>, b: seq<real>, j: nat)
    requires |a| == |b| && j < |a|
    ensures Dot(a[..j + 1], b[..j + 1]) == Dot(a[..j], b[..j]) + a[j] * b[j]
  {
    assert a[..j + 1][..j] == a[..j];
    assert b[..j + 1][..j] == b[..j];
  }

  /** `np.dot(M, x)` for a matrix given as its rows: entry `i` is row `i` dotted with `x`. */
  function MatVec(m: seq<seq<real>>, x: seq<real>): (y: seq<real>)
    requires forall i :: 0 <= i < |m| ==> |m[i]| == |x|
    ensures |y| == |m|
  {
    seq(|m|, i requires 0 <= i < |m| => Dot(m[i], x))
  }

  /** The vector of length `n` whose every entry is `v`. */
  function Constant(n: nat, v: real): (x: seq<real>)
    ensures |x| == n
  {
    seq(n, _ => v)
  }

  /** Adding `d` entrywise to `x` adds the sum of `d` to the sum of `x`. */
  lemma {:induction false} SumOfPointwiseAdd(x: seq<real>, d: seq<real>, y: seq<real>)
    requires |x| == |d| == |y|
    requires forall i :: 0 <= i < |y| ==> y[i] == x[i] + d[i]
    ensures Sum(y) == Sum(x) + Sum(d)
  {
    if |y| > 0 {
      var n := |y| - 1;
      SumOfPointwiseAdd(x[..n], d[..n], y[..n]);
    }
  }

  /** Summing a vector is dotting it with the all-ones vector. */
  lemma {:induction false} SumIsDotWithOnes(x: seq<real>)
    ensures Sum(x) == Dot(x, Constant(|x|, 1.0))
  {
    if |x| > 0 {
      var n := |x| - 1;
      SumIsDotWithOnes(x[..n]);
      assert Constant(|x|, 1.0)[..n] == Constant(n, 1.0);
    }
  }
}
