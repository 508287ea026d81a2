/** The operator builder and the operator it builds: the dense N x N transition
    matrix of the first-order upwind (donor-cell) scheme, filled in place on a
    zero matrix (final_project_template.py, lines 59-64), and its action on a
    concentration vector. */
module UpwindOperator {
  import opened Vectors
  import opened Stability
  import opened RealArith

  /** Entry (i, j) of the transition matrix. Row 0 is the identity row that
      pins the left boundary; every row i >= 1 has `1 - courant[i]` on the
      diagonal, `courant[i]` just left of it, and zeros elsewhere. The last row
      is an ordinary row: there is no right-boundary condition. */
  function Entry(courant: seq<real>, i: nat, j: nat): real
    requires i < |courant|
  {
    if i == 0 then (if j == 0 then 1.0 else 0.0)
    else if j == i then 1.0 - courant[i]
    else if j + 1 == i then courant[i]
    else 0.0
  }

  /** Row i of the transition matrix. */
  function Row(courant: seq<real>, i: nat): (r: seq<real>)
    requires i < |courant|
    ensures |r| == |courant|
  {
    seq(|courant|, j requires 0 <= j < |courant| => Entry(courant, i, j))
  }

  /** The whole transition matrix, row by row. */
  function Operator(courant: seq<real>): (a: seq<seq<real>>)
    ensures |a| == |courant|
    ensures forall i :: 0 <= i < |a| ==> |a[i]| == |courant|
  {
    seq(|courant|, i requires 0 <= i < |courant| => Row(courant, i))
  }

  /** The array `A` holds the transition matrix for these Courant numbers. */
  ghost predicate IsOperator(A: array2<real>, courant: seq<real>)
    reads A
  {
    && A.Length0 == |courant| && A.Length1 == |courant|
    && forall i, j :: 0 <= i < |courant| && 0 <= j < |courant| ==> A[i, j] == Entry(courant, i, j)
  }

  /** Builds `A`: a zero matrix, then rows 1 .. N-1 filled by a loop, then `A[0,0] = 1`. */
  method BuildOperator(courant: seq<real>) returns (A: array2<real>)
    requires |courant| >= 1
    ensures fresh(A)
    ensures IsOperator(A, courant)
  {
    var n := |courant|;
    A := new real[n, n]((_, _) => 0.0);
    for i := 1 to n
      invariant A.Length0 == n && A.Length1 == n
      invariant forall r, k :: 0 <= r < n && 0 <= k < n ==>
        A[r, k] == if 1 <= r < i then Entry(courant, r, k) else 0.0
    {
      A[i, i] := 1.0 - courant[i];
      A[i, i - 1] := courant[i];
    }
    A[0, 0] := 1.0;
  }

  /** One step of the upwind scheme in closed form: node 0 keeps its value and
      every other node mixes itself with its upwind (left) neighbour. */
  function Upwind(courant: seq<real>, x: seq<real>): (y: seq<real>)
    requires |courant| == |x|
    ensures |y| == |x|
  {
    seq(|x|, i requires 0 <= i < |x| =>
      if i == 0 then x[0] else (1.0 - courant[i]) * x[i] + courant[i] * x[i - 1])
  }

  /** The dense product with the transition matrix is the upwind step: the sum
      over a whole row collapses to its two banded entries. */
  lemma MatVecIsUpwind(courant: seq<real>, x: seq<real>)
    requires |courant| == |x|
    ensures MatVec(Operator(courant), x) == Upwind(courant, x)
  {
    forall i | 0 <= i < |x| ensures Dot(Operator(courant)[i], x) == Upwind(courant, x)[i] {
      RowDotIsUpwind(courant, x, i);
    }
  }

  /** Row i dotted with x is node i of the upwind step. */
  lemma RowDotIsUpwind(courant: seq<real>, x: seq<real>, i: nat)
    requires |courant| == |x| && i < |x|
    ensures Dot(Row(courant, i), x) == Upwind(courant, x)[i]
  {
    var n := |x|;
    var r := Row(courant, i);
    assert Dot(r, x) == Dot(r[..n], x[..n]) by {
      assert r[..n] == r;
      assert x[..n] == x;
    }
    RowDotPrefix(courant, i, x, n);
    UpwindAt(courant, x, i);
  }

  /** Node i of the upwind step, with the two terms in the order the row meets them. */
  lemma UpwindAt(courant: seq<real>, x: seq<real>, i: nat)
    requires |courant| == |x| && i < |x|
    ensures Upwind(courant, x)[i] ==
      if i == 0 then x[0] else courant[i] * x[i - 1] + (1.0 - courant[i]) * x[i]
  {
  }

  /** The dot product of the first k entries of row i with the first k entries of x. */
  lemma {:induction false} RowDotPrefix(courant: seq<real>, i: nat, x: seq<real>, k: nat)
    requires |courant| == |x| && i < |x| && k <= |x|
    ensures Dot(Row(courant, i)[..k], x[..k]) ==
      if i == 0 then (if 0 < k then x[0] else 0.0)
      else ((if i - 1 < k then courant[i] * x[i - 1] else 0.0)
            + (if i < k then (1.0 - courant[i]) * x[i] else 0.0))
  {
    if k > 0 {
      RowDotPrefix(courant, i, x, k - 1);
      var r := Row(courant, i);
      assert r[..k][..k - 1] == r[..k - 1];
      assert x[..k][..k - 1] == x[..k - 1];
    }
  }

  /** Every row of the transition matrix sums to 1. */
  lemma RowSumIsOne(courant: seq<real>, i: nat)
    requires i < |courant|
    ensures Sum(Operator(courant)[i]) == 1.0
  {
    var ones := Constant(|courant|, 1.0);
    SumIsDotWithOnes(Operator(courant)[i]);
    RowDotPrefix(courant, i, ones, |courant|);
    assert Row(courant, i)[..|courant|] == Row(courant, i);
    assert ones[..|courant|] == ones;
  }

  /** Because rows sum to 1, a uniform concentration is left unchanged by a
      step; in particular the zero vector maps to the zero vector. */
  lemma UpwindFixesConstants(courant: seq<real>, v: real)
    ensures Upwind(courant, Constant(|courant|, v)) == Constant(|courant|, v)
  {
    var x := Constant(|courant|, v);
    forall i | 1 <= i < |x| ensures Upwind(courant, x)[i] == v {
      var w := courant[i];
      assert (1.0 - w) * v + w * v == v;
    }
  }

  /** Each updated node is a convex combination of itself and its left
      neighbour, so it lies between their old values. */
  lemma UpwindIsConvex(courant: seq<real>, x: seq<real>, i: nat)
    requires |courant| == |x| && 1 <= i < |x| && 0.0 <= courant[i] <= 1.0
    ensures var y := Upwind(courant, x)[i];
      && (x[i - 1] <= x[i] ==> x[i - 1] <= y <= x[i])
      && (x[i] <= x[i - 1] ==> x[i] <= y <= x[i - 1])
  {
    var w := courant[i];
    var y := Upwind(courant, x)[i];
    assert y == (1.0 - w) * x[i] + w * x[i - 1];
    ConvexStep(x[i], x[i - 1], w, y);
  }

  /** A step keeps every node within any bounds that all nodes met before:
      no new maximum, no new minimum (so non-negative stays non-negative). */
  lemma UpwindMaxPrinciple(courant: seq<real>, x: seq<real>, lo: real, hi: real)
    requires |courant| == |x| && AllWeights(courant)
    requires forall i :: 0 <= i < |x| ==> lo <= x[i] <= hi
    ensures forall i :: 0 <= i < |x| ==> lo <= Upwind(courant, x)[i] <= hi
  {
    forall i | 1 <= i < |x| ensures lo <= Upwind(courant, x)[i] <= hi {
      UpwindIsConvex(courant, x, i);
    }
  }

  /** `(1 - w) * a + w * b` with `0 <= w <= 1` lies between `a` and `b`. */
  lemma ConvexStep(a: real, b: real, w: real, y: real)
    requires 0.0 <= w <= 1.0 && y == (1.0 - w) * a + w * b
    ensures a <= b ==> a <= y <= b
    ensures b <= a ==> b <= y <= a
  {
    var d := b - a;
    assert y == a + w * d;
    if a <= b {
      ScaleLe(0.0, w, d);
      ScaleLe(w, 1.0, d);
      assert 0.0 <= w * d <= d;
    } else {
      ScaleLe(0.0, w, -d);
      ScaleLe(w, 1.0, -d);
      assert w * (-d) == -(w * d);
      assert d <= w * d <= 0.0;
    }
  }
}
