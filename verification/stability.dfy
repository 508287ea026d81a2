/** The stability controller: the time step `dt = dx / max(velocity)` and the
    per-node Courant numbers `dt * velocity[i] / dx` (final_project_template.py,
    lines 49-50). */
module Stability {
  import opened RealArith

  /** Every velocity is strictly positive (the script's `sin(...) + 5` field is at least 4). */
  predicate AllPositive(v: seq<real>)
  {
    forall i :: 0 <= i < |v| ==> v[i] > 0.0
  }

  /** `np.max`: the largest entry of a non-empty vector. */
  function MaxOf(v: seq<real>): (m: real)
    requires |v| > 0
    ensures forall i :: 0 <= i < |v| ==> v[i] <= m
    ensures m in v
  {
    if |v| == 1 then v[0]
    else
      var rest := MaxOf(v[..|v| - 1]);
      if v[|v| - 1] > rest then v[|v| - 1] else rest
  }

  /** The time step: the step at which the fastest node moves exactly one cell,
      `dt * max(v) == dx`; every slower node then moves less (see CourantStable). */
  function TimeStep(dx: real, v: seq<real>): (dt: real)
    requires dx > 0.0 && |v| > 0 && AllPositive(v)
    ensures dt > 0.0 && MaxOf(v) * dt == dx
  {
    var m := MaxOf(v);
    StepOfMax(dx, m, dx / m);
    dx / m
  }

  /** The Courant number of every node, `dt * v[i] / dx`. */
  function Courant(dt: real, dx: real, v: seq<real>): (c: seq<real>)
    requires dx > 0.0
    ensures |c| == |v|
  {
    seq(|v|, i requires 0 <= i < |v| => dt * v[i] / dx)
  }

  /** Each Courant number is a proper weight: it lies in [0, 1]. */
  predicate AllWeights(c: seq<real>)
  {
    forall i :: 0 <= i < |c| ==> 0.0 <= c[i] <= 1.0
  }

  /** With `dt` from `TimeStep`, every Courant number lies in (0, 1], it is exactly 1
      at the nodes of maximal velocity and nowhere else, and so the largest of them is 1. */
  lemma CourantStable(dx: real, v: seq<real>)
    requires dx > 0.0 && |v| > 0 && AllPositive(v)
    ensures var c := Courant(TimeStep(dx, v), dx, v);
      && AllWeights(c)
      && (forall i :: 0 <= i < |v| ==> 0.0 < c[i] && (c[i] == 1.0 <==> v[i] == MaxOf(v)))
      && MaxOf(c) == 1.0
  {
    var c := Courant(TimeStep(dx, v), dx, v);
    forall i | 0 <= i < |v|
      ensures 0.0 < c[i] <= 1.0 && (c[i] == 1.0 <==> v[i] == MaxOf(v))
    {
      CourantAt(dx, v, i);
    }
    var k :| 0 <= k < |v| && v[k] == MaxOf(v);
    assert c[k] == 1.0;
    assert MaxOf(c) <= 1.0;
  }

  /** One node's Courant number under the derived time step. */
  lemma CourantAt(dx: real, v: seq<real>, i: nat)
    requires dx > 0.0 && |v| > 0 && AllPositive(v) && i < |v|
    ensures var c := Courant(TimeStep(dx, v), dx, v);
      0.0 < c[i] <= 1.0 && (c[i] == 1.0 <==> v[i] == MaxOf(v))
  {
    var m := MaxOf(v);
    var dt := TimeStep(dx, v);
    assert m > 0.0;
    assert dt == dx / m;
    assert 0.0 < v[i] <= m;
    CourantIsVelocityRatio(dt, dx, v, i, m);
  }

  /** The step derived from the maximum, in multiplicative form. */
  lemma StepOfMax(dx: real, m: real, dt: real)
    requires dx > 0.0 && m > 0.0 && dt == dx / m
    ensures dt > 0.0 && m * dt == dx
  {
    DivTimesDivisor(dx, m);
  }

  /** With `dt * m == dx`, a node's Courant number is its velocity over the maximum m. */
  lemma CourantIsVelocityRatio(dt: real, dx: real, v: seq<real>, i: nat, m: real)
    requires dx > 0.0 && m > 0.0 && dt == dx / m && i < |v| && 0.0 < v[i] <= m
    ensures var r := Courant(dt, dx, v)[i]; 0.0 < r <= 1.0 && (r == 1.0 <==> v[i] == m)
  {
    var u := v[i];
    var r := dt * u / dx;
    assert Courant(dt, dx, v)[i] == r;
    DivTimesDivisor(dx, m);
    DivTimesDivisor(dt * u, dx);
    assert r * dx == dt * u;
    assert dt * m == dx;
    assert dt > 0.0;
    assert (r * m) * dt == u * dt by {
      assert (r * m) * dt == r * (dt * m);
    }
    Cancel(r * m, u, dt);
    RatioBounds(r, u, m);
  }

  /** A ratio u / m with 0 < u <= m lies in (0, 1] and is 1 exactly when u == m. */
  lemma RatioBounds(r: real, u: real, m: real)
    requires m > 0.0 && 0.0 < u <= m && r * m == u
    ensures 0.0 < r <= 1.0 && (r == 1.0 <==> u == m)
  {
    PositiveFactor(r, m, u);
    FactorAtMostOne(r, m, u);
    FactorOneIffEqual(r, m, u);
  }
}
