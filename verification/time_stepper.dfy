/** The time-stepper: the clocked `while seconds <= endtime` loop that applies
    the transition matrix to the concentration array in place, injects extra
    tracer at nodes 2..5 on whole-minute marks, and advances the clock by `dt`
    (final_project_template.py, lines 74-83). */
module TimeStepper {
  import opened Vectors
  import opened Stability
  import opened RealArith
  import opened UpwindOperator

  /** Simulated end time in seconds (`endtime = 10 * 60`). */
  const EndTime: real := 600.0
  /** Injection interval in whole seconds. */
  const Interval: int := 60
  /** Tracer added to each injection node: the literal `10e-7`, that is 1e-6 kg/m^3. */
  const Dose: real := 0.000001
  /** The injection nodes are the slice `c[2:6]`: indices From .. To - 1. */
  const From: nat := 2
  const To: nat := 6

  /** `int(seconds) % 60 == 0`: the whole seconds elapsed are a multiple of the
      interval. The clock is never negative, so truncation toward zero is the floor. */
  predicate OnIntervalMark(t: real)
    requires t >= 0.0
  {
    t.Floor % Interval == 0
  }

  /** The injection test: on an interval mark and strictly after the start. */
  predicate InjectionDue(t: real)
    requires t >= 0.0
  {
    OnIntervalMark(t) && t > 0.0
  }

  /** `c[2:6] += 10e-7` as a value; like a slice, the range is clipped to the vector. */
  function Injected(x: seq<real>): (y: seq<real>)
    ensures |y| == |x|
  {
    seq(|x|, i requires 0 <= i < |x| => if From <= i < To then x[i] + Dose else x[i])
  }

  /** How many nodes the slice `[2:6]` covers in a vector of length n. */
  function SliceWidth(n: nat): nat
  {
    if n <= From then 0 else if n >= To then To - From else n - From
  }

  /** What an injection adds to each node. */
  function DoseProfile(n: nat): (d: seq<real>)
    ensures |d| == n
  {
    seq(n, i requires 0 <= i < n => if From <= i < To then Dose else 0.0)
  }

  /** One pass of the loop body at clock value t: the operator is applied first,
      then, on a due mark, the injection. */
  function Pass(courant: seq<real>, x: seq<real>, t: real): (y: seq<real>)
    requires |x| == |courant| && t >= 0.0
    ensures |y| == |x|
  {
    var stepped := Upwind(courant, x);
    if InjectionDue(t) then Injected(stepped) else stepped
  }

  /** The clock after k passes: `seconds = 0` advanced by `seconds += dt` k times. */
  function Clock(k: nat, dt: real): real
  {
    if k == 0 then 0.0 else Clock(k - 1, dt) + dt
  }

  /** With exact arithmetic the accumulated clock is k * dt. */
  lemma {:induction false} ClockIsProduct(k: nat, dt: real)
    ensures Clock(k, dt) == k as real * dt
  {
    if k > 0 {
      ClockIsProduct(k - 1, dt);
      assert k as real * dt == (k - 1) as real * dt + dt;
    }
  }

  /** The concentration after k passes from c0; pass number j sees the clock at Clock(j, dt). */
  function Evolve(courant: seq<real>, dt: real, c0: seq<real>, k: nat): (c: seq<real>)
    requires |c0| == |courant| && dt > 0.0
    ensures |c| == |c0|
    decreases k
  {
    if k == 0 then c0
    else Pass(courant, Evolve(courant, dt, c0, k - 1), ClockNonNegative(k - 1, dt); Clock(k - 1, dt))
  }

  lemma {:induction false} ClockNonNegative(k: nat, dt: real)
    requires dt > 0.0
    ensures Clock(k, dt) >= 0.0
  {
    if k > 0 {
      ClockNonNegative(k - 1, dt);
    }
  }

  /** How many passes the loop makes: one for each k >= 0 with k * dt <= 600. */
  function PassCount(dt: real): nat
    requires dt > 0.0
  {
    var q := EndTime / dt;
    assert q >= 0.0;
    q.Floor + 1
  }

  /** The loop's pass count is exact: the clock stays within the end time for
      precisely the first PassCount(dt) passes. */
  lemma LoopGuard(dt: real, k: nat)
    requires dt > 0.0
    ensures Clock(k, dt) <= EndTime <==> k < PassCount(dt)
  {
    ClockIsProduct(k, dt);
    PassCountExact(dt, k);
  }

  /** A bound on the number of passes, stated through the clock alone. */
  lemma PassBound(dt: real) returns (n: nat)
    requires dt > 0.0
    ensures forall k: nat :: Clock(k, dt) <= EndTime <==> k < n
  {
    n := PassCount(dt);
    forall k: nat ensures Clock(k, dt) <= EndTime <==> k < n {
      LoopGuard(dt, k);
    }
  }

  /** A loop whose passes are exactly those with the clock within the end time
      makes PassCount(dt) passes, and its clock then reads PassCount(dt) * dt. */
  lemma RunLength(dt: real, n: nat)
    requires dt > 0.0
    requires forall k: nat :: Clock(k, dt) <= EndTime <==> k < n
    ensures n == PassCount(dt) && Clock(n, dt) == n as real * dt
  {
    LoopGuard(dt, n);
    LoopGuard(dt, PassCount(dt));
    ClockIsProduct(n, dt);
  }

  /** k * dt stays within the end time precisely for k < PassCount(dt). */
  lemma PassCountExact(dt: real, k: nat)
    requires dt > 0.0
    ensures k as real * dt <= EndTime <==> k < PassCount(dt)
  {
    var q := EndTime / dt;
    var f := q.Floor;
    assert q * dt == EndTime;
    if k as real * dt <= EndTime {
      assert k as real <= q by {
        if k as real > q {
          ScaleLt(q, k as real, dt);
        }
      }
      assert k < f + 1;
    } else {
      if k <= f {
        assert k as real <= q;
        ScaleLe(k as real, q, dt);
        assert false;
      }
    }
  }

  /** An injection adds the dose to the sliced nodes only, so the total
      concentration rises by exactly (nodes covered) x dose: 4 x 10e-7 on any
      grid of at least six nodes. */
  lemma InjectionAddsMass(x: seq<real>)
    ensures Sum(Injected(x)) == Sum(x) + SliceWidth(|x|) as real * Dose
    ensures |x| >= To ==> Sum(Injected(x)) == Sum(x) + 4.0 * Dose
  {
    SumOfPointwiseAdd(x, DoseProfile(|x|), Injected(x));
    DoseProfileSum(|x|);
  }

  lemma {:induction false} DoseProfileSum(n: nat)
    ensures Sum(DoseProfile(n)) == SliceWidth(n) as real * Dose
  {
    if n > 0 {
      DoseProfileSum(n - 1);
      assert DoseProfile(n)[..n - 1] == DoseProfile(n - 1);
    }
  }

  /** What one pass adds on top of the operator application: the full injection
      on a due mark, nothing otherwise. */
  lemma PassMass(courant: seq<real>, x: seq<real>, t: real)
    requires |x| == |courant| >= To && t >= 0.0
    ensures Sum(Pass(courant, x, t)) == Sum(Upwind(courant, x)) + (if InjectionDue(t) then 4.0 * Dose else 0.0)
  {
    InjectionAddsMass(Upwind(courant, x));
  }

  /** Node 0 keeps its initial value for the whole run: the operator pins it and
      the injection never touches it. */
  lemma {:induction false} EvolvePinsBoundary(courant: seq<real>, dt: real, c0: seq<real>, k: nat)
    requires |c0| == |courant| >= 1 && dt > 0.0
    ensures Evolve(courant, dt, c0, k)[0] == c0[0]
  {
    if k > 0 {
      EvolvePinsBoundary(courant, dt, c0, k - 1);
    }
  }

  /** A non-negative start stays non-negative, and after k passes no node exceeds
      the initial maximum M by more than k doses. */
  lemma {:induction false} EvolveBounded(courant: seq<real>, dt: real, c0: seq<real>, k: nat, m: real)
    requires |c0| == |courant| && dt > 0.0 && AllWeights(courant)
    requires forall i :: 0 <= i < |c0| ==> 0.0 <= c0[i] <= m
    ensures forall i :: 0 <= i < |c0| ==> 0.0 <= Evolve(courant, dt, c0, k)[i] <= m + k as real * Dose
  {
    if k > 0 {
      var hi := m + (k - 1) as real * Dose;
      var prev := Evolve(courant, dt, c0, k - 1);
      EvolveBounded(courant, dt, c0, k - 1, m);
      UpwindMaxPrinciple(courant, prev, 0.0, hi);
    }
  }

  /** One entry of `np.dot(A, c)`: row i of the array dotted with c. */
  method RowTimesVector(A: array2<real>, ghost courant: seq<real>, i: nat, c: array<real>) returns (s: real)
    requires IsOperator(A, courant) && c.Length == |courant| && i < |courant|
    ensures s == Dot(Row(courant, i), c[..])
  {
    var n := c.Length;
    ghost var r := Row(courant, i);
    s := 0.0;
    for j := 0 to n
      invariant s == Dot(r[..j], c[..j])
    {
      DotPrefixStep(r, c[..], j);
      s := s + A[i, j] * c[j];
    }
    assert r[..n] == r && c[..n] == c[..];
  }

  /** `newc = np.dot(A, c)`: a fresh array holding the dense matrix-vector product. */
  method Product(A: array2<real>, ghost courant: seq<real>, c: array<real>) returns (newc: array<real>)
    requires IsOperator(A, courant) && c.Length == |courant|
    ensures fresh(newc)
    ensures newc[..] == MatVec(Operator(courant), c[..])
  {
    var n := c.Length;
    newc := new real[n];
    for i := 0 to n
      invariant forall r :: 0 <= r < i ==> newc[r] == Dot(Row(courant, r), c[..])
    {
      newc[i] := RowTimesVector(A, courant, i, c);
    }
  }

  /** `newc = np.dot(A, c); c[:] = newc * 1`: the dense matrix-vector product,
      written back into `c`, which is the upwind step of the old contents. */
  method ApplyOperator(A: array2<real>, ghost courant: seq<real>, c: array<real>)
    requires IsOperator(A, courant) && c.Length == |courant|
    modifies c
    ensures c[..] == MatVec(Operator(courant), old(c[..]))
    ensures c[..] == Upwind(courant, old(c[..]))
  {
    var newc := Product(A, courant, c);
    forall k | 0 <= k < c.Length {
      c[k] := newc[k];
    }
    assert c[..] == newc[..];
    MatVecIsUpwind(courant, old(c[..]));
  }

  /** `c[2:6] += 10e-7`, in place. */
  method Inject(c: array<real>)
    modifies c
    ensures c[..] == Injected(old(c[..]))
  {
    forall k | From <= k < To && k < c.Length {
      c[k] := c[k] + Dose;
    }
  }

  /** The body of one pass at clock value `seconds` (lines 77-82): apply the
      operator in place, then inject if the clock is on a mark past the start. */
  method StepAndInject(A: array2<real>, ghost courant: seq<real>, c: array<real>, seconds: real)
    requires IsOperator(A, courant) && c.Length == |courant| && seconds >= 0.0
    modifies c
    ensures c[..] == Pass(courant, old(c[..]), seconds)
  {
    ApplyOperator(A, courant, c);
    if OnIntervalMark(seconds) {
      if seconds > 0.0 {
        Inject(c);
      }
    }
  }

  /** The clocked loop. It stops with the clock past the end time after a pass
      for every earlier clock value within it (PassCount(dt) passes, by
      RunLength), the array holding the state those passes produce; node 0
      never changes. */
  method Run(A: array2<real>, ghost courant: seq<real>, dt: real, c: array<real>)
    returns (seconds: real, ghost passes: nat)
    requires IsOperator(A, courant) && c.Length == |courant| && dt > 0.0
    modifies c
    ensures seconds == Clock(passes, dt) && seconds > EndTime
    ensures forall k: nat :: Clock(k, dt) <= EndTime <==> k < passes
    ensures c[..] == Evolve(courant, dt, old(c[..]), passes)
    ensures c.Length > 0 ==> c[0] == old(c[0])
  {
    ghost var c0 := c[..];
    ghost var total := PassBound(dt);
    ghost var state := c0;
    seconds := 0.0;
    passes := 0;
    while seconds <= EndTime
      invariant seconds == Clock(passes, dt)
      invariant passes <= total
      invariant state == Evolve(courant, dt, c0, passes)
      invariant c[..] == state
      decreases total - passes
    {
      ClockNonNegative(passes, dt);
      StepAndInject(A, courant, c, seconds);
      state := Pass(courant, state, seconds);
      seconds := seconds + dt;
      passes := passes + 1;
    }
    assert passes == total;
    if c.Length > 0 {
      EvolvePinsBoundary(courant, dt, c0, passes);
    }
  }
}
