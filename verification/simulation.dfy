/** The script end to end (final_project_template.py, lines 16-24, 49-50,
    59-64 and 74-83): grid and seeding band, time step and Courant numbers,
    the transition matrix, and the clocked loop. The velocity field is an
    input: one positive value per grid node. */
module Simulation {
  import opened Stability
  import opened UpwindOperator
  import opened TimeStepper
  import opened SpatialGrid

  /** Runs the whole model. The array it returns is the state after exactly
      PassCount(dt) passes from the seeded band; node 0 is still 0, and no node
      is negative or above the seed plus one dose per pass. */
  method Simulate(velocity: seq<real>) returns (c: array<real>, seconds: real)
    requires |velocity| == |Arange(Stop, Dx)| && AllPositive(velocity)
    ensures fresh(c)
    ensures var dt := TimeStep(Dx as real, velocity);
      var courant := Courant(dt, Dx as real, velocity);
      && seconds > EndTime
      && c[..] == Evolve(courant, dt, InitialConcentration(Arange(Stop, Dx)), PassCount(dt))
      && c[0] == 0.0
      && forall i :: 0 <= i < c.Length ==> 0.0 <= c[i] <= Seed + PassCount(dt) as real * Dose
  {
    var x := Arange(Stop, Dx);
    var nodes := |x|;
    ScenarioGrid();
    c := new real[nodes](_ => 0.0);
    forall i | 0 <= i < nodes && BandLow <= x[i] <= BandHigh {
      c[i] := Seed;
    }
    ghost var c0 := c[..];
    assert c0 == InitialConcentration(x);

    var dt := TimeStep(Dx as real, velocity);
    var courant := Courant(dt, Dx as real, velocity);
    CourantStable(Dx as real, velocity);
    var A := BuildOperator(courant);
    ghost var passes;
    seconds, passes := Run(A, courant, dt, c);
    RunLength(dt, passes);
    EvolveBounded(courant, dt, c0, passes, Seed);
  }
}
