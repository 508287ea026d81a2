/** The grid and the initial seeding band (final_project_template.py, lines
    16-24): nodes every 20 m from 0 to 5000 m, and 10e-7 kg/m^3 of tracer on
    the nodes between 40 m and 100 m. */
module SpatialGrid {

  /** Grid spacing in metres (`dx = 20`). */
  const Dx: nat := 20
  /** Exclusive upper end of `np.arange(0, 5001, dx)`. */
  const Stop: nat := 5001
  /** Initial seeding concentration: the literal `10e-7`, that is 1e-6 kg/m^3. */
  const Seed: real := 0.000001
  /** The seeded band, inclusive, in metres. */
  const BandLow: int := 40
  const BandHigh: int := 100

  /** `np.arange(0, stop, dx)` over whole numbers: the multiples of dx that lie
      below stop, in increasing order, and no others. */
  function Arange(stop: nat, dx: nat): (x: seq<int>)
    requires dx > 0
    ensures forall i :: 0 <= i < |x| ==> x[i] == i * dx && 0 <= x[i] < stop
    ensures stop <= |x| * dx
  {
    var n := (stop + dx - 1) / dx;
    CeilDivBounds(stop, dx);
    forall i | 0 <= i < n ensures i * dx < stop {
      MulMonotone(i, n - 1, dx);
    }
    seq(n, i requires 0 <= i < n => i * dx)
  }

  /** `c = np.zeros(nodes); c[(x <= 100) & (x >= 40)] = 10e-7`. */
  function InitialConcentration(x: seq<int>): (c: seq<real>)
    ensures |c| == |x|
  {
    seq(|x|, i requires 0 <= i < |x| => if BandLow <= x[i] <= BandHigh then Seed else 0.0)
  }

  /** The script's grid has 251 nodes, 0 m to 5000 m, and its seeded band is
      exactly nodes 2 to 5 (40 m, 60 m, 80 m, 100 m); every other node,
      node 0 included, starts at zero. */
  lemma ScenarioGrid()
    ensures var x := Arange(Stop, Dx);
      && |x| == 251 && x[0] == 0 && x[250] == 5000
      && forall i :: 0 <= i < |x| ==>
           InitialConcentration(x)[i] == if 2 <= i <= 5 then Seed else 0.0
  {
    var x := Arange(Stop, Dx);
    assert |x| == 251 by {
      assert (Stop + Dx - 1) / Dx == 251;
    }
  }

  /** Ceiling division: n = ceil(stop / dx) multiples of dx reach stop, one fewer do not. */
  lemma CeilDivBounds(stop: nat, dx: nat)
    requires dx > 0
    ensures var n := (stop + dx - 1) / dx; n * dx >= stop && (n > 0 ==> (n - 1) * dx < stop)
  {
    var n := (stop + dx - 1) / dx;
    var r := (stop + dx - 1) % dx;
    assert stop + dx - 1 == n * dx + r;
    if n > 0 {
      assert (n - 1) * dx == n * dx - dx;
    }
  }

  lemma MulMonotone(a: nat, b: nat, k: nat)
    requires a <= b
    ensures a * k <= b * k
  {
  }
}
