# Upwind advection of a seeding tracer — a verified model

The script `final_project_template.py` simulates silver-iodide concentration
carried by wind along a 1-D line of grid nodes. It uses a first-order upwind
(donor-cell) scheme:

- It takes the time step `dt = dx / max(velocity)` and the per-node Courant
  numbers `dt * velocity / dx`.
- It fills a dense N x N transition matrix `A` in place. Row 0 is the
  identity row. Every other row has `1 - courant[i]` on the diagonal and
  `courant[i]` just left of it.
- It runs a clocked loop while `seconds <= 600`. Each pass overwrites the
  concentration array with `A · c`. On whole-minute marks after the start it
  adds `10e-7` to nodes 2..5. Then it advances the clock by `dt`.

Numbers are exact Dafny `real`s. The velocity field is an input: one
strictly positive value per node.

Modules, one file each:

- `Vectors`: sums, inner products and `np.dot` as functions on sequences.
- `RealArith`: order and cancellation facts about exact real products.
- `Stability`: `dt` and the Courant numbers, and why they are stable.
- `UpwindOperator`: the matrix entry by entry (`Entry`, `Row`, `Operator`).
  It also holds the in-place builder `BuildOperator` over an `array2`, the
  closed-form step `Upwind`, and the facts linking them.
- `TimeStepper`: the in-place product and write-back, the in-place injection,
  and the clocked loop `Run` over an `array`. Each is proved against the
  specification functions `Pass`, `Clock` and `Evolve`.
- `SpatialGrid`: `np.arange(0, 5001, 20)` and the initial band.
- `Simulation`: the script end to end.

## Model

| member | source | states |
|---|---|---|
| Stability.MaxOf | final_project_template.py:49 | `np.max`: the result bounds every velocity from above and is one of them |
| Stability.TimeStep | final_project_template.py:49 | `dt` is positive, and the fastest node crosses exactly one cell per step (`max(v) * dt == dx`) |
| Stability.Courant | final_project_template.py:50 | one Courant number per node; CourantStable states its bounds |
| Stability.CourantStable | final_project_template.py:49-50 | for positive velocities every Courant number lies in (0, 1]; it equals 1 exactly at the nodes of maximal velocity; the largest is 1 |
| Stability.CourantAt | final_project_template.py:49-50 | the same bounds and the same if-and-only-if for one node |
| UpwindOperator.Row | final_project_template.py:59-64 | row i of the matrix has one entry per node |
| UpwindOperator.Operator | final_project_template.py:59-64 | the matrix is N x N |
| UpwindOperator.BuildOperator | final_project_template.py:59-64 | the array is newly allocated, as `np.zeros` allocates, and the filled array agrees with the transition matrix at every (i, j): row 0 is the identity row, and rows 1..N-1 have the two banded entries with zeros elsewhere |
| UpwindOperator.RowSumIsOne | final_project_template.py:59-64 | every row of the matrix, row 0 included, sums to 1 |
| UpwindOperator.Upwind | final_project_template.py:77-78 | one step maps a vector to a vector of the same length |
| UpwindOperator.MatVecIsUpwind | final_project_template.py:61-64 | the dense product `A · c` equals the closed-form step: node 0 keeps its value, and node i >= 1 becomes `(1 - courant[i]) * c[i] + courant[i] * c[i-1]` |
| UpwindOperator.RowDotIsUpwind | final_project_template.py:61-64 | row i of the matrix dotted with c is node i of that closed-form step |
| UpwindOperator.RowDotPrefix | final_project_template.py:61-64 | the partial dot product of the first k entries of row i only collects the banded entries among those k |
| UpwindOperator.UpwindFixesConstants | final_project_template.py:77-78 | a uniform vector, the zero vector included, is left unchanged by a step |
| UpwindOperator.UpwindIsConvex | final_project_template.py:62-63 | with a Courant number in [0, 1], each updated node lies between the old values of itself and its left neighbour |
| UpwindOperator.UpwindMaxPrinciple | final_project_template.py:62-63 | a step keeps every node within any bounds all nodes met before, so non-negative stays non-negative and no node exceeds the old maximum |
| Vectors.MatVec | final_project_template.py:77 | `np.dot(A, c)` has one entry per row |
| Vectors.DotPrefixStep | final_project_template.py:77 | extending both prefixes of a dot product by one entry adds that entry's product |
| Vectors.SumOfPointwiseAdd | final_project_template.py:82 | adding a vector entrywise adds its sum to the total |
| Vectors.SumIsDotWithOnes | final_project_template.py:59-64 | a sum is a dot product with the all-ones vector |
| TimeStepper.RowTimesVector | final_project_template.py:77 | the accumulating loop over one row returns that row of the matrix dotted with the current concentrations |
| TimeStepper.Product | final_project_template.py:77 | `newc` is a fresh array holding the matrix times the current concentrations |
| TimeStepper.ApplyOperator | final_project_template.py:77-78 | after the write-back, the array holds the product of the matrix and its old contents, which is the upwind step of the old contents |
| TimeStepper.Injected | final_project_template.py:82 | the injection keeps the vector's length |
| TimeStepper.Inject | final_project_template.py:82 | `c[2:6] += 10e-7` in place: the dose is added at indices 2..5 as far as the array reaches, and nowhere else |
| TimeStepper.InjectionAddsMass | final_project_template.py:82 | an injection raises the total by (nodes covered) x dose, exactly `4 * 10e-7` on any grid of six or more nodes |
| TimeStepper.DoseProfileSum | final_project_template.py:82 | the added profile sums to (nodes covered) x dose |
| TimeStepper.Pass | final_project_template.py:77-82 | one pass maps the state to a state of the same length |
| TimeStepper.StepAndInject | final_project_template.py:77-82 | the loop body: the operator is applied first, then the dose is added only when `int(seconds) % 60 == 0` and `seconds > 0` |
| TimeStepper.PassMass | final_project_template.py:77-82 | a pass adds `4 * 10e-7` to the total on top of the operator step when the injection is due, and nothing otherwise |
| TimeStepper.ClockIsProduct | final_project_template.py:83 | the clock after k additions of dt reads `k * dt` |
| TimeStepper.ClockNonNegative | final_project_template.py:74 | the clock never goes below zero, so `int(seconds)` is its floor |
| TimeStepper.Evolve | final_project_template.py:74-83 | k passes keep the state's length |
| TimeStepper.LoopGuard | final_project_template.py:76 | the guard `seconds <= 600` holds at the clock value `Clock(k, dt)` exactly for k < PassCount(dt) = floor(600/dt) + 1 |
| TimeStepper.PassCountExact | final_project_template.py:76 | `k * dt <= 600` holds exactly when k < floor(600/dt) + 1 |
| TimeStepper.PassBound | final_project_template.py:76 | there is a count n such that the guard holds at exactly the clock values before the n-th |
| TimeStepper.RunLength | final_project_template.py:74-83 | a loop that passes exactly while the guard holds makes floor(600/dt) + 1 passes, and its clock ends at that count times dt |
| TimeStepper.Run | final_project_template.py:74-83 | the loop ends with `seconds > 600`. It has made one pass for each clock value within 600, the k-th at `seconds = k * dt`. The array holds the state those passes produce, and node 0 is unchanged |
| TimeStepper.EvolvePinsBoundary | final_project_template.py:64 | node 0 keeps its initial value through any number of passes |
| TimeStepper.EvolveBounded | final_project_template.py:77-82 | from a start in [0, M], after k passes every node lies in [0, M + k * 10e-7] |
| SpatialGrid.Arange | final_project_template.py:17 | the grid is the multiples of dx below 5001 in increasing order, and all of them |
| SpatialGrid.InitialConcentration | final_project_template.py:23-24 | one initial value per node |
| SpatialGrid.ScenarioGrid | final_project_template.py:16-24 | the grid has 251 nodes from 0 m to 5000 m. The seeded band is exactly nodes 2..5; every other node, node 0 included, starts at 0 |
| Simulation.Simulate | final_project_template.py:16-83 | the concentration array is newly allocated. The whole script ends with the clock past 600 s and the state after exactly floor(600/dt) + 1 passes from the seeded band. Node 0 is still 0, and every node lies in [0, 10e-7 * (1 + passes)] |

## Left out

- Plotting and figure handling (lines 36-42, 68-69, 81 and 86-91) and the `print` diagnostics (lines 33, 51 and 65) are output only. They are not modelled.
- The velocity generator `np.sin(x / 100 + 80) + 5` (line 32) is floating-point trigonometry. The velocity is an input instead, with every entry positive. The script's formula keeps every value at least 4.
- IEEE-754 rounding is not modelled: the model uses exact reals for `dt`, the Courant numbers, the matrix products and the accumulated clock. With floats the clock `seconds += dt` drifts from `k * dt`, and `int(seconds) % 60` may then fire on a different pass. Which pass fires under floating point is not captured.
- `int(seconds)` truncates toward zero. The model uses the floor. The two agree because the clock is never negative (ClockNonNegative).
- The pass count the model proves is floor(600 / dt) + 1, one pass for each k >= 0 with `k * dt <= 600`. This follows the code. A description of the script as making ceil(600 / dt) passes disagrees with it whenever 600 / dt is a whole number.
- The row sums of the matrix are 1, but its column sums are not. The boundary columns never are: column 0 sums to `1 + courant[1]` and the last column to `1 - courant[N-1]`. The interior columns are not when the Courant numbers vary. The model therefore proves that constants are fixed points and that a step obeys a maximum principle, not that the operator conserves total mass.
- numpy's `arange`, `zeros`, `dot` and slicing are written directly as sequence and array operations.
- The script has no error handling. Its implicit requirements are preconditions: `dx > 0`, one velocity per node, every velocity positive.
- TimeStepper.Run: the number of passes is returned as a ghost out-parameter, and the script has no such variable. Simulation.Simulate states that count through RunLength as floor(600/dt) + 1.
- Simulation.Simulate: the bound `[0, 10e-7 * (1 + passes)]` is a sound envelope, not the tightest one. It counts a dose on every pass, while the script injects about once a minute.
- The literal `10e-7` is 1e-6 kg/m^3. The script's comment calls it "0.1 micrograms/liter", which is 1e-7 kg/m^3. The model keeps the value the code uses.
