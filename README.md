# Idefix: the RKL super-time-stepping driver, gravity, and two disk test setups

This project models, in Dafny, these parts of the Idefix astrophysical fluid code:

- **The Runge-Kutta-Legendre (RKL) driver** (`RKLegendre`). It advances the parabolic (diffusive) terms of a data block over one hyperbolic step, using a multi-stage recursion of first or second order.
  - Stage 1 evaluates the right-hand side, fixes the parabolic time step and from it the number of stages.
  - Each later stage combines the current state `Uc`, the previous stage `Uc1`, the state `Uc0` at the start of the cycle, and the right-hand sides `dU` and `dU0` with rational coefficients.
- **The gravity module** (`Gravity`). Its `Init` enables potentials and a body force from the input and allocates their arrays once. Enrolment stores the user functions. `ComputeGravity` builds the potential: the user potential or zero, plus a central mass.
- **The two disk test setups.**
  - Both use the same Park-Miller random generator `randm` (`ParkMiller`).
  - The MHD disk (`MhdDisk`) has an inner-radius ghost fill and its initial flow.
  - The viscous disk (`ViscousDisk`) has radial and meridional ghost fills and its viscosity.

Modules:
- `Grid`: lexicographic loop cursors, cell positions and array fills.
- `Host`: the data block and the solver routines the driver calls.
- `RklCoefficients`: stage count, coefficients and stage times, on exact reals.
- `Rkl`: the driver class.
- `Gravity`, `ParkMiller`, `MhdDisk`, `ViscousDisk`.

The code's loops (`idefix_for`, the Kokkos max reduction) are sequential nested loops here. Their invariants say which cells are done in the k, j, i visiting order. The grid fields are `array4<real>` (variable, k, j, i) and `array3<real>` (k, j, i).

The class declaration in `src/rkl/rkl.hpp` is out of date with `src/rkl/rkl.cpp`: it declares `Init(DataBlock *)`, `Cycle(real)`, `ComputeInvDt` and `cfl_par`. The model follows `rkl.cpp`: `Init(input, data)`, `Cycle()`, `ComputeDt`, `ResetFlux`, `cfl_rkl` and the field `dt`. Only the field layout and roles are taken from the header.

Properties proved:
- **Stage count.** It is the smallest integer whose stability polynomial exceeds the target. An exact integer root still adds a stage.
- **Coefficient recursion.**
  - The running `b_j, b_jm1, b_jm2, a_jm1` always hold the closed-form values of their stage, and every `b` lies in [1/3, 1/2), so every division is defined.
  - Applied to a constant right-hand side, every stage of the recursion lands on its exact value, and the last stage on the full step.
- **Stage times.** A cycle evaluates its stages at non-decreasing times within `[t, t + dt_hyp)` and ends at exactly `t + dt_hyp`.
  - Stage 1 runs at `t`. From stage 2 on, the times increase strictly.
  - In the second-order scheme the offset of stage 1 is 0, so stages 1 and 2 both run at `t`.
  - Each stage's time is the time of the exact value its input state holds for a constant right-hand side, except at stage 2 of the second-order scheme. That stage runs at `t`, while the first-stage state it reads stands at `t + (w1/3)*dt_hyp`.
- **Stages and the recursion.** Every later stage updates the momentum with the coefficients of its own index. After a cycle, the momentum of each active cell is the last value of the recursion, taken from `Uc0`, `dU0` and the stages' own right-hand sides. When every stage has the right-hand side of the first, the cycle moves the momentum by exactly `dt_hyp * dU0`.
- **What changes.** `InvDt` grows only in stage 1. `dU` is supported on the momentum of the active cells. A cycle changes `Uc` only in the momentum components of active cells. `Uc1` receives the pre-update `Uc`. `dU0` is written only after stage 1.
- **Gravity.** The flag, error and allocation logic of `Init`, enrolment and `ComputeGravity`, including every error case. The accumulated central potential.
- **Test setups.** The generator's state sequence and its range. The ghost-range fills with their frame conditions. The initial flow, cell by cell, with the draw each cell takes.

## Model

| member | source | states |
|---|---|---|
| Rkl.FMax | src/rkl/rkl.cpp:415-416 | std::fmax of two reals is an upper bound of both and equal to one of them |
| Rkl.InvDtTerm | src/rkl/rkl.cpp:415-416 | the inverse-time-step contribution 0.5*max(dMax_fwd, dMax)/dl^2 is positive when the cell's diffusion coefficient is |
| Rkl.ParabolicStep | src/rkl/rkl.cpp:266-267 | dt = 1/m, then dt = (cfl * dt)/2, gives (cfl * (1 / m)) / 2, which is positive for a positive CFL |
| Rkl.StageCountOf | src/rkl/rkl.cpp:84-99 | scrh = dt_hyp/dt is non-negative, and the stage count is StageCount of it: at least the order's minimum, the smallest count whose polynomial exceeds the target |
| Rkl.OffsetIndex | src/rkl/rkl.cpp:401 | ig = ioffset*i + joffset*j + koffset*k is the cell's index along the direction, with the offsets of lines 312-317 |
| Rkl.AdvanceCoefficients | src/rkl/rkl.cpp:142-158 | from the running recurrence state of stage j, the stage's mu, nu, mu~ and gamma equal their closed forms Mu, Nu, MuTilde, Gamma; the rotated state holds b_{j+1}, b_j, b_{j-1} and a_j = 1 - b_j |
| Rkl.NextStageTime | src/rkl/rkl.cpp:190-194 | the time computed after stage j is element j of the cycle's stage-time sequence StageTimes, and appending it to the first j times gives the first j + 1 |
| Rkl.RecursionExtend | src/rkl/rkl.cpp:172-181 | one more stage right-hand side advances the recursion by stage j: the current value becomes the previous one, and the new current value is the stage-j update |
| Rkl.ConstantColumn | src/rkl/rkl.cpp:121-195 | a cell whose s - 1 later right-hand sides all equal du ends the recursion at y0 + dt_hyp * du |
| Rkl.RKLegendre.Init | src/rkl/rkl.cpp:25-48 | attaches to the data block, allocates zero-filled dU, dU0, Uc1 of the block's shape, cfl_rkl is the [RKL] cfl entry or 0.5 when absent, rmax_par is 100 |
| Rkl.RKLegendre.ResetFlux | src/rkl/rkl.cpp:203-214 | FluxRiemann is zero for every variable over the full ghost-inclusive extent |
| Rkl.RKLegendre.ResetStage | src/rkl/rkl.cpp:216-242 | dU (all variables) and InvDt are zero over the full extent |
| Rkl.RKLegendre.MaxInvDt | src/rkl/rkl.cpp:250-258 | the reduction's result is an element of InvDt over [0, end) in each direction and bounds every element there |
| Rkl.RKLegendre.ComputeDt | src/rkl/rkl.cpp:245-270 | dt = (cfl_rkl * (1 / m)) / 2 for the maximum m of InvDt over [0, end), m > 0, and dt > 0 for a positive CFL; stage and the CFL are unchanged |
| Rkl.RKLegendre.PositiveMax | src/rkl/rkl.cpp:250-266 | the maximum of InvDt is positive when some element is, so the division at line 266 is defined |
| Rkl.RKLegendre.TotalFluxAt | src/rkl/rkl.cpp:324-334 | at one face, the momentum fluxes are multiplied by the face area and every other flux value is unchanged |
| Rkl.RKLegendre.CalcTotalFlux | src/rkl/rkl.cpp:320-358 | the momentum fluxes of every face in the active range extended by one face along dir are multiplied by A[dir]; all other flux values are unchanged |
| Rkl.RKLegendre.AccumulateDU | src/rkl/rkl.cpp:370-396 | in one active cell the momentum components of dU grow by -(F_fwd - F)/dV (+ viscSrc when viscosity is RKL-integrated); all else unchanged |
| Rkl.RKLegendre.AccumulateInvDt | src/rkl/rkl.cpp:399-417 | in one active cell InvDt grows by 0.5*max(dMax_fwd, dMax)/dx^2 in stage 1 only; all else unchanged |
| Rkl.RKLegendre.RightHandSideAt | src/rkl/rkl.cpp:366-418 | both updates for one active cell, nothing else changes |
| Rkl.RhsTerm | src/rkl/rkl.cpp:371-374 | one cell's right-hand side: without the viscous source term (added only when the driver integrates viscosity), the cell volume times the rate of change is the net inflow F_here - F_fwd |
| Rkl.RKLegendre.ComputeFluxes | src/rkl/rkl.cpp:279-281 | ResetFlux, then the block's parabolic fluxes along dir; only FluxRiemann, dMax and viscSrc change and the block stays valid |
| Rkl.RKLegendre.RightHandSideRow | src/rkl/rkl.cpp:362-419 | both updates over the active cells of row (k, j), nothing else changes |
| Rkl.RKLegendre.RightHandSidePlane | src/rkl/rkl.cpp:362-419 | both updates over the active cells of plane k, nothing else changes |
| Rkl.RKLegendre.CalcRightHandSide | src/rkl/rkl.cpp:362-419 | over every active cell, dU's momentum grows by the direction's right-hand side and InvDt by its stage-1 contribution; ghost cells and non-momentum components keep their values |
| Rkl.RKLegendre.CalcParabolicRHS | src/rkl/rkl.cpp:291-422 | the area-weighted fluxes, then the right-hand side and stage-1 InvDt accumulation, each stated cell by cell against the prior values |
| Rkl.RKLegendre.EvolveStage | src/rkl/rkl.cpp:273-288 | after resetting and adding all three directions, dU vanishes outside the momentum of the active cells; InvDt is zero outside the active cells and in every stage but the first, and in stage 1 it is non-negative on the active cells and positive on at least one, so its maximum is positive |
| Rkl.RKLegendre.EvolveDirection | src/rkl/rkl.cpp:279-284 | one direction's fluxes and right-hand side keep dU zero outside the momentum of the active cells; in stage 1, InvDt stays non-negative on the active cells and becomes positive on one of them; it stays zero after stage 1 |
| Rkl.RKLegendre.InitUc1At | src/rkl/rkl.cpp:124-132 | for one active cell Uc1 takes Uc and every variable of Uc takes Uc1 + mu~_1*dt_hyp*dU0; other cells unchanged |
| Rkl.RKLegendre.InitUc1 | src/rkl/rkl.cpp:121-134 | over the active cells Uc1 := Uc and Uc := Uc1 + mu~_1*dt_hyp*dU0 for all variables; ghost cells keep both |
| Rkl.RKLegendre.UpdateUcAt | src/rkl/rkl.cpp:170-182 | for one active cell each momentum component moves to Uc1 and takes the stage value; everything else unchanged |
| Rkl.RKLegendre.UpdateUc | src/rkl/rkl.cpp:167-184 | over the active cells, each momentum component of Uc1 receives the pre-update Uc and Uc the stage value mu*Uc + nu*Uc1 (+ (1-mu-nu)*Uc0 + gamma*dt*dU0 for order 2) + dt*mu~*dU; all other values unchanged |
| Rkl.RKLegendre.SaveUc0 | src/rkl/rkl.cpp:74 | Uc0 equals Uc over the full extent |
| Rkl.RKLegendre.SaveDU0 | src/rkl/rkl.cpp:81 | dU0 equals dU over the full extent |
| Rkl.RKLegendre.PrepareCycle | src/rkl/rkl.cpp:65-74 | stage is 1, dt and the CFL are unchanged, Uc0 equals the conservative state |
| Rkl.RKLegendre.FirstStage | src/rkl/rkl.cpp:76-81 | after the stage-1 right-hand side, dt = (cfl_rkl * (1 / m)) / 2 where m > 0 is the maximum of InvDt, so dt > 0; dU0 equals dU over the full extent, and both vanish outside the momentum of the active cells; stage stays 1 |
| Rkl.RKLegendre.StepAndSave | src/rkl/rkl.cpp:79-81 | dt is the parabolic step of the maximum of InvDt, which is positive, and dU0 equals dU over the full extent |
| Rkl.RKLegendre.StartCycle | src/rkl/rkl.cpp:59-81 | stage 1; Uc0 equals the conservative state; dt = (cfl_rkl * (1 / m)) / 2 > 0 for the maximum m > 0 of the stage-1 InvDt; invDt1 equals InvDt on every cell of the block and is zero outside the active cells, non-negative on them and positive on one; dU0 vanishes outside the momentum of the active cells |
| Rkl.RKLegendre.SnapshotShape | src/rkl/rkl.cpp:371-419 | after stage 1 the snapshot of InvDt is zero outside the active cells, non-negative on them and positive on one |
| Rkl.RKLegendre.StartStages | src/rkl/rkl.cpp:109-137 | with mu~_1 of a cycle of s stages (w1 for order 1, w1/3 for order 2), over the active cells Uc1 := Uc and Uc := Uc + mu~_1*dt_hyp*dU0 for every variable, ghost cells kept; afterwards only the momentum of the active cells differs from Uc0, and Uc1 and Uc hold the first two values of Recursion |
| Rkl.RKLegendre.EvaluateStage | src/rkl/rkl.cpp:160-164 | after the boundaries and the stage's right-hand side, dU vanishes outside the momentum of the active cells and InvDt is as EvolveStage leaves it; Uc, Uc0 and dU0 are untouched |
| Rkl.RKLegendre.AdvanceStage | src/rkl/rkl.cpp:166-187 | with the coefficients of stage j, each momentum component of an active cell moves to Uc1 and Uc takes the stage value, while every other value is kept; the recursion extends by this stage's dU |
| Rkl.RKLegendre.NextStage | src/rkl/rkl.cpp:141 | stage++ keeps the between-stage invariant |
| Rkl.RKLegendre.Substage | src/rkl/rkl.cpp:160-187 | stage j at `time`: the boundaries, then the right-hand side, then the update with Mu, Nu, MuTilde and Gamma of stage j, as in AdvanceStage; the recursion extends by this stage's dU; stage becomes j + 1, and dt and the CFL are unchanged |
| Rkl.RKLegendre.StageStep | src/rkl/rkl.cpp:141-194 | stage j's coefficients come from the recurrence state, which advances to stage j + 1 (B(j+1), B(j), B(j-1), 1 - B(j)); then Substage; both the stage-time sequence and the recursion extend by one stage |
| Rkl.RKLegendre.Stages | src/rkl/rkl.cpp:139-195 | stages 2..s run in order, each with its own coefficients; with dUs the right-hand sides of those stages, the momentum of each active cell holds the last two values of Recursion; the stage times, with the end time, are StageTimes; stage ends at s + 1; only the momentum of the active cells differs from Uc0 |
| Rkl.RKLegendre.LaterStages | src/rkl/rkl.cpp:109-195 | InitUc1 with mu~_1 of s stages, then the stage loop: the outcome stated for Stages, taken from the cycle's Uc0 and dU0 |
| Rkl.RKLegendre.ConstantCycle | src/rkl/rkl.cpp:121-195 | when every later stage has the right-hand side dU0 of the first, a cycle of s stages ends with Uc = Uc0 + dt_hyp * dU0 on the momentum of every active cell: a constant right-hand side is integrated exactly |
| Rkl.RKLegendre.Cycle | src/rkl/rkl.cpp:51-200 | dt = (cfl_rkl * (1 / m)) / 2 for the maximum m > 0 of the stage-1 InvDt, which is zero outside the active cells, non-negative on them and positive on one; the cycle has exactly StageCount(dt_hyp/dt) stages; its stage times and end time are StageTimes from data.t over data.dt; the momentum of every active cell ends at the last value of Recursion from Uc0, dU0 and the right-hand sides of stages 2..s; nothing else moves away from Uc0 |
| RklCoefficients.Nrkl | src/rkl/rkl.cpp:84-97 | nrkl is a non-negative root of s^2+s = 2r (order 1) or s^2+s-2 = 4r (order 2), and at least 1 for order 2 |
| RklCoefficients.RootIsHalfRootMinusOne | src/rkl/rkl.cpp:84-97 | each order's expression for nrkl equals (root - 1)/2, the positive root of the quadratic |
| RklCoefficients.StagePolyMonotone | src/rkl/rkl.cpp:84-97 | the stability polynomial is monotone (strictly) on non-negative reals |
| RklCoefficients.StageCount | src/rkl/rkl.cpp:99 | rklstages = 1 + floor(nrkl) is at least 1 (order 1) or 2 (order 2), its polynomial exceeds the target and every smaller non-negative integer's does not: the smallest such integer |
| RklCoefficients.StageCountAtTransition | src/rkl/rkl.cpp:99 | for an exact integer root (order 2, r = 1, s = 2) the count is 3: one more stage |
| RklCoefficients.W1 | src/rkl/rkl.cpp:102-108 | w1 is positive (its denominator is) and times the stability polynomial of s gives the target of r = 1 |
| RklCoefficients.B | src/rkl/rkl.cpp:111-157 | every b_j lies in [1/3, 1/2), so divisions by b_jm1 and b_jm2 are defined |
| RklCoefficients.BBounds | src/rkl/rkl.cpp:157 | for J >= 2, (J^2+J-2)/(2J(J+1)) has a positive denominator and lies in [1/3, 1/2) |
| RklCoefficients.NextB | src/rkl/rkl.cpp:157 | the update 0.5*(j^2+3j)/(j^2+3j+2) of iteration j is b_{j+1} |
| RklCoefficients.StageOffsets | src/rkl/rkl.cpp:115-119 | the offset is 0 at stage 1 for order 2, non-negative at stage 1, 1 at the last stage, and strictly increasing |
| RklCoefficients.StageTimes | src/rkl/rkl.cpp:115-119 | the sequence of the first n stage times has n elements |
| RklCoefficients.StageTimeFirst | src/rkl/rkl.cpp:59 | stage 1 is evaluated at t |
| RklCoefficients.StageTimeAt | src/rkl/rkl.cpp:190-194 | stage j + 1 > 1 is evaluated at t + dt_hyp * offset(j) |
| RklCoefficients.CycleTimes | src/rkl/rkl.cpp:190-194 | stage 1 at t, every stage in [t, t + dt_hyp), stages 2..s strictly increasing, the time after the last stage exactly t + dt_hyp |
| RklCoefficients.StageTimeAfterStart | src/rkl/rkl.cpp:190-194 | no stage is evaluated before t |
| RklCoefficients.StageTimeBeforeEnd | src/rkl/rkl.cpp:190-194 | no stage is evaluated at or after t + dt_hyp |
| RklCoefficients.StageTimesOrdered | src/rkl/rkl.cpp:190-194 | stages j < k after the first are evaluated in increasing time |
| RklCoefficients.StageTimeLast | src/rkl/rkl.cpp:190-194 | the time after the last stage is exactly t + dt_hyp |
| RklCoefficients.StageOffsetOrdered | src/rkl/rkl.cpp:190-194 | offsets grow strictly with the stage |
| RklCoefficients.StageOffsetBounds | src/rkl/rkl.cpp:190-194 | the offset of a stage before the last lies in [0, 1) |
| RklCoefficients.StepExact | src/rkl/rkl.cpp:167-184 | one stage update with the stage's coefficients maps the two previous exact stage values of du/dt = 1 to the next one |
| RklCoefficients.StepExactFirst | src/rkl/rkl.cpp:170-176 | the same for the first-order update |
| RklCoefficients.StepExactSecond | src/rkl/rkl.cpp:170-181 | the same for the second-order update |
| RklCoefficients.SecondStepInputs | src/rkl/rkl.cpp:149-157 | the second-order coefficients of stage j satisfy the relations mu*b_{j-1}*j = (2j-1)*b_j and nu*b_{j-2}*j = -(j-1)*b_j with the exact stage values |
| RklCoefficients.FirstStepInputs | src/rkl/rkl.cpp:144-146 | the first-order coefficients satisfy the same relations with every b equal to 1 |
| RklCoefficients.SecondWeights | src/rkl/rkl.cpp:149-151 | mu~_j = w1*mu_j and gamma_j = -a_{j-1}*mu~_j |
| RklCoefficients.FirstWeights | src/rkl/rkl.cpp:144-146 | mu~_j = w1*mu_j and no dU0 term |
| RklCoefficients.MuSecond | src/rkl/rkl.cpp:149 | mu_j = (2j-1)/j * b_j/b_{j-1} |
| RklCoefficients.NuSecond | src/rkl/rkl.cpp:152 | nu_j = -(j-1)*b_j/(j*b_{j-2}) |
| RklCoefficients.LastStageIsFullStep | src/rkl/rkl.cpp:102-108 | the exact value of the last stage is 1: w1 puts the end of the recursion at the full step |
| RklCoefficients.AffineStep | src/rkl/rkl.cpp:173-180 | the stage update is affine. With both derivatives du and Uc0 = y0, it takes stage values y0 + e1*h and y0 + e2*h (h = dt_hyp*du) to y0 + e0*h. Here e0 is the update's unit-step value on e1 and e2 |
| RklCoefficients.FirstWeightsSum | src/rkl/rkl.cpp:145-147 | the first-order weights mu_j + nu_j sum to 1 |
| RklCoefficients.ExactValueStart | src/rkl/rkl.cpp:121-132 | the first-stage update takes y0 to the exact stage-1 value y0 + mu~_1*dt_hyp*du |
| RklCoefficients.ExactValueStep | src/rkl/rkl.cpp:167-184 | with both derivatives du, the stage-j update maps the exact values of stages j-1 and j-2 to that of stage j |
| RklCoefficients.ConstantStages | src/rkl/rkl.cpp:121-195 | when every later stage has the first stage's derivative du, the recursion after n later stages holds the exact values y0 + ExactStage(n)*dt_hyp*du and y0 + ExactStage(n+1)*dt_hyp*du |
| RklCoefficients.ConstantRightHandSide | src/rkl/rkl.cpp:121-195 | the same, and after all s - 1 later stages the value is y0 + dt_hyp*du, the exact value after the full step |
| RklCoefficients.FullStepValue | src/rkl/rkl.cpp:102-108 | the exact value of the last stage is y0 + dt_hyp*du |
| RklCoefficients.StageOffsetIsExactStage | src/rkl/rkl.cpp:190-194 | the time offset of stage j equals its exact stage value for every stage of order 1 and from stage 2 on for order 2; at stage 1 of order 2 the offset is 0 while the exact value w1/3 is positive |
| Gravity.ScanPotentials | src/gravity/gravity.cpp:18-40 | the entries are all known iff every one names userdef, central or selfgravity; then each flag is set iff some entry names it, and the mass is Mcentral when a central potential is listed and Mcentral is given, else unchanged |
| Gravity.ParsePotential | src/gravity/gravity.cpp:21-38 | an entry of the potential list is recognised only when it is the name of the potential it gives (userdef, central, selfgravity); any other entry is not recognised |
| Gravity.ParsePotentialName | src/gravity/gravity.cpp:21-38 | each of the three potentials is recognised by its own name |
| Gravity.NamesNext | src/gravity/gravity.cpp:21-38 | the first n + 1 entries name p iff the first n do or entry n does |
| Gravity.WithArrays | src/gravity/gravity.cpp:54-64 | after allocation every enabled quantity has its array |
| Gravity.ConfiguredMonotone | src/gravity/gravity.cpp:14-65 | Init only enables and allocates: no flag is cleared, planets is never set |
| Gravity.ConfiguredIdempotent | src/gravity/gravity.cpp:55-64 | Init twice on the same input configures as Init once: arrays are allocated at most once |
| Gravity.Radius | src/gravity/gravity.cpp:151-162 | the distance to the central mass by geometry: 1 in Cartesian, x1 in spherical, sqrt(x1^2 + x3^2) in polar, sqrt(x1^2 + x2^2) in cylindrical (a definition; RadiusPositive is its property) |
| Gravity.RadiusPositive | src/gravity/gravity.cpp:151-162 | the distance to the central mass is positive in every geometry when x1 is (1 in Cartesian, x1 in spherical, sqrt of a sum of squares otherwise) |
| Gravity.SumOfSquaresPositive | src/gravity/gravity.cpp:153-156 | x1^2 + y^2 > 0 for x1 > 0 |
| Gravity.Gravity.Init | src/gravity/gravity.cpp:14-65 | haveGravity is set; the status is the first error among an unknown potential then an unknown body force; on success the configuration is Configured(input, old configuration) and valid, callbacks unchanged, an existing array kept, a new array fresh and zero |
| Gravity.Gravity.EnablePotentials | src/gravity/gravity.cpp:17-40 | success iff every potential entry is known; then the configuration is EnabledPotentials of the old one |
| Gravity.Gravity.EnableBodyForce | src/gravity/gravity.cpp:42-52 | success iff the bodyForce entry is absent or "userdef"; then haveBodyForce is set when present |
| Gravity.Gravity.Allocate | src/gravity/gravity.cpp:54-64 | each enabled, unallocated quantity gets a fresh zero array of the block's shape; allocated arrays are kept |
| Gravity.Gravity.EnrollPotential | src/gravity/gravity.cpp:105-113 | success iff the user potential is enabled, else PotentialNotEnabled; on success the stored function is the argument; nothing else changes |
| Gravity.Gravity.EnrollBodyForce | src/gravity/gravity.cpp:115-123 | success iff the body force is enabled, else BodyForceNotEnabled; on success the stored function is the argument; nothing else changes |
| Gravity.Gravity.ResetPotential | src/gravity/gravity.cpp:126-137 | phiP is zero over the full extent |
| Gravity.Gravity.AddCentralMassPotential | src/gravity/gravity.cpp:139-166 | every cell's phiP grows by -M/r for its distance r to the central mass |
| Gravity.Gravity.ComputeGravity | src/gravity/gravity.cpp:68-103 | each error (user potential not enrolled, planets, self-gravity, body force not enrolled) occurs exactly when its check is the first to fail in source order; without a user potential phiP is -M/r or zero; phiP and the body force are untouched when not computed; positive radii are required only when the central mass is enabled |
| ParkMiller.FMod | test/MHD/disk/setup.cpp:18 | fmod of integral values: a remainder of the dividend's sign, below the divisor in magnitude, equal to the Euclidean remainder for a non-negative dividend |
| ParkMiller.FModOdd | test/MHD/disk/setup.cpp:18 | negating the dividend negates fmod's remainder |
| ParkMiller.IterateInRange | test/MHD/disk/setup.cpp:18-19 | from a non-negative state, every state after a draw lies in [0, m) |
| ParkMiller.ValueInUnit | test/HD/ViscousDisk/setup.cpp:30 | q/m lies in [0, 1) for a state in [0, m) |
| ParkMiller.IterateAdd | test/MHD/disk/setup.cpp:14-19 | m draws then n draws are m + n draws: the sequence depends only on the seed and the draw count |
| ParkMiller.SeedInRange | test/HD/ViscousDisk/setup.cpp:23 | a rank whose seed 13763 + 2417*prank fits the 32-bit state starts at a non-zero state in (0, m) |
| ParkMiller.Generator.constructor | test/MHD/disk/setup.cpp:14 | the state starts at 13763 + 2417*prank with no draws |
| ParkMiller.Generator.Randm | test/MHD/disk/setup.cpp:11-22 | the state becomes (16807*state) mod (2^31 - 1), in [0, m), one more draw counted, and the result is state/m in [0, 1) |
| MhdDisk.FillLeftCell | test/MHD/disk/setup.cpp:35-39 | one ghost cell takes RHO, PRS of the source cell and its velocities scaled by sqrt(x1(i)/x1(ighost)); every other cell unchanged |
| MhdDisk.FillLeftFace | test/MHD/disk/setup.cpp:40 | one ghost cell takes BX2s of the source cell; every other face value unchanged |
| MhdDisk.UserdefBoundary | test/MHD/disk/setup.cpp:26-45 | only the left IDIR boundary acts: cells i < ighost take the copied and scaled values from column ighost, which with every other cell is unchanged; every other (dir, side) changes nothing |
| MhdDisk.PerturbationBound | test/MHD/disk/setup.cpp:90 | 1e-2*(0.5 - randm()) has magnitude at most 0.005 |
| MhdDisk.InitCell | test/MHD/disk/setup.cpp:83-94 | one cell takes the initial state with the number it draws; the generator advances one draw; other cells unchanged |
| MhdDisk.InitFlow | test/MHD/disk/setup.cpp:72-101 | every cell gets RHO = 1, PRS = 1e-2, VX1 = 0, VX2 = r^(-1/2), VX3 from the (n+1)-th draw for its position n in visiting order, BX1s = BX2s = 0, BX3s = 1e-2*VX2; VX3 within 0.005; the generator advances one draw per cell |
| ViscousDisk.Ghosts | test/HD/ViscousDisk/setup.cpp:70-81 | the left range is [0, beg) from beg, the right [end, np) from end - 1; the source cell is active and outside the range |
| ViscousDisk.FillRadialCell | test/HD/ViscousDisk/setup.cpp:91-94 | one radial ghost cell takes the equilibrium density and rotation and VX1, VX2 of the source cell; other cells unchanged |
| ViscousDisk.FillMeridionalCell | test/HD/ViscousDisk/setup.cpp:122-125 | one meridional ghost cell takes the equilibrium density and rotation, VX1 of the source cell and VX2 = 0; other cells unchanged |
| ViscousDisk.FillRadial | test/HD/ViscousDisk/setup.cpp:84-95 | every cell of the i-range is a radial ghost of its row's source cell; all other cells unchanged |
| ViscousDisk.FillMeridional | test/HD/ViscousDisk/setup.cpp:115-127 | every cell of the j-range is a meridional ghost of its column's source cell; all other cells unchanged |
| ViscousDisk.UserdefBoundary | test/HD/ViscousDisk/setup.cpp:62-130 | IDIR fills the side's i-range radially, JDIR the side's j-range meridionally, each from an active cell outside the range that stays unchanged with every cell outside the range; KDIR changes nothing |
| ViscousDisk.ViscosityCell | test/HD/ViscousDisk/setup.cpp:55-56 | one cell takes eta1 = nu*rho and eta2 = 0; other cells unchanged |
| ViscousDisk.MyViscosity | test/HD/ViscousDisk/setup.cpp:45-59 | over the full extent eta1 is the kinematic viscosity times the density and eta2 is zero |

Notes on the representation:
- Floating point is exact `real` arithmetic. The 32-bit `int` state of `randm` is an unbounded `int`. Its products stay below 2^53, where the source's `fmod` on doubles is exact. `fmod` keeps the sign of the dividend, unlike Dafny's Euclidean `%`; FMod models it that way, and the states are non-negative because the seed is.
- `sqrt`, `pow(r, -0.5)` and the setups' equilibrium density, rotation and kinematic viscosity are function parameters. Only the properties listed are assumed of them: the square-root identity for the stage count, and positivity for the central-mass distance.
- Each host collaborator has an empty body and a frame-only contract: `SetBoundary`, `ConvertPrimToCons`, `ConvertConsToPrim` and `CalcParabolicFlux` on the data block, and the enrolled gravity callbacks. Callers therefore learn nothing from them beyond what they may change.
- Gravity's `IDEFIX_ERROR` aborts become a returned `Status`. Its function pointers are `Option<Callback>`, with `None` for null.

## Left out

- Non-Cartesian RKL: the curvature corrections of the total flux, the area floor, the non-Cartesian right-hand-side scalings and the `dl` scaling (rkl.cpp:327-356, 377-390, 403-413). The driver requires a Cartesian data block.
- MPI: the `MPI_Allreduce` of the time step is one rank (identity), and the rank of the generator seed is a parameter.
- Profiling regions and logging output; the `rklCycle` flag on the host; `DataBlockHost::SyncToDevice`.
- `rmax_par` is stored by `Init` but never read by the driver.
- Rkl.RKLegendre.Cycle: requires `cfl_rkl > 0` and `data.dt >= 0`. The source does not check either, and without them the time step and the stage count are meaningless.
- Rkl.RKLegendre.ComputeDt: requires some positive inverse time step. After stage 1 this holds because some active cell has a positive diffusion coefficient. The source divides without a check.
- Host.DataBlock.Valid: assumes that the diffusion coefficients dMax are non-negative everywhere and positive in at least one active cell. The parabolic-flux routine that writes them is not part of this model; its contract keeps this assumption. The source relies on the same fact when it divides by the maximum inverse time step (rkl.cpp:266).
- Rkl.RKLegendre.Cycle: the largest inverse time step is stated over a snapshot of InvDt taken after stage 1, because the later stages reset InvDt.
- Rkl.RKLegendre.EvolveStage: states the support of dU and the sign of InvDt, not dU's values; the values are stated per direction by CalcParabolicRHS, whose inputs are the collaborators' opaque fluxes.
- Rkl.RKLegendre.Cycle: the stage-time expression `t + 0.5*dt_hyp*(j^2+j)*w1` is regrouped as `t + dt_hyp*(0.5*(j^2+j)*w1)`; on exact reals the two are equal.
- The Kokkos max reducer starts from the reducer's identity; the model's loop starts from the first element, which gives the same maximum.
- Gravity input: each entry of the `potential` list is its string. `Mcentral` and `bodyForce` are their first values, as the source reads them.
- Gravity.Gravity.Init: the potential flags are set after the scan of the entries, not during it. On an unknown entry the source aborts, so the two orders are not distinguishable.
- Gravity.Gravity.AddCentralMassPotential: requires x1 > 0 on every cell of a curvilinear block (RadiiPositive), while the source divides by r with no check; ComputeGravity demands this only when the central mass is enabled.
- Gravity.Gravity.ComputeGravity: the enrolled user functions (the setups' `Potential`) may write anything into phiP and the body force. Their contents are not modelled.
- The Setup constructors, which enrol the boundaries and potentials; the viscous disk's `InitFlow`, `MySoundSpeed` and `Potential`.
- ParkMiller.SeedInRange: requires the seed to fit the 32-bit state (prank <= 888485); the overflow beyond is not modelled.
- ParkMiller: that the state never reaches 0 (m is prime) is not proved; IterateInRange gives only [0, m).
- Host: only the three-dimensional hydrodynamic build with an energy equation is modelled (NVAR = 5, DIMENSIONS = COMPONENTS = 3), and the block must have at least one active cell and one ghost cell beyond the last active cell in each direction; 1-D and 2-D builds, MHD and isothermal layouts as inputs of the driver are not modelled.
- ViscousDisk: the variable layout is that of the isothermal build (RHO, VX1..VX3).
- ViscousDisk.MyViscosity: `eta1 = alpha*cs*epsilon*R*rho` with `cs = epsilon/sqrt(R)` and `R = r*sin(theta)`. Its kinematic part `alpha*cs*epsilon*R` is the parameter `nu(x1, x2)`, since `sin` and `sqrt` are left as parameters.
- MhdDisk.InitFlow: VX2 = pow(r, -0.5) is the parameter `keplerian(r)`.
- The Riemann solver, the non-ideal EMF and the output/setup declarations of the repository are not part of this model.
