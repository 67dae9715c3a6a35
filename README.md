# Grid algebra of a 2-D thermal fluid solver with obstacle, forcing and Smagorinsky turbulence

The script `modellingfluidwithtemperatureandobstacleandexternalforceandturbulance.py` integrates a 2-D
viscous flow on an N × N grid (41 × 41 points, spacing 1/40). It uses a static circular
obstacle at (0.5, 0.5) of radius 0.1, a decaying jet in the rectangle (0.4, 0.6) × (0.1, 0.3), an oscillating
external force, a Gaussian heat source and a Smagorinsky eddy viscosity. The temperature is a passive scalar: it is
carried by the flow, and the velocity update (lines 308-357) never reads it.

This project models the discrete grid algebra of `main()` over exact real arithmetic:

- `Fields`: the grid, the run constants (`Params`, with `Default()` = the script's constants) and the
  scalar/vector field containers. A field is `seq<seq<real>>` indexed `[i][j]` as in the script's `"ij"`
  meshgrid, so point (i, j) sits at (i·h, j·h).
- `Stencils`: `partial_derivative_x`, `partial_derivative_y` and `laplace`. Each is a method that allocates a
  zeroed `array2<real>` and fills its interior `[1:-1, 1:-1]` in nested loops. Each is proved equal to a
  value-level function (`PartialX`, `PartialY`, `Laplacian`), and the properties are proved about those
  functions.
- `Calculus`: `gradient`, `divergence`, `curl_2d`.
- `Turbulence`: `compute_strain_rate`, `compute_turbulent_viscosity` and the effective viscosity. The square
  root is a parameter.
- `Operators`: the matvec callbacks `temperature_diffusion_operator`, `diffusion_operator_turbulent` (also as
  the component loop the script runs), `diffusion_operator` and `poisson_operator`.
- `Forces`: `forcing_function`, `external_force`, the obstacle mask and the heat source. `sin`, `exp` and
  `pi` are parameters.
- `Advection`: the clipped semi-Lagrangian backtrace of `advect`. The sampling (`interpn`) is a parameter.
- `Integrator`: one pass of the time loop as `NextState` on a `State(time, velocity, temperature)`, built from
  named stages in the script's order, and `Simulate` for k passes.
- `Simulation`: the loop as the script runs it. It is a class whose fields are `time_current`, the `(n, n, 2)`
  velocity array and the `(n, n)` temperature array. The obstacle overwrites happen in place on the freshly
  computed arrays. `Step` is proved to be `NextState` and `Run(k)` is proved to be `Simulate(·, k)`.

The foreign calls are the fields of an `Externals` record. Each pass makes three conjugate-gradient solves
(lines 262, 331 and 341). `solveVector` serves the velocity solve; `solveScalar` serves both the temperature
solve and the pressure solve. The other fields are `interpn`, `np.sqrt`, and `Math(sin, exp, pi)`. Each
solver receives the script's own matvec operator and right-hand side. It may return any field of the right
shape, which is all that the `reshape` after each solve demands.

Three facts about the code that the model follows:

- Pass k uses time k·Δt. Line 306 advances `time_current` by Δt at the top of each pass, before the
  forcing and the external force are computed. `StepTime` and `ForcedVelocity` follow this.
- The obstacle radius 0.1 and centre (0.5, 0.5) are literals (lines 78-79), and so is the clamp value 0.5
  (line 368; the heat-sink 0.0 and heat-source 1.0 variants are commented out).
- The `[0]` after each `splinalg.cg` call (lines 268, 338 and 348) throws away its convergence flag. The
  model does not report non-convergence either.

`laplace` divides by `element_length ** 2`. Over the reals this is written as two divisions by h, which is
the same value.

## Model

| member | source | states |
|---|---|---|
| Fields.Default | modellingfluidwithtemperatureandobstacleandexternalforceandturbulance.py:10-17 | the script's constants (domain 1.0, 41 points, Δt 0.1, ν 0.0001, κ 0.0001, C_s 0.1), which satisfy `Valid` |
| Fields.Params.ElementLength | modellingfluidwithtemperatureandobstacleandexternalforceandturbulance.py:63 | the spacing h = DOMAIN_SIZE / (N_POINTS − 1) (also at line 18) is positive, and N_POINTS − 1 steps of h span the domain exactly |
| Fields.Params.Coord | modellingfluidwithtemperatureandobstacleandexternalforceandturbulance.py:71-72 | grid line k of `linspace(0, DOMAIN_SIZE, N_POINTS)`: non-negative, 0 for k = 0, DOMAIN_SIZE for the last line, and within the domain for every line of the grid |
| Stencils.ComputePartialX | modellingfluidwithtemperatureandobstacleandexternalforceandturbulance.py:149-162 | returns a fresh n×n array; interior entry (i, j) is (f[i+1][j] − f[i−1][j]) / 2h, every other entry is 0 |
| Stencils.ComputePartialY | modellingfluidwithtemperatureandobstacleandexternalforceandturbulance.py:164-177 | the same with the difference taken along j |
| Stencils.ComputeLaplacian | modellingfluidwithtemperatureandobstacleandexternalforceandturbulance.py:179-198 | returns a fresh array holding the five-point Laplacian / h² on the interior and 0 on the boundary |
| Stencils.PartialX | modellingfluidwithtemperatureandobstacleandexternalforceandturbulance.py:149-162 | the n×n field whose interior entry (i, j) is (f[i+1][j] − f[i−1][j]) / 2h and whose boundary entries are 0 |
| Stencils.PartialY | modellingfluidwithtemperatureandobstacleandexternalforceandturbulance.py:164-177 | the n×n field whose interior entry (i, j) is (f[i][j+1] − f[i][j−1]) / 2h and whose boundary entries are 0 |
| Stencils.Laplacian | modellingfluidwithtemperatureandobstacleandexternalforceandturbulance.py:179-198 | the n×n field holding (f[i−1][j] + f[i][j−1] − 4f[i][j] + f[i+1][j] + f[i][j+1]) / h² on the interior and 0 on the boundary |
| Stencils.StencilsVanishOnBoundary | modellingfluidwithtemperatureandobstacleandexternalforceandturbulance.py:149-198 | every boundary entry (row or column 0 or n−1) of all three stencils is exactly 0 |
| Stencils.StencilsVanishOnConstant | modellingfluidwithtemperatureandobstacleandexternalforceandturbulance.py:149-198 | all three stencils map a constant field to the zero field |
| Stencils.PartialXLinear | modellingfluidwithtemperatureandobstacleandexternalforceandturbulance.py:149-162 | ∂x(a·f + b·g) = a·∂x f + b·∂x g, as whole fields |
| Stencils.PartialYLinear | modellingfluidwithtemperatureandobstacleandexternalforceandturbulance.py:164-177 | ∂y(a·f + b·g) = a·∂y f + b·∂y g |
| Stencils.LaplacianLinear | modellingfluidwithtemperatureandobstacleandexternalforceandturbulance.py:179-198 | laplace(a·f + b·g) = a·laplace f + b·laplace g |
| Stencils.StencilsExactOnAffine | modellingfluidwithtemperatureandobstacleandexternalforceandturbulance.py:149-198 | for f = c0 + cx·x + cy·y, at every interior point ∂x f = cx, ∂y f = cy and laplace f = 0 |
| Calculus.Gradient | modellingfluidwithtemperatureandobstacleandexternalforceandturbulance.py:209-218 | the vector field (PartialX f, PartialY f) |
| Calculus.Divergence | modellingfluidwithtemperatureandobstacleandexternalforceandturbulance.py:200-207 | the field PartialX of the x-component plus PartialY of the y-component |
| Calculus.Curl | modellingfluidwithtemperatureandobstacleandexternalforceandturbulance.py:220-227 | the field PartialX of the y-component minus PartialY of the x-component |
| Calculus.CompositesVanishOnBoundary | modellingfluidwithtemperatureandobstacleandexternalforceandturbulance.py:200-227 | gradient, divergence and curl are 0 at every boundary entry |
| Calculus.GradientOfConstant | modellingfluidwithtemperatureandobstacleandexternalforceandturbulance.py:209-218 | the gradient of a constant field is the zero vector field |
| Calculus.DivergenceAndCurlOfConstant | modellingfluidwithtemperatureandobstacleandexternalforceandturbulance.py:200-227 | a vector field with constant components has zero divergence and zero curl everywhere |
| Calculus.GradientLinear | modellingfluidwithtemperatureandobstacleandexternalforceandturbulance.py:209-218 | gradient(a·f + b·g) = a·gradient f + b·gradient g |
| Calculus.DivergenceLinear | modellingfluidwithtemperatureandobstacleandexternalforceandturbulance.py:200-207 | divergence is linear in its vector field |
| Calculus.CurlLinear | modellingfluidwithtemperatureandobstacleandexternalforceandturbulance.py:220-227 | curl_2d is linear in its vector field |
| Calculus.CurlOfGradientVanishesInside | modellingfluidwithtemperatureandobstacleandexternalforceandturbulance.py:209-227 | curl(gradient f) = 0 at every point at least two cells from the boundary |
| Turbulence.SquaredStrainMagnitude | modellingfluidwithtemperatureandobstacleandexternalforceandturbulance.py:97-114 | the n×n field 2(S11² + S22² + 2·S12²) with S11 = ∂x u, S22 = ∂y v, S12 = (∂y u + ∂x v)/2 |
| Turbulence.StrainRate | modellingfluidwithtemperatureandobstacleandexternalforceandturbulance.py:97-114 | the square root of the squared strain magnitude at every point |
| Turbulence.TurbulentViscosity | modellingfluidwithtemperatureandobstacleandexternalforceandturbulance.py:116-122 | (C_s·h)² times the strain rate at every point |
| Turbulence.EffectiveViscosity | modellingfluidwithtemperatureandobstacleandexternalforceandturbulance.py:134 | ν plus the turbulent viscosity at every point |
| Turbulence.SquaredStrainNonnegative | modellingfluidwithtemperatureandobstacleandexternalforceandturbulance.py:97-114 | the argument 2(S11² + S22² + 2·S12²) of np.sqrt is ≥ 0 for every velocity field |
| Turbulence.StrainVanishesOnBoundary | modellingfluidwithtemperatureandobstacleandexternalforceandturbulance.py:97-134 | at the boundary the squared strain, the strain rate and ν_t are 0, so the effective viscosity is ν |
| Turbulence.TurbulentViscosityNonnegative | modellingfluidwithtemperatureandobstacleandexternalforceandturbulance.py:116-134 | with a genuine square root, strain rate ≥ 0, ν_t ≥ 0 and effective viscosity ≥ ν |
| Turbulence.UniformFlowHasNoStrain | modellingfluidwithtemperatureandobstacleandexternalforceandturbulance.py:97-134 | a uniform flow has zero squared strain everywhere, and its effective viscosity is ν everywhere |
| Turbulence.RigidRotationHasNoStrain | modellingfluidwithtemperatureandobstacleandexternalforceandturbulance.py:97-114 | a rigid rotation plus drift has zero strain at every interior point |
| Operators.TemperatureDiffusionOperator | modellingfluidwithtemperatureandobstacleandexternalforceandturbulance.py:258-260 | the field T − κ·Δt·laplace T |
| Operators.TurbulentDiffusionOfComponent | modellingfluidwithtemperatureandobstacleandexternalforceandturbulance.py:139-142 | one component c − Δt·div(ν_eff·grad c), with ν_eff multiplying both gradient components |
| Operators.DiffusionOperatorTurbulent | modellingfluidwithtemperatureandobstacleandexternalforceandturbulance.py:124-144 | both components of v − Δt·div(ν_eff·grad v), with ν_eff computed from v itself |
| Operators.DiffusionOperator | modellingfluidwithtemperatureandobstacleandexternalforceandturbulance.py:274-287 | the vector field v − ν·Δt·laplace v, component by component |
| Operators.PoissonOperator | modellingfluidwithtemperatureandobstacleandexternalforceandturbulance.py:289-294 | laplace p |
| Operators.ApplyDiffusionOperatorTurbulent | modellingfluidwithtemperatureandobstacleandexternalforceandturbulance.py:124-144 | the component loop produces exactly v − Δt·div(ν_eff·grad v) for both components |
| Operators.TemperatureOperatorFixesBoundary | modellingfluidwithtemperatureandobstacleandexternalforceandturbulance.py:258-260 | T − κΔt·laplace T equals T at every boundary entry |
| Operators.TurbulentOperatorFixesBoundary | modellingfluidwithtemperatureandobstacleandexternalforceandturbulance.py:124-144 | the turbulent diffusion operator returns both input components at every boundary entry, whatever sqrt is |
| Operators.DiffusionOperatorFixesBoundary | modellingfluidwithtemperatureandobstacleandexternalforceandturbulance.py:274-287 | the plain diffusion operator returns its input at every boundary entry |
| Operators.PoissonOperatorVanishesOnBoundary | modellingfluidwithtemperatureandobstacleandexternalforceandturbulance.py:289-294 | the Poisson operator is 0 at every boundary entry |
| Operators.TemperatureSolutionKeepsBoundary | modellingfluidwithtemperatureandobstacleandexternalforceandturbulance.py:258-268 | an exact solution x of the temperature system for b has x = b at every boundary entry |
| Operators.TurbulentSolutionKeepsBoundary | modellingfluidwithtemperatureandobstacleandexternalforceandturbulance.py:331-338 | an exact solution of the turbulent velocity system agrees with its right-hand side on the boundary |
| Operators.TemperatureOperatorLinear | modellingfluidwithtemperatureandobstacleandexternalforceandturbulance.py:258-260 | the temperature operator is linear, as its use as a LinearOperator assumes |
| Operators.DiffusionOperatorLinear | modellingfluidwithtemperatureandobstacleandexternalforceandturbulance.py:274-287 | the plain diffusion operator is linear |
| Operators.PoissonOperatorLinear | modellingfluidwithtemperatureandobstacleandexternalforceandturbulance.py:289-294 | the Poisson operator is linear |
| Operators.TemperatureOperatorFixesAffine | modellingfluidwithtemperatureandobstacleandexternalforceandturbulance.py:258-260 | an affine temperature field (a constant one in particular) is a fixed point of the temperature operator |
| Operators.PoissonOperatorKernel | modellingfluidwithtemperatureandobstacleandexternalforceandturbulance.py:289-294 | every affine pressure field is mapped to the zero field |
| Operators.TurbulentOperatorFixesUniformFlow | modellingfluidwithtemperatureandobstacleandexternalforceandturbulance.py:124-144 | a uniform flow is a fixed point of the turbulent diffusion operator, whatever viscosity results |
| Forces.ForcingField | modellingfluidwithtemperatureandobstacleandexternalforceandturbulance.py:308-311 | forcing_function evaluated at time t at every grid point (i·h, j·h), as a vector field |
| Forces.ExternalForce | modellingfluidwithtemperatureandobstacleandexternalforceandturbulance.py:50-59 | at point (i, j): x-component 0.1·sin(2π·j·h), y-component −0.1·sin(2π·t/10) |
| Forces.Masked | modellingfluidwithtemperatureandobstacleandexternalforceandturbulance.py:78-80 | grid point (i, j) is masked exactly when (i·h − 0.5)² + (j·h − 0.5)² < 0.1²; a masked point has both coordinates in (0.4, 0.6) |
| Forces.TemperatureSource | modellingfluidwithtemperatureandobstacleandexternalforceandturbulance.py:302 | the field exp(−((i·h − 0.5)² + (j·h − 0.5)²) / 0.01) |
| Forces.TimeDecay | modellingfluidwithtemperatureandobstacleandexternalforceandturbulance.py:25-28 | the decay is ≥ 0 and ≥ 2 − 0.5t, and it is one of those two values |
| Forces.ForcingFunction | modellingfluidwithtemperatureandobstacleandexternalforceandturbulance.py:24-48 | the x-component is always 0; the y-component is ≥ 0, and > 0 exactly when the point is strictly inside (0.4,0.6)×(0.1,0.3) and t < 4 |
| Forces.ForcingValue | modellingfluidwithtemperatureandobstacleandexternalforceandturbulance.py:24-48 | inside the rectangle the force is (0, max(2 − 0.5t, 0)); outside it is (0, 0) |
| Forces.ForcingSwitchedOff | modellingfluidwithtemperatureandobstacleandexternalforceandturbulance.py:24-48 | for every t ≥ 4 the force is (0, 0) at every point |
| Forces.ForcingDecays | modellingfluidwithtemperatureandobstacleandexternalforceandturbulance.py:24-48 | for 0 ≤ t1 ≤ t2 the y-component at t2 is ≤ that at t1, which is ≤ 2 |
| Forces.ForcingAtFirstStep | modellingfluidwithtemperatureandobstacleandexternalforceandturbulance.py:24-48 | at t = Δt = 0.1 a forced point receives (0, 1.95) |
| Forces.ForcingFieldShape | modellingfluidwithtemperatureandobstacleandexternalforceandturbulance.py:308-311 | the vectorised forcing has zero x-component on the grid and is the zero field from t = 4 on |
| Forces.ExternalForceYIsUniform | modellingfluidwithtemperatureandobstacleandexternalforceandturbulance.py:50-59 | the y-component of external_force is the same at any two grid points |
| Forces.ExternalForceXDependsOnlyOnY | modellingfluidwithtemperatureandobstacleandexternalforceandturbulance.py:50-59 | the x-component is the same at any two times, and at any two points of one grid column j |
| Forces.ExternalForceBounded | modellingfluidwithtemperatureandobstacleandexternalforceandturbulance.py:50-59 | with a sine bounded by 1, both components lie in [−0.1, 0.1] |
| Forces.ObstacleNearCentre | modellingfluidwithtemperatureandobstacleandexternalforceandturbulance.py:78-80 | every point of the mask lies in the open square (0.4, 0.6) × (0.4, 0.6) |
| Forces.BoundaryUnmasked | modellingfluidwithtemperatureandobstacleandexternalforceandturbulance.py:78-80 | for a domain of size ≥ 0.6 no boundary grid point is masked |
| Forces.ForcingMissesObstacle | modellingfluidwithtemperatureandobstacleandexternalforceandturbulance.py:24-80 | the forcing is (0, 0) at every masked point, at every time |
| Forces.DefaultMaskSamples | modellingfluidwithtemperatureandobstacleandexternalforceandturbulance.py:71-80 | with the script's constants, grid point (20, 20) is masked, and (0, 0), (16, 20) and (20, 16) are not (the last two lie on the circle) |
| Forces.TemperatureSourceRadial | modellingfluidwithtemperatureandobstacleandexternalforceandturbulance.py:302 | two grid points at equal distance from (0.5, 0.5) get the same source value |
| Forces.TemperatureSourcePositive | modellingfluidwithtemperatureandobstacleandexternalforceandturbulance.py:302 | with a positive exp, the source is > 0 at every grid point |
| Advection.Advect | modellingfluidwithtemperatureandobstacleandexternalforceandturbulance.py:229-248 | the field sampled by interp at the backtraced position of every grid point |
| Advection.AdvectVector | modellingfluidwithtemperatureandobstacleandexternalforceandturbulance.py:229-248 | both components sampled at the same backtraced positions |
| Advection.Clip | modellingfluidwithtemperatureandobstacleandexternalforceandturbulance.py:230-240 | the result lies in [lo, hi]; it is x when x is inside, and the nearer bound otherwise |
| Advection.ClipIdempotent | modellingfluidwithtemperatureandobstacleandexternalforceandturbulance.py:230-240 | clipping twice equals clipping once |
| Advection.ClipMonotone | modellingfluidwithtemperatureandobstacleandexternalforceandturbulance.py:230-240 | clipping preserves ≤ |
| Advection.Backtrace | modellingfluidwithtemperatureandobstacleandexternalforceandturbulance.py:229-240 | both backtraced coordinates lie in [0, DOMAIN_SIZE] for every velocity field |
| Advection.BacktraceAtRest | modellingfluidwithtemperatureandobstacleandexternalforceandturbulance.py:229-240 | with zero velocity at (i, j) the backtraced position is (i·h, j·h) |
| Advection.BacktraceUnclipped | modellingfluidwithtemperatureandobstacleandexternalforceandturbulance.py:229-240 | when the upwind point x − Δt·v lies in the domain, the backtrace is that point |
| Advection.AdvectAtRest | modellingfluidwithtemperatureandobstacleandexternalforceandturbulance.py:229-248 | with the zero velocity field and a sampler exact at the nodes, advect returns the field unchanged |
| Advection.AdvectVectorAtRest | modellingfluidwithtemperatureandobstacleandexternalforceandturbulance.py:325-328 | the same for both components of a vector field |
| Integrator.ApplyForces | modellingfluidwithtemperatureandobstacleandexternalforceandturbulance.py:316-322 | the vector field v + Δt·(F + F_ext) |
| Integrator.Project | modellingfluidwithtemperatureandobstacleandexternalforceandturbulance.py:351-355 | the vector field v − gradient p |
| Integrator.EnforceObstacleVelocity | modellingfluidwithtemperatureandobstacleandexternalforceandturbulance.py:357 | both components set to 0 at masked points, every other entry kept |
| Integrator.EnforceObstacleTemperature | modellingfluidwithtemperatureandobstacleandexternalforceandturbulance.py:368 | masked entries set to 0.5, every other entry kept |
| Integrator.TemperatureStep | modellingfluidwithtemperatureandobstacleandexternalforceandturbulance.py:250-272 | the solver output for the temperature operator on the advected temperature, plus Δt times the source |
| Integrator.Initial | modellingfluidwithtemperatureandobstacleandexternalforceandturbulance.py:299-304 | the state before the loop is well shaped: time 0, zero n×n×2 velocity, zero n×n temperature |
| Integrator.TemperatureMatvec | modellingfluidwithtemperatureandobstacleandexternalforceandturbulance.py:258-266 | the temperature `LinearOperator`: defined on every n×n field and returns an n×n field (its value is `TemperatureDiffusionOperator`) |
| Integrator.TurbulentMatvec | modellingfluidwithtemperatureandobstacleandexternalforceandturbulance.py:331-335 | the velocity `LinearOperator`: defined on every n×n×2 field and returns one (its value is `DiffusionOperatorTurbulent`) |
| Integrator.PoissonMatvec | modellingfluidwithtemperatureandobstacleandexternalforceandturbulance.py:341-345 | the pressure `LinearOperator`: defined on every n×n field and returns an n×n field (its value is `PoissonOperator`) |
| Integrator.StepTime | modellingfluidwithtemperatureandobstacleandexternalforceandturbulance.py:306 | the pass's time is the old time plus Δt, strictly later when Δt > 0; it is computed before the forces |
| Integrator.ForcedVelocity | modellingfluidwithtemperatureandobstacleandexternalforceandturbulance.py:308-322 | the n×n×2 field `velocities_forces_applied`: the old velocity plus Δt·(forcing + external force) at the pass's time |
| Integrator.AdvectedVelocity | modellingfluidwithtemperatureandobstacleandexternalforceandturbulance.py:325-328 | the n×n×2 field `velocities_advected`: the forced velocity advected by itself |
| Integrator.DiffusedVelocity | modellingfluidwithtemperatureandobstacleandexternalforceandturbulance.py:331-338 | the n×n×2 field `velocities_diffused`: the vector solver applied to the turbulent matvec and the advected velocity |
| Integrator.Pressure | modellingfluidwithtemperatureandobstacleandexternalforceandturbulance.py:341-348 | the n×n pressure field: the scalar solver applied to the Poisson matvec and the divergence of the diffused velocity |
| Integrator.ProjectedVelocity | modellingfluidwithtemperatureandobstacleandexternalforceandturbulance.py:351-355 | the n×n×2 field `velocities_projected` before masking: diffused velocity minus the pressure gradient |
| Integrator.NextVelocity | modellingfluidwithtemperatureandobstacleandexternalforceandturbulance.py:357 | the n×n×2 projected velocity after the obstacle overwrite, which becomes `velocities_prev`; `ObstacleEnforced` states its values |
| Integrator.HeatedTemperature | modellingfluidwithtemperatureandobstacleandexternalforceandturbulance.py:358-362 | the n×n result of `temperature_step` driven by the masked velocity, before the clamp of line 368 |
| Integrator.NextState | modellingfluidwithtemperatureandobstacleandexternalforceandturbulance.py:305-371 | one pass: time + Δt; velocity forced, self-advected, diffused, projected and masked; temperature stepped with that velocity and clamped |
| Integrator.Simulate | modellingfluidwithtemperatureandobstacleandexternalforceandturbulance.py:305-371 | k passes of NextState from the given state |
| Integrator.ObstacleEnforced | modellingfluidwithtemperatureandobstacleandexternalforceandturbulance.py:351-368 | after a pass, masked points have velocity (0, 0) and temperature 0.5; other points have v_diffused − grad p and the temperature step's value |
| Integrator.StepSettlesObstacle | modellingfluidwithtemperatureandobstacleandexternalforceandturbulance.py:357-368 | every pass ends with the obstacle at rest and at 0.5, whatever state it started from |
| Integrator.SimulationSettlesObstacle | modellingfluidwithtemperatureandobstacleandexternalforceandturbulance.py:305-371 | after k ≥ 1 passes the obstacle is at rest and at 0.5 |
| Integrator.EnforceObstacleIdempotent | modellingfluidwithtemperatureandobstacleandexternalforceandturbulance.py:357-368 | applying either obstacle overwrite twice equals applying it once |
| Integrator.EnforceObstacleOnSettled | modellingfluidwithtemperatureandobstacleandexternalforceandturbulance.py:357-368 | on a settled state both overwrites change nothing |
| Integrator.ApplyForcesAdditive | modellingfluidwithtemperatureandobstacleandexternalforceandturbulance.py:316-322 | two explicit force updates in a row equal one update with the summed forces |
| Integrator.ApplyNoForces | modellingfluidwithtemperatureandobstacleandexternalforceandturbulance.py:316-322 | with zero forcing and zero external force the update leaves the velocity unchanged |
| Integrator.ProjectKeepsBoundary | modellingfluidwithtemperatureandobstacleandexternalforceandturbulance.py:351-355 | the projection v − grad p leaves every boundary entry of v unchanged, for every pressure |
| Integrator.ProjectConstantPressure | modellingfluidwithtemperatureandobstacleandexternalforceandturbulance.py:351-355 | a constant pressure leaves the velocity unchanged everywhere |
| Integrator.BoundaryVelocityIsAdvected | modellingfluidwithtemperatureandobstacleandexternalforceandturbulance.py:325-357 | if the velocity solve is exact, an unmasked boundary point ends the pass with its advected velocity |
| Integrator.SimulationTime | modellingfluidwithtemperatureandobstacleandexternalforceandturbulance.py:304-306 | after k passes the time is t0 + k·Δt |
| Integrator.DefaultRunEndsAtTen | modellingfluidwithtemperatureandobstacleandexternalforceandturbulance.py:304-306 | the script's 100 passes of 0.1 from rest end at time 10 |
| Simulation.MaskVelocities | modellingfluidwithtemperatureandobstacleandexternalforceandturbulance.py:357 | in place, both components become 0 at masked points and all other entries are unchanged |
| Simulation.MaskTemperature | modellingfluidwithtemperatureandobstacleandexternalforceandturbulance.py:368 | in place, masked entries become 0.5 and all other entries are unchanged |
| Simulation.Simulation.constructor | modellingfluidwithtemperatureandobstacleandexternalforceandturbulance.py:299-304 | the loop starts at time 0 with zero velocity and zero temperature |
| Simulation.Simulation.Step | modellingfluidwithtemperatureandobstacleandexternalforceandturbulance.py:305-371 | one pass updates the time, velocity array and temperature array to exactly NextState of the old values |
| Simulation.Simulation.Run | modellingfluidwithtemperatureandobstacleandexternalforceandturbulance.py:305-371 | k passes give Simulate(old state, k) |
| Simulation.RunScript | modellingfluidwithtemperatureandobstacleandexternalforceandturbulance.py:299-371 | main()'s loop with the script's constants ends at time 10, in state Simulate(Initial, 100), with the obstacle settled |

## Left out

- The conjugate-gradient solves (`splinalg.cg`, `LinearOperator`, `MAX_ITER_CG`) are foreign code. They are the parameters `solveVector`/`solveScalar`, and the only thing assumed of them is that they return a field of the right shape. Convergence and incompressibility of the projected velocity are therefore not claimed. The lemmas about exact solves carry exactness as a precondition.
- `interpolate.interpn` is the parameter `interp`. Only `Advection.AdvectAtRest` and `Advection.AdvectVectorAtRest` assume anything of it (exactness at grid nodes). Linear interpolation itself is not modelled.
- `np.sin`, `np.exp`, `np.pi` and `np.sqrt` are parameters. The bounds `SinBounded`, `ExpPositive` and `IsSqrt` are assumed only by the lemmas that need them; `StrainVanishesOnBoundary` and `UniformFlowHasNoStrain` assume only `sqrt(0) = 0`.
- Floating-point rounding is not modelled. In particular, `obstacle_radius**2` is exactly 0.01 here, while the float value is 0.010000000000000002, so the mask differs at points at distance 0.1 from the centre. On the script's 41-point grid, the float
  value of (0.4 − 0.5)**2 falls below the float 0.1**2, so the script masks grid points (16, 20) and (20, 16);
  `Masked` over the reals does not (`Forces.DefaultMaskSamples`). Points (24, 20) and (20, 24) are unmasked in
  both, since the float grid coordinate 0.6000000000000001 lies just past 0.6.
- Plotting, the progress bar and the colour maps (matplotlib, tqdm, cmasher) are I/O. `curl_2d` is computed only for the plot, so it is modelled as `Calculus.Curl` but not called by the loop.
- Four pieces of numpy plumbing are replaced by direct index formulas: `np.vectorize`, `meshgrid`, `concatenate`, and `flatten`/`reshape` around each solve.
- Operators.ApplyDiffusionOperatorTurbulent: the `for i in range(2)` loop fills a two-element sequence of component fields rather than writing into an `(n, n, 2)` array in place.
- Integrator.HeatedTemperature recomputes the heat source from the constants on every pass. The script computes it once before the loop; the value is the same.
- Run-time validation of the configuration and reporting of solver non-convergence are not in the code and are not modelled. `Params.Valid` asks for at least two grid points and a positive domain size. The divisions by the grid
  spacing need a non-zero size, and the clip into [0, DOMAIN_SIZE] needs it non-negative.
