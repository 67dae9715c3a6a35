/** One pass of the script's time loop, as a function of the state it
    carries from step to step: the current time, `velocities_prev` and
    `temperature_prev`.

    The conjugate-gradient solves, `interpolate.interpn` and the
    transcendental functions are foreign code: they are the fields of an
    `Externals` record. Each solver receives the exact matvec operator of the
    script and the right-hand side, and may return any field of the right
    shape (`reshape` insists on the shape and nothing else is checked). */
module Integrator {
  import opened Fields
  import opened Stencils
  import opened Calculus
  import opened Turbulence
  import opened Operators
  import opened Forces
  import opened Advection

  /** The temperature the obstacle is held at (line 368); the commented-out
      alternatives of the script are a heat sink 0.0 and a heat source 1.0. */
  const ObstacleTemperature: real := 0.5

  datatype Externals = Externals(
    solveVector: (VectorField --> VectorField, VectorField) -> VectorField,  // splinalg.cg on vector_dof unknowns
    solveScalar: (Field --> Field, Field) -> Field,                           // splinalg.cg on scalar_dof unknowns
    interp: (Field, real, real) -> real,                                      // interpolate.interpn over (x, y)
    sqrt: real -> real,                                                       // np.sqrt
    math: Math)                                                               // np.sin, np.exp, np.pi

  /** The one thing the model needs of the solvers: the `reshape` of their
      result succeeds. */
  ghost predicate SolversKeepShape(ext: Externals, n: nat) {
    (forall a, b :: IsVectorField(b, n) ==> IsVectorField(ext.solveVector(a, b), n)) &&
    (forall a, b :: IsField(b, n) ==> IsField(ext.solveScalar(a, b), n))
  }

  ghost predicate Ready(p: Params, ext: Externals) {
    p.Valid() && SolversKeepShape(ext, p.nPoints)
  }

  /** What the loop carries between passes. */
  datatype State = State(time: real, velocity: VectorField, temperature: Field)

  predicate WellShaped(s: State, n: nat) {
    IsVectorField(s.velocity, n) && IsField(s.temperature, n)
  }

  /** Before the loop: time 0, fluid at rest, temperature 0 everywhere. */
  function Initial(p: Params): (s: State)
    ensures WellShaped(s, p.nPoints)
  {
    State(0.0, ZeroVector(p.nPoints), Constant(p.nPoints, 0.0))
  }

  // ---------------------------------------------------------------------------
  // The `LinearOperator` callbacks handed to the solvers.

  function TemperatureMatvec(p: Params): (op: Field --> Field)
    requires p.Valid()
    ensures forall t :: IsField(t, p.nPoints) ==> op.requires(t) && IsField(op(t), p.nPoints)
  {
    t requires IsField(t, p.nPoints) => TemperatureDiffusionOperator(t, p)
  }

  function TurbulentMatvec(p: Params, sqrt: real -> real): (op: VectorField --> VectorField)
    requires p.Valid()
    ensures forall w :: IsVectorField(w, p.nPoints) ==> op.requires(w) && IsVectorField(op(w), p.nPoints)
  {
    w requires IsVectorField(w, p.nPoints) => DiffusionOperatorTurbulent(w, p, sqrt)
  }

  function PoissonMatvec(p: Params): (op: Field --> Field)
    requires p.Valid()
    ensures forall f :: IsField(f, p.nPoints) ==> op.requires(f) && IsField(op(f), p.nPoints)
  {
    f requires IsField(f, p.nPoints) => PoissonOperator(f, p)
  }

  // ---------------------------------------------------------------------------
  // The building blocks of a step.

  /** Step (1): velocities + dt (forces + external_forces). */
  function ApplyForces(v: VectorField, forces: VectorField, external: VectorField, p: Params): (r: VectorField)
    requires p.Valid() && IsVectorField(v, p.nPoints) && IsVectorField(forces, p.nPoints) && IsVectorField(external, p.nPoints)
    ensures IsVectorField(r, p.nPoints)
  {
    var n := p.nPoints;
    VAdd(v, VScale(p.dt, VAdd(forces, external, n), n), n)
  }

  /** Step (4.2): velocities_diffused - gradient(pressure). */
  function Project(v: VectorField, pressure: Field, p: Params): (r: VectorField)
    requires p.Valid() && IsVectorField(v, p.nPoints) && IsField(pressure, p.nPoints)
    ensures IsVectorField(r, p.nPoints)
  {
    VSub(v, Gradient(pressure, p.nPoints, p.ElementLength()), p.nPoints)
  }

  /** `velocities_projected[obstacle_mask, :] = 0`. */
  function EnforceObstacleVelocity(v: VectorField, p: Params): (r: VectorField)
    requires p.Valid() && IsVectorField(v, p.nPoints)
    ensures IsVectorField(r, p.nPoints)
  {
    var n := p.nPoints;
    VectorField(
      seq(n, i requires 0 <= i < n => seq(n, j requires 0 <= j < n => if Masked(p, i, j) then 0.0 else v.u[i][j])),
      seq(n, i requires 0 <= i < n => seq(n, j requires 0 <= j < n => if Masked(p, i, j) then 0.0 else v.v[i][j])))
  }

  /** `temperature_prev[obstacle_mask] = 0.5`. */
  function EnforceObstacleTemperature(t: Field, p: Params): (r: Field)
    requires p.Valid() && IsField(t, p.nPoints)
    ensures IsField(r, p.nPoints)
  {
    var n := p.nPoints;
    seq(n, i requires 0 <= i < n => seq(n, j requires 0 <= j < n => if Masked(p, i, j) then ObstacleTemperature else t[i][j]))
  }

  /** `temperature_step`: advect, solve the implicit diffusion, add dt times the source. */
  function TemperatureStep(t: Field, vel: VectorField, source: Field, p: Params, ext: Externals): (r: Field)
    requires Ready(p, ext) && IsField(t, p.nPoints) && IsVectorField(vel, p.nPoints) && IsField(source, p.nPoints)
    ensures IsField(r, p.nPoints)
  {
    var n := p.nPoints;
    var advected := Advect(t, vel, p, ext.interp);
    var diffused := ext.solveScalar(TemperatureMatvec(p), advected);
    Add(diffused, Scale(p.dt, source, n), n)
  }

  // ---------------------------------------------------------------------------
  // The stages of one pass of the loop, in the script's order.

  /** `time_current += TIME_STEP_LENGTH`, done before the forces are evaluated. */
  function StepTime(s: State, p: Params): (t: real)
    ensures p.dt > 0.0 ==> t > s.time
    ensures t - s.time == p.dt
  {
    s.time + p.dt
  }

  /** `velocities_forces_applied`. */
  function ForcedVelocity(s: State, p: Params, ext: Externals): (r: VectorField)
    requires Ready(p, ext) && WellShaped(s, p.nPoints)
    ensures IsVectorField(r, p.nPoints)
  {
    var t := StepTime(s, p);
    ApplyForces(s.velocity, ForcingField(t, p), ExternalForce(t, p, ext.math), p)
  }

  /** `velocities_advected`: self-advection of the forced velocity. */
  function AdvectedVelocity(s: State, p: Params, ext: Externals): (r: VectorField)
    requires Ready(p, ext) && WellShaped(s, p.nPoints)
    ensures IsVectorField(r, p.nPoints)
  {
    var forced := ForcedVelocity(s, p, ext);
    AdvectVector(forced, forced, p, ext.interp)
  }

  /** `velocities_diffused`: the solver applied to the turbulent diffusion operator. */
  function DiffusedVelocity(s: State, p: Params, ext: Externals): (r: VectorField)
    requires Ready(p, ext) && WellShaped(s, p.nPoints)
    ensures IsVectorField(r, p.nPoints)
  {
    ext.solveVector(TurbulentMatvec(p, ext.sqrt), AdvectedVelocity(s, p, ext))
  }

  /** `pressure`: the solver applied to the Poisson operator and the divergence. */
  function Pressure(s: State, p: Params, ext: Externals): (r: Field)
    requires Ready(p, ext) && WellShaped(s, p.nPoints)
    ensures IsField(r, p.nPoints)
  {
    ext.solveScalar(PoissonMatvec(p), Divergence(DiffusedVelocity(s, p, ext), p.nPoints, p.ElementLength()))
  }

  /** `velocities_projected` before the obstacle is imposed. */
  function ProjectedVelocity(s: State, p: Params, ext: Externals): (r: VectorField)
    requires Ready(p, ext) && WellShaped(s, p.nPoints)
    ensures IsVectorField(r, p.nPoints)
  {
    Project(DiffusedVelocity(s, p, ext), Pressure(s, p, ext), p)
  }

  /** `velocities_projected` after line 357: the next `velocities_prev`. */
  function NextVelocity(s: State, p: Params, ext: Externals): (r: VectorField)
    requires Ready(p, ext) && WellShaped(s, p.nPoints)
    ensures IsVectorField(r, p.nPoints)
  {
    EnforceObstacleVelocity(ProjectedVelocity(s, p, ext), p)
  }

  /** The result of `temperature_step`, driven by the masked velocity. */
  function HeatedTemperature(s: State, p: Params, ext: Externals): (r: Field)
    requires Ready(p, ext) && WellShaped(s, p.nPoints)
    ensures IsField(r, p.nPoints)
  {
    TemperatureStep(s.temperature, NextVelocity(s, p, ext), TemperatureSource(p, ext.math), p, ext)
  }

  /** One pass of the loop body (lines 306-371, plotting aside). */
  function NextState(s: State, p: Params, ext: Externals): (r: State)
    requires Ready(p, ext) && WellShaped(s, p.nPoints)
    ensures WellShaped(r, p.nPoints)
  {
    State(StepTime(s, p), NextVelocity(s, p, ext), EnforceObstacleTemperature(HeatedTemperature(s, p, ext), p))
  }

  /** k passes of the loop. */
  function Simulate(s: State, p: Params, ext: Externals, k: nat): (r: State)
    requires Ready(p, ext) && WellShaped(s, p.nPoints)
    ensures WellShaped(r, p.nPoints)
  {
    if k == 0 then s else NextState(Simulate(s, p, ext, k - 1), p, ext)
  }

  // ---------------------------------------------------------------------------
  // The obstacle.

  /** After line 357 every masked point is at rest and every other point holds
      its projected value v_diffused - grad p; after line 368 every masked
      point is at 0.5 and every other point keeps the temperature step's value. */
  lemma ObstacleEnforced(s: State, p: Params, ext: Externals, i: nat, j: nat)
    requires Ready(p, ext) && WellShaped(s, p.nPoints) && InGrid(p.nPoints, i, j)
    ensures var r := NextState(s, p, ext);
      Masked(p, i, j) ==> r.velocity.u[i][j] == 0.0 && r.velocity.v[i][j] == 0.0 && r.temperature[i][j] == 0.5
    ensures var r, d, g := NextState(s, p, ext), DiffusedVelocity(s, p, ext), Gradient(Pressure(s, p, ext), p.nPoints, p.ElementLength());
      !Masked(p, i, j) ==>
        r.velocity.u[i][j] == d.u[i][j] - g.u[i][j] && r.velocity.v[i][j] == d.v[i][j] - g.v[i][j] &&
        r.temperature[i][j] == HeatedTemperature(s, p, ext)[i][j]
  {
  }

  /** The state the obstacle is held in: at rest, at the obstacle temperature. */
  ghost predicate ObstacleSettled(s: State, p: Params)
    requires p.Valid() && WellShaped(s, p.nPoints)
  {
    forall i, j :: InGrid(p.nPoints, i, j) && Masked(p, i, j) ==>
      s.velocity.u[i][j] == 0.0 && s.velocity.v[i][j] == 0.0 && s.temperature[i][j] == ObstacleTemperature
  }

  /** Every pass of the loop leaves the obstacle settled, whatever it started from. */
  lemma StepSettlesObstacle(s: State, p: Params, ext: Externals)
    requires Ready(p, ext) && WellShaped(s, p.nPoints)
    ensures ObstacleSettled(NextState(s, p, ext), p)
  {
    forall i, j | InGrid(p.nPoints, i, j) && Masked(p, i, j)
      ensures NextState(s, p, ext).velocity.u[i][j] == 0.0
      ensures NextState(s, p, ext).velocity.v[i][j] == 0.0
      ensures NextState(s, p, ext).temperature[i][j] == ObstacleTemperature
    {
      ObstacleEnforced(s, p, ext, i, j);
    }
  }

  /** Hence after one or more passes the obstacle is settled. */
  lemma {:induction false} SimulationSettlesObstacle(s: State, p: Params, ext: Externals, k: nat)
    requires Ready(p, ext) && WellShaped(s, p.nPoints) && k >= 1
    ensures ObstacleSettled(Simulate(s, p, ext, k), p)
  {
    StepSettlesObstacle(Simulate(s, p, ext, k - 1), p, ext);
  }

  /** Imposing the obstacle a second time changes nothing. */
  lemma EnforceObstacleIdempotent(v: VectorField, t: Field, p: Params)
    requires p.Valid() && IsVectorField(v, p.nPoints) && IsField(t, p.nPoints)
    ensures EnforceObstacleVelocity(EnforceObstacleVelocity(v, p), p) == EnforceObstacleVelocity(v, p)
    ensures EnforceObstacleTemperature(EnforceObstacleTemperature(t, p), p) == EnforceObstacleTemperature(t, p)
  {
    var n, w, r := p.nPoints, EnforceObstacleVelocity(v, p), EnforceObstacleTemperature(t, p);
    FieldsEqual(EnforceObstacleVelocity(w, p).u, w.u, n);
    FieldsEqual(EnforceObstacleVelocity(w, p).v, w.v, n);
    FieldsEqual(EnforceObstacleTemperature(r, p), r, n);
  }

  /** On a settled state the overwrites are no-ops. */
  lemma EnforceObstacleOnSettled(s: State, p: Params)
    requires p.Valid() && WellShaped(s, p.nPoints) && ObstacleSettled(s, p)
    ensures EnforceObstacleVelocity(s.velocity, p) == s.velocity
    ensures EnforceObstacleTemperature(s.temperature, p) == s.temperature
  {
    var n := p.nPoints;
    FieldsEqual(EnforceObstacleVelocity(s.velocity, p).u, s.velocity.u, n);
    FieldsEqual(EnforceObstacleVelocity(s.velocity, p).v, s.velocity.v, n);
    FieldsEqual(EnforceObstacleTemperature(s.temperature, p), s.temperature, n);
  }

  // ---------------------------------------------------------------------------
  // Forces and projection.

  /** Two explicit force updates add up: forces applied one after the other act
      as their sum. */
  lemma ApplyForcesAdditive(v: VectorField, f1: VectorField, e1: VectorField, f2: VectorField, e2: VectorField, p: Params)
    requires p.Valid() && IsVectorField(v, p.nPoints)
    requires IsVectorField(f1, p.nPoints) && IsVectorField(e1, p.nPoints)
    requires IsVectorField(f2, p.nPoints) && IsVectorField(e2, p.nPoints)
    ensures ApplyForces(ApplyForces(v, f1, e1, p), f2, e2, p)
         == ApplyForces(v, VAdd(f1, f2, p.nPoints), VAdd(e1, e2, p.nPoints), p)
  {
    var n, dt := p.nPoints, p.dt;
    var lhs, rhs := ApplyForces(ApplyForces(v, f1, e1, p), f2, e2, p), ApplyForces(v, VAdd(f1, f2, n), VAdd(e1, e2, n), p);
    forall i, j | InGrid(n, i, j)
      ensures lhs.u[i][j] == rhs.u[i][j] && lhs.v[i][j] == rhs.v[i][j]
    {
      ForceSum(v.u[i][j], f1.u[i][j], e1.u[i][j], f2.u[i][j], e2.u[i][j], dt);
      ForceSum(v.v[i][j], f1.v[i][j], e1.v[i][j], f2.v[i][j], e2.v[i][j], dt);
    }
    FieldsEqual(lhs.u, rhs.u, n);
    FieldsEqual(lhs.v, rhs.v, n);
  }

  lemma ForceSum(v: real, f1: real, e1: real, f2: real, e2: real, dt: real)
    ensures (v + dt * (f1 + e1)) + dt * (f2 + e2) == v + dt * ((f1 + f2) + (e1 + e2))
  {
  }

  /** Without forces the explicit update leaves the velocity alone. */
  lemma ApplyNoForces(v: VectorField, p: Params)
    requires p.Valid() && IsVectorField(v, p.nPoints)
    ensures ApplyForces(v, ZeroVector(p.nPoints), ZeroVector(p.nPoints), p) == v
  {
    var n := p.nPoints;
    var r := ApplyForces(v, ZeroVector(n), ZeroVector(n), p);
    FieldsEqual(r.u, v.u, n);
    FieldsEqual(r.v, v.v, n);
  }

  /** The projection leaves the boundary values alone: the pressure gradient is
      zero there. */
  lemma ProjectKeepsBoundary(v: VectorField, pressure: Field, p: Params, i: nat, j: nat)
    requires p.Valid() && IsVectorField(v, p.nPoints) && IsField(pressure, p.nPoints)
    requires InGrid(p.nPoints, i, j) && OnBoundary(p.nPoints, i, j)
    ensures Project(v, pressure, p).u[i][j] == v.u[i][j]
    ensures Project(v, pressure, p).v[i][j] == v.v[i][j]
  {
    CompositesVanishOnBoundary(pressure, v, p.nPoints, p.ElementLength(), i, j);
  }

  /** A constant pressure leaves the velocity alone everywhere. */
  lemma ProjectConstantPressure(v: VectorField, pressure: Field, p: Params, c: real)
    requires p.Valid() && IsVectorField(v, p.nPoints) && IsField(pressure, p.nPoints)
    requires IsConstant(pressure, p.nPoints, c)
    ensures Project(v, pressure, p) == v
  {
    var n := p.nPoints;
    GradientOfConstant(pressure, n, p.ElementLength(), c);
    FieldsEqual(Project(v, pressure, p).u, v.u, n);
    FieldsEqual(Project(v, pressure, p).v, v.v, n);
  }

  /** When the velocity solve is exact, an unmasked boundary point ends the pass
      with its advected velocity: diffusion and projection do not act there. */
  lemma BoundaryVelocityIsAdvected(s: State, p: Params, ext: Externals, i: nat, j: nat)
    requires Ready(p, ext) && WellShaped(s, p.nPoints)
    requires DiffusionOperatorTurbulent(DiffusedVelocity(s, p, ext), p, ext.sqrt) == AdvectedVelocity(s, p, ext)
    requires InGrid(p.nPoints, i, j) && OnBoundary(p.nPoints, i, j) && !Masked(p, i, j)
    ensures NextState(s, p, ext).velocity.u[i][j] == AdvectedVelocity(s, p, ext).u[i][j]
    ensures NextState(s, p, ext).velocity.v[i][j] == AdvectedVelocity(s, p, ext).v[i][j]
  {
    TurbulentSolutionKeepsBoundary(DiffusedVelocity(s, p, ext), AdvectedVelocity(s, p, ext), p, ext.sqrt, i, j);
    ProjectKeepsBoundary(DiffusedVelocity(s, p, ext), Pressure(s, p, ext), p, i, j);
  }

  // ---------------------------------------------------------------------------
  // Time.

  /** Each pass advances the clock by exactly one time step. */
  lemma SimulationTime(s: State, p: Params, ext: Externals, k: nat)
    requires Ready(p, ext) && WellShaped(s, p.nPoints)
    ensures Simulate(s, p, ext, k).time == s.time + k as real * p.dt
  {
    SimulationClock(s, p, ext, k);
    ClockIsLinear(s.time, p.dt, k);
  }

  /** The clock after k increments of dt, counted one step at a time. */
  function Clock(t0: real, dt: real, k: nat): real {
    if k == 0 then t0 else Clock(t0, dt, k - 1) + dt
  }

  lemma {:induction false} SimulationClock(s: State, p: Params, ext: Externals, k: nat)
    requires Ready(p, ext) && WellShaped(s, p.nPoints)
    ensures Simulate(s, p, ext, k).time == Clock(s.time, p.dt, k)
  {
    if k > 0 {
      SimulationClock(s, p, ext, k - 1);
      SimulateStepTime(s, p, ext, k);
    }
  }

  lemma SimulateStepTime(s: State, p: Params, ext: Externals, k: nat)
    requires Ready(p, ext) && WellShaped(s, p.nPoints) && k > 0
    ensures Simulate(s, p, ext, k).time == Simulate(s, p, ext, k - 1).time + p.dt
  {
    var before := Simulate(s, p, ext, k - 1);
    assert Simulate(s, p, ext, k) == NextState(before, p, ext);
  }

  lemma {:induction false} ClockIsLinear(t0: real, dt: real, k: nat)
    ensures Clock(t0, dt, k) == t0 + k as real * dt
  {
    if k > 0 {
      ClockIsLinear(t0, dt, k - 1);
    }
  }

  /** The script's hundred passes of 0.1 end at t = 10. */
  lemma DefaultRunEndsAtTen(ext: Externals)
    requires Ready(Default(), ext)
    ensures Simulate(Initial(Default()), Default(), ext, TimeSteps).time == 10.0
  {
    SimulationTime(Initial(Default()), Default(), ext, TimeSteps);
  }
}
