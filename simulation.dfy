/** The time loop of `main()` as the script runs it: `time_current`,
    `velocities_prev` and `temperature_prev` are updated pass after pass, and
    the obstacle is imposed by overwriting the masked entries of the freshly
    computed arrays in place. Each pass is proved to be `NextState` of the
    state it started from. */
module Simulation {
  import opened Fields
  import opened Forces
  import opened Integrator

  /** A new n x n array holding the values of f. */
  method NewField(f: Field, n: nat) returns (a: array2<real>)
    requires IsField(f, n)
    ensures fresh(a) && a.Length0 == n && a.Length1 == n
    ensures FieldOf(a) == f
  {
    a := new real[n, n]((i, j) requires 0 <= i < n && 0 <= j < n => f[i][j]);
    FieldsEqual(FieldOf(a), f, n);
  }

  /** A new (n, n, 2) array holding the two components of w. */
  method NewVectorField(w: VectorField, n: nat) returns (a: array3<real>)
    requires IsVectorField(w, n)
    ensures fresh(a) && a.Length0 == n && a.Length1 == n && a.Length2 == 2
    ensures VectorFieldOf(a) == w
  {
    a := new real[n, n, 2]((i, j, k) requires 0 <= i < n && 0 <= j < n && 0 <= k < 2 =>
      if k == 0 then w.u[i][j] else w.v[i][j]);
    FieldsEqual(VectorFieldOf(a).u, w.u, n);
    FieldsEqual(VectorFieldOf(a).v, w.v, n);
  }

  /** `velocities_projected[obstacle_mask, :] = 0`, in place. */
  method MaskVelocities(a: array3<real>, p: Params)
    requires p.Valid() && a.Length0 == p.nPoints && a.Length1 == p.nPoints && a.Length2 == 2
    modifies a
    ensures VectorFieldOf(a) == EnforceObstacleVelocity(old(VectorFieldOf(a)), p)
  {
    var n := p.nPoints;
    ghost var before := VectorFieldOf(a);
    var i := 0;
    while i < n
      invariant 0 <= i <= n
      invariant forall k, l, c :: 0 <= k < i && 0 <= l < n && 0 <= c < 2 ==>
        a[k, l, c] == if Masked(p, k, l) then 0.0 else Component(before, c)[k][l]
      invariant forall k, l, c :: i <= k < n && 0 <= l < n && 0 <= c < 2 ==>
        a[k, l, c] == Component(before, c)[k][l]
    {
      var j := 0;
      while j < n
        invariant 0 <= j <= n
        invariant forall k, l, c :: 0 <= k < i && 0 <= l < n && 0 <= c < 2 ==>
          a[k, l, c] == if Masked(p, k, l) then 0.0 else Component(before, c)[k][l]
        invariant forall l, c :: 0 <= l < j && 0 <= c < 2 ==>
          a[i, l, c] == if Masked(p, i, l) then 0.0 else Component(before, c)[i][l]
        invariant forall k, l, c :: i <= k < n && 0 <= l < n && 0 <= c < 2 && (k > i || l >= j) ==>
          a[k, l, c] == Component(before, c)[k][l]
      {
        if Masked(p, i, j) {
          a[i, j, 0] := 0.0;
          a[i, j, 1] := 0.0;
        }
        j := j + 1;
      }
      i := i + 1;
    }
    var masked := EnforceObstacleVelocity(before, p);
    forall k, l | InGrid(n, k, l)
      ensures VectorFieldOf(a).u[k][l] == masked.u[k][l] && VectorFieldOf(a).v[k][l] == masked.v[k][l]
    {
      assert a[k, l, 0] == if Masked(p, k, l) then 0.0 else Component(before, 0)[k][l];
      assert a[k, l, 1] == if Masked(p, k, l) then 0.0 else Component(before, 1)[k][l];
    }
    FieldsEqual(VectorFieldOf(a).u, masked.u, n);
    FieldsEqual(VectorFieldOf(a).v, masked.v, n);
  }

  /** `temperature_prev[obstacle_mask] = 0.5`, in place. */
  method MaskTemperature(a: array2<real>, p: Params)
    requires p.Valid() && a.Length0 == p.nPoints && a.Length1 == p.nPoints
    modifies a
    ensures FieldOf(a) == EnforceObstacleTemperature(old(FieldOf(a)), p)
  {
    var n := p.nPoints;
    ghost var before := FieldOf(a);
    var i := 0;
    while i < n
      invariant 0 <= i <= n
      invariant forall k, l :: 0 <= k < i && 0 <= l < n ==>
        a[k, l] == if Masked(p, k, l) then ObstacleTemperature else before[k][l]
      invariant forall k, l :: i <= k < n && 0 <= l < n ==> a[k, l] == before[k][l]
    {
      var j := 0;
      while j < n
        invariant 0 <= j <= n
        invariant forall k, l :: 0 <= k < i && 0 <= l < n ==>
          a[k, l] == if Masked(p, k, l) then ObstacleTemperature else before[k][l]
        invariant forall l :: 0 <= l < j ==>
          a[i, l] == if Masked(p, i, l) then ObstacleTemperature else before[i][l]
        invariant forall k, l :: i <= k < n && 0 <= l < n && (k > i || l >= j) ==> a[k, l] == before[k][l]
      {
        if Masked(p, i, j) {
          a[i, j] := ObstacleTemperature;
        }
        j := j + 1;
      }
      i := i + 1;
    }
    FieldsEqual(FieldOf(a), EnforceObstacleTemperature(before, p), n);
  }

  /** The variables of `main()` that the loop updates. */
  class Simulation {
    const p: Params
    const ext: Externals
    var time: real                  // time_current
    var velocities: array3<real>    // velocities_prev
    var temperature: array2<real>   // temperature_prev

    predicate Shaped()
      reads this
    {
      velocities.Length0 == p.nPoints && velocities.Length1 == p.nPoints && velocities.Length2 == 2 &&
      temperature.Length0 == p.nPoints && temperature.Length1 == p.nPoints
    }

    ghost predicate Valid()
      reads this
    {
      Ready(p, ext) && Shaped()
    }

    /** The values the loop carries. */
    function Current(): (s: State)
      reads this, velocities, temperature
      requires Shaped()
      ensures WellShaped(s, p.nPoints)
    {
      State(time, VectorFieldOf(velocities), FieldOf(temperature))
    }

    /** The set-up before the loop: zero velocity and temperature, time 0. */
    constructor(p: Params, ext: Externals)
      requires Ready(p, ext)
      ensures Valid() && this.p == p && this.ext == ext
      ensures Current() == Initial(p)
    {
      var n := p.nPoints;
      this.p := p;
      this.ext := ext;
      time := 0.0;
      velocities := new real[n, n, 2]((i, j, k) => 0.0);
      temperature := new real[n, n]((i, j) => 0.0);
      new;
      FieldsEqual(VectorFieldOf(velocities).u, Constant(n, 0.0), n);
      FieldsEqual(VectorFieldOf(velocities).v, Constant(n, 0.0), n);
      FieldsEqual(FieldOf(temperature), Constant(n, 0.0), n);
    }

    /** One pass of the loop body. */
    method Step()
      requires Valid()
      modifies this
      ensures Valid()
      ensures Current() == NextState(old(Current()), p, ext)
    {
      var n := p.nPoints;
      var s := Current();
      time := time + p.dt;
      var projected := NewVectorField(ProjectedVelocity(s, p, ext), n);
      MaskVelocities(projected, p);
      var heated := TemperatureStep(s.temperature, VectorFieldOf(projected), TemperatureSource(p, ext.math), p, ext);
      var next := NewField(heated, n);
      MaskTemperature(next, p);
      temperature := next;
      velocities := projected;
    }

    /** k passes of the loop. */
    method Run(k: nat)
      requires Valid()
      modifies this
      ensures Valid()
      ensures Current() == Simulate(old(Current()), p, ext, k)
    {
      ghost var start := Current();
      for m := 0 to k
        invariant Valid()
        invariant Current() == Simulate(start, p, ext, m)
      {
        Step();
      }
    }
  }

  /** `main()` without its plots: the script's constants, N_TIME_STEPS passes. */
  method RunScript(ext: Externals) returns (sim: Simulation)
    requires Ready(Default(), ext)
    ensures sim.Valid() && sim.p == Default()
    ensures sim.Current() == Simulate(Initial(Default()), Default(), ext, TimeSteps)
    ensures sim.time == 10.0
    ensures ObstacleSettled(sim.Current(), Default())
  {
    sim := new Simulation(Default(), ext);
    sim.Run(TimeSteps);
    DefaultRunEndsAtTen(ext);
    SimulationSettlesObstacle(Initial(Default()), Default(), ext, TimeSteps);
  }
}
