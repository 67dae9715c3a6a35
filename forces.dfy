/** The force and source generators of the script: `forcing_function`, the
    oscillating `external_force`, the circular obstacle mask and the Gaussian
    temperature source. Points are grid coordinates (x, y) = (i h, j h).

    `np.sin`, `np.exp` and `np.pi` are not modelled: they are the fields of a
    `Math` record handed in by the caller, constrained only where a property
    needs it. */
module Forces {
  import opened Fields

  /** The transcendental functions the generators call. */
  datatype Math = Math(sin: real -> real, exp: real -> real, pi: real)

  /** `time_decay`: np.maximum(2 - 0.5 t, 0). */
  function TimeDecay(t: real): (d: real)
    ensures d >= 0.0 && d >= 2.0 - 0.5 * t
    ensures d == 2.0 - 0.5 * t || d == 0.0
  {
    if 2.0 - 0.5 * t >= 0.0 then 2.0 - 0.5 * t else 0.0
  }

  /** The open rectangle (0.4, 0.6) x (0.1, 0.3) in which the jet is forced. */
  predicate InForcingRegion(x: real, y: real) {
    x > 0.4 && x < 0.6 && y > 0.1 && y < 0.3
  }

  /** `forcing_function(time, point)`: the decay times the selected vector
      (0, 1) inside the rectangle or (0, 0) outside it. */
  function ForcingFunction(t: real, x: real, y: real): (f: (real, real))
    ensures f.0 == 0.0
    ensures f.1 >= 0.0
    ensures f.1 > 0.0 <==> InForcingRegion(x, y) && t < 4.0
  {
    var selected := if InForcingRegion(x, y) then (0.0, 1.0) else (0.0, 0.0);
    (TimeDecay(t) * selected.0, TimeDecay(t) * selected.1)
  }

  /** Inside the rectangle the y-component is the decay itself; outside, zero. */
  lemma ForcingValue(t: real, x: real, y: real)
    ensures InForcingRegion(x, y) ==> ForcingFunction(t, x, y) == (0.0, if t <= 4.0 then 2.0 - 0.5 * t else 0.0)
    ensures !InForcingRegion(x, y) ==> ForcingFunction(t, x, y) == (0.0, 0.0)
  {
  }

  /** From t = 4 on, the forcing is switched off everywhere. */
  lemma ForcingSwitchedOff(t: real, x: real, y: real)
    requires t >= 4.0
    ensures ForcingFunction(t, x, y) == (0.0, 0.0)
  {
  }

  /** The y-component never exceeds the initial strength 2 for t >= 0, and
      decreases with time at every point. */
  lemma ForcingDecays(t1: real, t2: real, x: real, y: real)
    requires 0.0 <= t1 <= t2
    ensures ForcingFunction(t2, x, y).1 <= ForcingFunction(t1, x, y).1 <= 2.0
  {
  }

  /** At the first forcing time of the loop (t = dt = 0.1) a forced point gets 1.95. */
  lemma ForcingAtFirstStep(x: real, y: real)
    requires InForcingRegion(x, y)
    ensures ForcingFunction(Default().dt, x, y) == (0.0, 1.95)
  {
  }

  /** `forcing_function_vectorized(time, coordinates)`: the forcing at every grid point. */
  function ForcingField(t: real, p: Params): (r: VectorField)
    requires p.Valid()
    ensures IsVectorField(r, p.nPoints)
  {
    var n := p.nPoints;
    VectorField(
      seq(n, i requires 0 <= i < n => seq(n, j requires 0 <= j < n => ForcingFunction(t, p.Coord(i), p.Coord(j)).0)),
      seq(n, i requires 0 <= i < n => seq(n, j requires 0 <= j < n => ForcingFunction(t, p.Coord(i), p.Coord(j)).1)))
  }

  /** The forcing field never pushes along x, and is the zero field from t = 4 on. */
  lemma ForcingFieldShape(t: real, p: Params)
    requires p.Valid()
    ensures ForcingField(t, p).u == Constant(p.nPoints, 0.0)
    ensures t >= 4.0 ==> ForcingField(t, p) == ZeroVector(p.nPoints)
  {
    var n, f := p.nPoints, ForcingField(t, p);
    FieldsEqual(f.u, Constant(n, 0.0), n);
    if t >= 4.0 {
      forall i, j | InGrid(n, i, j)
        ensures f.v[i][j] == 0.0
      {
        ForcingSwitchedOff(t, p.Coord(i), p.Coord(j));
      }
      FieldsEqual(f.v, Constant(n, 0.0), n);
    }
  }

  /** `external_force(time, coordinates)`: x-component 0.1 sin(2 pi y), y-component
      -0.1 sin(2 pi t / 10). */
  function ExternalForce(t: real, p: Params, m: Math): (r: VectorField)
    requires p.Valid()
    ensures IsVectorField(r, p.nPoints)
  {
    var n := p.nPoints;
    var forceY := -0.1 * m.sin(2.0 * m.pi * t / 10.0);
    VectorField(
      seq(n, i requires 0 <= i < n => seq(n, j requires 0 <= j < n => 0.1 * m.sin(2.0 * m.pi * p.Coord(j)))),
      seq(n, i requires 0 <= i < n => seq(n, j requires 0 <= j < n => forceY)))
  }

  /** The y-component of the external force is the same at every grid point. */
  lemma ExternalForceYIsUniform(t: real, p: Params, m: Math, i1: nat, j1: nat, i2: nat, j2: nat)
    requires p.Valid() && InGrid(p.nPoints, i1, j1) && InGrid(p.nPoints, i2, j2)
    ensures ExternalForce(t, p, m).v[i1][j1] == ExternalForce(t, p, m).v[i2][j2]
  {
  }

  /** The x-component of the external force does not depend on time, nor on the
      point's x coordinate: only on its y coordinate. */
  lemma ExternalForceXDependsOnlyOnY(t1: real, t2: real, p: Params, m: Math, i1: nat, i2: nat, j: nat)
    requires p.Valid() && InGrid(p.nPoints, i1, j) && InGrid(p.nPoints, i2, j)
    ensures ExternalForce(t1, p, m).u == ExternalForce(t2, p, m).u
    ensures ExternalForce(t1, p, m).u[i1][j] == ExternalForce(t2, p, m).u[i2][j]
  {
  }

  /** What the bound below needs of `np.sin`. */
  ghost predicate SinBounded(m: Math) {
    forall x :: -1.0 <= m.sin(x) <= 1.0
  }

  /** With a sine bounded by 1, both components of the external force are bounded by 0.1. */
  lemma ExternalForceBounded(t: real, p: Params, m: Math, i: nat, j: nat)
    requires p.Valid() && SinBounded(m) && InGrid(p.nPoints, i, j)
    ensures -0.1 <= ExternalForce(t, p, m).u[i][j] <= 0.1
    ensures -0.1 <= ExternalForce(t, p, m).v[i][j] <= 0.1
  {
    var w := ExternalForce(t, p, m);
    assert -1.0 <= m.sin(2.0 * m.pi * p.Coord(j)) <= 1.0;
    assert -1.0 <= m.sin(2.0 * m.pi * t / 10.0) <= 1.0;
  }

  // ---------------------------------------------------------------------------
  // The obstacle.

  /** `(X - 0.5)**2 + (Y - 0.5)**2 < obstacle_radius**2` with radius 0.1. */
  predicate InObstacle(x: real, y: real) {
    Square(x - 0.5) + Square(y - 0.5) < Square(0.1)
  }

  /** `obstacle_mask[i, j]`; a masked point lies near the centre of the domain. */
  predicate Masked(p: Params, i: nat, j: nat): (b: bool)
    requires p.Valid()
    ensures b ==> 0.4 < p.Coord(i) < 0.6 && 0.4 < p.Coord(j) < 0.6
  {
    if InObstacle(p.Coord(i), p.Coord(j)) then
      ObstacleNearCentre(p.Coord(i), p.Coord(j));
      true
    else
      false
  }

  /** A square below 0.01 is that of a number strictly between -0.1 and 0.1. */
  lemma SmallSquare(d: real)
    requires Square(d) < Square(0.1)
    ensures -0.1 < d < 0.1
  {
  }

  /** Every point of the obstacle lies in the open square (0.4, 0.6) x (0.4, 0.6). */
  lemma ObstacleNearCentre(x: real, y: real)
    requires InObstacle(x, y)
    ensures 0.4 < x < 0.6 && 0.4 < y < 0.6
  {
    SmallSquare(x - 0.5);
    SmallSquare(y - 0.5);
  }

  /** For a domain that reaches past the obstacle, no boundary point is masked,
      so the mask never overwrites the zero boundary layer of the stencils. */
  lemma BoundaryUnmasked(p: Params, i: nat, j: nat)
    requires p.Valid() && p.domainSize >= 0.6
    requires InGrid(p.nPoints, i, j) && OnBoundary(p.nPoints, i, j)
    ensures !Masked(p, i, j)
  {
    if Masked(p, i, j) {
      ObstacleNearCentre(p.Coord(i), p.Coord(j));
    }
  }

  /** The jet never touches the obstacle: the forcing is zero on every masked point. */
  lemma ForcingMissesObstacle(t: real, x: real, y: real)
    requires InObstacle(x, y)
    ensures ForcingFunction(t, x, y) == (0.0, 0.0)
  {
    ObstacleNearCentre(x, y);
  }

  /** With the script's constants the centre grid point (20, 20) = (0.5, 0.5) is
      masked and the corner (0, 0) is not. The points (16, 20) and (20, 16), at
      distance exactly 0.1, lie on the circle and are not masked. */
  lemma DefaultMaskSamples()
    ensures Masked(Default(), 20, 20)
    ensures !Masked(Default(), 0, 0)
    ensures !Masked(Default(), 16, 20) && !Masked(Default(), 20, 16)
  {
    DefaultElementLength();
    assert Default().Coord(20) == 0.5;
    assert Default().Coord(16) == 0.4;
  }

  // ---------------------------------------------------------------------------
  // The heat source.

  /** `temperature_source`: exp(-((X - 0.5)**2 + (Y - 0.5)**2) / 0.01). */
  function TemperatureSource(p: Params, m: Math): (r: Field)
    requires p.Valid()
    ensures IsField(r, p.nPoints)
  {
    var n := p.nPoints;
    seq(n, i requires 0 <= i < n => seq(n, j requires 0 <= j < n => m.exp(-(Square(p.Coord(i) - 0.5) + Square(p.Coord(j) - 0.5)) / 0.01)))
  }

  /** The source is radial: two grid points at the same distance from (0.5, 0.5)
      receive the same heat. */
  lemma TemperatureSourceRadial(p: Params, m: Math, i1: nat, j1: nat, i2: nat, j2: nat)
    requires p.Valid() && InGrid(p.nPoints, i1, j1) && InGrid(p.nPoints, i2, j2)
    requires Square(p.Coord(i1) - 0.5) + Square(p.Coord(j1) - 0.5)
          == Square(p.Coord(i2) - 0.5) + Square(p.Coord(j2) - 0.5)
    ensures TemperatureSource(p, m)[i1][j1] == TemperatureSource(p, m)[i2][j2]
  {
  }

  /** What the positivity below needs of `np.exp`. */
  ghost predicate ExpPositive(m: Math) {
    forall x :: m.exp(x) > 0.0
  }

  /** With a positive exponential, the source heats every grid point. */
  lemma TemperatureSourcePositive(p: Params, m: Math, i: nat, j: nat)
    requires p.Valid() && ExpPositive(m) && InGrid(p.nPoints, i, j)
    ensures TemperatureSource(p, m)[i][j] > 0.0
  {
    assert TemperatureSource(p, m)[i][j] == m.exp(-(Square(p.Coord(i) - 0.5) + Square(p.Coord(j) - 0.5)) / 0.01);
  }
}
