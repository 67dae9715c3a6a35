/** Grid geometry, run parameters and the scalar / vector field containers.

    A scalar field is an n x n table of reals indexed [i][j], where i runs along x
    and j along y (the script builds its coordinates with "ij" meshgrid indexing,
    so point (i, j) sits at (i * h, j * h)). A vector field keeps its x and y
    components as two scalar fields: `u` is the script's `[..., 0]`, `v` its
    `[..., 1]`. */
module Fields {

  type Field = seq<seq<real>>

  datatype VectorField = VectorField(u: Field, v: Field)

  /** The module-level constants of the script, passed explicitly. */
  datatype Params = Params(
    domainSize: real,   // DOMAIN_SIZE
    nPoints: nat,       // N_POINTS
    dt: real,           // TIME_STEP_LENGTH
    nu: real,           // KINEMATIC_VISCOSITY
    kappa: real,        // TEMPERATURE_DIFFUSIVITY
    cs: real            // SMAGORINSKY_CONSTANT
  ) {
    /** What the script needs of its constants: a spacing it can divide by. */
    predicate Valid() {
      nPoints >= 2 && domainSize > 0.0
    }

    /** `element_length`, the uniform grid spacing. */
    function ElementLength(): (h: real)
      requires Valid()
      ensures h > 0.0
      ensures (nPoints - 1) as real * h == domainSize
    {
      domainSize / (nPoints - 1) as real
    }

    /** The coordinate of grid line k: the k-th entry of `np.linspace(0, DOMAIN_SIZE, N_POINTS)`. */
    function Coord(k: nat): (c: real)
      requires Valid()
      ensures c >= 0.0
      ensures k == 0 ==> c == 0.0
      ensures k < nPoints ==> c <= domainSize
      ensures k == nPoints - 1 ==> c == domainSize
    {
      var h := ElementLength();
      ScaleMonotone(k as real, (nPoints - 1) as real, h);
      k as real * h
    }
  }

  /** The constants the script runs with. */
  function Default(): (p: Params)
    ensures p.Valid()
  {
    Params(1.0, 41, 0.1, 0.0001, 0.0001, 0.1)
  }

  /** The number of time steps of the main loop, N_TIME_STEPS. */
  const TimeSteps: nat := 100

  predicate IsField(f: Field, n: nat) {
    |f| == n && forall i :: 0 <= i < n ==> |f[i]| == n
  }

  predicate IsVectorField(w: VectorField, n: nat) {
    IsField(w.u, n) && IsField(w.v, n)
  }

  /** The index range `[1:-1, 1:-1]` that the stencils write. */
  predicate Interior(n: nat, i: int, j: int) {
    1 <= i < n - 1 && 1 <= j < n - 1
  }

  /** A grid point in row or column 0 or n - 1. */
  predicate OnBoundary(n: nat, i: int, j: int) {
    i == 0 || i == n - 1 || j == 0 || j == n - 1
  }

  predicate InGrid(n: nat, i: int, j: int) {
    0 <= i < n && 0 <= j < n
  }

  /** A field holding the same value everywhere (`np.zeros` when c is 0). */
  function Constant(n: nat, c: real): (r: Field)
    ensures IsField(r, n)
  {
    seq(n, i => seq(n, j => c))
  }

  function ZeroVector(n: nat): (r: VectorField)
    ensures IsVectorField(r, n)
  {
    VectorField(Constant(n, 0.0), Constant(n, 0.0))
  }

  ghost predicate IsConstant(f: Field, n: nat, c: real)
    requires IsField(f, n)
  {
    forall i, j :: InGrid(n, i, j) ==> f[i][j] == c
  }

  /** `x**2`. */
  function Square(x: real): (r: real)
    ensures r >= 0.0
  {
    x * x
  }

  // Pointwise arithmetic, the whole-array expressions of numpy.

  function Add(f: Field, g: Field, n: nat): (r: Field)
    requires IsField(f, n) && IsField(g, n)
    ensures IsField(r, n)
  {
    seq(n, i requires 0 <= i < n => seq(n, j requires 0 <= j < n => f[i][j] + g[i][j]))
  }

  function Sub(f: Field, g: Field, n: nat): (r: Field)
    requires IsField(f, n) && IsField(g, n)
    ensures IsField(r, n)
  {
    seq(n, i requires 0 <= i < n => seq(n, j requires 0 <= j < n => f[i][j] - g[i][j]))
  }

  function Scale(c: real, f: Field, n: nat): (r: Field)
    requires IsField(f, n)
    ensures IsField(r, n)
  {
    seq(n, i requires 0 <= i < n => seq(n, j requires 0 <= j < n => c * f[i][j]))
  }

  /** Pointwise product of two fields. */
  function Mul(f: Field, g: Field, n: nat): (r: Field)
    requires IsField(f, n) && IsField(g, n)
    ensures IsField(r, n)
  {
    seq(n, i requires 0 <= i < n => seq(n, j requires 0 <= j < n => f[i][j] * g[i][j]))
  }

  function VAdd(a: VectorField, b: VectorField, n: nat): (r: VectorField)
    requires IsVectorField(a, n) && IsVectorField(b, n)
    ensures IsVectorField(r, n)
  {
    VectorField(Add(a.u, b.u, n), Add(a.v, b.v, n))
  }

  function VSub(a: VectorField, b: VectorField, n: nat): (r: VectorField)
    requires IsVectorField(a, n) && IsVectorField(b, n)
    ensures IsVectorField(r, n)
  {
    VectorField(Sub(a.u, b.u, n), Sub(a.v, b.v, n))
  }

  function VScale(c: real, a: VectorField, n: nat): (r: VectorField)
    requires IsVectorField(a, n)
    ensures IsVectorField(r, n)
  {
    VectorField(Scale(c, a.u, n), Scale(c, a.v, n))
  }

  /** Component k of a vector field, the script's `vector_field[..., k]`. */
  function Component(w: VectorField, k: nat): Field
    requires k < 2
  {
    if k == 0 then w.u else w.v
  }

  /** Two fields of the same shape are equal when they agree at every point. */
  lemma FieldsEqual(f: Field, g: Field, n: nat)
    requires IsField(f, n) && IsField(g, n)
    requires forall i, j :: InGrid(n, i, j) ==> f[i][j] == g[i][j]
    ensures f == g
  {
    forall i | 0 <= i < n
      ensures f[i] == g[i]
    {
      assert forall j :: 0 <= j < n ==> f[i][j] == g[i][j];
    }
  }

  // The array views of the imperative code.

  /** The values held by a square 2-D array. */
  function FieldOf(a: array2<real>): (r: Field)
    reads a
    requires a.Length0 == a.Length1
    ensures IsField(r, a.Length0)
  {
    seq(a.Length0, i requires 0 <= i < a.Length0 reads a =>
      seq(a.Length1, j requires 0 <= j < a.Length1 reads a => a[i, j]))
  }

  /** The values held by an (n, n, 2) array, the script's `vector_shape`. */
  function VectorFieldOf(a: array3<real>): (r: VectorField)
    reads a
    requires a.Length0 == a.Length1 && a.Length2 == 2
    ensures IsVectorField(r, a.Length0)
  {
    VectorField(
      seq(a.Length0, i requires 0 <= i < a.Length0 reads a =>
        seq(a.Length1, j requires 0 <= j < a.Length1 reads a => a[i, j, 0])),
      seq(a.Length0, i requires 0 <= i < a.Length0 reads a =>
        seq(a.Length1, j requires 0 <= j < a.Length1 reads a => a[i, j, 1])))
  }

  /** Scaling by a non-negative factor keeps signs and order. */
  lemma ScaleMonotone(a: real, b: real, h: real)
    requires a >= 0.0 && h >= 0.0
    ensures a * h >= 0.0
    ensures a <= b ==> a * h <= b * h
  {
    if a <= b {
      assert b * h - a * h == (b - a) * h;
    }
  }

  /** The spacing of the script's constants is 1/40. */
  lemma DefaultElementLength()
    ensures Default().ElementLength() == 0.025
  {
  }
}
