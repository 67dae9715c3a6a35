/** The semi-Lagrangian `advect`: every grid point is traced back along the
    velocity for one time step, the position is clipped into the domain, and
    the field is sampled there. The sampling (`interpolate.interpn`) is not
    modelled; it is a function handed in by the caller. */
module Advection {
  import opened Fields

  /** `np.clip(x, lo, hi)`. */
  function Clip(x: real, lo: real, hi: real): (r: real)
    requires lo <= hi
    ensures lo <= r <= hi
    ensures lo <= x <= hi ==> r == x
    ensures x < lo ==> r == lo
    ensures x > hi ==> r == hi
  {
    if x < lo then lo else if x > hi then hi else x
  }

  /** Clipping twice is clipping once. */
  lemma ClipIdempotent(x: real, lo: real, hi: real)
    requires lo <= hi
    ensures Clip(Clip(x, lo, hi), lo, hi) == Clip(x, lo, hi)
  {
  }

  /** Clipping keeps the order of its arguments. */
  lemma ClipMonotone(x: real, y: real, lo: real, hi: real)
    requires lo <= hi && x <= y
    ensures Clip(x, lo, hi) <= Clip(y, lo, hi)
  {
  }

  /** One unclipped coordinate of `coordinates - dt * vector_field`: grid line k
      moved back by one step of velocity component c. */
  function Departure(p: Params, k: nat, c: real): real
    requires p.Valid()
  {
    p.Coord(k) - p.dt * c
  }

  /** `backtraced_positions[i, j]`: clip(coordinates - dt * vector_field, 0, DOMAIN_SIZE). */
  function Backtrace(vel: VectorField, p: Params, i: nat, j: nat): (pos: (real, real))
    requires p.Valid() && IsVectorField(vel, p.nPoints) && InGrid(p.nPoints, i, j)
    ensures 0.0 <= pos.0 <= p.domainSize && 0.0 <= pos.1 <= p.domainSize
  {
    (Clip(Departure(p, i, vel.u[i][j]), 0.0, p.domainSize),
     Clip(Departure(p, j, vel.v[i][j]), 0.0, p.domainSize))
  }

  /** Where the fluid is at rest, the backtrace stays on the grid point itself. */
  lemma BacktraceAtRest(vel: VectorField, p: Params, i: nat, j: nat)
    requires p.Valid() && IsVectorField(vel, p.nPoints) && InGrid(p.nPoints, i, j)
    requires vel.u[i][j] == 0.0 && vel.v[i][j] == 0.0
    ensures Backtrace(vel, p, i, j) == (p.Coord(i), p.Coord(j))
  {
  }

  /** Inside the domain the backtrace is the unclipped upwind position. */
  lemma BacktraceUnclipped(vel: VectorField, p: Params, i: nat, j: nat)
    requires p.Valid() && IsVectorField(vel, p.nPoints) && InGrid(p.nPoints, i, j)
    requires 0.0 <= Departure(p, i, vel.u[i][j]) <= p.domainSize
    requires 0.0 <= Departure(p, j, vel.v[i][j]) <= p.domainSize
    ensures Backtrace(vel, p, i, j) == (Departure(p, i, vel.u[i][j]), Departure(p, j, vel.v[i][j]))
  {
  }

  /** `advect(field, vector_field)`: the field sampled at every backtraced position. */
  function Advect(f: Field, vel: VectorField, p: Params, interp: (Field, real, real) -> real): (r: Field)
    requires p.Valid() && IsField(f, p.nPoints) && IsVectorField(vel, p.nPoints)
    ensures IsField(r, p.nPoints)
  {
    var n := p.nPoints;
    seq(n, i requires 0 <= i < n => seq(n, j requires 0 <= j < n =>
      var pos := Backtrace(vel, p, i, j);
      interp(f, pos.0, pos.1)))
  }

  /** `advect` of a vector field: interpn samples both components at the same positions. */
  function AdvectVector(w: VectorField, vel: VectorField, p: Params, interp: (Field, real, real) -> real): (r: VectorField)
    requires p.Valid() && IsVectorField(w, p.nPoints) && IsVectorField(vel, p.nPoints)
    ensures IsVectorField(r, p.nPoints)
  {
    VectorField(Advect(w.u, vel, p, interp), Advect(w.v, vel, p, interp))
  }

  /** What the property below needs of `interpn`: at a grid node it returns the node's value. */
  ghost predicate ExactAtNodes(interp: (Field, real, real) -> real, p: Params)
    requires p.Valid()
  {
    forall f: Field, k: nat, l: nat :: IsField(f, p.nPoints) && InGrid(p.nPoints, k, l) ==>
      interp(f, p.Coord(k), p.Coord(l)) == f[k][l]
  }

  /** A fluid at rest carries nothing: advection by the zero velocity field
      returns the field unchanged. */
  lemma AdvectAtRest(f: Field, p: Params, interp: (Field, real, real) -> real)
    requires p.Valid() && IsField(f, p.nPoints) && ExactAtNodes(interp, p)
    ensures Advect(f, ZeroVector(p.nPoints), p, interp) == f
  {
    var n, vel := p.nPoints, ZeroVector(p.nPoints);
    var r := Advect(f, vel, p, interp);
    forall i, j | InGrid(n, i, j)
      ensures r[i][j] == f[i][j]
    {
      BacktraceAtRest(vel, p, i, j);
    }
    FieldsEqual(r, f, n);
  }

  /** The same for both components of a vector field. */
  lemma AdvectVectorAtRest(w: VectorField, p: Params, interp: (Field, real, real) -> real)
    requires p.Valid() && IsVectorField(w, p.nPoints) && ExactAtNodes(interp, p)
    ensures AdvectVector(w, ZeroVector(p.nPoints), p, interp) == w
  {
    AdvectAtRest(w.u, p, interp);
    AdvectAtRest(w.v, p, interp);
  }
}
