/** The Smagorinsky closure: `compute_strain_rate` and
    `compute_turbulent_viscosity`, plus the effective viscosity that
    `diffusion_operator_turbulent` builds from it.

    The square root is not modelled: it is a parameter, constrained only
    where a property needs it (IsSqrt, or only sqrt(0) = 0). */
module Turbulence {
  import opened Fields
  import opened Stencils

  /** What the properties below need of `np.sqrt` on non-negative arguments. */
  ghost predicate IsSqrt(sqrt: real -> real) {
    sqrt(0.0) == 0.0 &&
    forall x :: x >= 0.0 ==> sqrt(x) >= 0.0 && Square(sqrt(x)) == x
  }

  /** The quantity under the square root of `compute_strain_rate`:
      2 (S11^2 + S22^2 + 2 S12^2), with S11 = du/dx, S22 = dv/dy and
      S12 = (du/dy + dv/dx) / 2. */
  function SquaredStrainMagnitude(w: VectorField, n: nat, h: real): (r: Field)
    requires IsVectorField(w, n) && h != 0.0
    ensures IsField(r, n)
  {
    var duDx, dvDy := PartialX(w.u, n, h), PartialY(w.v, n, h);
    var duDy, dvDx := PartialY(w.u, n, h), PartialX(w.v, n, h);
    seq(n, i requires 0 <= i < n => seq(n, j requires 0 <= j < n =>
      2.0 * (Square(duDx[i][j]) + Square(dvDy[i][j]) + 2.0 * Square(0.5 * (duDy[i][j] + dvDx[i][j])))))
  }

  /** `compute_strain_rate`: |S| = sqrt(2 S_ij S_ij). */
  function StrainRate(w: VectorField, n: nat, h: real, sqrt: real -> real): (r: Field)
    requires IsVectorField(w, n) && h != 0.0
    ensures IsField(r, n)
  {
    var m := SquaredStrainMagnitude(w, n, h);
    seq(n, i requires 0 <= i < n => seq(n, j requires 0 <= j < n => sqrt(m[i][j])))
  }

  /** `compute_turbulent_viscosity`: (C_s h)^2 |S|. */
  function TurbulentViscosity(w: VectorField, p: Params, sqrt: real -> real): (r: Field)
    requires p.Valid() && IsVectorField(w, p.nPoints)
    ensures IsField(r, p.nPoints)
  {
    var h := p.ElementLength();
    Scale(Square(p.cs * h), StrainRate(w, p.nPoints, h, sqrt), p.nPoints)
  }

  /** `KINEMATIC_VISCOSITY + turbulent_viscosity`. */
  function EffectiveViscosity(w: VectorField, p: Params, sqrt: real -> real): (r: Field)
    requires p.Valid() && IsVectorField(w, p.nPoints)
    ensures IsField(r, p.nPoints)
  {
    var nuT := TurbulentViscosity(w, p, sqrt);
    seq(p.nPoints, i requires 0 <= i < p.nPoints => seq(p.nPoints, j requires 0 <= j < p.nPoints =>
      p.nu + nuT[i][j]))
  }

  /** The argument handed to the square root is never negative, for every velocity field. */
  lemma SquaredStrainNonnegative(w: VectorField, n: nat, h: real, i: nat, j: nat)
    requires IsVectorField(w, n) && h != 0.0 && InGrid(n, i, j)
    ensures SquaredStrainMagnitude(w, n, h)[i][j] >= 0.0
  {
  }

  /** The strain rate, hence the turbulent viscosity, is zero at the boundary,
      so the effective viscosity there is the molecular one. */
  lemma StrainVanishesOnBoundary(w: VectorField, p: Params, sqrt: real -> real, i: nat, j: nat)
    requires p.Valid() && IsVectorField(w, p.nPoints) && sqrt(0.0) == 0.0
    requires InGrid(p.nPoints, i, j) && OnBoundary(p.nPoints, i, j)
    ensures SquaredStrainMagnitude(w, p.nPoints, p.ElementLength())[i][j] == 0.0
    ensures StrainRate(w, p.nPoints, p.ElementLength(), sqrt)[i][j] == 0.0
    ensures TurbulentViscosity(w, p, sqrt)[i][j] == 0.0
    ensures EffectiveViscosity(w, p, sqrt)[i][j] == p.nu
  {
    var n, h := p.nPoints, p.ElementLength();
    StencilsVanishOnBoundary(w.u, n, h, i, j);
    StencilsVanishOnBoundary(w.v, n, h, i, j);
    assert Square(0.5 * (0.0 + 0.0)) == 0.0;
  }

  /** With a genuine square root the turbulent viscosity is never negative,
      so the effective viscosity never drops below the molecular one. */
  lemma TurbulentViscosityNonnegative(w: VectorField, p: Params, sqrt: real -> real, i: nat, j: nat)
    requires p.Valid() && IsVectorField(w, p.nPoints) && IsSqrt(sqrt)
    requires InGrid(p.nPoints, i, j)
    ensures StrainRate(w, p.nPoints, p.ElementLength(), sqrt)[i][j] >= 0.0
    ensures TurbulentViscosity(w, p, sqrt)[i][j] >= 0.0
    ensures EffectiveViscosity(w, p, sqrt)[i][j] >= p.nu
  {
    var n, h := p.nPoints, p.ElementLength();
    var m := SquaredStrainMagnitude(w, n, h)[i][j];
    SquaredStrainNonnegative(w, n, h, i, j);
    var s := sqrt(m);
    assert s >= 0.0;
    NonnegativeProduct(Square(p.cs * h), s);
  }

  lemma NonnegativeProduct(a: real, b: real)
    requires a >= 0.0 && b >= 0.0
    ensures a * b >= 0.0
  {
  }

  /** A uniform flow (both components constant) carries no strain: the
      effective viscosity is the molecular viscosity everywhere. */
  lemma UniformFlowHasNoStrain(w: VectorField, p: Params, sqrt: real -> real, cu: real, cv: real)
    requires p.Valid() && IsVectorField(w, p.nPoints) && sqrt(0.0) == 0.0
    requires IsConstant(w.u, p.nPoints, cu) && IsConstant(w.v, p.nPoints, cv)
    ensures SquaredStrainMagnitude(w, p.nPoints, p.ElementLength()) == Constant(p.nPoints, 0.0)
    ensures EffectiveViscosity(w, p, sqrt) == Constant(p.nPoints, p.nu)
  {
    var n, h := p.nPoints, p.ElementLength();
    StencilsVanishOnConstant(w.u, n, h, cu);
    StencilsVanishOnConstant(w.v, n, h, cv);
    var m := SquaredStrainMagnitude(w, n, h);
    forall i, j | InGrid(n, i, j)
      ensures m[i][j] == 0.0
    {
      assert PartialX(w.u, n, h)[i][j] == 0.0 && PartialY(w.v, n, h)[i][j] == 0.0;
      assert PartialY(w.u, n, h)[i][j] == 0.0 && PartialX(w.v, n, h)[i][j] == 0.0;
      assert Square(0.0) == 0.0 && Square(0.5 * (0.0 + 0.0)) == 0.0;
    }
    FieldsEqual(m, Constant(n, 0.0), n);
    var nuEff := EffectiveViscosity(w, p, sqrt);
    forall i, j | InGrid(n, i, j)
      ensures nuEff[i][j] == p.nu
    {
      assert StrainRate(w, n, h, sqrt)[i][j] == sqrt(m[i][j]) == 0.0;
    }
    FieldsEqual(nuEff, Constant(n, p.nu), n);
  }

  /** A rigid rotation u = -omega y, v = omega x (plus any uniform drift)
      has zero strain at every interior point: the stencils see its
      antisymmetric velocity gradient exactly. */
  lemma RigidRotationHasNoStrain(w: VectorField, n: nat, h: real, u0: real, v0: real, omega: real, i: nat, j: nat)
    requires IsVectorField(w, n) && h != 0.0
    requires IsAffine(w.u, n, h, u0, 0.0, -omega) && IsAffine(w.v, n, h, v0, omega, 0.0)
    requires Interior(n, i, j)
    ensures SquaredStrainMagnitude(w, n, h)[i][j] == 0.0
  {
    StencilsExactOnAffine(w.u, n, h, u0, 0.0, -omega, i, j);
    StencilsExactOnAffine(w.v, n, h, v0, omega, 0.0, i, j);
    assert Square(0.0) == 0.0 && Square(0.5 * (-omega + omega)) == 0.0;
  }
}
