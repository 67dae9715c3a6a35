/** The operators that the script hands to the conjugate-gradient solver as
    `matvec` callbacks: implicit temperature diffusion, turbulent velocity
    diffusion, plain velocity diffusion and the pressure Poisson operator.
    The solver itself is outside this model; see Integrator. */
module Operators {
  import opened Fields
  import opened Stencils
  import opened Calculus
  import opened Turbulence

  /** `temperature_diffusion_operator`: T - kappa dt laplace(T). */
  function TemperatureDiffusionOperator(t: Field, p: Params): (r: Field)
    requires p.Valid() && IsField(t, p.nPoints)
    ensures IsField(r, p.nPoints)
  {
    Sub(t, Scale(ThermalFactor(p), Laplacian(t, p.nPoints, p.ElementLength()), p.nPoints), p.nPoints)
  }

  /** `TEMPERATURE_DIFFUSIVITY * TIME_STEP_LENGTH`, the weight of the implicit temperature diffusion. */
  function ThermalFactor(p: Params): real {
    p.kappa * p.dt
  }

  /** `KINEMATIC_VISCOSITY * TIME_STEP_LENGTH`, the weight of the implicit plain velocity diffusion. */
  function ViscousFactor(p: Params): real {
    p.nu * p.dt
  }

  /** `poisson_operator`: laplace(p). */
  function PoissonOperator(f: Field, p: Params): (r: Field)
    requires p.Valid() && IsField(f, p.nPoints)
    ensures IsField(r, p.nPoints)
  {
    Laplacian(f, p.nPoints, p.ElementLength())
  }

  /** `diffusion_operator` (defined by the script but not used by its loop):
      v - nu dt laplace(v), the Laplacian taken component by component. */
  function DiffusionOperator(w: VectorField, p: Params): (r: VectorField)
    requires p.Valid() && IsVectorField(w, p.nPoints)
    ensures IsVectorField(r, p.nPoints)
  {
    var n, h := p.nPoints, p.ElementLength();
    VectorField(
      Sub(w.u, Scale(ViscousFactor(p), Laplacian(w.u, n, h), n), n),
      Sub(w.v, Scale(ViscousFactor(p), Laplacian(w.v, n, h), n), n))
  }

  /** One component of `diffusion_operator_turbulent`:
      c - dt div(nu_eff grad c), where nu_eff multiplies both gradient components. */
  function TurbulentDiffusionOfComponent(c: Field, nuEff: Field, p: Params): (r: Field)
    requires p.Valid() && IsField(c, p.nPoints) && IsField(nuEff, p.nPoints)
    ensures IsField(r, p.nPoints)
  {
    var n, h := p.nPoints, p.ElementLength();
    var grad := Gradient(c, n, h);
    var flux := VectorField(Mul(nuEff, grad.u, n), Mul(nuEff, grad.v, n));
    Sub(c, Scale(p.dt, Divergence(flux, n, h), n), n)
  }

  /** `diffusion_operator_turbulent`: the effective viscosity is recomputed from
      the operator's own argument, so the operator is not linear in it. */
  function DiffusionOperatorTurbulent(w: VectorField, p: Params, sqrt: real -> real): (r: VectorField)
    requires p.Valid() && IsVectorField(w, p.nPoints)
    ensures IsVectorField(r, p.nPoints)
  {
    var nuEff := EffectiveViscosity(w, p, sqrt);
    VectorField(
      TurbulentDiffusionOfComponent(w.u, nuEff, p),
      TurbulentDiffusionOfComponent(w.v, nuEff, p))
  }

  /** `diffusion_operator_turbulent` as the script runs it: a zeroed result
      whose two components are filled by a loop over the component index. */
  method ApplyDiffusionOperatorTurbulent(w: VectorField, p: Params, sqrt: real -> real) returns (diffused: VectorField)
    requires p.Valid() && IsVectorField(w, p.nPoints)
    ensures diffused == DiffusionOperatorTurbulent(w, p, sqrt)
  {
    var n := p.nPoints;
    var nuEff := EffectiveViscosity(w, p, sqrt);
    var parts := [Constant(n, 0.0), Constant(n, 0.0)];
    for k := 0 to 2
      invariant |parts| == 2
      invariant forall m :: 0 <= m < k ==> parts[m] == TurbulentDiffusionOfComponent(Component(w, m), nuEff, p)
    {
      parts := parts[k := TurbulentDiffusionOfComponent(Component(w, k), nuEff, p)];
    }
    diffused := VectorField(parts[0], parts[1]);
  }

  // ---------------------------------------------------------------------------
  // Boundary behaviour: the Laplacian / divergence term vanishes there.

  /** At a boundary entry the temperature operator returns its input. */
  lemma TemperatureOperatorFixesBoundary(t: Field, p: Params, i: nat, j: nat)
    requires p.Valid() && IsField(t, p.nPoints)
    requires InGrid(p.nPoints, i, j) && OnBoundary(p.nPoints, i, j)
    ensures TemperatureDiffusionOperator(t, p)[i][j] == t[i][j]
  {
    StencilsVanishOnBoundary(t, p.nPoints, p.ElementLength(), i, j);
  }

  /** At a boundary entry the turbulent diffusion operator returns its input,
      whatever the square root is. */
  lemma TurbulentOperatorFixesBoundary(w: VectorField, p: Params, sqrt: real -> real, i: nat, j: nat)
    requires p.Valid() && IsVectorField(w, p.nPoints)
    requires InGrid(p.nPoints, i, j) && OnBoundary(p.nPoints, i, j)
    ensures DiffusionOperatorTurbulent(w, p, sqrt).u[i][j] == w.u[i][j]
    ensures DiffusionOperatorTurbulent(w, p, sqrt).v[i][j] == w.v[i][j]
  {
    var nuEff := EffectiveViscosity(w, p, sqrt);
    ComponentFixesBoundary(w.u, nuEff, p, i, j);
    ComponentFixesBoundary(w.v, nuEff, p, i, j);
  }

  lemma ComponentFixesBoundary(c: Field, nuEff: Field, p: Params, i: nat, j: nat)
    requires p.Valid() && IsField(c, p.nPoints) && IsField(nuEff, p.nPoints)
    requires InGrid(p.nPoints, i, j) && OnBoundary(p.nPoints, i, j)
    ensures TurbulentDiffusionOfComponent(c, nuEff, p)[i][j] == c[i][j]
  {
    var n, h := p.nPoints, p.ElementLength();
    var grad := Gradient(c, n, h);
    var flux := VectorField(Mul(nuEff, grad.u, n), Mul(nuEff, grad.v, n));
    CompositesVanishOnBoundary(c, flux, n, h, i, j);
  }

  /** At a boundary entry the plain diffusion operator returns its input. */
  lemma DiffusionOperatorFixesBoundary(w: VectorField, p: Params, i: nat, j: nat)
    requires p.Valid() && IsVectorField(w, p.nPoints)
    requires InGrid(p.nPoints, i, j) && OnBoundary(p.nPoints, i, j)
    ensures DiffusionOperator(w, p).u[i][j] == w.u[i][j]
    ensures DiffusionOperator(w, p).v[i][j] == w.v[i][j]
  {
    StencilsVanishOnBoundary(w.u, p.nPoints, p.ElementLength(), i, j);
    StencilsVanishOnBoundary(w.v, p.nPoints, p.ElementLength(), i, j);
  }

  /** The Poisson operator is zero at every boundary entry. */
  lemma PoissonOperatorVanishesOnBoundary(f: Field, p: Params, i: nat, j: nat)
    requires p.Valid() && IsField(f, p.nPoints)
    requires InGrid(p.nPoints, i, j) && OnBoundary(p.nPoints, i, j)
    ensures PoissonOperator(f, p)[i][j] == 0.0
  {
    StencilsVanishOnBoundary(f, p.nPoints, p.ElementLength(), i, j);
  }

  /** Whatever the solver returns, if it solves the temperature system exactly
      then its boundary values are those of the right-hand side. */
  lemma TemperatureSolutionKeepsBoundary(x: Field, b: Field, p: Params, i: nat, j: nat)
    requires p.Valid() && IsField(x, p.nPoints)
    requires TemperatureDiffusionOperator(x, p) == b
    requires InGrid(p.nPoints, i, j) && OnBoundary(p.nPoints, i, j)
    ensures x[i][j] == b[i][j]
  {
    TemperatureOperatorFixesBoundary(x, p, i, j);
  }

  /** The same for an exact solve of the turbulent velocity system. */
  lemma TurbulentSolutionKeepsBoundary(x: VectorField, b: VectorField, p: Params, sqrt: real -> real, i: nat, j: nat)
    requires p.Valid() && IsVectorField(x, p.nPoints)
    requires DiffusionOperatorTurbulent(x, p, sqrt) == b
    requires InGrid(p.nPoints, i, j) && OnBoundary(p.nPoints, i, j)
    ensures x.u[i][j] == b.u[i][j] && x.v[i][j] == b.v[i][j]
  {
    TurbulentOperatorFixesBoundary(x, p, sqrt, i, j);
  }

  // ---------------------------------------------------------------------------
  // Linearity and fixed points.

  /** The temperature operator is linear, as the conjugate-gradient solve assumes. */
  lemma TemperatureOperatorLinear(a: real, t1: Field, b: real, t2: Field, p: Params)
    requires p.Valid() && IsField(t1, p.nPoints) && IsField(t2, p.nPoints)
    ensures TemperatureDiffusionOperator(Add(Scale(a, t1, p.nPoints), Scale(b, t2, p.nPoints), p.nPoints), p)
         == Add(Scale(a, TemperatureDiffusionOperator(t1, p), p.nPoints),
                Scale(b, TemperatureDiffusionOperator(t2, p), p.nPoints), p.nPoints)
  {
    var n, h := p.nPoints, p.ElementLength();
    LaplacianLinear(a, t1, b, t2, n, h);
    ImplicitStepLinear(a, t1, Laplacian(t1, n, h), b, t2, Laplacian(t2, n, h), ThermalFactor(p), n);
  }

  /** The shape shared by the implicit operators: when l is a l1 + b l2, then
      (a t1 + b t2) - k l is a (t1 - k l1) + b (t2 - k l2). */
  lemma ImplicitStepLinear(a: real, t1: Field, l1: Field, b: real, t2: Field, l2: Field, k: real, n: nat)
    requires IsField(t1, n) && IsField(l1, n) && IsField(t2, n) && IsField(l2, n)
    ensures Sub(Add(Scale(a, t1, n), Scale(b, t2, n), n), Scale(k, Add(Scale(a, l1, n), Scale(b, l2, n), n), n), n)
         == Add(Scale(a, Sub(t1, Scale(k, l1, n), n), n), Scale(b, Sub(t2, Scale(k, l2, n), n), n), n)
  {
    var lhs := Sub(Add(Scale(a, t1, n), Scale(b, t2, n), n), Scale(k, Add(Scale(a, l1, n), Scale(b, l2, n), n), n), n);
    var rhs := Add(Scale(a, Sub(t1, Scale(k, l1, n), n), n), Scale(b, Sub(t2, Scale(k, l2, n), n), n), n);
    forall i, j | InGrid(n, i, j)
      ensures lhs[i][j] == rhs[i][j]
    {
      ScaledDifference(a, t1[i][j], l1[i][j], b, t2[i][j], l2[i][j], k);
    }
    FieldsEqual(lhs, rhs, n);
  }

  lemma ScaledDifference(a: real, x1: real, l1: real, b: real, x2: real, l2: real, k: real)
    ensures (a * x1 + b * x2) - k * (a * l1 + b * l2) == a * (x1 - k * l1) + b * (x2 - k * l2)
  {
  }

  /** The plain velocity diffusion operator is linear. */
  lemma DiffusionOperatorLinear(a: real, w1: VectorField, b: real, w2: VectorField, p: Params)
    requires p.Valid() && IsVectorField(w1, p.nPoints) && IsVectorField(w2, p.nPoints)
    ensures DiffusionOperator(Combine(a, w1, b, w2, p.nPoints), p)
         == Combine(a, DiffusionOperator(w1, p), b, DiffusionOperator(w2, p), p.nPoints)
  {
    var n, h := p.nPoints, p.ElementLength();
    LaplacianLinear(a, w1.u, b, w2.u, n, h);
    LaplacianLinear(a, w1.v, b, w2.v, n, h);
    ImplicitStepLinear(a, w1.u, Laplacian(w1.u, n, h), b, w2.u, Laplacian(w2.u, n, h), ViscousFactor(p), n);
    ImplicitStepLinear(a, w1.v, Laplacian(w1.v, n, h), b, w2.v, Laplacian(w2.v, n, h), ViscousFactor(p), n);
  }

  /** The Poisson operator is linear. */
  lemma PoissonOperatorLinear(a: real, f: Field, b: real, g: Field, p: Params)
    requires p.Valid() && IsField(f, p.nPoints) && IsField(g, p.nPoints)
    ensures PoissonOperator(Add(Scale(a, f, p.nPoints), Scale(b, g, p.nPoints), p.nPoints), p)
         == Add(Scale(a, PoissonOperator(f, p), p.nPoints), Scale(b, PoissonOperator(g, p), p.nPoints), p.nPoints)
  {
    LaplacianLinear(a, f, b, g, p.nPoints, p.ElementLength());
  }

  /** A temperature field affine in the coordinates (a constant one in
      particular) is left unchanged by the temperature operator. */
  lemma TemperatureOperatorFixesAffine(t: Field, p: Params, c0: real, cx: real, cy: real)
    requires p.Valid() && IsField(t, p.nPoints)
    requires IsAffine(t, p.nPoints, p.ElementLength(), c0, cx, cy)
    ensures TemperatureDiffusionOperator(t, p) == t
  {
    var n, h := p.nPoints, p.ElementLength();
    forall i, j | InGrid(n, i, j)
      ensures TemperatureDiffusionOperator(t, p)[i][j] == t[i][j]
    {
      if Interior(n, i, j) {
        StencilsExactOnAffine(t, n, h, c0, cx, cy, i, j);
      }
    }
    FieldsEqual(TemperatureDiffusionOperator(t, p), t, n);
  }

  /** Every affine pressure field is in the kernel of the Poisson operator. */
  lemma PoissonOperatorKernel(f: Field, p: Params, c0: real, cx: real, cy: real)
    requires p.Valid() && IsField(f, p.nPoints)
    requires IsAffine(f, p.nPoints, p.ElementLength(), c0, cx, cy)
    ensures PoissonOperator(f, p) == Constant(p.nPoints, 0.0)
  {
    var n, h := p.nPoints, p.ElementLength();
    forall i, j | InGrid(n, i, j)
      ensures PoissonOperator(f, p)[i][j] == 0.0
    {
      if Interior(n, i, j) {
        StencilsExactOnAffine(f, n, h, c0, cx, cy, i, j);
      }
    }
    FieldsEqual(PoissonOperator(f, p), Constant(n, 0.0), n);
  }

  /** A uniform flow is a fixed point of the turbulent diffusion operator,
      whatever viscosity the closure produces: its gradients vanish, so does
      the flux, so does its divergence. */
  lemma TurbulentOperatorFixesUniformFlow(w: VectorField, p: Params, sqrt: real -> real, cu: real, cv: real)
    requires p.Valid() && IsVectorField(w, p.nPoints)
    requires IsConstant(w.u, p.nPoints, cu) && IsConstant(w.v, p.nPoints, cv)
    ensures DiffusionOperatorTurbulent(w, p, sqrt) == w
  {
    var n, h := p.nPoints, p.ElementLength();
    var nuEff := EffectiveViscosity(w, p, sqrt);
    UniformComponentFixed(w.u, nuEff, p, cu);
    UniformComponentFixed(w.v, nuEff, p, cv);
  }

  lemma UniformComponentFixed(c: Field, nuEff: Field, p: Params, k: real)
    requires p.Valid() && IsField(c, p.nPoints) && IsField(nuEff, p.nPoints)
    requires IsConstant(c, p.nPoints, k)
    ensures TurbulentDiffusionOfComponent(c, nuEff, p) == c
  {
    var n, h := p.nPoints, p.ElementLength();
    GradientOfConstant(c, n, h, k);
    var grad := Gradient(c, n, h);
    var flux := VectorField(Mul(nuEff, grad.u, n), Mul(nuEff, grad.v, n));
    assert IsConstant(flux.u, n, 0.0) && IsConstant(flux.v, n, 0.0);
    DivergenceAndCurlOfConstant(flux, n, h, 0.0, 0.0);
    FieldsEqual(TurbulentDiffusionOfComponent(c, nuEff, p), c, n);
  }
}
