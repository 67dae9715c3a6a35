/** The composite operators `gradient`, `divergence` and `curl_2d`, built
    from the central-difference stencils. They inherit the stencils' zero
    boundary, their vanishing on constants and their linearity. */
module Calculus {
  import opened Fields
  import opened Stencils

  /** `gradient`: (d/dx f, d/dy f). */
  function Gradient(f: Field, n: nat, h: real): (r: VectorField)
    requires IsField(f, n) && h != 0.0
    ensures IsVectorField(r, n)
  {
    VectorField(PartialX(f, n, h), PartialY(f, n, h))
  }

  /** `divergence`: d/dx of the x-component plus d/dy of the y-component. */
  function Divergence(w: VectorField, n: nat, h: real): (r: Field)
    requires IsVectorField(w, n) && h != 0.0
    ensures IsField(r, n)
  {
    Add(PartialX(w.u, n, h), PartialY(w.v, n, h), n)
  }

  /** `curl_2d`: the scalar vorticity d/dx of the y-component minus d/dy of the x-component. */
  function Curl(w: VectorField, n: nat, h: real): (r: Field)
    requires IsVectorField(w, n) && h != 0.0
    ensures IsField(r, n)
  {
    Sub(PartialX(w.v, n, h), PartialY(w.u, n, h), n)
  }

  /** The composites are zero at every boundary entry. */
  lemma CompositesVanishOnBoundary(f: Field, w: VectorField, n: nat, h: real, i: nat, j: nat)
    requires IsField(f, n) && IsVectorField(w, n) && h != 0.0
    requires InGrid(n, i, j) && OnBoundary(n, i, j)
    ensures Gradient(f, n, h).u[i][j] == 0.0 && Gradient(f, n, h).v[i][j] == 0.0
    ensures Divergence(w, n, h)[i][j] == 0.0
    ensures Curl(w, n, h)[i][j] == 0.0
  {
    StencilsVanishOnBoundary(f, n, h, i, j);
    StencilsVanishOnBoundary(w.u, n, h, i, j);
    StencilsVanishOnBoundary(w.v, n, h, i, j);
  }

  /** The gradient of a constant field is the zero vector field. */
  lemma GradientOfConstant(f: Field, n: nat, h: real, c: real)
    requires IsField(f, n) && h != 0.0 && IsConstant(f, n, c)
    ensures Gradient(f, n, h) == ZeroVector(n)
  {
    StencilsVanishOnConstant(f, n, h, c);
  }

  /** A vector field whose two components are constant has zero divergence and zero curl. */
  lemma DivergenceAndCurlOfConstant(w: VectorField, n: nat, h: real, cu: real, cv: real)
    requires IsVectorField(w, n) && h != 0.0
    requires IsConstant(w.u, n, cu) && IsConstant(w.v, n, cv)
    ensures Divergence(w, n, h) == Constant(n, 0.0)
    ensures Curl(w, n, h) == Constant(n, 0.0)
  {
    StencilsVanishOnConstant(w.u, n, h, cu);
    StencilsVanishOnConstant(w.v, n, h, cv);
    FieldsEqual(Divergence(w, n, h), Constant(n, 0.0), n);
    FieldsEqual(Curl(w, n, h), Constant(n, 0.0), n);
  }

  /** The linear combination a w1 + b w2 of two vector fields. */
  function Combine(a: real, w1: VectorField, b: real, w2: VectorField, n: nat): (r: VectorField)
    requires IsVectorField(w1, n) && IsVectorField(w2, n)
    ensures IsVectorField(r, n)
  {
    VAdd(VScale(a, w1, n), VScale(b, w2, n), n)
  }

  /** `gradient` is linear. */
  lemma GradientLinear(a: real, f: Field, b: real, g: Field, n: nat, h: real)
    requires IsField(f, n) && IsField(g, n) && h != 0.0
    ensures Gradient(Add(Scale(a, f, n), Scale(b, g, n), n), n, h)
         == Combine(a, Gradient(f, n, h), b, Gradient(g, n, h), n)
  {
    PartialXLinear(a, f, b, g, n, h);
    PartialYLinear(a, f, b, g, n, h);
  }

  /** `divergence` is linear. */
  lemma DivergenceLinear(a: real, w1: VectorField, b: real, w2: VectorField, n: nat, h: real)
    requires IsVectorField(w1, n) && IsVectorField(w2, n) && h != 0.0
    ensures Divergence(Combine(a, w1, b, w2, n), n, h)
         == Add(Scale(a, Divergence(w1, n, h), n), Scale(b, Divergence(w2, n, h), n), n)
  {
    PartialXLinear(a, w1.u, b, w2.u, n, h);
    PartialYLinear(a, w1.v, b, w2.v, n, h);
    var lhs := Divergence(Combine(a, w1, b, w2, n), n, h);
    var rhs := Add(Scale(a, Divergence(w1, n, h), n), Scale(b, Divergence(w2, n, h), n), n);
    forall i, j | InGrid(n, i, j)
      ensures lhs[i][j] == rhs[i][j]
    {
      var p, q := PartialX(w1.u, n, h)[i][j], PartialX(w2.u, n, h)[i][j];
      var r, s := PartialY(w1.v, n, h)[i][j], PartialY(w2.v, n, h)[i][j];
      assert lhs[i][j] == (a * p + b * q) + (a * r + b * s);
      assert rhs[i][j] == a * (p + r) + b * (q + s);
    }
    FieldsEqual(lhs, rhs, n);
  }

  /** `curl_2d` is linear. */
  lemma CurlLinear(a: real, w1: VectorField, b: real, w2: VectorField, n: nat, h: real)
    requires IsVectorField(w1, n) && IsVectorField(w2, n) && h != 0.0
    ensures Curl(Combine(a, w1, b, w2, n), n, h)
         == Add(Scale(a, Curl(w1, n, h), n), Scale(b, Curl(w2, n, h), n), n)
  {
    PartialXLinear(a, w1.v, b, w2.v, n, h);
    PartialYLinear(a, w1.u, b, w2.u, n, h);
    var lhs := Curl(Combine(a, w1, b, w2, n), n, h);
    var rhs := Add(Scale(a, Curl(w1, n, h), n), Scale(b, Curl(w2, n, h), n), n);
    forall i, j | InGrid(n, i, j)
      ensures lhs[i][j] == rhs[i][j]
    {
      var p, q := PartialX(w1.v, n, h)[i][j], PartialX(w2.v, n, h)[i][j];
      var r, s := PartialY(w1.u, n, h)[i][j], PartialY(w2.u, n, h)[i][j];
      assert lhs[i][j] == (a * p + b * q) - (a * r + b * s);
      assert rhs[i][j] == a * (p - r) + b * (q - s);
    }
    FieldsEqual(lhs, rhs, n);
  }

  /** The discrete curl of a discrete gradient vanishes at every point two or
      more cells away from the boundary; nearer the boundary the zeroed
      boundary entries of the inner stencil break the symmetry. */
  lemma CurlOfGradientVanishesInside(f: Field, n: nat, h: real, i: nat, j: nat)
    requires IsField(f, n) && h != 0.0
    requires 2 <= i < n - 2 && 2 <= j < n - 2
    ensures Curl(Gradient(f, n, h), n, h)[i][j] == 0.0
  {
    var d := 2.0 * h;
    var p, q := f[i + 1][j + 1], f[i + 1][j - 1];
    var r, s := f[i - 1][j + 1], f[i - 1][j - 1];
    var dyRight, dyLeft := PartialY(f, n, h)[i + 1][j], PartialY(f, n, h)[i - 1][j];
    var dxUp, dxDown := PartialX(f, n, h)[i][j + 1], PartialX(f, n, h)[i][j - 1];
    assert dyRight == (p - q) / d && dyLeft == (r - s) / d;
    assert dxUp == (p - r) / d && dxDown == (q - s) / d;
    DivideCombination(p - q - r + s, 1.0, p - q, -1.0, r - s, d);
    DivideCombination(p - q - r + s, 1.0, p - r, -1.0, q - s, d);
    assert dyRight - dyLeft == dxUp - dxDown;
    assert PartialX(PartialY(f, n, h), n, h)[i][j] == (dyRight - dyLeft) / d;
    assert PartialY(PartialX(f, n, h), n, h)[i][j] == (dxUp - dxDown) / d;
  }
}
