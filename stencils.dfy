/** The three finite-difference stencils `partial_derivative_x`,
    `partial_derivative_y` and `laplace`: central differences on the interior
    `[1:-1, 1:-1]` of the grid, zero on the boundary rows and columns.

    Each stencil is given twice: as a function on field values (used by every
    operator built on it) and as the method the script runs, which allocates a
    zeroed buffer and writes its interior in place. */
module Stencils {
  import opened Fields

  /** `partial_derivative_x`: (f[i+1, j] - f[i-1, j]) / (2h) inside, 0 on the boundary. */
  function PartialX(f: Field, n: nat, h: real): (r: Field)
    requires IsField(f, n) && h != 0.0
    ensures IsField(r, n)
  {
    seq(n, i requires 0 <= i < n => seq(n, j requires 0 <= j < n =>
      if Interior(n, i, j) then (f[i + 1][j] - f[i - 1][j]) / (2.0 * h) else 0.0))
  }

  /** `partial_derivative_y`: (f[i, j+1] - f[i, j-1]) / (2h) inside, 0 on the boundary. */
  function PartialY(f: Field, n: nat, h: real): (r: Field)
    requires IsField(f, n) && h != 0.0
    ensures IsField(r, n)
  {
    seq(n, i requires 0 <= i < n => seq(n, j requires 0 <= j < n =>
      if Interior(n, i, j) then (f[i][j + 1] - f[i][j - 1]) / (2.0 * h) else 0.0))
  }

  /** The five-point sum of `laplace`, before the division by h^2. */
  function FivePoint(f: Field, n: nat, i: nat, j: nat): real
    requires IsField(f, n) && Interior(n, i, j)
  {
    f[i - 1][j] + f[i][j - 1] - 4.0 * f[i][j] + f[i + 1][j] + f[i][j + 1]
  }

  /** `laplace`: the five-point stencil divided by h^2 inside, 0 on the boundary.
      The division by `element_length ** 2` is written as two divisions by h,
      which over the reals is the same value. */
  function Laplacian(f: Field, n: nat, h: real): (r: Field)
    requires IsField(f, n) && h != 0.0
    ensures IsField(r, n)
  {
    seq(n, i requires 0 <= i < n => seq(n, j requires 0 <= j < n =>
      if Interior(n, i, j) then FivePoint(f, n, i, j) / h / h else 0.0))
  }

  // ---------------------------------------------------------------------------
  // The methods the script runs: zeroed buffer, interior written in place.

  method ComputePartialX(f: array2<real>, h: real) returns (diff: array2<real>)
    requires f.Length0 == f.Length1 && h != 0.0
    ensures fresh(diff) && diff.Length0 == f.Length0 && diff.Length1 == f.Length1
    ensures FieldOf(diff) == PartialX(FieldOf(f), f.Length0, h)
  {
    var n := f.Length0;
    ghost var spec := PartialX(FieldOf(f), n, h);
    diff := new real[n, n]((i, j) => 0.0);
    var i := 1;
    while i < n - 1
      invariant 1 <= i && (n >= 2 ==> i <= n - 1)
      invariant forall a, b :: InGrid(n, a, b) ==>
        diff[a, b] == if 1 <= a < i && 1 <= b < n - 1 then spec[a][b] else 0.0
    {
      var j := 1;
      while j < n - 1
        invariant 1 <= j <= n - 1
        invariant forall a, b :: InGrid(n, a, b) ==>
          diff[a, b] == if (1 <= a < i && 1 <= b < n - 1) || (a == i && 1 <= b < j) then spec[a][b] else 0.0
      {
        diff[i, j] := (f[i + 1, j] - f[i - 1, j]) / (2.0 * h);
        j := j + 1;
      }
      i := i + 1;
    }
    FieldsEqual(FieldOf(diff), spec, n);
  }

  method ComputePartialY(f: array2<real>, h: real) returns (diff: array2<real>)
    requires f.Length0 == f.Length1 && h != 0.0
    ensures fresh(diff) && diff.Length0 == f.Length0 && diff.Length1 == f.Length1
    ensures FieldOf(diff) == PartialY(FieldOf(f), f.Length0, h)
  {
    var n := f.Length0;
    ghost var spec := PartialY(FieldOf(f), n, h);
    diff := new real[n, n]((i, j) => 0.0);
    var i := 1;
    while i < n - 1
      invariant 1 <= i && (n >= 2 ==> i <= n - 1)
      invariant forall a, b :: InGrid(n, a, b) ==>
        diff[a, b] == if 1 <= a < i && 1 <= b < n - 1 then spec[a][b] else 0.0
    {
      var j := 1;
      while j < n - 1
        invariant 1 <= j <= n - 1
        invariant forall a, b :: InGrid(n, a, b) ==>
          diff[a, b] == if (1 <= a < i && 1 <= b < n - 1) || (a == i && 1 <= b < j) then spec[a][b] else 0.0
      {
        diff[i, j] := (f[i, j + 1] - f[i, j - 1]) / (2.0 * h);
        j := j + 1;
      }
      i := i + 1;
    }
    FieldsEqual(FieldOf(diff), spec, n);
  }

  method ComputeLaplacian(f: array2<real>, h: real) returns (diff: array2<real>)
    requires f.Length0 == f.Length1 && h != 0.0
    ensures fresh(diff) && diff.Length0 == f.Length0 && diff.Length1 == f.Length1
    ensures FieldOf(diff) == Laplacian(FieldOf(f), f.Length0, h)
  {
    var n := f.Length0;
    ghost var spec := Laplacian(FieldOf(f), n, h);
    diff := new real[n, n]((i, j) => 0.0);
    var i := 1;
    while i < n - 1
      invariant 1 <= i && (n >= 2 ==> i <= n - 1)
      invariant forall a, b :: InGrid(n, a, b) ==>
        diff[a, b] == if 1 <= a < i && 1 <= b < n - 1 then spec[a][b] else 0.0
    {
      var j := 1;
      while j < n - 1
        invariant 1 <= j <= n - 1
        invariant forall a, b :: InGrid(n, a, b) ==>
          diff[a, b] == if (1 <= a < i && 1 <= b < n - 1) || (a == i && 1 <= b < j) then spec[a][b] else 0.0
      {
        diff[i, j] := (f[i - 1, j] + f[i, j - 1] - 4.0 * f[i, j] + f[i + 1, j] + f[i, j + 1]) / h / h;
        j := j + 1;
      }
      i := i + 1;
    }
    FieldsEqual(FieldOf(diff), spec, n);
  }

  // ---------------------------------------------------------------------------
  // Properties of the stencils.

  /** No one-sided stencil is applied: every boundary entry is exactly zero. */
  lemma StencilsVanishOnBoundary(f: Field, n: nat, h: real, i: nat, j: nat)
    requires IsField(f, n) && h != 0.0
    requires InGrid(n, i, j) && OnBoundary(n, i, j)
    ensures PartialX(f, n, h)[i][j] == 0.0
    ensures PartialY(f, n, h)[i][j] == 0.0
    ensures Laplacian(f, n, h)[i][j] == 0.0
  {
  }

  /** A constant field has zero derivatives and zero Laplacian everywhere. */
  lemma StencilsVanishOnConstant(f: Field, n: nat, h: real, c: real)
    requires IsField(f, n) && h != 0.0 && IsConstant(f, n, c)
    ensures PartialX(f, n, h) == Constant(n, 0.0)
    ensures PartialY(f, n, h) == Constant(n, 0.0)
    ensures Laplacian(f, n, h) == Constant(n, 0.0)
  {
    FieldsEqual(PartialX(f, n, h), Constant(n, 0.0), n);
    FieldsEqual(PartialY(f, n, h), Constant(n, 0.0), n);
    forall i, j | InGrid(n, i, j)
      ensures Laplacian(f, n, h)[i][j] == 0.0
    {
      if Interior(n, i, j) {
        assert f[i - 1][j] == c && f[i][j - 1] == c && f[i][j] == c && f[i + 1][j] == c && f[i][j + 1] == c;
        assert FivePoint(f, n, i, j) == 0.0;
      }
    }
    FieldsEqual(Laplacian(f, n, h), Constant(n, 0.0), n);
  }

  /** Division distributes over a linear combination c = a x + b y. */
  lemma DivideCombination(c: real, a: real, x: real, b: real, y: real, d: real)
    requires d != 0.0 && c == a * x + b * y
    ensures c / d == a * (x / d) + b * (y / d)
  {
    calc {
      a * (x / d) + b * (y / d);
      (a * x) / d + (b * y) / d;
      (a * x + b * y) / d;
    }
  }

  /** `partial_derivative_x` is linear. */
  lemma PartialXLinear(a: real, f: Field, b: real, g: Field, n: nat, h: real)
    requires IsField(f, n) && IsField(g, n) && h != 0.0
    ensures PartialX(Add(Scale(a, f, n), Scale(b, g, n), n), n, h)
         == Add(Scale(a, PartialX(f, n, h), n), Scale(b, PartialX(g, n, h), n), n)
  {
    var comb := Add(Scale(a, f, n), Scale(b, g, n), n);
    var lhs := PartialX(comb, n, h);
    var rhs := Add(Scale(a, PartialX(f, n, h), n), Scale(b, PartialX(g, n, h), n), n);
    forall i, j | InGrid(n, i, j)
      ensures lhs[i][j] == rhs[i][j]
    {
      if Interior(n, i, j) {
        var c := comb[i + 1][j] - comb[i - 1][j];
        var x, y := f[i + 1][j] - f[i - 1][j], g[i + 1][j] - g[i - 1][j];
        assert c == a * x + b * y;
        DivideCombination(c, a, x, b, y, 2.0 * h);
      }
    }
    FieldsEqual(lhs, rhs, n);
  }

  /** `partial_derivative_y` is linear. */
  lemma PartialYLinear(a: real, f: Field, b: real, g: Field, n: nat, h: real)
    requires IsField(f, n) && IsField(g, n) && h != 0.0
    ensures PartialY(Add(Scale(a, f, n), Scale(b, g, n), n), n, h)
         == Add(Scale(a, PartialY(f, n, h), n), Scale(b, PartialY(g, n, h), n), n)
  {
    var comb := Add(Scale(a, f, n), Scale(b, g, n), n);
    var lhs := PartialY(comb, n, h);
    var rhs := Add(Scale(a, PartialY(f, n, h), n), Scale(b, PartialY(g, n, h), n), n);
    forall i, j | InGrid(n, i, j)
      ensures lhs[i][j] == rhs[i][j]
    {
      if Interior(n, i, j) {
        var c := comb[i][j + 1] - comb[i][j - 1];
        var x, y := f[i][j + 1] - f[i][j - 1], g[i][j + 1] - g[i][j - 1];
        assert c == a * x + b * y;
        DivideCombination(c, a, x, b, y, 2.0 * h);
      }
    }
    FieldsEqual(lhs, rhs, n);
  }

  /** The five-point sum of a linear combination is the combination of the sums. */
  lemma FivePointCombination(a: real, b: real,
                             f0: real, f1: real, f2: real, f3: real, f4: real,
                             g0: real, g1: real, g2: real, g3: real, g4: real)
    ensures (a * f0 + b * g0) + (a * f1 + b * g1) - 4.0 * (a * f2 + b * g2) + (a * f3 + b * g3) + (a * f4 + b * g4)
         == a * (f0 + f1 - 4.0 * f2 + f3 + f4) + b * (g0 + g1 - 4.0 * g2 + g3 + g4)
  {
  }

  /** `laplace` is linear. */
  lemma LaplacianLinear(a: real, f: Field, b: real, g: Field, n: nat, h: real)
    requires IsField(f, n) && IsField(g, n) && h != 0.0
    ensures Laplacian(Add(Scale(a, f, n), Scale(b, g, n), n), n, h)
         == Add(Scale(a, Laplacian(f, n, h), n), Scale(b, Laplacian(g, n, h), n), n)
  {
    var comb := Add(Scale(a, f, n), Scale(b, g, n), n);
    var lhs := Laplacian(comb, n, h);
    var rhs := Add(Scale(a, Laplacian(f, n, h), n), Scale(b, Laplacian(g, n, h), n), n);
    forall i, j | InGrid(n, i, j)
      ensures lhs[i][j] == rhs[i][j]
    {
      if Interior(n, i, j) {
        assert comb[i - 1][j] == a * f[i - 1][j] + b * g[i - 1][j];
        assert comb[i][j - 1] == a * f[i][j - 1] + b * g[i][j - 1];
        assert comb[i][j] == a * f[i][j] + b * g[i][j];
        assert comb[i + 1][j] == a * f[i + 1][j] + b * g[i + 1][j];
        assert comb[i][j + 1] == a * f[i][j + 1] + b * g[i][j + 1];
        FivePointCombination(a, b,
          f[i - 1][j], f[i][j - 1], f[i][j], f[i + 1][j], f[i][j + 1],
          g[i - 1][j], g[i][j - 1], g[i][j], g[i + 1][j], g[i][j + 1]);
        var c, x, y := FivePoint(comb, n, i, j), FivePoint(f, n, i, j), FivePoint(g, n, i, j);
        assert c == a * x + b * y;
        DivideCombination(c, a, x, b, y, h);
        DivideCombination(c / h, a, x / h, b, y / h, h);
      }
    }
    FieldsEqual(lhs, rhs, n);
  }

  /** A field that is affine in the coordinates, f(x, y) = c0 + cx x + cy y at x = i h, y = j h. */
  ghost predicate IsAffine(f: Field, n: nat, h: real, c0: real, cx: real, cy: real)
    requires IsField(f, n)
  {
    forall i, j :: InGrid(n, i, j) ==> f[i][j] == c0 + cx * (i as real * h) + cy * (j as real * h)
  }

  /** The stencils are exact on affine fields: at every interior point the
      central differences return the slopes and the five-point Laplacian is zero. */
  lemma StencilsExactOnAffine(f: Field, n: nat, h: real, c0: real, cx: real, cy: real, i: nat, j: nat)
    requires IsField(f, n) && h != 0.0 && IsAffine(f, n, h, c0, cx, cy)
    requires Interior(n, i, j)
    ensures PartialX(f, n, h)[i][j] == cx
    ensures PartialY(f, n, h)[i][j] == cy
    ensures Laplacian(f, n, h)[i][j] == 0.0
  {
    var x, y := i as real * h, j as real * h;
    assert (i + 1) as real * h == x + h && (i - 1) as real * h == x - h;
    assert (j + 1) as real * h == y + h && (j - 1) as real * h == y - h;
    assert f[i + 1][j] == c0 + cx * (x + h) + cy * y;
    assert f[i - 1][j] == c0 + cx * (x - h) + cy * y;
    assert f[i][j + 1] == c0 + cx * x + cy * (y + h);
    assert f[i][j - 1] == c0 + cx * x + cy * (y - h);
    assert f[i][j] == c0 + cx * x + cy * y;
    AffineDifferences(c0, cx, cy, x, y, h);
    assert FivePoint(f, n, i, j) == 0.0;
  }

  /** The arithmetic behind StencilsExactOnAffine, on the five sample values. */
  lemma AffineDifferences(c0: real, cx: real, cy: real, x: real, y: real, h: real)
    requires h != 0.0
    ensures ((c0 + cx * (x + h) + cy * y) - (c0 + cx * (x - h) + cy * y)) / (2.0 * h) == cx
    ensures ((c0 + cx * x + cy * (y + h)) - (c0 + cx * x + cy * (y - h))) / (2.0 * h) == cy
    ensures (c0 + cx * (x - h) + cy * y) + (c0 + cx * x + cy * (y - h)) - 4.0 * (c0 + cx * x + cy * y)
          + (c0 + cx * (x + h) + cy * y) + (c0 + cx * x + cy * (y + h)) == 0.0
  {
    assert (c0 + cx * (x + h) + cy * y) - (c0 + cx * (x - h) + cy * y) == (2.0 * h) * cx;
    assert (c0 + cx * x + cy * (y + h)) - (c0 + cx * x + cy * (y - h)) == (2.0 * h) * cy;
  }
}
