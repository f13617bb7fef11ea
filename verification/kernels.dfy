/**
  The simulation's fragment shaders (shaders.ts) as grid-to-grid
  functions. Each kernel computes one output cell from texel fetches of
  its inputs at the cell itself and at its four neighbours (`vL`, `vR`,
  `vT`, `vB` of the base vertex shader, one texel away), with
  CLAMP_TO_EDGE at the border. A velocity texture is the pair of grids
  `u` (x component) and `v` (y component).
 */
module Kernels {
  import opened Common
  import opened Grids

  /** Two grids of one shape, as every velocity pair is. */
  predicate Field(u: Grid, v: Grid) {
    Valid(u) && Valid(v) && SameShape(u, v)
  }

  // ---------------------------------------------------------------- curl

  /** The curl shader at cell `(i, j)`: half of `R.y - L.y - T.x + B.x`. */
  function CurlAt(u: Grid, v: Grid, i: int, j: int): real
    requires Field(u, v)
  {
    0.5 * (At(v, i + 1, j) - At(v, i - 1, j) - At(u, i, j + 1) + At(u, i, j - 1))
  }

  function Curl(u: Grid, v: Grid): (r: Grid)
    requires Field(u, v)
    ensures Valid(r) && SameShape(r, u)
  {
    Build(u.width, u.height, (i, j) => CurlAt(u, v, i, j))
  }

  /** A uniform flow has no curl anywhere, borders included. */
  lemma CurlOfUniformFlow(u: Grid, v: Grid, a: real, b: real)
    requires Field(u, v) && IsConstant(u, a) && IsConstant(v, b)
    ensures IsConstant(Curl(u, v), 0.0)
  {
    forall i, j | 0 <= i < u.width && 0 <= j < u.height
      ensures Curl(u, v).cells[j][i] == 0.0
    {
      AtConstant(v, b, i + 1, j);
      AtConstant(v, b, i - 1, j);
      AtConstant(u, a, i, j + 1);
      AtConstant(u, a, i, j - 1);
    }
  }

  // ---------------------------------------------------------- divergence

  /** The divergence shader at cell `(i, j)`. A neighbour outside the
      texture (`vL.x < 0`, `vR.x > 1`, `vT.y > 1`, `vB.y < 0`, i.e. the
      first or last column or row) is replaced by the negated centre
      component, a reflecting wall. */
  function DivergenceAt(u: Grid, v: Grid, i: int, j: int): real
    requires Field(u, v)
  {
    var c := (At(u, i, j), At(v, i, j));
    var L := if i == 0 then -c.0 else At(u, i - 1, j);
    var R := if i == u.width - 1 then -c.0 else At(u, i + 1, j);
    var T := if j == u.height - 1 then -c.1 else At(v, i, j + 1);
    var B := if j == 0 then -c.1 else At(v, i, j - 1);
    0.5 * (R - L + T - B)
  }

  function Divergence(u: Grid, v: Grid): (r: Grid)
    requires Field(u, v)
    ensures Valid(r) && SameShape(r, u)
  {
    Build(u.width, u.height, (i, j) => DivergenceAt(u, v, i, j))
  }

  /** Curl is linear in the velocity field, borders included. */
  lemma CurlLinear(u1: Grid, v1: Grid, u2: Grid, v2: Grid)
    requires Field(u1, v1) && Field(u2, v2) && SameShape(u1, u2)
    ensures Curl(Add(u1, u2), Add(v1, v2)) == Add(Curl(u1, v1), Curl(u2, v2))
  {
    var lhs := Curl(Add(u1, u2), Add(v1, v2));
    var rhs := Add(Curl(u1, v1), Curl(u2, v2));
    forall i, j | 0 <= i < u1.width && 0 <= j < u1.height
      ensures lhs.cells[j][i] == rhs.cells[j][i]
    {
      assert At(Curl(u1, v1), i, j) == CurlAt(u1, v1, i, j);
      assert At(Curl(u2, v2), i, j) == CurlAt(u2, v2, i, j);
      AddAt(v1, v2, i + 1, j);
      AddAt(v1, v2, i - 1, j);
      AddAt(u1, u2, i, j + 1);
      AddAt(u1, u2, i, j - 1);
    }
    Extensionality(lhs, rhs);
  }

  /** Divergence is linear in the velocity field. */
  lemma DivergenceLinear(u1: Grid, v1: Grid, u2: Grid, v2: Grid)
    requires Field(u1, v1) && Field(u2, v2) && SameShape(u1, u2)
    ensures Divergence(Add(u1, u2), Add(v1, v2)) == Add(Divergence(u1, v1), Divergence(u2, v2))
  {
    var lhs := Divergence(Add(u1, u2), Add(v1, v2));
    var rhs := Add(Divergence(u1, v1), Divergence(u2, v2));
    forall i, j | 0 <= i < u1.width && 0 <= j < u1.height
      ensures lhs.cells[j][i] == rhs.cells[j][i]
    {
      assert At(Divergence(u1, v1), i, j) == DivergenceAt(u1, v1, i, j);
      assert At(Divergence(u2, v2), i, j) == DivergenceAt(u2, v2, i, j);
      AddAt(u1, u2, i, j);
      AddAt(u1, u2, i - 1, j);
      AddAt(u1, u2, i + 1, j);
      AddAt(v1, v2, i, j);
      AddAt(v1, v2, i, j - 1);
      AddAt(v1, v2, i, j + 1);
    }
    Extensionality(lhs, rhs);
  }

  /** A fetch from a sum is the sum of the fetches. */
  lemma AddAt(a: Grid, b: Grid, i: int, j: int)
    requires Valid(a) && Valid(b) && SameShape(a, b)
    ensures At(Add(a, b), i, j) == At(a, i, j) + At(b, i, j)
  {
    var ci := ClampIndex(i, a.width);
    var cj := ClampIndex(j, a.height);
    assert Add(a, b).cells[cj][ci] == At(a, ci, cj) + At(b, ci, cj);
  }

  /** A uniform flow has zero divergence away from the border; at the
      border the reflecting wall makes it non-zero unless the flow is at
      rest (at the left column it equals the x component). */
  lemma DivergenceOfUniformFlow(u: Grid, v: Grid, a: real, b: real, i: int, j: int)
    requires Field(u, v) && IsConstant(u, a) && IsConstant(v, b)
    requires 0 <= i < u.width && 0 <= j < u.height
    ensures 0 < i < u.width - 1 && 0 < j < u.height - 1 ==> Divergence(u, v).cells[j][i] == 0.0
    ensures i == 0 && u.width > 1 && 0 < j < u.height - 1 ==> Divergence(u, v).cells[j][i] == a
    ensures a == 0.0 && b == 0.0 ==> Divergence(u, v).cells[j][i] == 0.0
  {
    AtConstant(u, a, i, j);
    AtConstant(u, a, i - 1, j);
    AtConstant(u, a, i + 1, j);
    AtConstant(v, b, i, j);
    AtConstant(v, b, i, j - 1);
    AtConstant(v, b, i, j + 1);
  }

  // ----------------------------------------------------------- vorticity

  /** The vorticity-confinement force at cell `(i, j)`: it points along the
      normalised gradient of `|curl|` (rotated) and is scaled by `curl * C`.
      `length` is GLSL `length`, a Euclidean norm. */
  function Confinement(curlField: Grid, curl: real, length: (real, real) -> real, i: int, j: int): (r: (real, real))
    requires Valid(curlField)
    requires forall a, b :: length(a, b) >= 0.0
  {
    var L := At(curlField, i - 1, j);
    var R := At(curlField, i + 1, j);
    var T := At(curlField, i, j + 1);
    var B := At(curlField, i, j - 1);
    var C := At(curlField, i, j);
    var fx := 0.5 * (Abs(T) - Abs(B));
    var fy := 0.5 * (Abs(R) - Abs(L));
    var n := length(fx, fy) + 0.0001;
    (fx / n * (curl * C), -(fy / n * (curl * C)))
  }

  /** No curl at the cell, or no confinement strength, means no force. */
  lemma ConfinementZero(curlField: Grid, curl: real, length: (real, real) -> real, i: int, j: int)
    requires Valid(curlField)
    requires forall a, b :: length(a, b) >= 0.0
    requires At(curlField, i, j) == 0.0 || curl == 0.0
    ensures Confinement(curlField, curl, length, i, j) == (0.0, 0.0)
  {
    var C := At(curlField, i, j);
    var k := curl * C;
    assert k == 0.0 by {
      if C != 0.0 {
        assert curl == 0.0;
      }
    }
    var L := At(curlField, i - 1, j);
    var R := At(curlField, i + 1, j);
    var T := At(curlField, i, j + 1);
    var B := At(curlField, i, j - 1);
    var fx := 0.5 * (Abs(T) - Abs(B));
    var fy := 0.5 * (Abs(R) - Abs(L));
    var n := length(fx, fy) + 0.0001;
    assert fx / n * k == 0.0 && fy / n * k == 0.0;
  }

  /** The vorticity-confinement shader at cell `(i, j)`: the force applied
      for `dt`, and the velocity clamped to [-1000, 1000]. */
  function VorticityAt(u: Grid, v: Grid, curlField: Grid, curl: real, dt: real,
                       length: (real, real) -> real, i: int, j: int): (r: (real, real))
    requires Field(u, v) && Valid(curlField)
    requires forall a, b :: length(a, b) >= 0.0
    ensures -1000.0 <= r.0 <= 1000.0 && -1000.0 <= r.1 <= 1000.0
  {
    var g := Confinement(curlField, curl, length, i, j);
    (Clamp(At(u, i, j) + g.0 * dt, -1000.0, 1000.0), Clamp(At(v, i, j) + g.1 * dt, -1000.0, 1000.0))
  }

  function Vorticity(u: Grid, v: Grid, curlField: Grid, curl: real, dt: real,
                     length: (real, real) -> real): (r: (Grid, Grid))
    requires Field(u, v) && Valid(curlField)
    requires forall a, b :: length(a, b) >= 0.0
    ensures Field(r.0, r.1) && SameShape(r.0, u)
    ensures Bounded(r.0, -1000.0, 1000.0) && Bounded(r.1, -1000.0, 1000.0)
  {
    (Build(u.width, u.height, (i, j) => VorticityAt(u, v, curlField, curl, dt, length, i, j).0),
     Build(u.width, u.height, (i, j) => VorticityAt(u, v, curlField, curl, dt, length, i, j).1))
  }

  /** Where there is no curl there is no confinement force: a velocity
      within the clamp range passes through unchanged. The same holds
      when the confinement strength or the time step is zero. */
  lemma VorticityWithoutForce(u: Grid, v: Grid, curlField: Grid, curl: real, dt: real,
                              length: (real, real) -> real)
    requires Field(u, v) && Valid(curlField)
    requires forall a, b :: length(a, b) >= 0.0
    requires Bounded(u, -1000.0, 1000.0) && Bounded(v, -1000.0, 1000.0)
    requires IsConstant(curlField, 0.0) || curl == 0.0 || dt == 0.0
    ensures Vorticity(u, v, curlField, curl, dt, length) == (u, v)
  {
    var r := Vorticity(u, v, curlField, curl, dt, length);
    forall i, j | 0 <= i < u.width && 0 <= j < u.height
      ensures r.0.cells[j][i] == u.cells[j][i] && r.1.cells[j][i] == v.cells[j][i]
    {
      VorticityAtWithoutForce(u, v, curlField, curl, dt, length, i, j);
    }
    Extensionality(r.0, u);
    Extensionality(r.1, v);
  }

  lemma VorticityAtWithoutForce(u: Grid, v: Grid, curlField: Grid, curl: real, dt: real,
                                length: (real, real) -> real, i: int, j: int)
    requires Field(u, v) && Valid(curlField)
    requires forall a, b :: length(a, b) >= 0.0
    requires Bounded(u, -1000.0, 1000.0) && Bounded(v, -1000.0, 1000.0)
    requires IsConstant(curlField, 0.0) || curl == 0.0 || dt == 0.0
    requires 0 <= i < u.width && 0 <= j < u.height
    ensures VorticityAt(u, v, curlField, curl, dt, length, i, j) == (u.cells[j][i], v.cells[j][i])
  {
    var g := Confinement(curlField, curl, length, i, j);
    if IsConstant(curlField, 0.0) {
      AtConstant(curlField, 0.0, i, j);
      ConfinementZero(curlField, curl, length, i, j);
    } else if curl == 0.0 {
      ConfinementZero(curlField, curl, length, i, j);
    }
    assert g.0 * dt == 0.0 && g.1 * dt == 0.0;
    assert At(u, i, j) == u.cells[j][i] && At(v, i, j) == v.cells[j][i];
  }

  // ------------------------------------------------------------ pressure

  /** `clear` shader: every texel multiplied by `value` (the PRESSURE
      setting), the partial reset of pressure each step. */
  function Clear(p: Grid, value: real): (r: Grid)
    requires Valid(p)
    ensures Valid(r) && SameShape(r, p)
  {
    Build(p.width, p.height, (i, j) => value * At(p, i, j))
  }

  /** Clearing with 1 keeps the pressure, with 0 erases it, and two clears
      compose into one with the product of the factors. */
  lemma ClearLaws(p: Grid, a: real, b: real)
    requires Valid(p)
    ensures Clear(p, 1.0) == p
    ensures IsConstant(Clear(p, 0.0), 0.0)
    ensures Clear(Clear(p, a), b) == Clear(p, b * a)
  {
    forall i, j | 0 <= i < p.width && 0 <= j < p.height
      ensures Clear(p, 1.0).cells[j][i] == p.cells[j][i]
      ensures Clear(Clear(p, a), b).cells[j][i] == Clear(p, b * a).cells[j][i]
    {
      assert At(Clear(p, a), i, j) == a * At(p, i, j);
    }
    Extensionality(Clear(p, 1.0), p);
    Extensionality(Clear(Clear(p, a), b), Clear(p, b * a));
  }

  /** The pressure shader at cell `(i, j)`: one Jacobi step of the
      Poisson equation, the mean of the four neighbours minus a quarter of
      the divergence. */
  function JacobiAt(p: Grid, divergence: Grid, i: int, j: int): real
    requires Valid(p) && Valid(divergence)
  {
    (At(p, i - 1, j) + At(p, i + 1, j) + At(p, i, j - 1) + At(p, i, j + 1) - At(divergence, i, j)) * 0.25
  }

  function Jacobi(p: Grid, divergence: Grid): (r: Grid)
    requires Valid(p) && Valid(divergence)
    ensures Valid(r) && SameShape(r, p)
  {
    Build(p.width, p.height, (i, j) => JacobiAt(p, divergence, i, j))
  }

  /** `PRESSURE_ITERATIONS` Jacobi steps against a fixed divergence. */
  function JacobiN(p: Grid, divergence: Grid, n: nat): (r: Grid)
    requires Valid(p) && Valid(divergence)
    ensures Valid(r) && SameShape(r, p)
    decreases n
  {
    if n == 0 then p else JacobiN(Jacobi(p, divergence), divergence, n - 1)
  }

  /** Without divergence a Jacobi step averages neighbours, so it never
      leaves the range the pressure already had. */
  lemma JacobiBounded(p: Grid, divergence: Grid, lo: real, hi: real)
    requires Valid(p) && Valid(divergence)
    requires Bounded(p, lo, hi) && IsConstant(divergence, 0.0)
    ensures Bounded(Jacobi(p, divergence), lo, hi)
  {
    forall i, j | 0 <= i < p.width && 0 <= j < p.height
      ensures lo <= Jacobi(p, divergence).cells[j][i] <= hi
    {
      AtBounded(p, lo, hi, i - 1, j);
      AtBounded(p, lo, hi, i + 1, j);
      AtBounded(p, lo, hi, i, j - 1);
      AtBounded(p, lo, hi, i, j + 1);
      AtConstant(divergence, 0.0, i, j);
    }
  }

  /** The bound survives any number of iterations. */
  lemma {:induction false} JacobiNBounded(p: Grid, divergence: Grid, n: nat, lo: real, hi: real)
    requires Valid(p) && Valid(divergence)
    requires Bounded(p, lo, hi) && IsConstant(divergence, 0.0)
    ensures Bounded(JacobiN(p, divergence, n), lo, hi)
    decreases n
  {
    if n > 0 {
      JacobiBounded(p, divergence, lo, hi);
      JacobiNBounded(Jacobi(p, divergence), divergence, n - 1, lo, hi);
    }
  }

  /** A constant pressure with no divergence is a fixed point of the
      solver. */
  lemma JacobiFixedPoint(p: Grid, divergence: Grid, c: real, n: nat)
    requires Valid(p) && Valid(divergence)
    requires IsConstant(p, c) && IsConstant(divergence, 0.0)
    ensures JacobiN(p, divergence, n) == p
  {
    JacobiNBounded(p, divergence, n, c, c);
    var r := JacobiN(p, divergence, n);
    forall i, j | 0 <= i < p.width && 0 <= j < p.height
      ensures r.cells[j][i] == p.cells[j][i]
    {
    }
    Extensionality(r, p);
  }

  // ----------------------------------------------------- gradient subtract

  /** The gradient-subtract shader at cell `(i, j)`: the velocity minus the
      central differences `R - L` and `T - B` of the pressure. */
  function GradientSubtractAt(p: Grid, u: Grid, v: Grid, i: int, j: int): (r: (real, real))
    requires Valid(p) && Field(u, v)
  {
    (At(u, i, j) - (At(p, i + 1, j) - At(p, i - 1, j)),
     At(v, i, j) - (At(p, i, j + 1) - At(p, i, j - 1)))
  }

  function GradientSubtract(p: Grid, u: Grid, v: Grid): (r: (Grid, Grid))
    requires Valid(p) && Field(u, v)
    ensures Field(r.0, r.1) && SameShape(r.0, u)
  {
    (Build(u.width, u.height, (i, j) => GradientSubtractAt(p, u, v, i, j).0),
     Build(u.width, u.height, (i, j) => GradientSubtractAt(p, u, v, i, j).1))
  }

  /** Only pressure differences act on the flow: adding a constant to the
      pressure does not change the projected velocity, and a constant
      pressure leaves the velocity as it was. */
  lemma GradientSubtractShift(p: Grid, u: Grid, v: Grid, k: real)
    requires Valid(p) && Field(u, v)
    ensures GradientSubtract(Add(p, Constant(p.width, p.height, k)), u, v) == GradientSubtract(p, u, v)
  {
    var q := Add(p, Constant(p.width, p.height, k));
    var c := Constant(p.width, p.height, k);
    forall i, j | 0 <= i < u.width && 0 <= j < u.height
      ensures GradientSubtract(q, u, v).0.cells[j][i] == GradientSubtract(p, u, v).0.cells[j][i]
      ensures GradientSubtract(q, u, v).1.cells[j][i] == GradientSubtract(p, u, v).1.cells[j][i]
    {
      GradientSubtractAtShift(p, u, v, k, i, j);
    }
    Extensionality(GradientSubtract(q, u, v).0, GradientSubtract(p, u, v).0);
    Extensionality(GradientSubtract(q, u, v).1, GradientSubtract(p, u, v).1);
  }

  lemma GradientSubtractAtShift(p: Grid, u: Grid, v: Grid, k: real, i: int, j: int)
    requires Valid(p) && Field(u, v)
    ensures GradientSubtractAt(Add(p, Constant(p.width, p.height, k)), u, v, i, j) == GradientSubtractAt(p, u, v, i, j)
  {
    var c := Constant(p.width, p.height, k);
    AddAt(p, c, i + 1, j);
    AddAt(p, c, i - 1, j);
    AddAt(p, c, i, j + 1);
    AddAt(p, c, i, j - 1);
    AtConstant(c, k, i + 1, j);
    AtConstant(c, k, i - 1, j);
    AtConstant(c, k, i, j + 1);
    AtConstant(c, k, i, j - 1);
  }

  lemma GradientSubtractConstant(p: Grid, u: Grid, v: Grid, c: real)
    requires Valid(p) && Field(u, v) && IsConstant(p, c)
    ensures GradientSubtract(p, u, v) == (u, v)
  {
    var r := GradientSubtract(p, u, v);
    forall i, j | 0 <= i < u.width && 0 <= j < u.height
      ensures r.0.cells[j][i] == u.cells[j][i] && r.1.cells[j][i] == v.cells[j][i]
    {
      AtConstant(p, c, i + 1, j);
      AtConstant(p, c, i - 1, j);
      AtConstant(p, c, i, j + 1);
      AtConstant(p, c, i, j - 1);
      assert At(u, i, j) == u.cells[j][i] && At(v, i, j) == v.cells[j][i];
    }
    Extensionality(r.0, u);
    Extensionality(r.1, v);
  }

  // ---------------------------------------------------------------- splat

  /** The splat shader at cell `(i, j)`: the target plus `color` weighted by
      `exp(-dot(p, p) / radius)`, where `p` is the offset from `point` with
      its x scaled by the aspect ratio. `falloff(d2, radius)` stands for
      `exp(-d2 / radius)`. */
  function SplatAt(target: Grid, pointX: real, pointY: real, aspectRatio: real, radius: real,
                   color: real, falloff: (real, real) -> real, i: int, j: int): real
    requires Valid(target)
  {
    At(target, i, j) + SplatWeight(target.width, target.height, pointX, pointY, aspectRatio, radius, falloff, i, j) * color
  }

  /** The splat's weight at cell `(i, j)` of a `w` by `h` texture. */
  function SplatWeight(w: nat, h: nat, pointX: real, pointY: real, aspectRatio: real, radius: real,
                       falloff: (real, real) -> real, i: int, j: int): real
    requires w > 0 && h > 0
  {
    var px := ((i as real + 0.5) / (w as real) - pointX) * aspectRatio;
    var py := (j as real + 0.5) / (h as real) - pointY;
    falloff(px * px + py * py, radius)
  }

  function Splat(target: Grid, pointX: real, pointY: real, aspectRatio: real, radius: real,
                 color: real, falloff: (real, real) -> real): (r: Grid)
    requires Valid(target)
    ensures Valid(r) && SameShape(r, target)
  {
    Build(target.width, target.height,
          (i, j) => SplatAt(target, pointX, pointY, aspectRatio, radius, color, falloff, i, j))
  }

  /** A splat of colour 0 changes nothing, and two splats at the same point
      with the same radius add up to one splat of the summed colour. */
  lemma SplatAdditive(target: Grid, x: real, y: real, aspect: real, radius: real,
                      c1: real, c2: real, falloff: (real, real) -> real)
    requires Valid(target)
    ensures Splat(target, x, y, aspect, radius, 0.0, falloff) == target
    ensures Splat(Splat(target, x, y, aspect, radius, c1, falloff), x, y, aspect, radius, c2, falloff)
            == Splat(target, x, y, aspect, radius, c1 + c2, falloff)
  {
    var s1 := Splat(target, x, y, aspect, radius, c1, falloff);
    var lhs := Splat(s1, x, y, aspect, radius, c2, falloff);
    var rhs := Splat(target, x, y, aspect, radius, c1 + c2, falloff);
    var zero := Splat(target, x, y, aspect, radius, 0.0, falloff);
    forall i, j | 0 <= i < target.width && 0 <= j < target.height
      ensures lhs.cells[j][i] == rhs.cells[j][i]
      ensures zero.cells[j][i] == target.cells[j][i]
    {
      var f := SplatWeight(target.width, target.height, x, y, aspect, radius, falloff, i, j);
      assert At(s1, i, j) == s1.cells[j][i] == At(target, i, j) + f * c1;
      assert lhs.cells[j][i] == At(s1, i, j) + f * c2;
      assert rhs.cells[j][i] == At(target, i, j) + f * (c1 + c2);
      assert f * c1 + f * c2 == f * (c1 + c2);
    }
    Extensionality(lhs, rhs);
    Extensionality(zero, target);
  }

  /** With a non-negative falloff (as `exp` is) a non-negative colour only
      ever adds dye. */
  lemma SplatMonotone(target: Grid, x: real, y: real, aspect: real, radius: real,
                      color: real, falloff: (real, real) -> real, i: int, j: int)
    requires Valid(target) && 0 <= i < target.width && 0 <= j < target.height
    requires color >= 0.0 && forall d, r :: falloff(d, r) >= 0.0
    ensures Splat(target, x, y, aspect, radius, color, falloff).cells[j][i] >= target.cells[j][i]
  {
    MulNonneg(SplatWeight(target.width, target.height, x, y, aspect, radius, falloff, i, j), color);
  }

  // ------------------------------------------------------------ advection

  /** Where the advection shader reads the source for cell `(i, j)` of
      `source`, with the velocity pair `u`, `v` at the simulation
      resolution. The velocity is read bilinearly at this fragment's
      texture coordinate and the fragment is traced back by
      `dt * velocity * texelSize` (the velocity's texel size). The result
      is in the source's texel space (`st` of `bilerp`), where the fragment
      itself sits at `(i, j)`. */
  function BackTrace(source: Grid, u: Grid, v: Grid, dt: real, i: int, j: int): (real, real)
    requires Valid(source) && Field(u, v)
  {
    var kx := u.width as real / source.width as real;
    var ky := u.height as real / source.height as real;
    var vx := Bilerp(u, (i as real + 0.5) * kx - 0.5, (j as real + 0.5) * ky - 0.5);
    var vy := Bilerp(v, (i as real + 0.5) * kx - 0.5, (j as real + 0.5) * ky - 0.5);
    (i as real - dt * vx / kx, j as real - dt * vy / ky)
  }

  /** The advection shader's `decay`: what the sample is divided by. */
  function Decay(dissipation: real, dt: real): real {
    1.0 + dissipation * dt
  }

  /** The source read bilinearly at the traced-back position of cell
      `(i, j)`: the shader's `result` before the decay. */
  function TracedSample(source: Grid, u: Grid, v: Grid, dt: real, i: int, j: int): real
    requires Valid(source) && Field(u, v)
  {
    var t := BackTrace(source, u, v, dt, i, j);
    Bilerp(source, t.0, t.1)
  }

  /** The advection shader at cell `(i, j)`: the traced-back sample divided
      by `1 + dissipation * dt`. */
  function AdvectAt(source: Grid, u: Grid, v: Grid, dt: real, dissipation: real, i: int, j: int): real
    requires Valid(source) && Field(u, v)
    requires Decay(dissipation, dt) != 0.0
  {
    TracedSample(source, u, v, dt, i, j) / Decay(dissipation, dt)
  }

  function Advect(source: Grid, u: Grid, v: Grid, dt: real, dissipation: real): (r: Grid)
    requires Valid(source) && Field(u, v)
    requires Decay(dissipation, dt) != 0.0
    ensures Valid(r) && SameShape(r, source)
  {
    Build(source.width, source.height, (i, j) => AdvectAt(source, u, v, dt, dissipation, i, j))
  }

  /** Advection with non-negative dissipation and time step never creates
      new extremes: a source bounded by `m` in absolute value stays so. */
  lemma AdvectBounded(source: Grid, u: Grid, v: Grid, dt: real, dissipation: real, m: real)
    requires Valid(source) && Field(u, v)
    requires dt >= 0.0 && dissipation >= 0.0
    requires Bounded(source, -m, m)
    ensures Bounded(Advect(source, u, v, dt, dissipation), -m, m)
  {
    MulNonneg(dissipation, dt);
    var d := Decay(dissipation, dt);
    forall i, j | 0 <= i < source.width && 0 <= j < source.height
      ensures -m <= Advect(source, u, v, dt, dissipation).cells[j][i] <= m
    {
      AdvectAtBounded(source, u, v, dt, dissipation, m, i, j);
    }
  }

  lemma AdvectAtBounded(source: Grid, u: Grid, v: Grid, dt: real, dissipation: real, m: real, i: int, j: int)
    requires Valid(source) && Field(u, v)
    requires Decay(dissipation, dt) >= 1.0
    requires Bounded(source, -m, m)
    ensures -m <= AdvectAt(source, u, v, dt, dissipation, i, j) <= m
  {
    var t := BackTrace(source, u, v, dt, i, j);
    BilerpBounded(source, t.0, t.1, -m, m);
    DivideShrinks(TracedSample(source, u, v, dt, i, j), Decay(dissipation, dt), m);
  }

  /** The decay only shrinks: with non-negative dissipation and time step
      the shader's output is the back-traced sample scaled down by the
      decay, never larger in magnitude, and equal to it without
      dissipation. */
  lemma AdvectDecay(source: Grid, u: Grid, v: Grid, dt: real, dissipation: real, i: int, j: int)
    requires Valid(source) && Field(u, v)
    requires dt >= 0.0 && dissipation >= 0.0
    ensures var sample := TracedSample(source, u, v, dt, i, j);
            var r := AdvectAt(source, u, v, dt, dissipation, i, j);
            && Abs(r) <= Abs(sample)
            && (dissipation == 0.0 ==> r == sample)
  {
    var sample := TracedSample(source, u, v, dt, i, j);
    var d := Decay(dissipation, dt);
    assert d >= 1.0 by {
      MulNonneg(dissipation, dt);
    }
    assert dissipation == 0.0 ==> d == 1.0;
    DivideByDecay(sample, d);
    assert AdvectAt(source, u, v, dt, dissipation, i, j) == sample / d;
  }

  lemma DivideByDecay(x: real, d: real)
    requires d >= 1.0
    ensures (x / d) * d == x
    ensures Abs(x / d) <= Abs(x)
    ensures d == 1.0 ==> x / d == x
  {
    DivideShrinks(x, d, Abs(x));
  }

  lemma DivideShrinks(x: real, d: real, m: real)
    requires d >= 1.0 && -m <= x <= m
    ensures -m <= x / d <= m
  {
    assert m >= 0.0;
    if x >= 0.0 {
      assert x / d <= x;
    } else {
      assert x / d >= x;
    }
  }

  /** A fluid at rest moves nothing: with zero velocity the source is read
      back at its own texels, only divided by `1 + dissipation * dt`; with
      no dissipation it is unchanged. */
  lemma AdvectAtRest(source: Grid, u: Grid, v: Grid, dt: real, dissipation: real)
    requires Valid(source) && Field(u, v)
    requires IsConstant(u, 0.0) && IsConstant(v, 0.0)
    requires Decay(dissipation, dt) != 0.0
    ensures forall i, j :: 0 <= i < source.width && 0 <= j < source.height ==>
              Advect(source, u, v, dt, dissipation).cells[j][i] == source.cells[j][i] / Decay(dissipation, dt)
    ensures dissipation == 0.0 ==> Advect(source, u, v, dt, dissipation) == source
  {
    var r := Advect(source, u, v, dt, dissipation);
    var d := Decay(dissipation, dt);
    forall i, j | 0 <= i < source.width && 0 <= j < source.height
      ensures r.cells[j][i] == source.cells[j][i] / d
    {
      AdvectAtRestCell(source, u, v, dt, dissipation, i, j);
    }
    if dissipation == 0.0 {
      assert d == 1.0;
      forall i, j | 0 <= i < source.width && 0 <= j < source.height
        ensures r.cells[j][i] == source.cells[j][i]
      {
      }
      Extensionality(r, source);
    }
  }

  lemma AdvectAtRestCell(source: Grid, u: Grid, v: Grid, dt: real, dissipation: real, i: int, j: int)
    requires Valid(source) && Field(u, v)
    requires IsConstant(u, 0.0) && IsConstant(v, 0.0)
    requires Decay(dissipation, dt) != 0.0
    requires 0 <= i < source.width && 0 <= j < source.height
    ensures AdvectAt(source, u, v, dt, dissipation, i, j) == source.cells[j][i] / Decay(dissipation, dt)
  {
    BackTraceAtRest(source, u, v, dt, i, j);
    BilerpAtTexel(source, i, j);
  }

  /** With zero velocity every fragment traces back to itself. */
  lemma BackTraceAtRest(source: Grid, u: Grid, v: Grid, dt: real, i: int, j: int)
    requires Valid(source) && Field(u, v)
    requires IsConstant(u, 0.0) && IsConstant(v, 0.0)
    ensures BackTrace(source, u, v, dt, i, j) == (i as real, j as real)
  {
    var kx := u.width as real / source.width as real;
    var ky := u.height as real / source.height as real;
    var px := (i as real + 0.5) * kx - 0.5;
    var py := (j as real + 0.5) * ky - 0.5;
    BilerpConstant(u, 0.0, px, py);
    BilerpConstant(v, 0.0, px, py);
    assert kx > 0.0 && ky > 0.0;
    assert dt * Bilerp(u, px, py) / kx == 0.0;
    assert dt * Bilerp(v, px, py) / ky == 0.0;
  }
}
