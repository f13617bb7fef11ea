/**
  The contents of a simulation texture as a real-valued grid, and the two
  ways the shaders read it: a texel fetch at a neighbouring cell with
  CLAMP_TO_EDGE wrapping (what `texture2D(u, vL)` and friends return when
  the texel size matches the grid), and bilinear sampling at an arbitrary
  position (the `bilerp` of the advection shader).

  Cell `(i, j)` is column `i` and row `j`; its centre is the texture
  coordinate `((i + 0.5) / width, (j + 0.5) / height)`, which is texel
  position `(i, j)` in the `st` space of `bilerp`. Rows grow upwards, as
  texture `y` does. A multi-channel texture is one grid per channel.
 */
module Grids {
  import opened Common

  datatype Grid = Grid(width: nat, height: nat, cells: seq<seq<real>>)

  /** A non-empty rectangular grid, `cells[j][i]` for row `j`, column `i`. */
  predicate Valid(g: Grid) {
    && g.width > 0 && g.height > 0
    && |g.cells| == g.height
    && forall j :: 0 <= j < g.height ==> |g.cells[j]| == g.width
  }

  predicate SameShape(a: Grid, b: Grid) {
    a.width == b.width && a.height == b.height
  }

  /** CLAMP_TO_EDGE on one axis: an index outside `[0, n)` reads the
      nearest edge texel. */
  function ClampIndex(k: int, n: nat): (r: nat)
    requires n > 0
    ensures r < n
    ensures 0 <= k < n ==> r == k
    ensures k < 0 ==> r == 0
    ensures k >= n ==> r == n - 1
  {
    if k < 0 then 0 else if k >= n then n - 1 else k
  }

  /** The texel fetch at cell `(i, j)`, wrapped with CLAMP_TO_EDGE. */
  function At(g: Grid, i: int, j: int): real
    requires Valid(g)
  {
    g.cells[ClampIndex(j, g.height)][ClampIndex(i, g.width)]
  }

  /** The grid whose cell `(i, j)` is `f(i, j)`: one full-screen pass of a
      fragment shader. */
  function Build(w: nat, h: nat, f: (int, int) -> real): (g: Grid)
    requires w > 0 && h > 0
    ensures Valid(g) && g.width == w && g.height == h
    ensures forall i, j :: 0 <= i < w && 0 <= j < h ==> g.cells[j][i] == f(i, j)
  {
    Grid(w, h, seq(h, j => seq(w, i => f(i, j))))
  }

  /** Two grids of the same shape with the same cells are the same grid. */
  lemma Extensionality(a: Grid, b: Grid)
    requires Valid(a) && Valid(b) && SameShape(a, b)
    requires forall i, j :: 0 <= i < a.width && 0 <= j < a.height ==> a.cells[j][i] == b.cells[j][i]
    ensures a == b
  {
    forall j | 0 <= j < a.height
      ensures a.cells[j] == b.cells[j]
    {
      assert forall i :: 0 <= i < a.width ==> a.cells[j][i] == b.cells[j][i];
    }
  }

  /** Every cell equals `c`. */
  predicate IsConstant(g: Grid, c: real) {
    Valid(g) && forall i, j :: 0 <= i < g.width && 0 <= j < g.height ==> g.cells[j][i] == c
  }

  /** Every cell lies in `[lo, hi]`. */
  predicate Bounded(g: Grid, lo: real, hi: real) {
    Valid(g) && forall i, j :: 0 <= i < g.width && 0 <= j < g.height ==> lo <= g.cells[j][i] <= hi
  }

  function Constant(w: nat, h: nat, c: real): (g: Grid)
    requires w > 0 && h > 0
    ensures Valid(g) && g.width == w && g.height == h && IsConstant(g, c)
  {
    Build(w, h, (i, j) => c)
  }

  /** Cell-wise sum and scaling, used to state linearity. */
  function Add(a: Grid, b: Grid): (r: Grid)
    requires Valid(a) && Valid(b) && SameShape(a, b)
    ensures Valid(r) && SameShape(r, a)
  {
    Build(a.width, a.height, (i, j) => At(a, i, j) + At(b, i, j))
  }

  /** A clamped fetch reads a cell of the grid, so it obeys any bound the
      cells obey and is constant on a constant grid. */
  lemma AtBounded(g: Grid, lo: real, hi: real, i: int, j: int)
    requires Valid(g) && Bounded(g, lo, hi)
    ensures lo <= At(g, i, j) <= hi
  {
    var ci := ClampIndex(i, g.width);
    var cj := ClampIndex(j, g.height);
    assert lo <= g.cells[cj][ci] <= hi;
  }

  lemma AtConstant(g: Grid, c: real, i: int, j: int)
    requires Valid(g) && IsConstant(g, c)
    ensures At(g, i, j) == c
  {
    var ci := ClampIndex(i, g.width);
    var cj := ClampIndex(j, g.height);
    assert g.cells[cj][ci] == c;
  }

  /** GLSL `mix(a, b, t)`. */
  function Mix(a: real, b: real, t: real): real {
    a * (1.0 - t) + b * t
  }

  /** The advection shader's `bilerp(sam, uv, tsize)` in texel space: with
      `st = uv / tsize - 0.5` it reads the four texels around `st`
      (CLAMP_TO_EDGE) and blends them by `fract(st)`. Hardware LINEAR
      filtering computes the same blend. */
  function Bilerp(g: Grid, sx: real, sy: real): real
    requires Valid(g)
  {
    var ix := sx.Floor;
    var iy := sy.Floor;
    var fx := sx - ix as real;
    var fy := sy - iy as real;
    Mix(Mix(At(g, ix, iy), At(g, ix + 1, iy), fx),
        Mix(At(g, ix, iy + 1), At(g, ix + 1, iy + 1), fx),
        fy)
  }

  /** At a texel centre (`st` a whole number) bilinear filtering returns
      exactly that texel. */
  lemma BilerpAtTexel(g: Grid, i: int, j: int)
    requires Valid(g)
    ensures Bilerp(g, i as real, j as real) == At(g, i, j)
  {
    assert (i as real).Floor == i && (j as real).Floor == j;
  }

  /** Bilinear sampling of a constant grid reads the constant, wherever it
      samples. */
  lemma BilerpConstant(g: Grid, c: real, sx: real, sy: real)
    requires IsConstant(g, c)
    ensures Bilerp(g, sx, sy) == c
  {
    var ix := sx.Floor;
    var iy := sy.Floor;
    AtConstant(g, c, ix, iy);
    AtConstant(g, c, ix + 1, iy);
    AtConstant(g, c, ix, iy + 1);
    AtConstant(g, c, ix + 1, iy + 1);
    MixSame(c, sx - ix as real);
    MixSame(c, sy - iy as real);
  }

  lemma MixSame(c: real, t: real)
    ensures Mix(c, c, t) == c
  {
  }

  /** A blend with weight in `[0, 1]` stays between its ends' bounds. */
  lemma MixBounded(a: real, b: real, t: real, lo: real, hi: real)
    requires lo <= a <= hi && lo <= b <= hi && 0.0 <= t <= 1.0
    ensures lo <= Mix(a, b, t) <= hi
  {
    assert Mix(a, b, t) - lo == (a - lo) * (1.0 - t) + (b - lo) * t;
    assert hi - Mix(a, b, t) == (hi - a) * (1.0 - t) + (hi - b) * t;
    MulNonneg(a - lo, 1.0 - t);
    MulNonneg(b - lo, t);
    MulNonneg(hi - a, 1.0 - t);
    MulNonneg(hi - b, t);
  }

  /** Bilinear sampling never leaves the range of the grid's values: the
      maximum principle behind the advection shader's reads. */
  lemma BilerpBounded(g: Grid, sx: real, sy: real, lo: real, hi: real)
    requires Valid(g) && Bounded(g, lo, hi)
    ensures lo <= Bilerp(g, sx, sy) <= hi
  {
    var ix := sx.Floor;
    var iy := sy.Floor;
    var fx := sx - ix as real;
    var fy := sy - iy as real;
    var a := At(g, ix, iy);
    var b := At(g, ix + 1, iy);
    var c := At(g, ix, iy + 1);
    var d := At(g, ix + 1, iy + 1);
    AtBounded(g, lo, hi, ix, iy);
    AtBounded(g, lo, hi, ix + 1, iy);
    AtBounded(g, lo, hi, ix, iy + 1);
    AtBounded(g, lo, hi, ix + 1, iy + 1);
    MixBounded(a, b, fx, lo, hi);
    MixBounded(c, d, fx, lo, hi);
    MixBounded(Mix(a, b, fx), Mix(c, d, fx), fy, lo, hi);
  }
}
