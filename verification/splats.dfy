/**
  Turning pointer motion into splats: the velocity-dependent radius of the
  velocity-splat mode, `splatPointer`'s choice between no splat, a splat of
  that radius and a splat of the configured radius, `applyInputs`' sweep
  over the pointer pool, and what one splat does to the fluid's fields.
 */
module Splats {
  import opened Common
  import opened EngineConfig
  import opened Grids
  import opened Kernels
  import opened Stepper
  import opened Pointers

  /** Velocity splats smaller than this are skipped. */
  const MinRadius: real := 0.00001

  /** `Math.max` and `Math.min` on numbers that are not NaN. */
  function Max(a: real, b: real): (r: real)
    ensures r >= a && r >= b && (r == a || r == b)
  {
    if a >= b then a else b
  }

  function Min(a: real, b: real): (r: real)
    ensures r <= a && r <= b && (r == a || r == b)
  {
    if a <= b then a else b
  }

  /** The boosted speed as `splatPointer` normalises it: the part above the
      threshold, divided by the sensitivity and capped at 1. */
  function Normalize(boosted: real, c: Config): real
    requires c.velocitySensitivity > 0.0
  {
    Min(Max(boosted - c.velocityThreshold, 0.0) / c.velocitySensitivity, 1.0)
  }

  /** The radius `splatPointer` computes in velocity-splat mode: the speed
      is boosted and normalised, and scales the maximum radius (given in
      hundredths). */
  function VelocityRadius(speed: real, c: Config): real
    requires c.velocitySensitivity > 0.0
  {
    RadiusOf(Normalize(Boost(speed, c), c), c)
  }

  function Boost(speed: real, c: Config): real {
    speed * c.velocitySpeedBoost
  }

  /** The maximum radius scaled by the normalised speed, in hundredths. */
  function RadiusOf(normalized: real, c: Config): real {
    normalized * c.velocityMaxRadius / 100.0
  }

  /** The normalised speed lies in `[0, 1]`; it is 0 inside the dead zone
      (boosted speed at most the threshold) and 1 once the boosted speed
      exceeds the threshold by the sensitivity. */
  lemma NormalizeRange(boosted: real, c: Config)
    requires c.velocitySensitivity > 0.0
    ensures 0.0 <= Normalize(boosted, c) <= 1.0
    ensures boosted <= c.velocityThreshold ==> Normalize(boosted, c) == 0.0
    ensures boosted >= c.velocityThreshold + c.velocitySensitivity ==> Normalize(boosted, c) == 1.0
  {
    var s := c.velocitySensitivity;
    var effective := Max(boosted - c.velocityThreshold, 0.0);
    DivNonneg(effective, s);
    if boosted >= c.velocityThreshold + s {
      DivAtLeastOne(effective, s);
    }
  }

  /** The radius lies between 0 and the maximum; it is 0 inside the dead
      zone and the maximum once the boosted speed exceeds the threshold by
      the sensitivity. */
  lemma VelocityRadiusRange(speed: real, c: Config)
    requires c.velocitySensitivity > 0.0 && c.velocityMaxRadius >= 0.0
    ensures 0.0 <= VelocityRadius(speed, c) <= c.velocityMaxRadius / 100.0
    ensures speed * c.velocitySpeedBoost <= c.velocityThreshold ==> VelocityRadius(speed, c) == 0.0
    ensures speed * c.velocitySpeedBoost >= c.velocityThreshold + c.velocitySensitivity ==>
              VelocityRadius(speed, c) == c.velocityMaxRadius / 100.0
  {
    var n := Normalize(speed * c.velocitySpeedBoost, c);
    NormalizeRange(speed * c.velocitySpeedBoost, c);
    MulNonneg(n, c.velocityMaxRadius);
    MulNonneg(1.0 - n, c.velocityMaxRadius);
    assert (1.0 - n) * c.velocityMaxRadius == c.velocityMaxRadius - n * c.velocityMaxRadius;
    assert VelocityRadius(speed, c) == n * c.velocityMaxRadius / 100.0;
    assert n * c.velocityMaxRadius <= c.velocityMaxRadius;
  }

  lemma DivNonneg(x: real, d: real)
    requires x >= 0.0 && d > 0.0
    ensures x / d >= 0.0
  {
  }

  lemma DivAtLeastOne(x: real, d: real)
    requires x >= d > 0.0
    ensures x / d >= 1.0
  {
    var q := x / d;
    assert q * d == x;
    if q < 1.0 {
      StrictMulPositive(1.0 - q, d);
    }
  }

  /** Dividing by a positive number preserves order. */
  lemma DivMonotone(x: real, y: real, d: real)
    requires x <= y && d > 0.0
    ensures x / d <= y / d
  {
    DivNonneg(y - x, d);
    assert y / d - x / d == (y - x) / d;
  }

  /** A faster pointer never gets a smaller splat. */
  lemma VelocityRadiusMonotone(s1: real, s2: real, c: Config)
    requires c.velocitySensitivity > 0.0 && c.velocityMaxRadius >= 0.0 && c.velocitySpeedBoost >= 0.0
    requires s1 <= s2
    ensures VelocityRadius(s1, c) <= VelocityRadius(s2, c)
  {
    ScaleMonotone(s1, s2, c.velocitySpeedBoost, 1.0);
    NormalizeMonotone(Boost(s1, c), Boost(s2, c), c);
    ScaleMonotone(Normalize(Boost(s1, c), c), Normalize(Boost(s2, c), c), c.velocityMaxRadius, 100.0);
  }

  /** Scaling by a non-negative factor and dividing by a positive one
      preserves order. */
  lemma ScaleMonotone(x: real, y: real, m: real, d: real)
    requires x <= y && m >= 0.0 && d > 0.0
    ensures x * m <= y * m
    ensures x * m / d <= y * m / d
  {
    MulNonneg(y - x, m);
    assert (y - x) * m == y * m - x * m;
    DivMonotone(x * m, y * m, d);
  }

  lemma NormalizeMonotone(b1: real, b2: real, c: Config)
    requires c.velocitySensitivity > 0.0 && b1 <= b2
    ensures Normalize(b1, c) <= Normalize(b2, c)
  {
    DivMonotone(Max(b1 - c.velocityThreshold, 0.0), Max(b2 - c.velocityThreshold, 0.0), c.velocitySensitivity);
  }

  /** One splat as `splat`/`splatWithRadius` issue it: the position, the
      force written into the velocity, the colour written into the dye and
      the aspect-corrected radius. */
  datatype Splat = Splat(x: real, y: real, dx: real, dy: real, color: Color, radius: real)

  /** `sqrt` is the square root on non-negative numbers. */
  ghost predicate IsSqrt(sqrt: real -> real) {
    forall x :: x >= 0.0 ==> sqrt(x) >= 0.0 && sqrt(x) * sqrt(x) == x
  }

  /** The pointer's speed in texture coordinates, `sqrt(dx^2 + dy^2)`. */
  function Speed(p: Pointer, sqrt: real -> real): real {
    sqrt(p.deltaX * p.deltaX + p.deltaY * p.deltaY)
  }

  /** `splatPointer`: the force is the delta times SPLAT_FORCE. In
      velocity-splat mode the radius follows the speed and a radius below
      `MinRadius` means no splat; otherwise the configured SPLAT_RADIUS (in
      hundredths) is used. Either radius is aspect-corrected. */
  function SplatPointer(p: Pointer, c: Config, canvas: Canvas, sqrt: real -> real): (r: Option<Splat>)
    requires ValidCanvas(canvas)
    requires c.velocitySplat ==> c.velocitySensitivity > 0.0
    ensures r.Some? ==>
              && r.value.x == p.texcoordX && r.value.y == p.texcoordY
              && r.value.dx == p.deltaX * c.splatForce && r.value.dy == p.deltaY * c.splatForce
              && r.value.color == p.color
    ensures !c.velocitySplat ==> r.Some? && r.value.radius == CorrectRadius(canvas, c.splatRadius / 100.0)
    ensures c.velocitySplat ==>
              (r.None? <==> VelocityRadius(Speed(p, sqrt), c) < MinRadius)
    ensures c.velocitySplat && r.Some? ==>
              r.value.radius == CorrectRadius(canvas, VelocityRadius(Speed(p, sqrt), c))
  {
    var dx := p.deltaX * c.splatForce;
    var dy := p.deltaY * c.splatForce;
    if c.velocitySplat then
      var radius := VelocityRadius(Speed(p, sqrt), c);
      if radius < MinRadius then None
      else Some(Splat(p.texcoordX, p.texcoordY, dx, dy, p.color, CorrectRadius(canvas, radius)))
    else
      Some(Splat(p.texcoordX, p.texcoordY, dx, dy, p.color, CorrectRadius(canvas, c.splatRadius / 100.0)))
  }

  /** In velocity-splat mode with a non-negative threshold, a pointer whose
      delta is zero makes no splat, and a splat that is made has at least
      the minimum radius and at most the aspect-corrected maximum. */
  lemma VelocitySplatBounds(p: Pointer, c: Config, canvas: Canvas, sqrt: real -> real)
    requires ValidCanvas(canvas) && IsSqrt(sqrt)
    requires c.velocitySplat && c.velocitySensitivity > 0.0 && c.velocityMaxRadius >= 0.0
    ensures p.deltaX == 0.0 && p.deltaY == 0.0 && c.velocityThreshold >= 0.0 ==>
              SplatPointer(p, c, canvas, sqrt).None?
    ensures var r := SplatPointer(p, c, canvas, sqrt);
            r.Some? ==> MinRadius <= r.value.radius <= CorrectRadius(canvas, c.velocityMaxRadius / 100.0)
  {
    var speed := Speed(p, sqrt);
    VelocityRadiusRange(speed, c);
    if p.deltaX == 0.0 && p.deltaY == 0.0 {
      SqrtZero(sqrt);
    }
    var radius := VelocityRadius(speed, c);
    CorrectionsShrinkDeltas(canvas, radius);
    CorrectRadiusMonotone(canvas, radius, c.velocityMaxRadius / 100.0);
  }

  lemma SqrtZero(sqrt: real -> real)
    requires IsSqrt(sqrt)
    ensures sqrt(0.0) == 0.0
  {
    var z := sqrt(0.0);
    assert z >= 0.0 && z * z == 0.0;
    assert z == 0.0 by { NonnegRootOfZero(z, z); }
  }

  /** Stated with two names for the one number: the solver reasons poorly
      about a literal square. */
  lemma NonnegRootOfZero(z: real, w: real)
    requires z >= 0.0 && w == z && z * w == 0.0
    ensures z == 0.0
  {
    ZeroProduct(z, w);
  }

  /** A product is zero only when a factor is. */
  lemma ZeroProduct(x: real, y: real)
    requires x * y == 0.0
    ensures x == 0.0 || y == 0.0
  {
  }

  /** The radius correction preserves order. */
  lemma CorrectRadiusMonotone(canvas: Canvas, a: real, b: real)
    requires ValidCanvas(canvas) && a <= b
    ensures CorrectRadius(canvas, a) <= CorrectRadius(canvas, b)
  {
    MulNonneg(b - a, AspectRatio(canvas));
  }

  /** The splats the pointer sweep of `applyInputs` issues, in pool order:
      one per moved pointer that `splatPointer` does not skip. */
  function PointerSplats(ps: seq<Pointer>, c: Config, canvas: Canvas, sqrt: real -> real): (r: seq<Splat>)
    requires ValidCanvas(canvas)
    requires c.velocitySplat ==> c.velocitySensitivity > 0.0
    ensures |r| <= |ps|
    decreases |ps|
  {
    if ps == [] then []
    else PointerSplats(ps[..|ps| - 1], c, canvas, sqrt) + SweepOne(ps[|ps| - 1], c, canvas, sqrt)
  }

  /** What the sweep issues for one pointer: its splat if it moved and
      `splatPointer` does not skip it, nothing otherwise. */
  function SweepOne(p: Pointer, c: Config, canvas: Canvas, sqrt: real -> real): (r: seq<Splat>)
    requires ValidCanvas(canvas)
    requires c.velocitySplat ==> c.velocitySensitivity > 0.0
    ensures |r| <= 1 && (!p.moved ==> r == [])
    ensures p.moved && !c.velocitySplat ==> |r| == 1
  {
    if !p.moved then []
    else match SplatPointer(p, c, canvas, sqrt)
      case None => []
      case Some(s) => [s]
  }

  /** A pool with no moved pointer issues no splat; with the fixed-radius
      mode, a pool whose every pointer moved issues one splat per pointer. */
  lemma {:induction false} PointerSplatsCount(ps: seq<Pointer>, c: Config, canvas: Canvas, sqrt: real -> real)
    requires ValidCanvas(canvas)
    requires c.velocitySplat ==> c.velocitySensitivity > 0.0
    ensures (forall k :: 0 <= k < |ps| ==> !ps[k].moved) ==> PointerSplats(ps, c, canvas, sqrt) == []
    ensures !c.velocitySplat && (forall k :: 0 <= k < |ps| ==> ps[k].moved) ==>
              |PointerSplats(ps, c, canvas, sqrt)| == |ps|
    decreases |ps|
  {
    if ps != [] {
      var front := ps[..|ps| - 1];
      PointerSplatsCount(front, c, canvas, sqrt);
      assert forall k :: 0 <= k < |front| ==> front[k] == ps[k];
    }
  }

  /** A pointer after the sweep: its motion is consumed, nothing else
      changes. */
  function Handled(p: Pointer): (r: Pointer)
    ensures !r.moved && r.(moved := p.moved) == p
  {
    p.(moved := false)
  }

  /** `applyInputs`: a pending burst count is popped off the splat stack
      (its splats are random, so only the count is reported), then every
      moved pointer is cleared and splatted in pool order. */
  method ApplyInputs(pointers: seq<Pointer>, splatStack: seq<int>, c: Config, canvas: Canvas, sqrt: real -> real)
    returns (ps: seq<Pointer>, stack: seq<int>, burst: Option<int>, splats: seq<Splat>)
    requires ValidCanvas(canvas)
    requires c.velocitySplat ==> c.velocitySensitivity > 0.0
    ensures splatStack == [] ==> burst == None && stack == []
    ensures splatStack != [] ==>
              burst == Some(splatStack[|splatStack| - 1]) && stack == splatStack[..|splatStack| - 1]
    ensures |ps| == |pointers|
    ensures forall k :: 0 <= k < |ps| ==> ps[k] == Handled(pointers[k])
    ensures splats == PointerSplats(pointers, c, canvas, sqrt)
  {
    if |splatStack| > 0 {
      burst := Some(splatStack[|splatStack| - 1]);
      stack := splatStack[..|splatStack| - 1];
    } else {
      burst := None;
      stack := splatStack;
    }
    ps := [];
    splats := [];
    var i := 0;
    while i < |pointers|
      invariant 0 <= i <= |pointers| && |ps| == i
      invariant forall k :: 0 <= k < i ==> ps[k] == Handled(pointers[k])
      invariant splats == PointerSplats(pointers[..i], c, canvas, sqrt)
    {
      var p := pointers[i];
      var issued := SweepOne(p, c, canvas, sqrt);
      PointerSplatsStep(pointers, i, c, canvas, sqrt);
      splats := splats + issued;
      ps := ps + [Handled(p)];
      i := i + 1;
    }
    assert pointers[..i] == pointers;
  }

  /** The sweep over the first `i + 1` pointers is the sweep over the first
      `i` followed by pointer `i`'s splats. */
  lemma PointerSplatsStep(pointers: seq<Pointer>, i: nat, c: Config, canvas: Canvas, sqrt: real -> real)
    requires ValidCanvas(canvas)
    requires c.velocitySplat ==> c.velocitySensitivity > 0.0
    requires i < |pointers|
    ensures PointerSplats(pointers[..i + 1], c, canvas, sqrt)
            == PointerSplats(pointers[..i], c, canvas, sqrt) + SweepOne(pointers[i], c, canvas, sqrt)
  {
    assert pointers[..i + 1][..i] == pointers[..i];
  }

  /** After a sweep has cleared the moved flags, a second sweep in the same
      frame splats nothing. */
  lemma SecondSweepIsQuiet(pointers: seq<Pointer>, c: Config, canvas: Canvas, sqrt: real -> real)
    requires ValidCanvas(canvas)
    requires c.velocitySplat ==> c.velocitySensitivity > 0.0
    ensures PointerSplats(seq(|pointers|, k requires 0 <= k < |pointers| => Handled(pointers[k])),
                          c, canvas, sqrt) == []
  {
    PointerSplatsCount(seq(|pointers|, k requires 0 <= k < |pointers| => Handled(pointers[k])), c, canvas, sqrt);
  }

  /** What one splat does to the fluid: the splat shader adds the falloff
      times `(dx, dy)` to the velocity and times the colour to the dye, at
      the canvas aspect ratio. The pressure is untouched. */
  function ApplySplat(f: Fluid, s: Splat, aspect: real, falloff: (real, real) -> real): (r: Fluid)
    requires FluidValid(f)
    ensures FluidValid(r) && r.p == f.p
  {
    f.(u := Kernels.Splat(f.u, s.x, s.y, aspect, s.radius, s.dx, falloff),
       v := Kernels.Splat(f.v, s.x, s.y, aspect, s.radius, s.dy, falloff),
       dyeR := Kernels.Splat(f.dyeR, s.x, s.y, aspect, s.radius, s.color.r, falloff),
       dyeG := Kernels.Splat(f.dyeG, s.x, s.y, aspect, s.radius, s.color.g, falloff),
       dyeB := Kernels.Splat(f.dyeB, s.x, s.y, aspect, s.radius, s.color.b, falloff))
  }

  /** A splat with no force and a black colour leaves the fluid as it was. */
  lemma ApplySplatZero(f: Fluid, s: Splat, aspect: real, falloff: (real, real) -> real)
    requires FluidValid(f)
    requires s.dx == 0.0 && s.dy == 0.0 && s.color == Color(0.0, 0.0, 0.0)
    ensures ApplySplat(f, s, aspect, falloff) == f
  {
    var r := ApplySplat(f, s, aspect, falloff);
    assert r.u == f.u by { SplatAdditive(f.u, s.x, s.y, aspect, s.radius, 0.0, 0.0, falloff); }
    assert r.v == f.v by { SplatAdditive(f.v, s.x, s.y, aspect, s.radius, 0.0, 0.0, falloff); }
    assert r.dyeR == f.dyeR by { SplatAdditive(f.dyeR, s.x, s.y, aspect, s.radius, 0.0, 0.0, falloff); }
    assert r.dyeG == f.dyeG by { SplatAdditive(f.dyeG, s.x, s.y, aspect, s.radius, 0.0, 0.0, falloff); }
    assert r.dyeB == f.dyeB by { SplatAdditive(f.dyeB, s.x, s.y, aspect, s.radius, 0.0, 0.0, falloff); }
  }

  /** Two splats at the same place and radius add up to one splat of the
      summed force and colour. */
  lemma ApplySplatAdditive(f: Fluid, s: Splat, t: Splat, aspect: real, falloff: (real, real) -> real)
    requires FluidValid(f)
    requires s.x == t.x && s.y == t.y && s.radius == t.radius
    ensures ApplySplat(ApplySplat(f, s, aspect, falloff), t, aspect, falloff)
            == ApplySplat(f, Splat(s.x, s.y, s.dx + t.dx, s.dy + t.dy,
                                   Color(s.color.r + t.color.r, s.color.g + t.color.g, s.color.b + t.color.b),
                                   s.radius),
                          aspect, falloff)
  {
    var once := ApplySplat(f, s, aspect, falloff);
    var lhs := ApplySplat(once, t, aspect, falloff);
    var rhs := ApplySplat(f, Splat(s.x, s.y, s.dx + t.dx, s.dy + t.dy,
                                   Color(s.color.r + t.color.r, s.color.g + t.color.g, s.color.b + t.color.b),
                                   s.radius),
                          aspect, falloff);
    assert lhs.u == rhs.u by { SplatAdditive(f.u, s.x, s.y, aspect, s.radius, s.dx, t.dx, falloff); }
    assert lhs.v == rhs.v by { SplatAdditive(f.v, s.x, s.y, aspect, s.radius, s.dy, t.dy, falloff); }
    assert lhs.dyeR == rhs.dyeR by { SplatAdditive(f.dyeR, s.x, s.y, aspect, s.radius, s.color.r, t.color.r, falloff); }
    assert lhs.dyeG == rhs.dyeG by { SplatAdditive(f.dyeG, s.x, s.y, aspect, s.radius, s.color.g, t.color.g, falloff); }
    assert lhs.dyeB == rhs.dyeB by { SplatAdditive(f.dyeB, s.x, s.y, aspect, s.radius, s.color.b, t.color.b, falloff); }
  }
}
