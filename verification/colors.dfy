/**
  The colour cycle of the engine's frame (`updateColors` and `wrap` in
  fluidSimulation.ts): a timer advances by `dt * COLOR_UPDATE_SPEED` while
  COLORFUL is set; when it reaches 1 it is wrapped back into `[0, 1)` and
  every pointer gets a fresh colour. The fresh colours come from a random
  generator and are a parameter here.
 */
module ColorCycle {
  import opened Common
  import opened Pointers

  /** Truncation toward zero, the rounding behind JavaScript's `%`. */
  function Trunc(x: real): int {
    if x >= 0.0 then x.Floor else -((-x).Floor)
  }

  /** JavaScript's `%` on numbers: the remainder takes the sign of the
      dividend. */
  function JsRem(a: real, r: real): real
    requires r != 0.0
  {
    a - r * (Trunc(a / r) as real)
  }

  /** `wrap(value, min, max)`: an empty range gives `min`, otherwise the
      offset from `min` reduced by the range length. */
  function Wrap(value: real, min: real, max: real): real {
    var range := max - min;
    if range == 0.0 then min else JsRem(value - min, range) + min
  }

  /** For a non-negative dividend and a positive divisor the remainder
      lies in `[0, r)`. */
  lemma RemInRange(a: real, r: real)
    requires a >= 0.0 && r > 0.0
    ensures 0.0 <= JsRem(a, r) < r
  {
    var q := a / r;
    assert q * r == a;
    ProductSign(q, r);
    var f := q.Floor as real;
    assert f <= q < f + 1.0;
    assert JsRem(a, r) == a - r * f;
    assert (q - f) * r == a - r * f;
    MulNonneg(q - f, r);
    var e := f + 1.0 - q;
    assert e > 0.0;
    StrictMulPositive(e, r);
    assert e * r > 0.0;
    assert e * r == r * f + r - a;
  }

  /** On values at or above `min` a non-empty range wraps into `[min, max)`,
      and a value already inside is left alone; an empty range gives `min`. */
  lemma WrapRange(value: real, min: real, max: real)
    ensures max == min ==> Wrap(value, min, max) == min
    ensures min < max && value >= min ==> min <= Wrap(value, min, max) < max
    ensures min <= value < max ==> Wrap(value, min, max) == value
  {
    if min < max && value >= min {
      RemInRange(value - min, max - min);
    }
    if min <= value < max {
      var d := max - min;
      var q := (value - min) / d;
      assert q * d == value - min;
      ProductSign(q, d);
      var e := 1.0 - q;
      assert e * d == max - value;
      ProductSign(e, d);
      assert 0.0 <= q < 1.0;
      assert Trunc(q) == 0;
      assert JsRem(value - min, max - min) == value - min;
    }
  }

  /** Below `min` the remainder keeps its negative sign, so the result
      falls under the range: `wrap(-0.5, 0, 1)` is `-0.5`. */
  lemma WrapBelowMin()
    ensures Wrap(-0.5, 0.0, 1.0) == -0.5
  {
    assert Trunc(-0.5 / 1.0) == 0;
  }

  /** The engine's colour state: the timer and the pointers. */
  datatype ColorState = ColorState(timer: real, pointers: seq<Pointer>)

  /** `updateColors(dt)` with `drawn[k]` the colour drawn for pointer `k`. */
  function UpdateColors(s: ColorState, colorful: bool, colorUpdateSpeed: real, dt: real, drawn: seq<Color>): (r: ColorState)
    requires |drawn| == |s.pointers|
    ensures |r.pointers| == |s.pointers|
  {
    if !colorful then s
    else
      var timer := s.timer + dt * colorUpdateSpeed;
      if timer >= 1.0 then
        ColorState(Wrap(timer, 0.0, 1.0), seq(|s.pointers|, k requires 0 <= k < |s.pointers| => s.pointers[k].(color := drawn[k])))
      else ColorState(timer, s.pointers)
  }

  /** The timer stays in `[0, 1)` for non-negative steps and speeds, the
      colours change all together exactly when it reached 1, and nothing
      but the colours of the pointers ever changes. */
  lemma UpdateColorsSpec(s: ColorState, colorful: bool, speed: real, dt: real, drawn: seq<Color>)
    requires |drawn| == |s.pointers|
    ensures var r := UpdateColors(s, colorful, speed, dt, drawn);
            && (0.0 <= s.timer < 1.0 && dt >= 0.0 && speed >= 0.0 ==> 0.0 <= r.timer < 1.0)
            && (!colorful ==> r == s)
            && (forall k :: 0 <= k < |s.pointers| ==> r.pointers[k].(color := s.pointers[k].color) == s.pointers[k])
            && (colorful && s.timer + dt * speed >= 1.0 ==>
                  forall k :: 0 <= k < |s.pointers| ==> r.pointers[k].color == drawn[k])
            && (!(colorful && s.timer + dt * speed >= 1.0) ==> r.pointers == s.pointers)
  {
    if colorful {
      var timer := s.timer + dt * speed;
      if dt >= 0.0 && speed >= 0.0 {
        MulNonneg(dt, speed);
      }
      if timer >= 1.0 {
        WrapRange(timer, 0.0, 1.0);
      }
    }
  }
}
