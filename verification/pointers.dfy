/**
  Pointer bookkeeping of the fluid engine: the pointer record, the
  aspect-ratio corrections applied to splat radii and pointer deltas, and
  the three updates a pointer receives (down, move, up). Positions arrive
  in drawing-buffer pixels with `y` growing downwards and are stored as
  texture coordinates with `y` growing upwards.
 */
module Pointers {
  import opened Common

  /** An RGB colour as the splat shader receives it. */
  datatype Color = Color(r: real, g: real, b: real)

  datatype Pointer = Pointer(
    id: int,
    texcoordX: real, texcoordY: real,
    prevTexcoordX: real, prevTexcoordY: real,
    deltaX: real, deltaY: real,
    down: bool, moved: bool,
    color: Color)

  /** `createPointer`: the mouse slot before any input, and the template the
      touch handler appends. */
  const DefaultPointer: Pointer :=
    Pointer(-1, 0.0, 0.0, 0.0, 0.0, 0.0, 0.0, false, false, Color(30.0, 0.0, 300.0))

  /** The drawing buffer that positions and splats are measured against. */
  datatype Canvas = Canvas(width: nat, height: nat)

  predicate ValidCanvas(c: Canvas) {
    c.width > 0 && c.height > 0
  }

  /** `canvas.width / canvas.height`. */
  function AspectRatio(c: Canvas): (a: real)
    requires ValidCanvas(c)
    ensures a > 0.0
    ensures a * (c.height as real) == c.width as real
  {
    c.width as real / c.height as real
  }

  /** The aspect ratio exceeds 1 exactly on a landscape canvas, and is below 1
      exactly on a portrait one. */
  lemma AspectOrientation(c: Canvas)
    requires ValidCanvas(c)
    ensures AspectRatio(c) > 1.0 <==> c.width > c.height
    ensures AspectRatio(c) < 1.0 <==> c.width < c.height
  {
    var a := AspectRatio(c);
    var h := c.height as real;
    var w := c.width as real;
    assert a * h == w;
    assert (a - 1.0) * h == w - h by {
      assert (a - 1.0) * h == a * h - 1.0 * h;
    }
    ProductSign(a - 1.0, h);
    assert a > 1.0 <==> w > h;
  }

  /** Multiplying by a positive number keeps the sign. */
  lemma ProductSign(x: real, y: real)
    requires y > 0.0
    ensures x * y > 0.0 <==> x > 0.0
    ensures x * y < 0.0 <==> x < 0.0
  {
    if x > 0.0 {
      StrictMulPositive(x, y);
    } else if x < 0.0 {
      StrictMulPositive(-x, y);
    }
  }

  lemma StrictMulPositive(x: real, y: real)
    requires x > 0.0 && y > 0.0
    ensures x * y > 0.0
  {
  }

  /** `correctRadius`: on a landscape canvas the radius is stretched by the
      aspect ratio, so that it is measured against the canvas height. */
  function CorrectRadius(c: Canvas, radius: real): (r: real)
    requires ValidCanvas(c)
  {
    var a := AspectRatio(c);
    if a > 1.0 then radius * a else radius
  }

  /** `correctDeltaX`: on a portrait canvas a horizontal delta is shrunk by
      the aspect ratio. */
  function CorrectDeltaX(c: Canvas, delta: real): (r: real)
    requires ValidCanvas(c)
  {
    var a := AspectRatio(c);
    if a < 1.0 then delta * a else delta
  }

  /** `correctDeltaY`: on a landscape canvas a vertical delta is divided by
      the aspect ratio. */
  function CorrectDeltaY(c: Canvas, delta: real): (r: real)
    requires ValidCanvas(c)
  {
    var a := AspectRatio(c);
    if a > 1.0 then delta / a else delta
  }

  /** The three corrections in terms of the canvas sides: each rescales one
      quantity from one side's units to the other's, on the canvases where
      that side is the longer, and is the identity elsewhere. */
  lemma CorrectionsRescale(c: Canvas, x: real)
    requires ValidCanvas(c)
    ensures c.width > c.height ==> CorrectRadius(c, x) * (c.height as real) == x * (c.width as real)
    ensures c.width <= c.height ==> CorrectRadius(c, x) == x
    ensures c.width < c.height ==> CorrectDeltaX(c, x) * (c.height as real) == x * (c.width as real)
    ensures c.width >= c.height ==> CorrectDeltaX(c, x) == x
    ensures c.width > c.height ==> CorrectDeltaY(c, x) * (c.width as real) == x * (c.height as real)
    ensures c.width <= c.height ==> CorrectDeltaY(c, x) == x
  {
    AspectOrientation(c);
    var a := AspectRatio(c);
    var h := c.height as real;
    assert x * a * h == x * (a * h);
    if c.width > c.height {
      assert CorrectDeltaY(c, x) * a == x;
      assert CorrectDeltaY(c, x) * (a * h) == x * h;
    }
  }

  /** A corrected delta is zero exactly when the raw delta is, keeps its
      sign and never grows; a corrected radius never shrinks. */
  lemma CorrectionsShrinkDeltas(c: Canvas, x: real)
    requires ValidCanvas(c)
    ensures CorrectDeltaX(c, x) == 0.0 <==> x == 0.0
    ensures CorrectDeltaY(c, x) == 0.0 <==> x == 0.0
    ensures Abs(CorrectDeltaX(c, x)) <= Abs(x)
    ensures Abs(CorrectDeltaY(c, x)) <= Abs(x)
    ensures (CorrectDeltaX(c, x) > 0.0 <==> x > 0.0) && (CorrectDeltaY(c, x) > 0.0 <==> x > 0.0)
    ensures x >= 0.0 ==> CorrectRadius(c, x) >= x
  {
    DeltaXShrinks(c, x);
    DeltaYShrinks(c, x);
    if x >= 0.0 {
      RadiusGrows(c, x);
    }
  }

  lemma DeltaXShrinks(c: Canvas, x: real)
    requires ValidCanvas(c)
    ensures CorrectDeltaX(c, x) == 0.0 <==> x == 0.0
    ensures CorrectDeltaX(c, x) > 0.0 <==> x > 0.0
    ensures Abs(CorrectDeltaX(c, x)) <= Abs(x)
  {
    var a := AspectRatio(c);
    if a < 1.0 {
      ScaleBelowOne(x, a);
    }
  }

  lemma DeltaYShrinks(c: Canvas, x: real)
    requires ValidCanvas(c)
    ensures CorrectDeltaY(c, x) == 0.0 <==> x == 0.0
    ensures CorrectDeltaY(c, x) > 0.0 <==> x > 0.0
    ensures Abs(CorrectDeltaY(c, x)) <= Abs(x)
  {
    var a := AspectRatio(c);
    if a > 1.0 {
      InverseBelowOne(a);
      ScaleBelowOne(x, 1.0 / a);
      assert x / a == x * (1.0 / a);
    }
  }

  lemma RadiusGrows(c: Canvas, x: real)
    requires ValidCanvas(c) && x >= 0.0
    ensures CorrectRadius(c, x) >= x
  {
    var a := AspectRatio(c);
    if a > 1.0 {
      MulNonneg(x, a - 1.0);
    }
  }

  /** The reciprocal of a number above 1 lies in `(0, 1)`. */
  lemma InverseBelowOne(a: real)
    requires a > 1.0
    ensures 0.0 < 1.0 / a < 1.0
  {
    var q := 1.0 / a;
    assert q * a == 1.0;
    ProductSign(q, a);
    assert (1.0 - q) * a == a - 1.0;
    ProductSign(1.0 - q, a);
  }

  /** Scaling by a factor in `(0, 1)` keeps the sign and zero-ness and does
      not grow the magnitude. */
  lemma ScaleBelowOne(x: real, a: real)
    requires 0.0 < a < 1.0
    ensures x * a == 0.0 <==> x == 0.0
    ensures x * a > 0.0 <==> x > 0.0
    ensures Abs(x * a) <= Abs(x)
  {
    if x > 0.0 {
      StrictMulPositive(x, a);
      MulNonneg(x, 1.0 - a);
    } else if x < 0.0 {
      StrictMulPositive(-x, a);
      MulNonneg(-x, 1.0 - a);
    }
  }

  /** The texture coordinate of pixel position `(posX, posY)`: `x` as a
      fraction of the width, `y` flipped. */
  function Texcoord(c: Canvas, posX: int, posY: int): (real, real)
    requires ValidCanvas(c)
  {
    (posX as real / c.width as real, 1.0 - posY as real / c.height as real)
  }

  /** The texture coordinate determines the pixel it came from: scaling
      back by the canvas size recovers the position. */
  lemma TexcoordInverse(c: Canvas, posX: int, posY: int)
    requires ValidCanvas(c)
    ensures Texcoord(c, posX, posY).0 * (c.width as real) == posX as real
    ensures (1.0 - Texcoord(c, posX, posY).1) * (c.height as real) == posY as real
  {
  }

  /** `updatePointerDownData`: the pointer takes the touch or mouse id, is
      placed at the position with no motion yet, and gets a fresh colour
      (`generateColor` is random, so the colour is a parameter). */
  function PointerDown(p: Pointer, c: Canvas, id: int, posX: int, posY: int, color: Color): (r: Pointer)
    requires ValidCanvas(c)
    ensures r.id == id && r.down && !r.moved && r.color == color
    ensures (r.texcoordX, r.texcoordY) == Texcoord(c, posX, posY)
    ensures r.prevTexcoordX == r.texcoordX && r.prevTexcoordY == r.texcoordY
    ensures r.deltaX == 0.0 && r.deltaY == 0.0
  {
    var t := Texcoord(c, posX, posY);
    p.(id := id, down := true, moved := false,
       texcoordX := t.0, texcoordY := t.1,
       prevTexcoordX := t.0, prevTexcoordY := t.1,
       deltaX := 0.0, deltaY := 0.0,
       color := color)
  }

  /** A pointer press overwrites every field: what the slot held before does
      not matter. */
  lemma PointerDownForgets(p: Pointer, q: Pointer, c: Canvas, id: int, posX: int, posY: int, color: Color)
    requires ValidCanvas(c)
    ensures PointerDown(p, c, id, posX, posY, color) == PointerDown(q, c, id, posX, posY, color)
  {
  }

  /** `updatePointerMoveData`: the old position becomes the previous one,
      the new position is stored, the aspect-corrected difference becomes
      the delta, and the pointer counts as moved when that delta is
      non-zero. */
  function PointerMove(p: Pointer, c: Canvas, posX: int, posY: int): (r: Pointer)
    requires ValidCanvas(c)
    ensures r.prevTexcoordX == p.texcoordX && r.prevTexcoordY == p.texcoordY
    ensures (r.texcoordX, r.texcoordY) == Texcoord(c, posX, posY)
    ensures r.id == p.id && r.down == p.down && r.color == p.color
    ensures r.moved <==> r.deltaX != 0.0 || r.deltaY != 0.0
  {
    var t := Texcoord(c, posX, posY);
    var dx := CorrectDeltaX(c, t.0 - p.texcoordX);
    var dy := CorrectDeltaY(c, t.1 - p.texcoordY);
    p.(prevTexcoordX := p.texcoordX, prevTexcoordY := p.texcoordY,
       texcoordX := t.0, texcoordY := t.1,
       deltaX := dx, deltaY := dy,
       moved := Abs(dx) > 0.0 || Abs(dy) > 0.0)
  }

  /** A move counts as a motion exactly when the pointer's texture
      coordinate changed, whatever the canvas shape; the deltas point the
      same way as the raw differences. */
  lemma MovedIffPositionChanged(p: Pointer, c: Canvas, posX: int, posY: int)
    requires ValidCanvas(c)
    ensures PointerMove(p, c, posX, posY).moved <==> Texcoord(c, posX, posY) != (p.texcoordX, p.texcoordY)
    ensures var r := PointerMove(p, c, posX, posY);
            (r.deltaX > 0.0 <==> r.texcoordX > p.texcoordX) && (r.deltaY > 0.0 <==> r.texcoordY > p.texcoordY)
  {
    var t := Texcoord(c, posX, posY);
    CorrectionsShrinkDeltas(c, t.0 - p.texcoordX);
    CorrectionsShrinkDeltas(c, t.1 - p.texcoordY);
  }

  /** On a square canvas the deltas are the raw texture-coordinate
      differences. */
  lemma MoveOnSquareCanvas(p: Pointer, c: Canvas, posX: int, posY: int)
    requires ValidCanvas(c) && c.width == c.height
    ensures var r := PointerMove(p, c, posX, posY);
            r.deltaX == r.texcoordX - p.texcoordX && r.deltaY == r.texcoordY - p.texcoordY
  {
    CorrectionsRescale(c, Texcoord(c, posX, posY).0 - p.texcoordX);
    CorrectionsRescale(c, Texcoord(c, posX, posY).1 - p.texcoordY);
  }

  /** A press followed by a move to the same pixel is not a motion. */
  lemma DownThenStill(p: Pointer, c: Canvas, id: int, posX: int, posY: int, color: Color)
    requires ValidCanvas(c)
    ensures var r := PointerMove(PointerDown(p, c, id, posX, posY, color), c, posX, posY);
            !r.moved && r.deltaX == 0.0 && r.deltaY == 0.0 && r.down
  {
    MovedIffPositionChanged(PointerDown(p, c, id, posX, posY, color), c, posX, posY);
    CorrectionsShrinkDeltas(c, 0.0);
  }

  /** `updatePointerUpData`: the pointer is released; nothing else about it
      changes (its id stays, so a later search by id still finds it). */
  function PointerUp(p: Pointer): (r: Pointer)
    ensures !r.down
    ensures r.(down := p.down) == p
  {
    p.(down := false)
  }

  /** Releasing twice is releasing once, and the id survives a release. */
  lemma PointerUpIdempotent(p: Pointer)
    ensures PointerUp(PointerUp(p)) == PointerUp(p)
    ensures PointerUp(p).id == p.id
  {
  }
}
