/**
  Render-target bookkeeping of the engine (`createFBO`, `createDoubleFBO`,
  `resizeDoubleFBO`, `getResolution`, `initFramebuffers` and the bloom and
  sunrays set-up in fluidSimulation.ts). A framebuffer is its identity
  (the GL texture/framebuffer pair, here a number drawn from a counter),
  its size, its texel size, its format and its filter; the pixels it holds
  are the grids of the Kernels module.
 */
module Framebuffers {
  import opened Common
  import opened Formats
  import opened EngineConfig

  /** `gl.LINEAR` or `gl.NEAREST`. */
  datatype Filter = Linear | Nearest

  /** `1.0 / n` as a JavaScript number: None stands for `Infinity`, the
      value a zero-sized target gets. */
  function Recip(n: int): (r: Option<real>)
    ensures r.None? <==> n == 0
    ensures r.Some? ==> r.value * (n as real) == 1.0
  {
    if n == 0 then None else Some(1.0 / (n as real))
  }

  /** One render target (the `FBO` record). */
  datatype Fbo = Fbo(
    id: nat,
    width: int,
    height: int,
    texelSizeX: Option<real>,
    texelSizeY: Option<real>,
    format: SupportedFormat,
    filter: Filter)

  /** A ping-pong pair (the `DoubleFBO` record). Passes read `read` and
      write `write`, then swap. */
  datatype DoubleFbo = DoubleFbo(
    width: int,
    height: int,
    texelSizeX: Option<real>,
    texelSizeY: Option<real>,
    read: Fbo,
    write: Fbo)

  /** `createFBO(w, h, ...)`: a fresh target with identity `next`; the
      counter advances by one. */
  function CreateFbo(next: nat, w: int, h: int, format: SupportedFormat, filter: Filter): (r: (Fbo, nat))
    ensures r.0.id == next && r.1 == next + 1
    ensures r.0.width == w && r.0.height == h
    ensures r.0.format == format && r.0.filter == filter
    ensures r.0.texelSizeX.Some? ==> r.0.texelSizeX.value * (w as real) == 1.0
    ensures r.0.texelSizeY.Some? ==> r.0.texelSizeY.value * (h as real) == 1.0
    ensures r.0.texelSizeX.None? <==> w == 0
    ensures r.0.texelSizeY.None? <==> h == 0
  {
    (Fbo(next, w, h, Recip(w), Recip(h), format, filter), next + 1)
  }

  /** `createDoubleFBO(w, h, ...)`: two fresh targets, the first becoming
      `read`; the pair's texel size is copied from the first. */
  function CreateDoubleFbo(next: nat, w: int, h: int, format: SupportedFormat, filter: Filter): (r: (DoubleFbo, nat))
    ensures r.0.read.id == next && r.0.write.id == next + 1 && r.1 == next + 2
    ensures r.0.width == w && r.0.height == h
    ensures r.0.read.width == r.0.write.width == w && r.0.read.height == r.0.write.height == h
    ensures r.0.texelSizeX == r.0.read.texelSizeX && r.0.texelSizeY == r.0.read.texelSizeY
    ensures r.0.read.format == r.0.write.format == format
    ensures r.0.read.filter == r.0.write.filter == filter
  {
    var (f1, n1) := CreateFbo(next, w, h, format, filter);
    var (f2, n2) := CreateFbo(n1, w, h, format, filter);
    (DoubleFbo(w, h, f1.texelSizeX, f1.texelSizeY, f1, f2), n2)
  }

  /** `swap()`: exchange the two sides. */
  function Swap(d: DoubleFbo): (r: DoubleFbo)
    ensures r.read == d.write && r.write == d.read
    ensures r.width == d.width && r.height == d.height
    ensures r.texelSizeX == d.texelSizeX && r.texelSizeY == d.texelSizeY
  {
    d.(read := d.write, write := d.read)
  }

  /** Swapping twice restores the pair. */
  lemma SwapSwap(d: DoubleFbo)
    ensures Swap(Swap(d)) == d
  {
  }

  /** `resizeDoubleFBO(target, w, h, ...)`: nothing happens when the size
      already matches (whatever format or filter is asked for); otherwise
      `read` becomes a fresh target holding a copy of the old `read`, and
      `write` a fresh empty one. */
  function ResizeDoubleFbo(target: DoubleFbo, next: nat, w: int, h: int, format: SupportedFormat, filter: Filter): (r: (DoubleFbo, nat))
    ensures r.0.width == w && r.0.height == h
    ensures target.width == w && target.height == h ==> r == (target, next)
    ensures target.width != w || target.height != h ==>
              && r.0.read.id == next && r.0.write.id == next + 1 && r.1 == next + 2
              && r.0.read.width == r.0.write.width == w
              && r.0.read.height == r.0.write.height == h
              && r.0.texelSizeX == Recip(w) && r.0.texelSizeY == Recip(h)
              && r.0.read.format == r.0.write.format == format
  {
    if target.width == w && target.height == h then (target, next)
    else
      var (rd, n1) := CreateFbo(next, w, h, format, filter);
      var (wr, n2) := CreateFbo(n1, w, h, format, filter);
      (target.(read := rd, write := wr, width := w, height := h,
               texelSizeX := Recip(w), texelSizeY := Recip(h)), n2)
  }

  /** Resizing to the size just set changes nothing. */
  lemma ResizeIdempotent(target: DoubleFbo, next: nat, w: int, h: int, format: SupportedFormat, filter: Filter)
    ensures var (d, n) := ResizeDoubleFbo(target, next, w, h, format, filter);
            ResizeDoubleFbo(d, n, w, h, format, filter) == (d, n)
  {
  }

  /** A simulation resolution in texels. */
  datatype Resolution = Resolution(width: int, height: int)

  /** The aspect ratio of the drawing buffer, inverted when below one, so
      that it is always at least one. */
  function Aspect(bufWidth: int, bufHeight: int): (a: real)
    requires bufWidth > 0 && bufHeight > 0
    ensures a >= 1.0
    ensures bufWidth == bufHeight ==> a == 1.0
  {
    var a := bufWidth as real / bufHeight as real;
    if a < 1.0 then 1.0 / a else a
  }

  /** The aspect ratio is the long side over the short side. */
  lemma AspectIsRatio(bufWidth: int, bufHeight: int)
    requires bufWidth > 0 && bufHeight > 0
    ensures bufWidth >= bufHeight ==> Aspect(bufWidth, bufHeight) * (bufHeight as real) == bufWidth as real
    ensures bufWidth < bufHeight ==> Aspect(bufWidth, bufHeight) * (bufWidth as real) == bufHeight as real
  {
  }

  /** Scaling by a factor of at least one never rounds lower. */
  lemma RoundScaled(x: real, a: real)
    requires x >= 0.0 && a >= 1.0
    ensures Round(x) <= Round(x * a)
  {
    assert x * a - x == x * (a - 1.0);
    MulNonneg(x, a - 1.0);
    RoundMonotone(x, x * a);
  }

  /** `getResolution(resolution)`: `resolution` texels along the short side
      of the drawing buffer and `resolution * aspect` along the long side,
      each rounded with `Math.round`. */
  function GetResolution(resolution: real, bufWidth: int, bufHeight: int): (r: Resolution)
    requires bufWidth > 0 && bufHeight > 0
    ensures bufWidth > bufHeight ==> r.height == Round(resolution)
    ensures bufWidth <= bufHeight ==> r.width == Round(resolution)
  {
    Orient(bufWidth > bufHeight, Round(resolution * Aspect(bufWidth, bufHeight)), Round(resolution))
  }

  /** The long side goes along the wider axis. */
  function Orient(wide: bool, long: int, short: int): Resolution {
    if wide then Resolution(long, short) else Resolution(short, long)
  }

  /** The long side is the integer nearest to `resolution * aspect`; for a
      non-negative resolution it is at least the short side, so the
      target has the drawing buffer's orientation; a square buffer gives a
      square target. */
  lemma GetResolutionShape(resolution: real, bufWidth: int, bufHeight: int)
    requires bufWidth > 0 && bufHeight > 0
    ensures var r := GetResolution(resolution, bufWidth, bufHeight);
            var long := if bufWidth > bufHeight then r.width else r.height;
            && long as real - 0.5 <= resolution * Aspect(bufWidth, bufHeight) < long as real + 0.5
            && (resolution >= 0.0 && bufWidth > bufHeight ==> r.width >= r.height)
            && (resolution >= 0.0 && bufWidth < bufHeight ==> r.height >= r.width)
            && (bufWidth == bufHeight ==> r.width == r.height == Round(resolution))
  {
    var a := Aspect(bufWidth, bufHeight);
    if resolution >= 0.0 {
      RoundScaled(resolution, a);
    }
    if bufWidth == bufHeight {
      assert resolution * a == resolution;
    }
  }

  /** Turning the drawing buffer on its side transposes the resolution. */
  lemma GetResolutionTranspose(resolution: real, bufWidth: int, bufHeight: int)
    requires bufWidth > 0 && bufHeight > 0 && bufWidth != bufHeight
    ensures var r := GetResolution(resolution, bufWidth, bufHeight);
            GetResolution(resolution, bufHeight, bufWidth) == Resolution(r.height, r.width)
  {
    var a := bufWidth as real / bufHeight as real;
    var b := bufHeight as real / bufWidth as real;
    assert a * b == 1.0;
    if a < 1.0 {
      assert 1.0 / a == b;
    } else {
      assert b <= 1.0;
      assert 1.0 / b == a;
    }
  }

  /** The default simulation resolution on an 800x600 buffer. */
  lemma GetResolutionExample()
    ensures GetResolution(128.0, 800, 600) == Resolution(171, 128)
    ensures GetResolution(128.0, 600, 800) == Resolution(128, 171)
  {
    assert Aspect(800, 600) == 4.0 / 3.0;
    assert Round(128.0 * (4.0 / 3.0)) == 171;
    assert Aspect(600, 800) == 4.0 / 3.0 by {
      assert 600.0 / 800.0 == 3.0 / 4.0;
    }
  }

  /** `x >> 31` of any number is -1 or 0: the bloom loop always stops by
      its thirty-first level, before the shift count would wrap to 0. */
  lemma ShiftRight31(x: int)
    ensures ShiftRight(x, 31) < 2
  {
    var v := ToInt32(x);
    Pow2Values();
    DivModSplit(v, TwoTo31);
    var q := v / TwoTo31;
    if q >= 1 {
      MulAtLeast(TwoTo31, q);
    }
  }

  /** `x >> n` for every shift count `n` below 32; JavaScript uses only the
      low five bits of a shift count, so this table covers every `n`. */
  function Shifts(x: int): (r: seq<int>)
    ensures |r| == 32
    ensures forall n :: 0 <= n < 32 ==> r[n] == ShiftRight(x, n)
  {
    seq(32, n requires 0 <= n < 32 => ShiftRight(x, n))
  }

  /** The sizes of the bloom mip chain from level `i` on: the loop in
      `initBloomFramebuffers`, which shifts the base size right by one more
      for each level and stops after `iterations` levels or at the first
      level narrower than two texels. */
  function BloomSizes(w: int, h: int, iterations: int, i: nat): (r: seq<Resolution>)
    ensures |r| <= (if iterations > i then iterations - i else 0)
  {
    Levels(Shifts(w), Shifts(h), iterations, i)
  }

  /** The loop of `initBloomFramebuffers` over tables of the shifted width
      and height. */
  function Levels(widths: seq<int>, heights: seq<int>, iterations: int, i: nat): (r: seq<Resolution>)
    requires |widths| == |heights| == 32
    ensures |r| <= (if iterations > i then iterations - i else 0)
    decreases iterations - i
  {
    var n := (i + 1) % 32;
    if iterations <= i then []
    else if widths[n] < 2 || heights[n] < 2 then []
    else [Resolution(widths[n], heights[n])] + Levels(widths, heights, iterations, i + 1)
  }

  lemma {:induction false} LevelsSpec(widths: seq<int>, heights: seq<int>, iterations: int, i: nat)
    requires |widths| == |heights| == 32 && widths[31] < 2 && i <= 30
    ensures var r := Levels(widths, heights, iterations, i);
            && i + |r| <= 30
            && (forall k :: 0 <= k < |r| ==>
                  && r[k] == Resolution(widths[i + k + 1], heights[i + k + 1])
                  && r[k].width >= 2 && r[k].height >= 2)
            && (i + |r| < iterations ==> widths[i + |r| + 1] < 2 || heights[i + |r| + 1] < 2)
    decreases iterations - i
  {
    assert (i + 1) % 32 == i + 1;
    if iterations > i && widths[i + 1] >= 2 && heights[i + 1] >= 2 {
      LevelsSpec(widths, heights, iterations, i + 1);
      var rest := Levels(widths, heights, iterations, i + 1);
      var r := Levels(widths, heights, iterations, i);
      assert r == [Resolution(widths[i + 1], heights[i + 1])] + rest;
      forall k | 1 <= k < |r|
        ensures r[k] == Resolution(widths[i + k + 1], heights[i + k + 1])
      {
        assert r[k] == rest[k - 1];
        assert i + 1 + (k - 1) + 1 == i + k + 1;
      }
    }
  }

  /** Level `k` of the chain is the base size shifted right by `k + 1`,
      every level is at least two texels on each side, the chain stops
      early only at a level that would be narrower, and it never reaches
      the thirty-first level (where the shift count would wrap to 0). */
  lemma BloomSizesSpec(w: int, h: int, iterations: int)
    ensures var r := BloomSizes(w, h, iterations, 0);
            && |r| <= 30
            && (forall k :: 0 <= k < |r| ==>
                  && r[k] == Resolution(ShiftRight(w, k + 1), ShiftRight(h, k + 1))
                  && r[k].width >= 2 && r[k].height >= 2)
            && (|r| < iterations ==> ShiftRight(w, |r| + 1) < 2 || ShiftRight(h, |r| + 1) < 2)
  {
    ShiftRight31(w);
    var r := BloomSizes(w, h, iterations, 0);
    LevelsSpec(Shifts(w), Shifts(h), iterations, 0);
  }

  /** Halving twice is dividing by four, in the integer sense. */
  lemma DivDouble(x: nat, a: int)
    requires a >= 1
    ensures x / (2 * a) == (x / a) / 2
  {
    var q := x / a;
    var rem := x % a;
    DivModSplit(x, a);
    var q2 := q / 2;
    var r2 := q % 2;
    DivModSplit(q, 2);
    assert x == 2 * a * q2 + (a * r2 + rem) by {
      assert a * q == a * (2 * q2 + r2);
    }
    assert 0 <= a * r2 + rem < 2 * a by {
      assert r2 == 0 || r2 == 1;
    }
    ModUnique(x, 2 * a, q2, a * r2 + rem);
  }

  /** Each bloom level is half the previous one (rounded down) when the
      base size is a non-negative 32-bit value. */
  lemma BloomSizesHalve(w: int, h: int, iterations: int, k: nat)
    requires 0 <= w < TwoTo31 && 0 <= h < TwoTo31
    requires k + 1 < |BloomSizes(w, h, iterations, 0)|
    ensures BloomSizes(w, h, iterations, 0)[k + 1].width == BloomSizes(w, h, iterations, 0)[k].width / 2
    ensures BloomSizes(w, h, iterations, 0)[k + 1].height == BloomSizes(w, h, iterations, 0)[k].height / 2
  {
    BloomSizesSpec(w, h, iterations);
    ShiftRightStep(w, k + 1);
    ShiftRightStep(h, k + 1);
  }

  lemma ShiftRightStep(x: int, n: nat)
    requires 0 <= x < TwoTo31 && n < 31
    ensures ShiftRight(x, n + 1) == ShiftRight(x, n) / 2
  {
    ToInt32Identity(x);
    assert Pow2(n + 1) == 2 * Pow2(n);
    DivDouble(x, Pow2(n));
  }

  /** A 20x16 base gives the levels 10x8, 5x4 and 2x2; the next level
      (1x1) is too small, so the chain stops below the eight allowed. */
  lemma BloomSizesExample()
    ensures BloomSizes(20, 16, 8, 0) == [Resolution(10, 8), Resolution(5, 4), Resolution(2, 2)]
  {
    var ws, hs := Shifts(20), Shifts(16);
    assert ws[1] == 10 && ws[2] == 5 && ws[3] == 2 && ws[4] == 1 by {
      Pow2Values();
      ShiftRightOfNat(20, 1);
      ShiftRightOfNat(20, 2);
      ShiftRightOfNat(20, 3);
      ShiftRightOfNat(20, 4);
    }
    assert hs[1] == 8 && hs[2] == 4 && hs[3] == 2 by {
      Pow2Values();
      ShiftRightOfNat(16, 1);
      ShiftRightOfNat(16, 2);
      ShiftRightOfNat(16, 3);
    }
    assert Levels(ws, hs, 8, 3) == [];
    assert Levels(ws, hs, 8, 2) == [Resolution(2, 2)];
    assert Levels(ws, hs, 8, 1) == [Resolution(5, 4), Resolution(2, 2)];
  }

  /** On a non-negative 32-bit value `>>` by less than 32 is division by a
      power of two. */
  lemma ShiftRightOfNat(x: int, n: nat)
    requires 0 <= x < TwoTo31 && n < 32
    ensures ShiftRight(x, n) == x / Pow2(n)
  {
    assert n % 32 == n;
    ToInt32Identity(x);
    assert ShiftRight(x, n) == ToInt32(x) / Pow2(n % 32);
  }

  /** Fresh targets, one per size, with consecutive identities (the
      `bloomFramebuffers.push` in the bloom loop). */
  function CreateChain(next: nat, sizes: seq<Resolution>, format: SupportedFormat, filter: Filter): (r: (seq<Fbo>, nat))
    ensures |r.0| == |sizes| && r.1 == next + |sizes|
    ensures forall k :: 0 <= k < |sizes| ==>
              && r.0[k].id == next + k
              && r.0[k].width == sizes[k].width && r.0[k].height == sizes[k].height
              && r.0[k].format == format && r.0[k].filter == filter
    decreases |sizes|
  {
    if |sizes| == 0 then ([], next)
    else
      var (f, n1) := CreateFbo(next, sizes[0].width, sizes[0].height, format, filter);
      var (rest, n2) := CreateChain(n1, sizes[1..], format, filter);
      ([f] + rest, n2)
  }

  /** Every render target the engine owns once `initFramebuffers` has run. */
  datatype Buffers = Buffers(
    dye: DoubleFbo,
    velocity: DoubleFbo,
    divergence: Fbo,
    curl: Fbo,
    pressure: DoubleFbo,
    bloom: Fbo,
    bloomLevels: seq<Fbo>,
    sunrays: Fbo,
    sunraysTemp: Fbo)

  /** The engine's targets (None before the first `initFramebuffers`, which
      is what `_dyeInited`/`_velocityInited` record) and the identity
      counter of the GL object allocator. */
  datatype Store = Store(buffers: Option<Buffers>, nextId: nat)

  /** The identities of the eight simulation targets, in the order
      dye, velocity, divergence, curl, pressure. */
  function SimIdsOf(dye: DoubleFbo, velocity: DoubleFbo, divergence: Fbo, curl: Fbo, pressure: DoubleFbo): seq<nat> {
    [dye.read.id, dye.write.id, velocity.read.id, velocity.write.id,
     divergence.id, curl.id, pressure.read.id, pressure.write.id]
  }

  function SimIds(b: Buffers): seq<nat> {
    SimIdsOf(b.dye, b.velocity, b.divergence, b.curl, b.pressure)
  }

  predicate Distinct(ids: seq<nat>) {
    forall i, j :: 0 <= i < j < |ids| ==> ids[i] != ids[j]
  }

  predicate Below(ids: seq<nat>, bound: nat) {
    forall k :: 0 <= k < |ids| ==> ids[k] < bound
  }

  /** The identities of the bloom mip chain, level by level. */
  function LevelIds(levels: seq<Fbo>): (r: seq<nat>)
    ensures |r| == |levels| && forall k :: 0 <= k < |levels| ==> r[k] == levels[k].id
  {
    seq(|levels|, k requires 0 <= k < |levels| => levels[k].id)
  }

  /** The identities of every target: the simulation ones first, then bloom,
      its chain, and the two sunrays targets. */
  function AllIds(b: Buffers): seq<nat> {
    SimIds(b) + [b.bloom.id] + LevelIds(b.bloomLevels) + [b.sunrays.id, b.sunraysTemp.id]
  }

  /** No two targets share a texture, and every identity was drawn from the
      allocator. */
  predicate Valid(s: Store) {
    s.buffers.Some? ==> Distinct(AllIds(s.buffers.value)) && Below(AllIds(s.buffers.value), s.nextId)
  }

  /** In particular the simulation targets are distinct. */
  lemma ValidSim(s: Store)
    requires Valid(s) && s.buffers.Some?
    ensures Distinct(SimIds(s.buffers.value)) && Below(SimIds(s.buffers.value), s.nextId)
  {
    var b := s.buffers.value;
    var all := AllIds(b);
    var sim := SimIds(b);
    assert forall k :: 0 <= k < |sim| ==> sim[k] == all[k];
  }

  /** The allocation argument for the whole store: distinct simulation
      identities below `n`, then bloom at `n`, its chain above it and the
      sunrays pair last, are all distinct and below the final counter. */
  lemma AllIdsFresh(b: Buffers, n: nat)
    requires Distinct(SimIds(b)) && Below(SimIds(b), n)
    requires b.bloom.id == n
    requires forall k :: 0 <= k < |b.bloomLevels| ==> b.bloomLevels[k].id == n + 1 + k
    requires b.sunrays.id == n + 1 + |b.bloomLevels| && b.sunraysTemp.id == n + 2 + |b.bloomLevels|
    ensures Distinct(AllIds(b)) && Below(AllIds(b), n + 3 + |b.bloomLevels|)
  {
    var sim := SimIds(b);
    var all := AllIds(b);
    var m := |b.bloomLevels|;
    assert |all| == 8 + 1 + m + 2;
    // Position k of the tail holds identity n + (k - 8).
    forall k | 8 <= k < |all|
      ensures all[k] == n + (k - 8)
    {
      if k == 8 {
      } else if k < 9 + m {
        assert all[k] == LevelIds(b.bloomLevels)[k - 9];
      }
    }
    forall k | 0 <= k < 8
      ensures all[k] == sim[k] && all[k] < n
    {
    }
  }

  function FilterFor(caps: Capabilities): Filter {
    if caps.supportLinearFiltering then Linear else Nearest
  }

  /** `createDoubleFBO` on first use and `resizeDoubleFBO` afterwards. */
  function CreateOrResize(prior: Option<DoubleFbo>, next: nat, res: Resolution, format: SupportedFormat, filter: Filter): (r: (DoubleFbo, nat))
    ensures r.0.width == res.width && r.0.height == res.height
    ensures prior.Some? && prior.value.width == res.width && prior.value.height == res.height ==>
              r == (prior.value, next)
    ensures !(prior.Some? && prior.value.width == res.width && prior.value.height == res.height) ==>
              && r.0.read.id == next && r.0.write.id == next + 1 && r.1 == next + 2
              && r.0.read.width == r.0.write.width == res.width
              && r.0.read.height == r.0.write.height == res.height
              && r.0.read.format == format
  {
    match prior
    case None => CreateDoubleFbo(next, res.width, res.height, format, filter)
    case Some(d) => ResizeDoubleFbo(d, next, res.width, res.height, format, filter)
  }

  /** The simulation half of `initFramebuffers`: dye (RGBA) and velocity
      (RG) created or resized, then divergence, curl and pressure (R)
      created anew with nearest filtering. The result is the five targets
      and the advanced counter. */
  function InitSimulation(prior: Option<Buffers>, next: nat, dyeRes: Resolution, sim: Resolution,
                          rgba: SupportedFormat, rg: SupportedFormat, red: SupportedFormat, filter: Filter)
    : (r: (DoubleFbo, DoubleFbo, Fbo, Fbo, DoubleFbo, nat))
    ensures r.5 >= next
    ensures r.0.width == dyeRes.width && r.0.height == dyeRes.height
    ensures r.1.width == sim.width && r.1.height == sim.height
    ensures r.2.width == r.3.width == r.4.width == sim.width
    ensures r.2.height == r.3.height == r.4.height == sim.height
    ensures r.2.filter == r.3.filter == r.4.read.filter == r.4.write.filter == Nearest
    ensures r.2.format == r.3.format == r.4.read.format == red
    ensures prior.Some? && prior.value.dye.width == dyeRes.width && prior.value.dye.height == dyeRes.height ==>
              r.0 == prior.value.dye
    ensures prior.Some? && prior.value.velocity.width == sim.width && prior.value.velocity.height == sim.height ==>
              r.1 == prior.value.velocity
    ensures !(prior.Some? && prior.value.dye.width == dyeRes.width && prior.value.dye.height == dyeRes.height) ==>
              r.0.read.format == rgba && r.0.read.id >= next
    ensures !(prior.Some? && prior.value.velocity.width == sim.width && prior.value.velocity.height == sim.height) ==>
              r.1.read.format == rg && r.1.read.id >= next
    ensures (prior.Some? ==> Distinct(SimIds(prior.value)) && Below(SimIds(prior.value), next)) ==>
              Distinct(SimIdsOf(r.0, r.1, r.2, r.3, r.4)) && Below(SimIdsOf(r.0, r.1, r.2, r.3, r.4), r.5)
  {
    var (dye, n1) := CreateOrResize(if prior.Some? then Some(prior.value.dye) else None, next, dyeRes, rgba, filter);
    var (velocity, n2) := CreateOrResize(if prior.Some? then Some(prior.value.velocity) else None, n1, sim, rg, filter);
    var (divergence, n3) := CreateFbo(n2, sim.width, sim.height, red, Nearest);
    var (curl, n4) := CreateFbo(n3, sim.width, sim.height, red, Nearest);
    var (pressure, n5) := CreateDoubleFbo(n4, sim.width, sim.height, red, Nearest);
    SimIdsFresh(prior, next, dye, velocity, divergence, curl, pressure, n1, n2);
    (dye, velocity, divergence, curl, pressure, n5)
  }

  /** The allocation argument: a kept pair carries identities below the
      old counter, fresh ones lie at or above it and are consecutive. */
  lemma SimIdsFresh(prior: Option<Buffers>, next: nat, dye: DoubleFbo, velocity: DoubleFbo,
                    divergence: Fbo, curl: Fbo, pressure: DoubleFbo, n1: nat, n2: nat)
    requires prior.Some? && dye == prior.value.dye ==> n1 == next
    requires !(prior.Some? && dye == prior.value.dye) ==>
               dye.read.id == next && dye.write.id == next + 1 && n1 == next + 2
    requires prior.Some? && velocity == prior.value.velocity ==> n2 == n1
    requires !(prior.Some? && velocity == prior.value.velocity) ==>
               velocity.read.id == n1 && velocity.write.id == n1 + 1 && n2 == n1 + 2
    requires divergence.id == n2 && curl.id == n2 + 1
    requires pressure.read.id == n2 + 2 && pressure.write.id == n2 + 3
    ensures (prior.Some? ==> Distinct(SimIds(prior.value)) && Below(SimIds(prior.value), next)) ==>
              Distinct(SimIdsOf(dye, velocity, divergence, curl, pressure))
              && Below(SimIdsOf(dye, velocity, divergence, curl, pressure), n2 + 4)
  {
    if prior.Some? ==> Distinct(SimIds(prior.value)) && Below(SimIds(prior.value), next) {
      var keptDye := prior.Some? && dye == prior.value.dye;
      var keptVelocity := prior.Some? && velocity == prior.value.velocity;
      if keptDye {
        var p := SimIds(prior.value);
        assert dye.read.id == p[0] && dye.write.id == p[1];
        assert p[0] != p[1] && p[0] < next && p[1] < next;
      }
      if keptVelocity {
        var p := SimIds(prior.value);
        assert velocity.read.id == p[2] && velocity.write.id == p[3];
        assert p[2] != p[3] && p[2] < next && p[3] < next;
        if keptDye {
          assert p[0] != p[2] && p[0] != p[3] && p[1] != p[2] && p[1] != p[3];
        }
      }
    }
  }

  /** `initBloomFramebuffers()`: the base bloom target at the bloom
      resolution and the mip chain below it, all RGBA. */
  function InitBloom(next: nat, res: Resolution, iterations: int, rgba: SupportedFormat, filter: Filter): (r: (Fbo, seq<Fbo>, nat))
    ensures r.0.id == next && r.2 == next + 1 + |r.1|
    ensures forall k :: 0 <= k < |r.1| ==> r.1[k].id == next + 1 + k
    ensures r.0.width == res.width && r.0.height == res.height && r.0.format == rgba
    ensures var sizes := BloomSizes(res.width, res.height, iterations, 0);
            && |r.1| == |sizes|
            && forall k :: 0 <= k < |sizes| ==>
                 r.1[k].width == sizes[k].width && r.1[k].height == sizes[k].height && r.1[k].format == rgba
  {
    var (bloom, n1) := CreateFbo(next, res.width, res.height, rgba, filter);
    var (levels, n2) := CreateChain(n1, BloomSizes(res.width, res.height, iterations, 0), rgba, filter);
    (bloom, levels, n2)
  }

  /** `initSunraysFramebuffers()`: two single-channel targets at the
      sunrays resolution. */
  function InitSunrays(next: nat, res: Resolution, red: SupportedFormat, filter: Filter): (r: (Fbo, Fbo, nat))
    ensures r.2 == next + 2 && r.0.id == next && r.1.id == next + 1
    ensures r.0.width == r.1.width == res.width && r.0.height == r.1.height == res.height
    ensures r.0.format == r.1.format == red
  {
    var (sunrays, n1) := CreateFbo(next, res.width, res.height, red, filter);
    var (temp, n2) := CreateFbo(n1, res.width, res.height, red, filter);
    (sunrays, temp, n2)
  }

  /** `initFramebuffers()` on a drawing buffer of the given size. The
      formats are dereferenced with `!`, so a missing one is a thrown
      TypeError, here None. Dye and velocity survive when their size is
      unchanged; every other target is created anew. */
  function InitFramebuffers(s: Store, caps: Capabilities, c: Config, bufWidth: int, bufHeight: int): (r: Option<Store>)
    requires bufWidth > 0 && bufHeight > 0
    ensures r.None? <==> caps.formatRGBA.None? || caps.formatRG.None? || caps.formatR.None?
    ensures r.Some? ==> r.value.buffers.Some? && r.value.nextId >= s.nextId
    ensures r.Some? ==>
              var b := r.value.buffers.value;
              var sim := GetResolution(c.simResolution, bufWidth, bufHeight);
              var dye := GetResolution(c.dyeResolution, bufWidth, bufHeight);
              && b.dye.width == dye.width && b.dye.height == dye.height
              && b.velocity.width == sim.width && b.velocity.height == sim.height
              && b.divergence.width == b.curl.width == b.pressure.width == sim.width
              && b.divergence.height == b.curl.height == b.pressure.height == sim.height
              && b.divergence.filter == b.curl.filter == b.pressure.read.filter == Nearest
    ensures r.Some? && s.buffers.Some? ==>
              var prior := s.buffers.value;
              var b := r.value.buffers.value;
              var sim := GetResolution(c.simResolution, bufWidth, bufHeight);
              var dye := GetResolution(c.dyeResolution, bufWidth, bufHeight);
              && (prior.dye.width == dye.width && prior.dye.height == dye.height ==> b.dye == prior.dye)
              && (prior.velocity.width == sim.width && prior.velocity.height == sim.height ==> b.velocity == prior.velocity)
    ensures r.Some? ==>
              var b := r.value.buffers.value;
              var res := GetResolution(c.bloomResolution, bufWidth, bufHeight);
              var sizes := BloomSizes(res.width, res.height, c.bloomIterations, 0);
              && b.bloom.width == res.width && b.bloom.height == res.height
              && |b.bloomLevels| == |sizes|
              && (forall k :: 0 <= k < |sizes| ==>
                    b.bloomLevels[k].width == sizes[k].width && b.bloomLevels[k].height == sizes[k].height)
    ensures r.Some? ==>
              var b := r.value.buffers.value;
              var res := GetResolution(c.sunraysResolution, bufWidth, bufHeight);
              && b.sunrays.width == b.sunraysTemp.width == res.width
              && b.sunrays.height == b.sunraysTemp.height == res.height
    ensures r.Some? ==>
              var b := r.value.buffers.value;
              && b.divergence.format == b.curl.format == b.pressure.read.format == caps.formatR.value
              && b.sunrays.format == b.sunraysTemp.format == caps.formatR.value
              && b.bloom.format == caps.formatRGBA.value
              && (forall k :: 0 <= k < |b.bloomLevels| ==> b.bloomLevels[k].format == caps.formatRGBA.value)
    ensures r.Some? && (s.buffers.None? || s.buffers.value.dye != r.value.buffers.value.dye) ==>
              r.value.buffers.value.dye.read.format == caps.formatRGBA.value
    ensures r.Some? && (s.buffers.None? || s.buffers.value.velocity != r.value.buffers.value.velocity) ==>
              r.value.buffers.value.velocity.read.format == caps.formatRG.value
    ensures r.Some? && Valid(s) ==> Valid(r.value)
  {
    if caps.formatRGBA.None? || caps.formatRG.None? || caps.formatR.None? then None
    else
      var filter := FilterFor(caps);
      var sim := GetResolution(c.simResolution, bufWidth, bufHeight);
      var dyeRes := GetResolution(c.dyeResolution, bufWidth, bufHeight);
      var (dye, velocity, divergence, curl, pressure, n1) :=
        InitSimulation(s.buffers, s.nextId, dyeRes, sim,
                       caps.formatRGBA.value, caps.formatRG.value, caps.formatR.value, filter);
      var (bloom, levels, n2) :=
        InitBloom(n1, GetResolution(c.bloomResolution, bufWidth, bufHeight), c.bloomIterations,
                  caps.formatRGBA.value, filter);
      var (sunrays, sunraysTemp, n3) :=
        InitSunrays(n2, GetResolution(c.sunraysResolution, bufWidth, bufHeight), caps.formatR.value, filter);
      var b := Buffers(dye, velocity, divergence, curl, pressure, bloom, levels, sunrays, sunraysTemp);
      assert Valid(s) ==> Valid(Store(Some(b), n3)) by {
        if Valid(s) {
          if s.buffers.Some? {
            ValidSim(s);
          }
          AllIdsFresh(b, n1);
        }
      }
      Some(Store(Some(b), n3))
  }

  /** Running `initFramebuffers` again on the same buffer size keeps the
      dye and velocity pairs, so the fluid survives. */
  lemma ReinitKeepsFluid(s: Store, caps: Capabilities, c: Config, bufWidth: int, bufHeight: int)
    requires bufWidth > 0 && bufHeight > 0
    requires caps.formatRGBA.Some? && caps.formatRG.Some? && caps.formatR.Some?
    ensures InitFramebuffers(s, caps, c, bufWidth, bufHeight).Some?
    ensures var s1 := InitFramebuffers(s, caps, c, bufWidth, bufHeight).value;
            var s2 := InitFramebuffers(s1, caps, c, bufWidth, bufHeight);
            && s2.Some?
            && s2.value.buffers.value.dye == s1.buffers.value.dye
            && s2.value.buffers.value.velocity == s1.buffers.value.velocity
  {
  }

  /** With the capabilities the engine negotiates, initialisation fails
      exactly when RGBA16F cannot be rendered to. */
  lemma InitFailsOnlyWithoutRgba(supported: InternalFormat -> bool, linear: bool, s: Store, c: Config, bufWidth: int, bufHeight: int)
    requires bufWidth > 0 && bufHeight > 0
    ensures InitFramebuffers(s, Negotiate(supported, linear), c, bufWidth, bufHeight).None? <==> !supported(RGBA16F)
  {
    NegotiateConsistent(supported, linear);
  }
}
