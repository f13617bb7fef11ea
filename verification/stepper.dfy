/**
  One simulation step (`step(dt)` in fluidSimulation.ts) at two levels:
  the schedule of render passes over the engine's targets (which program
  runs, which textures it reads, which target it renders into, and when
  each pair swaps), and the same step on grid contents, composed from the
  Kernels. Also the frame driver around it: the time-step clamp of
  `calcDeltaTime` and the phase order of `update`.
 */
module Stepper {
  import opened Common
  import opened EngineConfig
  import opened Framebuffers
  import opened Grids
  import opened Kernels

  datatype Program =
    | CurlProgram
    | VorticityProgram
    | DivergenceProgram
    | ClearProgram
    | PressureProgram
    | GradientSubtractProgram
    | AdvectionProgram

  /** One `blit`: `program` runs with the textures `inputs` bound and
      renders into the target `output`. */
  datatype Pass = Pass(program: Program, inputs: seq<nat>, output: nat)

  /** GL forbids rendering into a texture that is being sampled (a
      feedback loop); no pass of a step does so. */
  predicate NoFeedback(p: Pass) {
    p.output !in p.inputs
  }

  /** `k` swaps of a pair. */
  function SwapN(d: DoubleFbo, k: nat): (r: DoubleFbo)
    ensures k % 2 == 0 ==> r == d
    ensures k % 2 == 1 ==> r == Swap(d)
  {
    if k == 0 then d else Swap(SwapN(d, k - 1))
  }

  /** The pressure loop: `n` Jacobi passes, each reading the divergence
      target and the pressure pair's `read`, rendering into its `write`,
      then swapping. */
  function PressureLoop(pressure: DoubleFbo, divergence: nat, n: nat): (r: (seq<Pass>, DoubleFbo))
    ensures |r.0| == n
    ensures r.1 == SwapN(pressure, n)
    ensures forall k :: 0 <= k < n ==>
              r.0[k] == Pass(PressureProgram, [divergence, SwapN(pressure, k).read.id], SwapN(pressure, k).write.id)
    ensures divergence != pressure.read.id && divergence != pressure.write.id && pressure.read.id != pressure.write.id ==>
              forall k :: 0 <= k < n ==> NoFeedback(r.0[k])
    decreases n
  {
    if n == 0 then ([], pressure)
    else
      var (passes, p) := PressureLoop(pressure, divergence, n - 1);
      (passes + [Pass(PressureProgram, [divergence, p.read.id], p.write.id)], Swap(p))
  }

  /** The pass schedule of `step(dt)` and the targets afterwards: curl,
      vorticity (swap velocity), divergence, clear (swap pressure),
      `PRESSURE_ITERATIONS` Jacobi passes (each swapping pressure),
      gradient subtraction (swap velocity), advection of velocity (swap
      velocity) and of dye (swap dye). */
  function StepPasses(b: Buffers, pressureIterations: int): (r: (seq<Pass>, Buffers))
    ensures var n := if pressureIterations > 0 then pressureIterations else 0;
            && |r.0| == 7 + n
            && r.1 == b.(velocity := Swap(b.velocity), dye := Swap(b.dye),
                         pressure := SwapN(b.pressure, n + 1))
            && r.0[0].program == CurlProgram && r.0[1].program == VorticityProgram
            && r.0[2].program == DivergenceProgram && r.0[3].program == ClearProgram
            && (forall k :: 4 <= k < 4 + n ==> r.0[k].program == PressureProgram)
            && r.0[4 + n].program == GradientSubtractProgram
            && r.0[5 + n].program == AdvectionProgram && r.0[6 + n].program == AdvectionProgram
  {
    var n := if pressureIterations > 0 then pressureIterations else 0;
    var v0 := b.velocity;
    var curl := Pass(CurlProgram, [v0.read.id], b.curl.id);
    var vorticity := Pass(VorticityProgram, [v0.read.id, b.curl.id], v0.write.id);
    var v1 := Swap(v0);
    var divergence := Pass(DivergenceProgram, [v1.read.id], b.divergence.id);
    var clear := Pass(ClearProgram, [b.pressure.read.id], b.pressure.write.id);
    var (jacobi, p) := PressureLoop(Swap(b.pressure), b.divergence.id, n);
    var gradient := Pass(GradientSubtractProgram, [p.read.id, v1.read.id], v1.write.id);
    var v2 := Swap(v1);
    var advectVelocity := Pass(AdvectionProgram, [v2.read.id], v2.write.id);
    var v3 := Swap(v2);
    var advectDye := Pass(AdvectionProgram, [v3.read.id, b.dye.read.id], b.dye.write.id);
    assert SwapN(b.pressure, n + 1) == SwapN(Swap(b.pressure), n) by {
      SwapNShift(b.pressure, n);
    }
    ([curl, vorticity, divergence, clear] + jacobi + [gradient, advectVelocity, advectDye],
     b.(velocity := v3, dye := Swap(b.dye), pressure := p))
  }

  lemma {:induction false} SwapNShift(d: DoubleFbo, n: nat)
    ensures SwapN(d, n + 1) == SwapN(Swap(d), n)
    decreases n
  {
    if n > 0 {
      SwapNShift(d, n - 1);
    }
  }

  /** With distinct simulation targets (which `initFramebuffers`
      guarantees) no pass of a step samples the texture it renders into. */
  lemma StepHasNoFeedback(s: Store, pressureIterations: int)
    requires Framebuffers.Valid(s) && s.buffers.Some?
    ensures forall k :: 0 <= k < |StepPasses(s.buffers.value, pressureIterations).0| ==>
              NoFeedback(StepPasses(s.buffers.value, pressureIterations).0[k])
  {
    ValidSim(s);
    var b := s.buffers.value;
    var ids := SimIds(b);
    var n := if pressureIterations > 0 then pressureIterations else 0;
    assert ids[4] != ids[6] && ids[4] != ids[7] && ids[6] != ids[7];
    var (jacobi, p) := PressureLoop(Swap(b.pressure), b.divergence.id, n);
    assert p.read.id in {ids[6], ids[7]} && p.write.id in {ids[6], ids[7]} by {
      assert SwapN(Swap(b.pressure), n) == Swap(b.pressure) || SwapN(Swap(b.pressure), n) == b.pressure;
    }
    assert ids[0] != ids[1] && ids[2] != ids[3] && ids[5] != ids[2] && ids[5] != ids[3];
    assert ids[4] != ids[2] && ids[4] != ids[3];
    assert ids[2] != ids[6] && ids[2] != ids[7] && ids[3] != ids[6] && ids[3] != ids[7];
    assert ids[0] != ids[2] && ids[0] != ids[3] && ids[1] != ids[2] && ids[1] != ids[3];
  }

  /** Each pass reads what the previous stage rendered: divergence reads the
      vorticity output, the first Jacobi pass reads the cleared pressure,
      gradient subtraction reads the last pressure output and the vorticity
      output, velocity advection reads the projected velocity, and dye
      advection reads the advected velocity. */
  lemma StepDataFlow(b: Buffers, pressureIterations: int)
    ensures var ps := StepPasses(b, pressureIterations).0;
            var n := if pressureIterations > 0 then pressureIterations else 0;
            && ps[2].inputs[0] == ps[1].output
            && (n > 0 ==> ps[4].inputs[1] == ps[3].output)
            && ps[4 + n].inputs[0] == ps[3 + n].output
            && ps[4 + n].inputs[1] == ps[1].output
            && ps[5 + n].inputs[0] == ps[4 + n].output
            && ps[6 + n].inputs[0] == ps[5 + n].output
  {
    var n := if pressureIterations > 0 then pressureIterations else 0;
    var (jacobi, p) := PressureLoop(Swap(b.pressure), b.divergence.id, n);
  }

  /** The contents of the simulation textures: velocity components `u`,
      `v` and pressure `p` at the simulation resolution, and the three dye
      channels at the dye resolution. */
  datatype Fluid = Fluid(u: Grid, v: Grid, p: Grid, dyeR: Grid, dyeG: Grid, dyeB: Grid)

  predicate FluidValid(f: Fluid) {
    && Field(f.u, f.v) && Grids.Valid(f.p) && SameShape(f.p, f.u)
    && Grids.Valid(f.dyeR) && Grids.Valid(f.dyeG) && Grids.Valid(f.dyeB)
  }

  /** `step(dt)` on grid contents. Velocity advection reads the projected
      velocity both as the flow and as the source; dye advection reads the
      advected velocity. `length` is GLSL `length`. */
  function Step(f: Fluid, c: Config, dt: real, length: (real, real) -> real): (r: Fluid)
    requires FluidValid(f)
    requires forall a, b :: length(a, b) >= 0.0
    requires Decay(c.velocityDissipation, dt) != 0.0 && Decay(c.densityDissipation, dt) != 0.0
    ensures FluidValid(r)
    ensures SameShape(r.u, f.u) && SameShape(r.dyeR, f.dyeR) && SameShape(r.dyeG, f.dyeG) && SameShape(r.dyeB, f.dyeB)
  {
    var curl := Curl(f.u, f.v);
    var (u1, v1) := Vorticity(f.u, f.v, curl, c.curl, dt, length);
    var divergence := Divergence(u1, v1);
    var p0 := Clear(f.p, c.pressure);
    var p := JacobiN(p0, divergence, if c.pressureIterations > 0 then c.pressureIterations else 0);
    var (u2, v2) := GradientSubtract(p, u1, v1);
    var u3 := Advect(u2, u2, v2, dt, c.velocityDissipation);
    var v3 := Advect(v2, u2, v2, dt, c.velocityDissipation);
    Fluid(u3, v3, p,
          Advect(f.dyeR, u3, v3, dt, c.densityDissipation),
          Advect(f.dyeG, u3, v3, dt, c.densityDissipation),
          Advect(f.dyeB, u3, v3, dt, c.densityDissipation))
  }

  /** A fluid at rest with no pressure stays at rest with no pressure, and
      its dye only fades, by the factor `1 + DENSITY_DISSIPATION * dt`. */
  lemma StepAtRest(f: Fluid, c: Config, dt: real, length: (real, real) -> real)
    requires FluidValid(f)
    requires forall a, b :: length(a, b) >= 0.0
    requires Decay(c.velocityDissipation, dt) != 0.0 && Decay(c.densityDissipation, dt) != 0.0
    requires IsConstant(f.u, 0.0) && IsConstant(f.v, 0.0) && IsConstant(f.p, 0.0)
    ensures var r := Step(f, c, dt, length);
            && IsConstant(r.u, 0.0) && IsConstant(r.v, 0.0) && IsConstant(r.p, 0.0)
            && Fades(f.dyeR, r.dyeR, Decay(c.densityDissipation, dt))
            && Fades(f.dyeG, r.dyeG, Decay(c.densityDissipation, dt))
            && Fades(f.dyeB, r.dyeB, Decay(c.densityDissipation, dt))
  {
    var n := if c.pressureIterations > 0 then c.pressureIterations else 0;
    var curl := Curl(f.u, f.v);
    CurlOfUniformFlow(f.u, f.v, 0.0, 0.0);
    VorticityWithoutForce(f.u, f.v, curl, c.curl, dt, length);
    var divergence := Divergence(f.u, f.v);
    forall i, j | 0 <= i < f.u.width && 0 <= j < f.u.height
      ensures divergence.cells[j][i] == 0.0
    {
      DivergenceOfUniformFlow(f.u, f.v, 0.0, 0.0, i, j);
    }
    var p0 := Clear(f.p, c.pressure);
    ClearOfZero(f.p, c.pressure);
    JacobiFixedPoint(p0, divergence, 0.0, n);
    GradientSubtractConstant(p0, f.u, f.v, 0.0);
    AdvectAtRest(f.u, f.u, f.v, dt, c.velocityDissipation);
    AdvectAtRest(f.v, f.u, f.v, dt, c.velocityDissipation);
    var u3 := Advect(f.u, f.u, f.v, dt, c.velocityDissipation);
    var v3 := Advect(f.v, f.u, f.v, dt, c.velocityDissipation);
    ZeroDivided(f.u, u3, Decay(c.velocityDissipation, dt));
    ZeroDivided(f.v, v3, Decay(c.velocityDissipation, dt));
    AdvectAtRest(f.dyeR, u3, v3, dt, c.densityDissipation);
    AdvectAtRest(f.dyeG, u3, v3, dt, c.densityDissipation);
    AdvectAtRest(f.dyeB, u3, v3, dt, c.densityDissipation);
  }

  /** Every cell of `r` is the matching cell of `a` divided by `d`. */
  ghost predicate Fades(a: Grid, r: Grid, d: real)
    requires Grids.Valid(a) && Grids.Valid(r) && SameShape(a, r) && d != 0.0
  {
    forall i, j :: 0 <= i < a.width && 0 <= j < a.height ==> r.cells[j][i] == a.cells[j][i] / d
  }

  lemma ClearOfZero(p: Grid, value: real)
    requires Grids.Valid(p) && IsConstant(p, 0.0)
    ensures IsConstant(Clear(p, value), 0.0)
  {
    forall i, j | 0 <= i < p.width && 0 <= j < p.height
      ensures Clear(p, value).cells[j][i] == 0.0
    {
      AtConstant(p, 0.0, i, j);
    }
  }

  lemma ZeroDivided(a: Grid, r: Grid, d: real)
    requires Grids.Valid(a) && Grids.Valid(r) && SameShape(a, r) && IsConstant(a, 0.0) && d != 0.0
    requires Fades(a, r, d)
    ensures IsConstant(r, 0.0)
  {
  }

  /** With non-negative dissipation and time step a step never brightens
      the dye beyond the bound it had. */
  lemma StepDyeBounded(f: Fluid, c: Config, dt: real, length: (real, real) -> real, m: real)
    requires FluidValid(f)
    requires forall a, b :: length(a, b) >= 0.0
    requires dt >= 0.0 && c.velocityDissipation >= 0.0 && c.densityDissipation >= 0.0
    requires Bounded(f.dyeR, -m, m) && Bounded(f.dyeG, -m, m) && Bounded(f.dyeB, -m, m)
    ensures var r := Step(f, c, dt, length);
            Bounded(r.dyeR, -m, m) && Bounded(r.dyeG, -m, m) && Bounded(r.dyeB, -m, m)
  {
    MulNonneg(c.velocityDissipation, dt);
    MulNonneg(c.densityDissipation, dt);
    var r := Step(f, c, dt, length);
    AdvectBounded(f.dyeR, r.u, r.v, dt, c.densityDissipation, m);
    AdvectBounded(f.dyeG, r.u, r.v, dt, c.densityDissipation, m);
    AdvectBounded(f.dyeB, r.u, r.v, dt, c.densityDissipation, m);
  }

  // ------------------------------------------------------------ frame loop

  /** The largest time step, in seconds. */
  const MaxDt: real := 0.016666

  /** `calcDeltaTime()` with the clock reading `now` (milliseconds): the
      elapsed time in seconds, capped at `MaxDt`, and the new
      `lastUpdateTime`. */
  function CalcDeltaTime(now: int, lastUpdateTime: int): (r: (real, int))
    ensures r.0 <= MaxDt
    ensures now >= lastUpdateTime ==> r.0 >= 0.0
    ensures r.0 < MaxDt ==> r.0 * 1000.0 == (now - lastUpdateTime) as real
    ensures (now - lastUpdateTime) as real >= MaxDt * 1000.0 ==> r.0 == MaxDt
    ensures r.1 == now
  {
    var dt := (now - lastUpdateTime) as real / 1000.0;
    (if dt < MaxDt then dt else MaxDt, now)
  }

  /** The phases of one `update()` frame. */
  datatype Phase = Reinit | UpdateColors | ApplyInputs | StepPhase | Render | Schedule

  /** `update()`: nothing after `destroy`; otherwise re-initialise the
      targets when the canvas was resized, update colours, apply inputs,
      step unless paused, render, and schedule the next frame. */
  function FramePhases(destroyed: bool, resized: bool, paused: bool): (r: seq<Phase>)
    ensures destroyed <==> r == []
    ensures StepPhase in r <==> !destroyed && !paused
    ensures Reinit in r <==> !destroyed && resized
    ensures !destroyed ==> |r| >= 4 && r[|r| - 2] == Render && r[|r| - 1] == Schedule
    ensures forall k, l :: 0 <= k < l < |r| && r[k] == StepPhase ==> r[l] != ApplyInputs && r[l] != Reinit
    ensures !destroyed ==> UpdateColors in r && ApplyInputs in r
    ensures forall k, l :: 0 <= k < |r| && 0 <= l < |r| && r[k] == Reinit && r[l] == UpdateColors ==> k < l
    ensures forall k, l :: 0 <= k < |r| && 0 <= l < |r| && r[k] == UpdateColors && r[l] == ApplyInputs ==> k < l
    ensures forall k, l :: 0 <= k < |r| && 0 <= l < |r| && r[k] == ApplyInputs && r[l] == StepPhase ==> k < l
  {
    if destroyed then []
    else
      (if resized then [Reinit] else [])
      + [UpdateColors, ApplyInputs]
      + (if paused then [] else [StepPhase])
      + [Render, Schedule]
  }
}
