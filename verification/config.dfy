/**
  The engine's configuration record (`FluidConfig` in fluidSimulation.ts),
  its constructor defaults, and the degradation applied when float
  textures cannot be filtered linearly.
 */
module EngineConfig {
  import opened Common

  /** A background colour channel: the integer `parseInt` produced, or None
      for NaN. */
  type Channel = Option<int>

  datatype BackColor = BackColor(r: Channel, g: Channel, b: Channel)

  /** Coefficients of the "soap bubble" display mode (TRANSMISSION1_*). */
  datatype BubbleParams = BubbleParams(
    ca: real, caIntensity: real, caEdgeWidth: real, caHueShift: real,
    specPower: real, specIntensity: real, fresnelPower: real, fresnelIntensity: real,
    lighting: bool)

  /** Coefficients of a refraction display mode (TRANSMISSION2_* / TRANSMISSION3_*). */
  datatype RefractionParams = RefractionParams(
    ior: real, thickness: real, caSpread: real, caIntensity: real, caEdgeWidth: real,
    gradAmp: real, roughness: real, causticInt: real,
    specPower: real, specIntensity: real, fresnelPower: real, fresnelIntensity: real,
    lighting: bool)

  /** `FluidConfig`, one field per source field (SIM_RESOLUTION is
      `simResolution`, and so on). Numbers that the engine only ever uses as
      loop bounds are integers; the rest are reals. */
  datatype Config = Config(
    simResolution: real,
    dyeResolution: real,
    densityDissipation: real,
    velocityDissipation: real,
    pressure: real,
    pressureIterations: int,
    curl: real,
    splatRadius: real,
    splatForce: real,
    shading: bool,
    colorful: bool,
    colorUpdateSpeed: real,
    paused: bool,
    backColor: BackColor,
    transparent: bool,
    bloom: bool,
    bloomIterations: int,
    bloomResolution: real,
    bloomIntensity: real,
    bloomThreshold: real,
    bloomSoftKnee: real,
    sunrays: bool,
    sunraysResolution: real,
    sunraysWeight: real,
    transmission1: bool,
    bubble: BubbleParams,
    transmission2: bool,
    refraction2: RefractionParams,
    transmission3: bool,
    refraction3: RefractionParams,
    velocitySplat: bool,
    velocityMaxRadius: real,
    velocitySensitivity: real,
    velocitySpeedBoost: real,
    velocityThreshold: real)

  /** The defaults the constructor starts from before merging a partial
      configuration. */
  const Defaults: Config := Config(
    simResolution := 128.0,
    dyeResolution := 1024.0,
    densityDissipation := 1.0,
    velocityDissipation := 0.2,
    pressure := 0.8,
    pressureIterations := 20,
    curl := 30.0,
    splatRadius := 0.25,
    splatForce := 6000.0,
    shading := true,
    colorful := true,
    colorUpdateSpeed := 10.0,
    paused := false,
    backColor := BackColor(Some(0), Some(0), Some(0)),
    transparent := false,
    bloom := true,
    bloomIterations := 8,
    bloomResolution := 256.0,
    bloomIntensity := 0.8,
    bloomThreshold := 0.6,
    bloomSoftKnee := 0.7,
    sunrays := true,
    sunraysResolution := 196.0,
    sunraysWeight := 1.0,
    transmission1 := false,
    bubble := BubbleParams(0.5, 0.5, 0.1, 0.0, 96.0, 0.35, 2.0, 0.15, true),
    transmission2 := false,
    refraction2 := RefractionParams(1.45, 2.5, 0.15, 0.6, 0.02, 3.0, 0.0, 0.5, 64.0, 0.4, 3.0, 0.2, true),
    transmission3 := false,
    refraction3 := RefractionParams(1.45, 2.5, 0.15, 0.6, 0.02, 3.0, 0.0, 0.5, 64.0, 0.4, 3.0, 0.2, true),
    velocitySplat := true,
    velocityMaxRadius := 0.5,
    velocitySensitivity := 0.005,
    velocitySpeedBoost := 1.0,
    velocityThreshold := 0.001)

  /** The constructor's reaction to a device without linear filtering of
      float textures: dye resolution drops to 512 and the features that
      assume smooth sampling are switched off. */
  function DegradeForFiltering(c: Config, supportLinearFiltering: bool): (r: Config)
    ensures supportLinearFiltering ==> r == c
    ensures !supportLinearFiltering ==>
              && r.dyeResolution == 512.0
              && !r.shading && !r.bloom && !r.sunrays
              && r.(dyeResolution := c.dyeResolution, shading := c.shading,
                    bloom := c.bloom, sunrays := c.sunrays) == c
  {
    if supportLinearFiltering then c
    else c.(dyeResolution := 512.0, shading := false, bloom := false, sunrays := false)
  }

  /** Degrading twice is degrading once. */
  lemma DegradeIdempotent(c: Config, linear: bool)
    ensures DegradeForFiltering(DegradeForFiltering(c, linear), linear) == DegradeForFiltering(c, linear)
  {
  }
}
