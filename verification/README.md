# MouseFluid engine model

A Dafny model of the pure logic inside the MouseFluid component, a WebGL
stable-fluids simulation driven by mouse and touch input with leva controls.
The GPU does the heavy lifting in the original. Around it sits a layer of
bookkeeping that decides what the GPU is asked to do, and that layer is what
is modelled here:

- **Shader variants.** The 32-bit string hash and the `#define` prefixing.
  The display material keeps a program cache keyed by the sum of keyword
  hashes, and `updateKeywords` picks the display keywords by precedence.
- **Render targets.** The half-float format fallback chain. Framebuffers and
  read/write double buffers with `swap` and a resize that does nothing at the
  same size. The aspect-correct resolution rule, the bloom mip chain
  (halving with `>>`, stopping below 2 px) and `initFramebuffers`.
- **The simulation step.** The order of the passes in `step`, and the buffers
  each pass reads and writes. Each simulation shader is a pure stencil over a
  real-valued grid: curl, vorticity confinement with its ±1000 clamp,
  divergence with reflecting walls, the pressure seed, Jacobi pressure
  iterations, gradient subtraction, splat, and advection with its decay.
  Texture reads clamp to the edge, as the framebuffers are created with
  CLAMP_TO_EDGE. Advection samples bilinearly, as the MANUAL_FILTERING path
  does.
- **Input.** The pointer lifecycle (down / move / up) with its aspect
  corrections and the one-shot `moved` flag consumed by `applyInputs`. The
  velocity-adaptive splat radius. The colour cycle with `wrap`. The `dt`
  clamp and the phases of one frame.
- **The React layer.** The touch and mouse handlers over the pointer pool:
  lazy growth, touch `i` → slot `i + 1`, release by identifier search.
  `scaleByPixelRatio`. The control sync: JavaScript `parseInt(…, 16)` on the
  background colour slices, the assignments, and the "re-initialise only
  when a resolution changed" decision.

JavaScript semantics are written out where they matter:

- `hash |= 0` and `<<` / `>>` go through ToInt32, modulo 2^32.
- `Math.round` is `floor(x + 0.5)`.
- `%` takes the sign of the dividend.
- `String.prototype.slice` clamps its indices.
- `parseInt` skips leading JavaScript whitespace, accepts a sign and a
  `0x` prefix, and reads the longest run of hex digits. It gives NaN
  (`None`) when there is none.
- `window.devicePixelRatio || 1` is modelled.
- A division by a zero size gives `None` where JavaScript would give
  Infinity.

Numbers that are doubles in the source are Dafny `real`s, so the linear
stencils are exact.

Modules, one per file, in dependency order:

- `Common` (common.dfy): Option, ToInt32, JavaScript shifts, `Math.round`.
- `Hashing` (hashing.dfy): `hashCode` over UTF-16 code units.
- `ShaderKeywords` (keywords.dfy): `addKeywords` and the keyword hash sum.
- `Materials` (materials.dfy): `Material.setKeywords`.
- `Formats` (formats.dfy): `getSupportedFormat`.
- `EngineConfig` (config.dfy): FluidConfig, its defaults and the degrade
  without linear filtering.
- `Display` (display.dfy): `updateKeywords`.
- `Framebuffers` (framebuffers.dfy).
- `Grids` and `Kernels` (grids.dfy, kernels.dfy): the simulation shaders.
- `Stepper` (stepper.dfy): `step`, `calcDeltaTime` and `update`.
- `Pointers` (pointers.dfy): pointer data and the aspect corrections.
- `Splats` (splats.dfy): `splatPointer` and `applyInputs`.
- `ColorCycle` (colors.dfy): `wrap` and `updateColors`.
- `TouchPool` (touchpool.dfy): the mouse and touch handlers.
- `ControlSync` (sync.dfy): the leva → engine sync effect.

## Model

| member | source | states |
|---|---|---|
| Common.ToInt32 | src/components/canvas/MouseFluid/fluidSimulation.ts:243 | OR-ing with zero yields the unique signed 32-bit integer congruent to `x` modulo 2^32 |
| Common.ShiftLeft | src/components/canvas/MouseFluid/fluidSimulation.ts:242 | `x << n` is a signed 32-bit value congruent to ToInt32(x)·2^(n mod 32) |
| Common.ShiftRight | src/components/canvas/MouseFluid/fluidSimulation.ts:760-761 | `x >> n` is a signed 32-bit value, and for a non-negative 32-bit `x` it lies in [0, x] |
| Common.Round | src/components/canvas/MouseFluid/fluidSimulation.ts:707-708 | `Math.round(x)` is the integer r with r − 0.5 ≤ x < r + 0.5 |
| Common.RoundMonotone | src/components/canvas/MouseFluid/fluidSimulation.ts:707-708 | `Math.round` is monotone |
| Hashing.CodeUnits | src/components/canvas/MouseFluid/fluidSimulation.ts:242 | `charCodeAt` sees a BMP character as one unit equal to its code point, and any other character as a high/low surrogate pair |
| Hashing.Utf16 | src/components/canvas/MouseFluid/fluidSimulation.ts:241 | the `length` the hash loop runs over is between the character count and twice it |
| Hashing.HashCode | src/components/canvas/MouseFluid/fluidSimulation.ts:238-246 | the empty string hashes to 0, and every hash lies in [−2^31, 2^31) |
| Hashing.HashStepIsTimes31 | src/components/canvas/MouseFluid/fluidSimulation.ts:242-243 | `(h << 5) - h + c` followed by the OR with zero equals ToInt32(31·h + c) |
| Hashing.HashUnitsIsJavaHash | src/components/canvas/MouseFluid/fluidSimulation.ts:240-245 | the wrapping loop computes the unbounded Java polynomial hash Σ u[i]·31^(n−1−i), reduced to 32 bits |
| Hashing.HashCodeIsJavaHash | src/components/canvas/MouseFluid/fluidSimulation.ts:238-246 | `hashCode(s)` is the Java string hash of the UTF-16 code units of `s`, reduced to signed 32 bits |
| Hashing.HashCodeExamples | src/components/canvas/MouseFluid/fluidSimulation.ts:238-246 | concrete values: "a" hashes to 97 and "ab" to 3105 |
| ShaderKeywords.AddKeywords | src/components/canvas/MouseFluid/fluidSimulation.ts:229-236 | no keyword list leaves the source unchanged; otherwise the result is the `#define` lines followed by the unchanged source |
| ShaderKeywords.ParseDefinesRoundTrip | src/components/canvas/MouseFluid/fluidSimulation.ts:231-235 | reading the `#define` prefix back line by line recovers exactly the keyword list, so different lists give different prefixes |
| ShaderKeywords.SumOfPermutation | src/components/canvas/MouseFluid/fluidSimulation.ts:176-177 | the accumulated hash sum does not depend on the order of the list |
| ShaderKeywords.KeywordHashPermutation | src/components/canvas/MouseFluid/fluidSimulation.ts:176-177 | keyword lists that are permutations of each other have the same cache key |
| Materials.NewMaterial | src/components/canvas/MouseFluid/fluidSimulation.ts:167-173 | a new material satisfies the cache invariant: an empty cache and no active program |
| Materials.Lookup | src/components/canvas/MouseFluid/fluidSimulation.ts:179-184 | a cache hit changes nothing; a miss compiles exactly one new program from the prefixed source and stores it under the key |
| Materials.SetKeywords | src/components/canvas/MouseFluid/fluidSimulation.ts:175-190 | afterwards the active program is the one cached under the keyword-hash key, and it was compiled only on a miss; re-selecting the active program changes nothing |
| Materials.SetKeywordsIdempotent | src/components/canvas/MouseFluid/fluidSimulation.ts:186 | calling `setKeywords` twice with the same list is the same as calling it once |
| Materials.SetKeywordsPermuted | src/components/canvas/MouseFluid/fluidSimulation.ts:176-186 | after selecting a list, selecting any permutation of it changes nothing |
| Materials.SetKeywordsAll | src/components/canvas/MouseFluid/fluidSimulation.ts:175-190 | any sequence of `setKeywords` calls keeps the cache invariant |
| Materials.SetKeywordsKeys | src/components/canvas/MouseFluid/fluidSimulation.ts:179-184 | one call adds exactly its key to the cache keys |
| Materials.CachedKeys | src/components/canvas/MouseFluid/fluidSimulation.ts:179-184 | after a sequence of calls the cache keys are the old keys plus the keys of the lists |
| Materials.CompilesOncePerKey | src/components/canvas/MouseFluid/fluidSimulation.ts:180-184 | the number of programs ever compiled equals the number of distinct keys seen |
| Formats.GetSupportedFormat | src/components/canvas/MouseFluid/fluidSimulation.ts:531-543 | the result is a supported format at or above the requested one in R16F → RG16F → RGBA16F, and every format skipped is unsupported; null exactly when nothing from the requested one upward is supported; the recursion terminates |
| Formats.NegotiateConsistent | src/components/canvas/MouseFluid/fluidSimulation.ts:475-477 | if RGBA is available so are RG and R; RGBA is null exactly when RGBA16F is unsupported |
| Formats.GetSupportedFormatIsFirstInChain | src/components/canvas/MouseFluid/fluidSimulation.ts:531-543 | the recursion agrees with a reference "first supported format in the chain" |
| EngineConfig.DegradeForFiltering | src/components/canvas/MouseFluid/fluidSimulation.ts:481-486 | without linear filtering the dye resolution becomes 512 and shading, bloom and sunrays are switched off, nothing else changes; with it the config is unchanged |
| EngineConfig.DegradeIdempotent | src/components/canvas/MouseFluid/fluidSimulation.ts:481-486 | degrading twice is the same as degrading once |
| Display.UpdateKeywords | src/components/canvas/MouseFluid/fluidSimulation.ts:781-795 | exactly ["TRANSMISSION1"], else ["TRANSMISSION2"], else ["TRANSMISSION3"]; otherwise SHADING, BLOOM and SUNRAYS each appear exactly when their flag is set, in that order |
| Display.KeywordsDetermineMode | src/components/canvas/MouseFluid/fluidSimulation.ts:781-795 | the keyword list determines the display mode: decoding it gives back the mode the config selects |
| Display.DegradedKeywords | src/components/canvas/MouseFluid/fluidSimulation.ts:789-793 | after the degrade without linear filtering none of SHADING, BLOOM or SUNRAYS is requested |
| Framebuffers.Recip | src/components/canvas/MouseFluid/fluidSimulation.ts:644-645 | the texel size is the reciprocal of the size, and is undefined exactly for size 0 |
| Framebuffers.CreateFbo | src/components/canvas/MouseFluid/fluidSimulation.ts:627-660 | a new target has a fresh id, the requested size, format and filter, and texel sizes 1/w and 1/h |
| Framebuffers.CreateDoubleFbo | src/components/canvas/MouseFluid/fluidSimulation.ts:662-681 | two fresh targets of the same size, format and filter; the pair reports the first one's texel size |
| Framebuffers.Swap | src/components/canvas/MouseFluid/fluidSimulation.ts:675-679 | read and write are exchanged and the size is kept |
| Framebuffers.SwapSwap | src/components/canvas/MouseFluid/fluidSimulation.ts:675-679 | two swaps are the identity |
| Framebuffers.ResizeDoubleFbo | src/components/canvas/MouseFluid/fluidSimulation.ts:691-700 | at the current size the target comes back unchanged; otherwise both targets are new at the new size, with texel sizes 1/w and 1/h |
| Framebuffers.ResizeIdempotent | src/components/canvas/MouseFluid/fluidSimulation.ts:691-692 | resizing twice to the same size is the same as resizing once |
| Framebuffers.Aspect | src/components/canvas/MouseFluid/fluidSimulation.ts:704-705 | the aspect ratio used is at least 1, and exactly 1 on a square buffer |
| Framebuffers.AspectIsRatio | src/components/canvas/MouseFluid/fluidSimulation.ts:704-705 | the aspect ratio is the long side over the short side |
| Framebuffers.GetResolution | src/components/canvas/MouseFluid/fluidSimulation.ts:702-714 | the short side of the result is round(resolution) |
| Framebuffers.GetResolutionShape | src/components/canvas/MouseFluid/fluidSimulation.ts:702-714 | the long side is round(resolution·aspect) and follows the buffer's orientation; a square buffer gives round(resolution) on both sides |
| Framebuffers.GetResolutionTranspose | src/components/canvas/MouseFluid/fluidSimulation.ts:702-714 | transposing a non-square buffer transposes the resolution |
| Framebuffers.GetResolutionExample | src/components/canvas/MouseFluid/fluidSimulation.ts:702-714 | concrete value: 128 on an 800×600 buffer gives 171×128 |
| Framebuffers.BloomSizes | src/components/canvas/MouseFluid/fluidSimulation.ts:758-765 | there are never more levels than BLOOM_ITERATIONS |
| Framebuffers.BloomSizesSpec | src/components/canvas/MouseFluid/fluidSimulation.ts:758-765 | level k is (w >> (k+1), h >> (k+1)) with both sides ≥ 2; the loop stops early only at the first level with a side below 2 |
| Framebuffers.BloomSizesHalve | src/components/canvas/MouseFluid/fluidSimulation.ts:760-761 | for non-negative 32-bit sizes each level is the previous one halved, rounding down |
| Framebuffers.ShiftRightStep | src/components/canvas/MouseFluid/fluidSimulation.ts:760-761 | for a non-negative 32-bit x, x >> (n+1) is (x >> n) halved |
| Framebuffers.ShiftRightOfNat | src/components/canvas/MouseFluid/fluidSimulation.ts:760-761 | for a non-negative 32-bit x, x >> n is x divided by 2^n, rounding down |
| Framebuffers.BloomSizesExample | src/components/canvas/MouseFluid/fluidSimulation.ts:758-765 | concrete value: 20×16 with 8 iterations gives levels 10×8, 5×4 and 2×2 |
| Framebuffers.CreateChain | src/components/canvas/MouseFluid/fluidSimulation.ts:758-765 | one new target per level, in order, at the level's size |
| Framebuffers.CreateOrResize | src/components/canvas/MouseFluid/fluidSimulation.ts:729-738 | the first call creates the pair; later calls resize it, keeping it when the size is the same |
| Framebuffers.InitSimulation | src/components/canvas/MouseFluid/fluidSimulation.ts:716-743 | dye at the dye resolution and velocity at the simulation resolution, each kept when its size is unchanged; divergence, curl and pressure are new, single-channel and NEAREST; all ids stay distinct |
| Framebuffers.InitBloom | src/components/canvas/MouseFluid/fluidSimulation.ts:749-766 | the bloom target is at the bloom resolution, and its mip chain has exactly the level sizes |
| Framebuffers.InitSunrays | src/components/canvas/MouseFluid/fluidSimulation.ts:768-777 | two new single-channel targets at the sunrays resolution |
| Framebuffers.InitFramebuffers | src/components/canvas/MouseFluid/fluidSimulation.ts:716-747 | fails exactly when a format is missing. Otherwise dye, velocity, divergence, curl, pressure, bloom with its chain, and both sunrays targets have their resolutions. Dye and velocity are kept when their size is unchanged, and are RGBA and RG when rebuilt. Divergence, curl, pressure and sunrays are R; bloom and its chain are RGBA. Every target's id stays distinct |
| Framebuffers.AllIdsFresh | src/components/canvas/MouseFluid/fluidSimulation.ts:741-746 | bloom, its chain and the sunrays pair, allocated after the simulation targets, give ids distinct from theirs and from each other |
| Framebuffers.ReinitKeepsFluid | src/components/canvas/MouseFluid/fluidSimulation.ts:729-739 | re-running `initFramebuffers` with the same settings keeps the dye and velocity contents |
| Framebuffers.InitFailsOnlyWithoutRgba | src/components/canvas/MouseFluid/fluidSimulation.ts:722-724 | with negotiated formats, `initFramebuffers` fails exactly when RGBA16F is unsupported |
| Grids.ClampIndex | src/components/canvas/MouseFluid/fluidSimulation.ts:634-635 | CLAMP_TO_EDGE: an index inside the texture is kept, and one outside reads the nearest edge |
| Grids.BilerpAtTexel | src/components/canvas/MouseFluid/shaders.ts:616-628 | bilinear sampling at a texel centre returns that texel |
| Grids.BilerpConstant | src/components/canvas/MouseFluid/shaders.ts:616-628 | sampling a constant texture gives the constant |
| Grids.BilerpBounded | src/components/canvas/MouseFluid/shaders.ts:616-628 | a bilinear sample lies within the texture's bounds |
| Grids.MixBounded | src/components/canvas/MouseFluid/shaders.ts:627 | `mix` with a weight in [0, 1] stays between its ends |
| Kernels.CurlOfUniformFlow | src/components/canvas/MouseFluid/shaders.ts:683-688 | a uniform velocity field has zero curl everywhere, borders included |
| Kernels.CurlLinear | src/components/canvas/MouseFluid/shaders.ts:683-688 | the curl of a sum of velocity fields is the sum of their curls at every cell, borders included |
| Kernels.DivergenceLinear | src/components/canvas/MouseFluid/shaders.ts:654-667 | divergence is linear in the velocity field |
| Kernels.DivergenceOfUniformFlow | src/components/canvas/MouseFluid/shaders.ts:655-666 | a uniform flow has zero divergence inside; at the left wall the negated centre component shows up as divergence `a`; a zero field has zero divergence |
| Kernels.ConfinementZero | src/components/canvas/MouseFluid/shaders.ts:711-716 | no curl at the cell, or zero CURL strength, means no confinement force |
| Kernels.VorticityAt | src/components/canvas/MouseFluid/shaders.ts:718-721 | each output velocity component lies in [−1000, 1000] |
| Kernels.Vorticity | src/components/canvas/MouseFluid/shaders.ts:706-722 | the whole output field lies in [−1000, 1000] |
| Kernels.VorticityWithoutForce | src/components/canvas/MouseFluid/shaders.ts:713-720 | without curl, strength or time the pass leaves an in-range velocity field unchanged |
| Kernels.ClearLaws | src/components/canvas/MouseFluid/shaders.ts:82-84 | value 1 is the identity, value 0 zeroes the field, and two seeds multiply |
| Kernels.JacobiBounded | src/components/canvas/MouseFluid/shaders.ts:737-745 | with zero divergence a Jacobi step keeps the pressure within its bounds |
| Kernels.JacobiNBounded | src/components/canvas/MouseFluid/shaders.ts:737-745 | the same bound holds after any number of iterations |
| Kernels.JacobiFixedPoint | src/components/canvas/MouseFluid/shaders.ts:737-745 | a constant pressure field (all zeros in particular) with zero divergence is unchanged by any number of iterations |
| Kernels.GradientSubtractShift | src/components/canvas/MouseFluid/shaders.ts:761-768 | adding a constant to the pressure does not change the projected velocity |
| Kernels.GradientSubtractConstant | src/components/canvas/MouseFluid/shaders.ts:761-768 | a constant pressure field leaves the velocity unchanged |
| Kernels.SplatAdditive | src/components/canvas/MouseFluid/shaders.ts:595-600 | a zero colour leaves the target unchanged, and two splats at one point add up to one splat of the summed colour |
| Kernels.SplatMonotone | src/components/canvas/MouseFluid/shaders.ts:595-600 | with a non-negative falloff, a non-negative colour never removes dye |
| Kernels.AdvectBounded | src/components/canvas/MouseFluid/shaders.ts:630-640 | with dissipation, dt ≥ 0 advection keeps a field within [−m, m] |
| Kernels.AdvectDecay | src/components/canvas/MouseFluid/shaders.ts:638-639 | the output magnitude never exceeds the traced sample's, and with dissipation 0 it equals the sample |
| Kernels.AdvectAtRest | src/components/canvas/MouseFluid/shaders.ts:630-639 | under zero velocity each cell is only divided by 1 + dissipation·dt, and without dissipation the field is unchanged |
| Kernels.BackTraceAtRest | src/components/canvas/MouseFluid/shaders.ts:632-633 | under zero velocity a cell traces back to itself |
| Stepper.SwapN | src/components/canvas/MouseFluid/fluidSimulation.ts:831-835 | an even number of swaps is the identity, an odd number a single swap |
| Stepper.PressureLoop | src/components/canvas/MouseFluid/fluidSimulation.ts:831-835 | n passes; pass k reads the divergence and the current read target and writes the current write target, so none reads what it writes when the ids are distinct |
| Stepper.StepPasses | src/components/canvas/MouseFluid/fluidSimulation.ts:799-863 | the programs run in order: curl, vorticity, divergence, clear, PRESSURE_ITERATIONS pressure passes, gradient subtract, two advections; afterwards velocity and dye are swapped once and pressure n + 1 times |
| Stepper.StepHasNoFeedback | src/components/canvas/MouseFluid/fluidSimulation.ts:799-863 | with distinct buffer ids, no pass of `step` reads the texture it renders into |
| Stepper.StepDataFlow | src/components/canvas/MouseFluid/fluidSimulation.ts:808-862 | each pass reads what the pass it depends on has just written |
| Stepper.Step | src/components/canvas/MouseFluid/fluidSimulation.ts:799-863 | a step keeps the shape of every field |
| Stepper.StepAtRest | src/components/canvas/MouseFluid/fluidSimulation.ts:799-863 | a fluid at rest with zero pressure stays at rest with zero pressure, and every cell of all three dye channels only fades, by 1 + DENSITY_DISSIPATION·dt |
| Stepper.StepDyeBounded | src/components/canvas/MouseFluid/fluidSimulation.ts:844-862 | with non-negative dissipations and dt, a step keeps the dye within [−m, m] |
| Stepper.CalcDeltaTime | src/components/canvas/MouseFluid/fluidSimulation.ts:1206-1212 | dt is the elapsed time in seconds capped at 0.016666, non-negative for a clock that does not run backwards; the new last-update time is `now` |
| Stepper.FramePhases | src/components/canvas/MouseFluid/fluidSimulation.ts:1194-1204 | nothing runs after destroy. A live frame always updates colours and applies inputs. Reinit happens exactly on resize and comes before the colour update, which comes before the inputs, which come before the step. The step happens exactly when not paused, and every frame ends with render and scheduling |
| Pointers.AspectRatio | src/components/canvas/MouseFluid/fluidSimulation.ts:1133 | the aspect ratio is positive and times the height gives the width |
| Pointers.AspectOrientation | src/components/canvas/MouseFluid/fluidSimulation.ts:1133-1146 | the ratio is above 1 exactly on a landscape canvas and below 1 exactly on a portrait one |
| Pointers.CorrectionsRescale | src/components/canvas/MouseFluid/fluidSimulation.ts:1132-1148 | landscape: the radius grows by the aspect and delta-y shrinks by it; portrait: delta-x shrinks by it; otherwise each value is kept |
| Pointers.CorrectionsShrinkDeltas | src/components/canvas/MouseFluid/fluidSimulation.ts:1132-1148 | the delta corrections keep zero and sign and never grow a magnitude; the radius correction never shrinks a radius |
| Pointers.DeltaXShrinks | src/components/canvas/MouseFluid/fluidSimulation.ts:1138-1142 | `correctDeltaX` keeps zero and sign and never grows the magnitude |
| Pointers.DeltaYShrinks | src/components/canvas/MouseFluid/fluidSimulation.ts:1144-1148 | `correctDeltaY` keeps zero and sign and never grows the magnitude |
| Pointers.RadiusGrows | src/components/canvas/MouseFluid/fluidSimulation.ts:1132-1136 | `correctRadius` never shrinks a non-negative radius |
| Pointers.TexcoordInverse | src/components/canvas/MouseFluid/fluidSimulation.ts:1169-1170 | the texture coordinate maps back to the pixel position, with y flipped |
| Pointers.PointerDown | src/components/canvas/MouseFluid/fluidSimulation.ts:1165-1176 | after a press the pointer has the id, is down and not moved, has previous = current position, zero delta and the drawn colour |
| Pointers.PointerDownForgets | src/components/canvas/MouseFluid/fluidSimulation.ts:1165-1176 | a press does not depend on the pointer's earlier state |
| Pointers.PointerMove | src/components/canvas/MouseFluid/fluidSimulation.ts:1178-1186 | the old position becomes the previous one, id, down and colour are kept, and `moved` holds exactly when a corrected delta is non-zero |
| Pointers.MovedIffPositionChanged | src/components/canvas/MouseFluid/fluidSimulation.ts:1181-1185 | `moved` holds exactly when the texture coordinate changed, and each delta has the sign of the coordinate change |
| Pointers.MoveOnSquareCanvas | src/components/canvas/MouseFluid/fluidSimulation.ts:1183-1184 | on a square canvas the deltas are the raw coordinate differences |
| Pointers.DownThenStill | src/components/canvas/MouseFluid/fluidSimulation.ts:1165-1186 | a move to where the pointer was pressed leaves it down and not moved |
| Pointers.PointerUp | src/components/canvas/MouseFluid/fluidSimulation.ts:1188-1190 | a release clears `down` and changes nothing else |
| Pointers.PointerUpIdempotent | src/components/canvas/MouseFluid/fluidSimulation.ts:1188-1190 | releasing twice is releasing once, and the id is kept |
| Splats.NormalizeRange | src/components/canvas/MouseFluid/fluidSimulation.ts:1102-1105 | the normalised speed lies in [0, 1]; it is 0 at or below the threshold and 1 from threshold + sensitivity on |
| Splats.NormalizeMonotone | src/components/canvas/MouseFluid/fluidSimulation.ts:1102-1105 | the normalised speed is monotone in the boosted speed |
| Splats.VelocityRadiusRange | src/components/canvas/MouseFluid/fluidSimulation.ts:1096-1108 | the radius lies in [0, VELOCITY_MAX_RADIUS/100]; it is 0 when speed·boost ≤ threshold and maximal when speed·boost ≥ threshold + sensitivity |
| Splats.VelocityRadiusMonotone | src/components/canvas/MouseFluid/fluidSimulation.ts:1096-1108 | a faster pointer never gets a smaller radius |
| Splats.SplatPointer | src/components/canvas/MouseFluid/fluidSimulation.ts:1090-1116 | a splat is at the pointer's coordinate with force delta·SPLAT_FORCE and the pointer's colour; without VELOCITY_SPLAT its radius is the corrected SPLAT_RADIUS/100; with it there is no splat exactly when the velocity radius is below 0.00001, and otherwise the radius is the corrected velocity radius |
| Splats.VelocitySplatBounds | src/components/canvas/MouseFluid/fluidSimulation.ts:1094-1112 | a pointer that did not move makes no velocity splat; a velocity splat's radius lies between 0.00001 and the corrected maximum |
| Splats.CorrectRadiusMonotone | src/components/canvas/MouseFluid/fluidSimulation.ts:1132-1136 | the radius correction is monotone |
| Splats.PointerSplats | src/components/canvas/MouseFluid/fluidSimulation.ts:1231-1236 | the input sweep makes at most one splat per pointer |
| Splats.SweepOne | src/components/canvas/MouseFluid/fluidSimulation.ts:1231-1235 | a pointer that has not moved makes no splat; a moved one makes exactly one without VELOCITY_SPLAT |
| Splats.PointerSplatsCount | src/components/canvas/MouseFluid/fluidSimulation.ts:1231-1236 | no moved pointer means no splat; without VELOCITY_SPLAT every moved pointer splats |
| Splats.Handled | src/components/canvas/MouseFluid/fluidSimulation.ts:1232-1233 | handling a pointer clears `moved` and nothing else |
| Splats.ApplyInputs | src/components/canvas/MouseFluid/fluidSimulation.ts:1226-1236 | the last queued burst is popped if there is one; every pointer is handled; the splats are those of the sweep, in pointer order |
| Splats.SecondSweepIsQuiet | src/components/canvas/MouseFluid/fluidSimulation.ts:1231-1236 | `moved` is one-shot: a second sweep over handled pointers makes no splat |
| Splats.ApplySplat | src/components/canvas/MouseFluid/fluidSimulation.ts:1073-1088 | a splat touches velocity and dye and leaves pressure alone |
| Splats.ApplySplatZero | src/components/canvas/MouseFluid/fluidSimulation.ts:1073-1088 | a splat with zero force and black colour changes nothing |
| Splats.ApplySplatAdditive | src/components/canvas/MouseFluid/fluidSimulation.ts:1073-1088 | two splats at one point and radius equal one splat with the summed force and colour |
| ColorCycle.RemInRange | src/components/canvas/MouseFluid/fluidSimulation.ts:284 | JavaScript `%` of a non-negative value by a positive range lies in [0, range) |
| ColorCycle.WrapRange | src/components/canvas/MouseFluid/fluidSimulation.ts:281-285 | an empty range gives min; a value at or above min lands in [min, max); a value already inside is kept |
| ColorCycle.WrapBelowMin | src/components/canvas/MouseFluid/fluidSimulation.ts:281-285 | below min the result stays below the range: wrap(−0.5, 0, 1) is −0.5 |
| ColorCycle.UpdateColors | src/components/canvas/MouseFluid/fluidSimulation.ts:1214-1224 | the pointer count is kept |
| ColorCycle.UpdateColorsSpec | src/components/canvas/MouseFluid/fluidSimulation.ts:1214-1224 | the timer stays in [0, 1); without COLORFUL nothing changes; only colours ever change, and all of them change exactly when the timer reached 1 |
| TouchPool.ScaleByPixelRatioLaws | src/components/canvas/MouseFluid/MouseFluid.tsx:290-293 | the result is the floor of input·ratio, with ratio 0 read as 1; whole pixels at ratio 1 are kept; it is monotone for a positive ratio |
| TouchPool.TouchDown | src/components/canvas/MouseFluid/MouseFluid.tsx:214-217 | a touch presses its slot with the touch identifier and a drawn colour |
| TouchPool.MouseDown | src/components/canvas/MouseFluid/MouseFluid.tsx:175-181 | pointer 0 is pressed with id −1 and the other slots are untouched |
| TouchPool.MouseMove | src/components/canvas/MouseFluid/MouseFluid.tsx:183-191 | a move is ignored unless pointer 0 is down; otherwise only pointer 0 moves |
| TouchPool.MouseUp | src/components/canvas/MouseFluid/MouseFluid.tsx:193-197 | pointer 0 is released and the other slots are untouched |
| TouchPool.MouseClick | src/components/canvas/MouseFluid/MouseFluid.tsx:175-197 | press, move in place and release leave pointer 0 up, not moved and with id −1 |
| TouchPool.Grow | src/components/canvas/MouseFluid/MouseFluid.tsx:204-213 | the pool grows to more entries than touches, keeping every existing entry and appending default pointers |
| TouchPool.GrowPool | src/components/canvas/MouseFluid/MouseFluid.tsx:204-213 | the push loop as written produces exactly that pool, which is longer than the touch count |
| TouchPool.TouchStart | src/components/canvas/MouseFluid/MouseFluid.tsx:199-219 | the pool never shrinks and is longer than the touch list; touch i presses slot i+1; slot 0 and the slots past the touches are kept |
| TouchPool.TouchStartGrowsOnly | src/components/canvas/MouseFluid/MouseFluid.tsx:204-213 | with no touches the pool is unchanged, apart from creating the mouse slot in an empty pool |
| TouchPool.TouchMove | src/components/canvas/MouseFluid/MouseFluid.tsx:221-233 | slot i+1 moves only when it exists and is down; every other slot is untouched |
| TouchPool.StartThenStill | src/components/canvas/MouseFluid/MouseFluid.tsx:199-233 | a move to the pressed positions leaves every touched slot down and not moved |
| TouchPool.Find | src/components/canvas/MouseFluid/MouseFluid.tsx:240 | `find` returns the first pointer with the identifier, or none when no pointer has it |
| TouchPool.EndOne | src/components/canvas/MouseFluid/MouseFluid.tsx:240-241 | releasing one touch keeps every pointer id |
| TouchPool.TouchEnd | src/components/canvas/MouseFluid/MouseFluid.tsx:235-243 | `handleTouchEnd` keeps the pool's length and every pointer id |
| TouchPool.TouchEndReleasesFound | src/components/canvas/MouseFluid/MouseFluid.tsx:235-243 | a pointer is released exactly when it is the first match of some ended touch; every other pointer is unchanged |
| TouchPool.EndAfterPress | src/components/canvas/MouseFluid/MouseFluid.tsx:235-243 | when slots 1..n carry the distinct identifiers of the touches and the mouse slot does not, ending those touches releases exactly slots 1..n |
| TouchPool.StartThenEnd | src/components/canvas/MouseFluid/MouseFluid.tsx:199-243 | starting and then ending the same distinct touches releases exactly their slots, and keeps the mouse slot and the spare slots |
| ControlSync.TrimStartSpec | src/components/canvas/MouseFluid/MouseFluid.tsx:102 | `parseInt` drops exactly the leading JavaScript whitespace |
| ControlSync.HexRun | src/components/canvas/MouseFluid/MouseFluid.tsx:102 | the digits read are the longest leading run of hex digits |
| ControlSync.HexValueBound | src/components/canvas/MouseFluid/MouseFluid.tsx:102-104 | n hex digits denote a value below 16^n |
| ControlSync.Magnitude | src/components/canvas/MouseFluid/MouseFluid.tsx:102 | NaN exactly when no hex digit follows the sign and prefix |
| ControlSync.ParseDigits | src/components/canvas/MouseFluid/MouseFluid.tsx:102-104 | hex digits followed by a non-digit parse to their value |
| ControlSync.ParseSigned | src/components/canvas/MouseFluid/MouseFluid.tsx:102-104 | a leading `-` negates, and a leading `+` or space is skipped |
| ControlSync.ParseTrailingJunk | src/components/canvas/MouseFluid/MouseFluid.tsx:102-104 | parsing stops at the first non-digit: "1g" gives 1 |
| ControlSync.ParseNaN | src/components/canvas/MouseFluid/MouseFluid.tsx:102-104 | "g1", "-", "0x" and "" give NaN |
| ControlSync.ParseShortBound | src/components/canvas/MouseFluid/MouseFluid.tsx:102-104 | a slice of at most two characters parses to a value within ±255 or to NaN |
| ControlSync.Hex2RoundTrip | src/components/canvas/MouseFluid/MouseFluid.tsx:102-104 | two lowercase hex digits of n < 256 parse back to n |
| ControlSync.BackColorBounded | src/components/canvas/MouseFluid/MouseFluid.tsx:101-104 | whatever the string, every parsed channel is NaN or within ±255 |
| ControlSync.HexColorChannels | src/components/canvas/MouseFluid/MouseFluid.tsx:101-104 | for "#rrggbb" each channel is the value of its digit pair, an integer in [0, 255] |
| ControlSync.BackColorRoundTrip | src/components/canvas/MouseFluid/MouseFluid.tsx:101-104 | formatting r, g, b as "#rrggbb" and parsing gives them back |
| ControlSync.Sync | src/components/canvas/MouseFluid/MouseFluid.tsx:96-171 | re-initialise exactly when the dye or simulation resolution changed. Every driven field takes its panel value, and the background is the three parsed hex slices. The keywords are recomputed from the new config every time, and the settings the controls do not drive are kept |
| ControlSync.SyncForgetsDriven | src/components/canvas/MouseFluid/MouseFluid.tsx:110-167 | the new config depends on the old one only through the undriven settings |
| ControlSync.SyncIdempotent | src/components/canvas/MouseFluid/MouseFluid.tsx:106-170 | re-running the sync with the same controls changes nothing and does not re-initialise |
| ControlSync.ReinitOnlyOnResolution | src/components/canvas/MouseFluid/MouseFluid.tsx:106-108 | the re-initialise decision depends only on quality and simulation resolution |
| ControlSync.FirstSync | src/components/canvas/MouseFluid/MouseFluid.tsx:96-108 | a sync of a freshly built engine against the unchanged initial panel re-initialises exactly when the engine degraded the dye resolution to 512, and sets a black background |
| ControlSync.SyncOverridesDegrade | src/components/canvas/MouseFluid/MouseFluid.tsx:106-125 | after the degrade without linear filtering, a sync against the initial panel rebuilds the buffers, puts the dye resolution back to 1024 and requests exactly SHADING, BLOOM and SUNRAYS again |
| ControlSync.BlackBackground | src/components/canvas/MouseFluid/MouseFluid.tsx:47 | the default "#000000" parses to black |

## Left out

- WebGL itself is not modelled: texture and framebuffer allocation, the render-target probe, shader compilation and linking, uniforms, `blit` and blend state. A framebuffer is a record of id, size, format and filter, and the format probe is a predicate parameter.
- The display shader's shading is not modelled: the transmission modes, the composite, bloom prefilter, blur and final, sunrays and the dithering texture. It is transcendental float numerics with no crisp contract. Only its keyword selection is modelled.
- Randomness is not modelled: `generateColor`, `HSVtoRGB` and the random positions and forces of `multipleSplats`. Drawn colours are parameters, and a queued burst is returned as a count.
- Host timing is not modelled: `requestAnimationFrame`, `Date.now` (a parameter), `destroy` (a flag), and `resizeCanvas`, whose outcome is a flag.
- UI wiring is not modelled: the leva declarations, beyond their default values, and listener registration. MainCanvas.tsx is not part of this model.
- `exp` in the splat shader, `length` in vorticity confinement and `Math.sqrt` in `splatPointer` are function parameters. Their few needed facts are requirements: non-negativity, and for the square root its defining equation.
- Stepper.Step: pressure iterations, advection and splats act on grids of reals. Half-float precision, mediump rounding and NaN are not modelled.
- Stepper.Step: texture filtering is modelled as the bilinear sampler of the MANUAL_FILTERING path. The hardware LINEAR filter is assumed to compute the same thing.
- Stepper.StepPasses: the `step` schedule is stated over buffer ids, separately from the grid contents computed by Stepper.Step.
- Splats.SplatPointer: requires VELOCITY_SENSITIVITY > 0 when VELOCITY_SPLAT is on. The control's minimum is 0.001; at 0 JavaScript would divide by zero and produce Infinity or NaN.
- Kernels.Advect: requires 1 + dissipation·dt ≠ 0. JavaScript would divide by zero there.
- Kernels.Splat: the output alpha of 1 is not modelled, because grids carry one channel each.
- TouchPool.ScaleByPixelRatioLaws: a NaN `devicePixelRatio` is not modelled. Only the falsy 0 takes the `|| 1` default.
- Framebuffers.GetResolution: requires a drawing buffer of positive size. A zero-sized buffer would give Infinity or NaN aspect ratios.
- Framebuffers.InitFramebuffers: a missing format makes it return `None`. In the source, the non-null assertions on the formats would throw when a field is read.
- Framebuffers.ResizeDoubleFbo: the copy of the old read texture into the new one is not modelled. Only the ids and sizes are. The grid-level model keeps contents whenever the size is unchanged.
- Pointers.CorrectionsRescale: the `canvas.width / canvas.height` of `correctRadius` and the corrections requires a canvas of positive size.
- ControlSync.ParseShortBound: `parseInt` works on UTF-16 code units, but strings here are sequences of Unicode scalar values. Slicing differs only for characters outside the Basic Multilingual Plane, which a colour string does not contain.
- ControlSync.Sync: parsed channels are exact integers. JavaScript's −0 is read as 0, and precision loss beyond 2^53 does not arise for two-digit slices.
- ControlSync.Sync: the guard on a missing engine instance (`simRef.current`) is not modelled. Without an engine the effect does nothing.
- ControlSync.FirstSync: the lemma does not say that such a sync happens. The sync effect is declared before the effect that builds the engine, so at mount it finds no engine and returns. It runs again only when `controls` changes identity, which depends on the controls library. Until then the engine runs on its own defaults (CURL 30, PRESSURE 0.8, SPLAT_RADIUS 0.25, VELOCITY_MAX_RADIUS 0.5), not on the panel's initial values.
- ControlSync.SyncOverridesDegrade: it states the code as written, where the panel switches shading, bloom and sunrays back on and restores the 1024 dye resolution on a device without linear filtering. Whether that override is intended cannot be read from the source, so the model keeps it rather than re-applying the degrade.
- Splats.ApplyInputs: nothing in the source pushes to `splatStack`, so a burst is modelled only as popped.
- EngineConfig.Config: PRESSURE_ITERATIONS and BLOOM_ITERATIONS are JavaScript numbers but are modelled as integers. The source uses them only as loop bounds (`i < n`), and a fractional bound runs the same number of iterations as its ceiling.
