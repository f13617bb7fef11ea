/**
  Capability negotiation (`getSupportedFormat` in fluidSimulation.ts): a
  requested half-float render format is tried first; when the device
  cannot render to it the request degrades along R16F -> RG16F ->
  RGBA16F, and past RGBA16F the answer is "unsupported" (null). The GL
  probe (`supportRenderTextureFormat`, which allocates and destroys a 4x4
  target) is the parameter `supported`.
 */
module Formats {
  import opened Common

  /** The sized internal formats the engine asks for. */
  datatype InternalFormat = R16F | RG16F | RGBA16F

  /** The matching pixel-transfer formats (`gl.RED`, `gl.RG`, `gl.RGBA`). */
  datatype PixelFormat = Red | RG | RGBA

  /** The `{ internalFormat, format }` record `getSupportedFormat` returns. */
  datatype SupportedFormat = SupportedFormat(internalFormat: InternalFormat, format: PixelFormat)

  function PixelFormatOf(f: InternalFormat): PixelFormat {
    match f
    case R16F => Red
    case RG16F => RG
    case RGBA16F => RGBA
  }

  /** Position of a format in the degradation chain. */
  function Rank(f: InternalFormat): nat {
    match f
    case R16F => 0
    case RG16F => 1
    case RGBA16F => 2
  }

  /** `getSupportedFormat(internalFormat, format, type)`: the first format
      the device supports, scanning the chain from the requested one, or
      None when none of them is supported. */
  function GetSupportedFormat(f: InternalFormat, supported: InternalFormat -> bool): (r: Option<SupportedFormat>)
    ensures r.Some? ==>
              && supported(r.value.internalFormat)
              && r.value.format == PixelFormatOf(r.value.internalFormat)
              && Rank(f) <= Rank(r.value.internalFormat)
              && (forall g :: Rank(f) <= Rank(g) < Rank(r.value.internalFormat) ==> !supported(g))
    ensures r.None? <==> (forall g :: Rank(f) <= Rank(g) ==> !supported(g))
    decreases 2 - Rank(f)
  {
    if !supported(f) then
      match f
      case R16F => GetSupportedFormat(RG16F, supported)
      case RG16F => GetSupportedFormat(RGBA16F, supported)
      case RGBA16F => None
    else
      Some(SupportedFormat(f, PixelFormatOf(f)))
  }

  /** The device capabilities the engine records at construction
      (`this.ext`): the three negotiated formats and whether float
      textures can be sampled with linear filtering. */
  datatype Capabilities = Capabilities(
    formatRGBA: Option<SupportedFormat>,
    formatRG: Option<SupportedFormat>,
    formatR: Option<SupportedFormat>,
    supportLinearFiltering: bool)

  /** The constructor's negotiation: RGBA16F, RG16F and R16F are each
      requested, with the probe and the linear-filtering extension as
      inputs. */
  function Negotiate(supported: InternalFormat -> bool, linear: bool): Capabilities {
    Capabilities(
      GetSupportedFormat(RGBA16F, supported),
      GetSupportedFormat(RG16F, supported),
      GetSupportedFormat(R16F, supported),
      linear)
  }

  /** Whenever four channels are available, so are the narrower requests
      (each falls back at worst to RGBA16F). */
  predicate Consistent(caps: Capabilities) {
    caps.formatRGBA.Some? ==> caps.formatRG.Some? && caps.formatR.Some?
  }

  /** Negotiation always yields consistent capabilities, and fails for
      every request exactly when RGBA16F itself is unsupported. */
  lemma NegotiateConsistent(supported: InternalFormat -> bool, linear: bool)
    ensures Consistent(Negotiate(supported, linear))
    ensures Negotiate(supported, linear).formatRGBA.None? <==> !supported(RGBA16F)
    ensures Negotiate(supported, linear).formatRGBA.None? ==>
              Negotiate(supported, linear).formatRG.None? == !supported(RG16F)
  {
  }

  /** The chain as a list, from the requested format on. */
  function ChainFrom(f: InternalFormat): seq<InternalFormat> {
    [R16F, RG16F, RGBA16F][Rank(f)..]
  }

  /** Reference definition: the first entry of a list that is supported. */
  function FirstSupported(chain: seq<InternalFormat>, supported: InternalFormat -> bool): Option<InternalFormat> {
    if |chain| == 0 then None
    else if supported(chain[0]) then Some(chain[0])
    else FirstSupported(chain[1..], supported)
  }

  /** The recursive fallback agrees with scanning the chain list. */
  lemma GetSupportedFormatIsFirstInChain(f: InternalFormat, supported: InternalFormat -> bool)
    ensures GetSupportedFormat(f, supported) ==
            (match FirstSupported(ChainFrom(f), supported)
             case None => None
             case Some(g) => Some(SupportedFormat(g, PixelFormatOf(g))))
  {
    var c := ChainFrom(f);
    match f
    case R16F =>
      assert c == [R16F, RG16F, RGBA16F];
      assert c[1..] == [RG16F, RGBA16F];
      assert c[1..][1..] == [RGBA16F];
      assert c[1..][1..][1..] == [];
    case RG16F =>
      assert c == [RG16F, RGBA16F];
      assert c[1..] == [RGBA16F];
      assert c[1..][1..] == [];
    case RGBA16F =>
      assert c == [RGBA16F];
      assert c[1..] == [];
  }
}
