/**
  The React component's control synchronisation (MouseFluid.tsx): the
  background colour string is cut into three two-character channels and
  each is read with JavaScript's `parseInt(_, 16)`; every control value is
  copied into the engine configuration; the display keywords are recomputed
  on every sync, and the framebuffers are rebuilt only when one of the two
  resolutions changed.
 */
module ControlSync {
  import opened Common
  import opened EngineConfig
  import Display

  // ------------------------------------------------------------ parseInt

  /** The characters `parseInt` trims from the front of its argument: the
      ECMAScript WhiteSpace and LineTerminator code points. */
  predicate IsJsSpace(c: char) {
    || c == '\t' || c == '\U{0B}' || c == '\U{0C}' || c == ' ' || c == '\U{A0}' || c == '\U{FEFF}'
    || c == '\U{1680}' || ('\U{2000}' <= c <= '\U{200A}') || c == '\U{202F}' || c == '\U{205F}' || c == '\U{3000}'
    || c == '\n' || c == '\r' || c == '\U{2028}' || c == '\U{2029}'
  }

  /** The string with its leading white space removed. */
  function TrimStart(s: string): string {
    if s != [] && IsJsSpace(s[0]) then TrimStart(s[1..]) else s
  }

  /** Trimming removes a prefix made only of white space and stops at the
      first other character. */
  lemma {:induction false} TrimStartSpec(s: string)
    ensures var r := TrimStart(s);
            && |r| <= |s| && r == s[|s| - |r|..]
            && (forall i :: 0 <= i < |s| - |r| ==> IsJsSpace(s[i]))
            && (r == [] || !IsJsSpace(r[0]))
  {
    if s != [] && IsJsSpace(s[0]) {
      TrimStartSpec(s[1..]);
      var r := TrimStart(s);
      forall i | 0 <= i < |s| - |r|
        ensures IsJsSpace(s[i])
      {
        if i > 0 {
          assert s[i] == s[1..][i - 1];
        }
      }
    }
  }

  /** The value of a base-16 digit of either case, or None. */
  function DigitValue(c: char): (r: Option<nat>)
    ensures r.Some? ==> r.value < 16
  {
    if '0' <= c <= '9' then Some(c as nat - '0' as nat)
    else if 'a' <= c <= 'f' then Some(c as nat - 'a' as nat + 10)
    else if 'A' <= c <= 'F' then Some(c as nat - 'A' as nat + 10)
    else None
  }

  predicate IsHexDigit(c: char) {
    DigitValue(c).Some?
  }

  predicate AllHex(d: string) {
    forall i :: 0 <= i < |d| ==> IsHexDigit(d[i])
  }

  /** The length of the longest prefix made of hex digits. */
  function HexRun(s: string): (n: nat)
    ensures n <= |s| && AllHex(s[..n])
    ensures n < |s| ==> !IsHexDigit(s[n])
  {
    if s != [] && IsHexDigit(s[0]) then
      var n := HexRun(s[1..]);
      assert s[..n + 1] == [s[0]] + s[1..][..n];
      n + 1
    else 0
  }

  /** The number a string of hex digits denotes, most significant first. */
  function HexValue(d: string): nat
    requires AllHex(d)
  {
    if d == [] then 0 else HexValue(d[..|d| - 1]) * 16 + DigitValue(d[|d| - 1]).value
  }

  function Pow16(n: nat): (r: nat)
    ensures r >= 1
  {
    if n == 0 then 1 else 16 * Pow16(n - 1)
  }

  /** `d` hex digits denote a number below `16^d`. */
  lemma {:induction false} HexValueBound(d: string)
    requires AllHex(d)
    ensures HexValue(d) < Pow16(|d|)
  {
    if d != [] {
      HexValueBound(d[..|d| - 1]);
    }
  }

  /** The text after an optional leading sign. */
  function Unsigned(t: string): string {
    if t != [] && (t[0] == '-' || t[0] == '+') then t[1..] else t
  }

  /** The text after an optional `0x`/`0X`, which base 16 accepts. */
  function StripPrefix(u: string): string {
    if |u| >= 2 && u[0] == '0' && (u[1] == 'x' || u[1] == 'X') then u[2..] else u
  }

  /** The value of the leading run of hex digits, or None when there is
      none. */
  function Magnitude(digits: string): (r: Option<nat>)
    ensures r.None? <==> digits == [] || !IsHexDigit(digits[0])
  {
    var n := HexRun(digits);
    if n == 0 then None else Some(HexValue(digits[..n]))
  }

  /** `parseInt(s, 16)`: leading white space is skipped, then an optional
      sign and an optional `0x`/`0X`; the longest run of hex digits that
      follows is the magnitude, and the rest of the string is ignored. An
      empty run is NaN, modelled as None (and `-0` as 0). */
  function ParseInt16(s: string): Option<int>
  {
    var t := TrimStart(s);
    match Magnitude(StripPrefix(Unsigned(t)))
    case None => None
    case Some(m) => Some(if t != [] && t[0] == '-' then -(m as int) else m as int)
  }

  /** The leading run of `d + rest` is exactly `d` when `rest` does not
      continue it. */
  lemma {:induction false} HexRunOf(d: string, rest: string)
    requires AllHex(d)
    requires rest == [] || !IsHexDigit(rest[0])
    ensures HexRun(d + rest) == |d|
  {
    if d != [] {
      assert (d + rest)[0] == d[0];
      assert (d + rest)[1..] == d[1..] + rest;
      HexRunOf(d[1..], rest);
    } else {
      assert d + rest == rest;
    }
  }

  lemma MagnitudeOf(d: string, rest: string)
    requires d != [] && AllHex(d)
    requires rest == [] || !IsHexDigit(rest[0])
    ensures Magnitude(d + rest) == Some(HexValue(d))
  {
    HexRunOf(d, rest);
    assert (d + rest)[..|d|] == d;
  }

  /** A plain run of hex digits reads as its value, whatever text that
      cannot continue it follows (an `x` after a lone `0` would make it a
      prefix instead). */
  lemma ParseDigits(d: string, rest: string)
    requires d != [] && AllHex(d)
    requires rest == [] || (!IsHexDigit(rest[0]) && rest[0] != 'x' && rest[0] != 'X')
    ensures ParseInt16(d + rest) == Some(HexValue(d))
  {
    var s := d + rest;
    assert s[0] == d[0] && IsHexDigit(d[0]);
    assert TrimStart(s) == s;
    assert Unsigned(s) == s;
    if |s| >= 2 {
      if |d| >= 2 {
        assert s[1] == d[1] && IsHexDigit(d[1]);
      } else {
        assert s[1] == rest[0];
      }
    }
    assert StripPrefix(s) == s;
    MagnitudeOf(d, rest);
  }

  /** A leading space is skipped and a sign sets the direction. */
  lemma ParseSigned(d: string)
    requires d != [] && AllHex(d)
    ensures ParseInt16("-" + d) == Some(-(HexValue(d) as int))
    ensures ParseInt16("+" + d) == Some(HexValue(d) as int)
    ensures ParseInt16(" " + d) == Some(HexValue(d) as int)
  {
    ParseAfter('-', d);
    ParseAfter('+', d);
    ParseAfter(' ', d);
  }

  lemma ParseAfter(c: char, d: string)
    requires c in {'-', '+', ' '}
    requires d != [] && AllHex(d)
    ensures ParseInt16([c] + d) == Some(if c == '-' then -(HexValue(d) as int) else HexValue(d) as int)
  {
    if c == ' ' {
      ParseAfterSpace(d);
    } else {
      ParseAfterSign(c, d);
    }
  }

  lemma ParseAfterSpace(d: string)
    requires d != [] && AllHex(d)
    ensures ParseInt16([' '] + d) == Some(HexValue(d) as int)
  {
    var s := [' '] + d;
    assert s[1..] == d;
    NoPrefix(d);
    assert TrimStart(s) == d;
    MagnitudeOf(d, []);
    assert d + [] == d;
    ParseVia(s, HexValue(d));
  }

  lemma ParseAfterSign(c: char, d: string)
    requires c == '-' || c == '+'
    requires d != [] && AllHex(d)
    ensures ParseInt16([c] + d) == Some(if c == '-' then -(HexValue(d) as int) else HexValue(d) as int)
  {
    var s := [c] + d;
    assert s[1..] == d;
    NoPrefix(d);
    assert TrimStart(s) == s;
    assert Unsigned(s) == d;
    MagnitudeOf(d, []);
    assert d + [] == d;
    ParseVia(s, HexValue(d));
  }

  /** The last stage of `ParseInt16`: a magnitude, negated after a minus. */
  lemma ParseVia(s: string, m: nat)
    requires Magnitude(StripPrefix(Unsigned(TrimStart(s)))) == Some(m)
    ensures ParseInt16(s) == Some(if TrimStart(s) != [] && TrimStart(s)[0] == '-' then -(m as int) else m as int)
  {
  }

  /** A run of hex digits has no `0x` prefix to strip. */
  lemma NoPrefix(d: string)
    requires d != [] && AllHex(d)
    ensures StripPrefix(d) == d
    ensures Unsigned(d) == d
    ensures TrimStart(d) == d
  {
    assert IsHexDigit(d[0]);
    if |d| >= 2 {
      assert IsHexDigit(d[1]);
    }
  }

  /** Trailing junk after a digit is ignored. */
  lemma ParseTrailingJunk()
    ensures ParseInt16("1g") == Some(1)
  {
    assert "1g" == "1" + "g";
    ParseDigits("1", "g");
    assert HexValue("1") == 1 by {
      assert "1"[..0] == [];
    }
  }

  /** Leading junk, a bare sign, a bare `0x` and the empty string are NaN. */
  lemma ParseNaN()
    ensures ParseInt16("g1") == None
    ensures ParseInt16("-") == None
    ensures ParseInt16("0x") == None
    ensures ParseInt16("") == None
  {
    assert TrimStart("g1") == "g1";
    assert TrimStart("-") == "-" && Unsigned("-") == [];
    assert TrimStart("0x") == "0x" && StripPrefix("0x") == [];
  }

  /** A string of at most two characters reads as a number of magnitude at
      most 255 when it reads as a number at all. */
  lemma ParseShortBound(s: string)
    requires |s| <= 2
    ensures ParseInt16(s).Some? ==> -255 <= ParseInt16(s).value <= 255
  {
    TrimStartSpec(s);
    var t := TrimStart(s);
    var digits := StripPrefix(Unsigned(t));
    assert |digits| <= 2;
    var n := HexRun(digits);
    if n > 0 {
      HexValueBound(digits[..n]);
      assert Pow16(n) <= 256 by {
        assert Pow16(1) == 16 && Pow16(2) == 256;
      }
      var m := HexValue(digits[..n]);
      assert Magnitude(digits) == Some(m);
      assert m < 256;
    }
  }

  // ------------------------------------------------------------ formatting

  /** The lower-case hex digit for `d`. */
  function DigitChar(d: nat): (c: char)
    requires d < 16
    ensures DigitValue(c) == Some(d)
  {
    if d < 10 then ('0' as nat + d) as char else ('a' as nat + d - 10) as char
  }

  /** A channel as the two hex digits a colour picker writes. */
  function Hex2(n: nat): (r: string)
    requires n < 256
    ensures |r| == 2 && AllHex(r)
  {
    [DigitChar(n / 16), DigitChar(n % 16)]
  }

  /** Round trip: reading two formatted digits gives the channel back. */
  lemma Hex2RoundTrip(n: nat)
    requires n < 256
    ensures ParseInt16(Hex2(n)) == Some(n)
  {
    var h := Hex2(n);
    ParseDigits(h, []);
    assert h + [] == h;
    HexValueOfTwo(h);
  }

  /** Two digits denote sixteen times the first plus the second. */
  lemma HexValueOfTwo(h: string)
    requires |h| == 2 && AllHex(h)
    ensures HexValue(h) == DigitValue(h[0]).value * 16 + DigitValue(h[1]).value
  {
    var first := h[..1];
    assert first == [h[0]] && first[..0] == [] && h[..|h| - 1] == first;
    assert HexValue(first) == DigitValue(h[0]).value;
  }

  // ------------------------------------------------------------ background colour

  /** `String.prototype.slice`: negative positions count from the end, both
      are clamped to the string, and a reversed range is empty. */
  function Slice(s: string, start: int, end: int): (r: string)
    ensures |r| <= |s|
  {
    var from := SlicePosition(|s|, start);
    var to := SlicePosition(|s|, end);
    if to <= from then [] else s[from..to]
  }

  function SlicePosition(len: nat, k: int): (p: nat)
    ensures p <= len
  {
    if k < 0 then (if len + k < 0 then 0 else len + k) else if k > len then len else k
  }

  /** The background channels the sync effect reads from a colour string:
      characters 1-2, 3-4 and 5-6, each through `parseInt(_, 16)`. */
  function ParseBackColor(hex: string): (r: BackColor)
  {
    BackColor(ParseInt16(Slice(hex, 1, 3)), ParseInt16(Slice(hex, 3, 5)), ParseInt16(Slice(hex, 5, 7)))
  }

  /** Whatever the string, each channel is NaN or a number of magnitude at
      most 255. */
  lemma BackColorBounded(hex: string)
    ensures var c := ParseBackColor(hex);
            && (c.r.Some? ==> -255 <= c.r.value <= 255)
            && (c.g.Some? ==> -255 <= c.g.value <= 255)
            && (c.b.Some? ==> -255 <= c.b.value <= 255)
  {
    ParseShortBound(Slice(hex, 1, 3));
    ParseShortBound(Slice(hex, 3, 5));
    ParseShortBound(Slice(hex, 5, 7));
  }

  /** A `#rrggbb` string: seven characters, the last six hex digits. */
  predicate IsHexColor(hex: string) {
    |hex| == 7 && AllHex(hex[1..])
  }

  /** On a `#rrggbb` string every channel is a number in `[0, 255]`, namely
      the value of its two digits. */
  lemma HexColorChannels(hex: string)
    requires IsHexColor(hex)
    ensures var c := ParseBackColor(hex);
            && c.r == Some(HexValue(hex[1..3])) && c.g == Some(HexValue(hex[3..5])) && c.b == Some(HexValue(hex[5..7]))
            && 0 <= c.r.value <= 255 && 0 <= c.g.value <= 255 && 0 <= c.b.value <= 255
  {
    assert Slice(hex, 1, 3) == hex[1..3] && Slice(hex, 3, 5) == hex[3..5] && Slice(hex, 5, 7) == hex[5..7];
    ChannelOf(hex, 1);
    ChannelOf(hex, 3);
    ChannelOf(hex, 5);
  }

  lemma ChannelOf(hex: string, i: nat)
    requires IsHexColor(hex) && 1 <= i <= 5
    ensures AllHex(hex[i..i + 2])
    ensures ParseInt16(hex[i..i + 2]) == Some(HexValue(hex[i..i + 2]))
    ensures HexValue(hex[i..i + 2]) <= 255
  {
    var d := hex[i..i + 2];
    var tail := hex[1..];
    assert d[0] == tail[i - 1] && d[1] == tail[i];
    assert IsHexDigit(tail[i - 1]) && IsHexDigit(tail[i]);
    ParseDigits(d, []);
    assert d + [] == d;
    HexValueBound(d);
    assert Pow16(2) == 256;
  }

  /** Formatting three channels as `#rrggbb` and reading them back gives
      the channels. */
  lemma BackColorRoundTrip(r: nat, g: nat, b: nat)
    requires r < 256 && g < 256 && b < 256
    ensures ParseBackColor("#" + Hex2(r) + Hex2(g) + Hex2(b)) == BackColor(Some(r), Some(g), Some(b))
  {
    var hex := "#" + Hex2(r) + Hex2(g) + Hex2(b);
    assert hex[1..3] == Hex2(r) && hex[3..5] == Hex2(g) && hex[5..7] == Hex2(b);
    assert Slice(hex, 1, 3) == hex[1..3] && Slice(hex, 3, 5) == hex[3..5] && Slice(hex, 5, 7) == hex[5..7];
    Hex2RoundTrip(r);
    Hex2RoundTrip(g);
    Hex2RoundTrip(b);
  }

  // ------------------------------------------------------------ sync

  /** The control panel's values, grouped like the configuration: the
      material folders carry the same coefficients as the engine's
      display-mode records. */
  datatype Controls = Controls(
    quality: real,
    simResolution: real,
    densityDiffusion: real,
    velocityDiffusion: real,
    pressure: real,
    vorticity: real,
    splatRadius: real,
    shading: bool,
    colorful: bool,
    bloomEnabled: bool,
    bloomIntensity: real,
    bloomThreshold: real,
    sunraysEnabled: bool,
    sunraysWeight: real,
    velocitySplatEnabled: bool,
    velocityMaxRadius: real,
    velocitySensitivity: real,
    velocitySpeedBoost: real,
    velocityThreshold: real,
    backgroundColor: string,
    transmission1Enabled: bool,
    bubble: BubbleParams,
    transmission2Enabled: bool,
    refraction2: RefractionParams,
    transmission3Enabled: bool,
    refraction3: RefractionParams)

  /** The panel's initial values. */
  const InitialControls: Controls := Controls(
    quality := 1024.0,
    simResolution := 128.0,
    densityDiffusion := 18.88,
    velocityDiffusion := 0.2,
    pressure := 0.0,
    vorticity := 5.0,
    splatRadius := 0.0,
    shading := true,
    colorful := true,
    bloomEnabled := true,
    bloomIntensity := 0.8,
    bloomThreshold := 0.6,
    sunraysEnabled := true,
    sunraysWeight := 1.0,
    velocitySplatEnabled := true,
    velocityMaxRadius := 0.12,
    velocitySensitivity := 0.03,
    velocitySpeedBoost := 1.0,
    velocityThreshold := 0.0,
    backgroundColor := "#000000",
    transmission1Enabled := false,
    bubble := BubbleParams(0.0, 0.9, 0.01, -5.8, 96.0, 0.35, 10.0, 0.0, true),
    transmission2Enabled := false,
    refraction2 := RefractionParams(1.45, 2.5, 0.15, 0.6, 0.02, 3.0, 0.0, 0.5, 64.0, 0.4, 3.0, 0.2, true),
    transmission3Enabled := false,
    refraction3 := RefractionParams(1.45, 2.5, 0.15, 0.6, 0.02, 3.0, 0.0, 0.5, 64.0, 0.4, 3.0, 0.2, true))

  /** What one run of the sync effect leaves behind: the new configuration,
      the display keywords recomputed from it, and whether the framebuffers
      are rebuilt. */
  datatype SyncResult = SyncResult(config: Config, keywords: seq<string>, reinit: bool)

  /** The configuration with every control-driven field taken from the
      panel; the rest of `c` is left as it is. */
  function Assign(c: Config, k: Controls): Config {
    c.(dyeResolution := k.quality,
       simResolution := k.simResolution,
       densityDissipation := k.densityDiffusion,
       velocityDissipation := k.velocityDiffusion,
       pressure := k.pressure,
       curl := k.vorticity,
       splatRadius := k.splatRadius,
       shading := k.shading,
       colorful := k.colorful,
       bloom := k.bloomEnabled,
       bloomIntensity := k.bloomIntensity,
       bloomThreshold := k.bloomThreshold,
       sunrays := k.sunraysEnabled,
       sunraysWeight := k.sunraysWeight,
       transmission1 := k.transmission1Enabled,
       bubble := k.bubble,
       transmission2 := k.transmission2Enabled,
       refraction2 := k.refraction2,
       transmission3 := k.transmission3Enabled,
       refraction3 := k.refraction3,
       velocitySplat := k.velocitySplatEnabled,
       velocityMaxRadius := k.velocityMaxRadius,
       velocitySensitivity := k.velocitySensitivity,
       velocitySpeedBoost := k.velocitySpeedBoost,
       velocityThreshold := k.velocityThreshold,
       backColor := ParseBackColor(k.backgroundColor))
  }

  /** The fields no control drives: pressure iterations, splat force, colour
      update speed, pause, transparency and the bloom/sunrays buffer sizes. */
  predicate SameUndriven(a: Config, b: Config) {
    && a.pressureIterations == b.pressureIterations
    && a.splatForce == b.splatForce
    && a.colorUpdateSpeed == b.colorUpdateSpeed
    && a.paused == b.paused
    && a.transparent == b.transparent
    && a.bloomIterations == b.bloomIterations
    && a.bloomResolution == b.bloomResolution
    && a.bloomSoftKnee == b.bloomSoftKnee
    && a.sunraysResolution == b.sunraysResolution
  }

  /** The sync effect: the reinit decision is taken against the resolutions
      in force before the assignments. */
  function Sync(c: Config, k: Controls): (r: SyncResult)
    ensures r.reinit <==> c.dyeResolution != r.config.dyeResolution || c.simResolution != r.config.simResolution
    ensures r.keywords == Display.UpdateKeywords(r.config)
    ensures SameUndriven(r.config, c)
    // resolutions, dissipation, pressure, curl and splat radius
    ensures r.config.dyeResolution == k.quality && r.config.simResolution == k.simResolution
    ensures r.config.densityDissipation == k.densityDiffusion
    ensures r.config.velocityDissipation == k.velocityDiffusion
    ensures r.config.pressure == k.pressure && r.config.curl == k.vorticity
    ensures r.config.splatRadius == k.splatRadius
    // shading, colour, bloom and sunrays
    ensures r.config.shading == k.shading && r.config.colorful == k.colorful
    ensures r.config.bloom == k.bloomEnabled
    ensures r.config.bloomIntensity == k.bloomIntensity && r.config.bloomThreshold == k.bloomThreshold
    ensures r.config.sunrays == k.sunraysEnabled && r.config.sunraysWeight == k.sunraysWeight
    // the transmissive modes
    ensures r.config.transmission1 == k.transmission1Enabled && r.config.bubble == k.bubble
    ensures r.config.transmission2 == k.transmission2Enabled && r.config.refraction2 == k.refraction2
    ensures r.config.transmission3 == k.transmission3Enabled && r.config.refraction3 == k.refraction3
    // velocity-adaptive splats
    ensures r.config.velocitySplat == k.velocitySplatEnabled
    ensures r.config.velocityMaxRadius == k.velocityMaxRadius
    ensures r.config.velocitySensitivity == k.velocitySensitivity
    ensures r.config.velocitySpeedBoost == k.velocitySpeedBoost
    ensures r.config.velocityThreshold == k.velocityThreshold
    // the background, channel by channel from the hex string
    ensures r.config.backColor == ParseBackColor(k.backgroundColor)
  {
    var next := Assign(c, k);
    SyncResult(next, Display.UpdateKeywords(next), c.dyeResolution != k.quality || c.simResolution != k.simResolution)
  }

  /** The new configuration depends only on the panel and the undriven
      fields: two configurations that agree on those sync to the same
      result, whatever else they held. */
  lemma SyncForgetsDriven(a: Config, b: Config, k: Controls)
    requires SameUndriven(a, b)
    ensures Sync(a, k).config == Sync(b, k).config
  {
  }

  /** Syncing again with the same panel changes nothing and does not rebuild
      the framebuffers. */
  lemma SyncIdempotent(c: Config, k: Controls)
    ensures var r := Sync(c, k);
            var again := Sync(r.config, k);
            again.config == r.config && !again.reinit && again.keywords == r.keywords
  {
  }

  /** The framebuffers are rebuilt exactly when the panel's quality or
      simulation resolution differs from the configuration's; no other
      control triggers a rebuild. */
  lemma ReinitOnlyOnResolution(c: Config, k: Controls, k': Controls)
    requires k'.quality == k.quality && k'.simResolution == k.simResolution
    ensures Sync(c, k).reinit == Sync(c, k').reinit
    ensures Sync(c, k).reinit <==> c.dyeResolution != k.quality || c.simResolution != k.simResolution
  {
  }

  /** A sync of a freshly built engine against the unchanged initial panel
      keeps the buffers when float textures filter linearly, and rebuilds
      them when the engine had dropped to the 512 dye resolution; the
      background becomes black either way. Whether such a sync happens at
      all is up to the host: the effect is declared before the one that
      builds the engine, so at mount it finds no engine and returns. */
  lemma FirstSync(linear: bool)
    ensures var r := Sync(DegradeForFiltering(Defaults, linear), InitialControls);
            && (r.reinit <==> !linear)
            && r.config.backColor == BackColor(Some(0), Some(0), Some(0))
  {
    BlackBackground();
  }

  /** The panel overrides the capability degrade: on a device without
      linear filtering, a sync against the initial panel puts the dye
      resolution back to 1024 and asks the display for the shading, bloom
      and sunrays variants again, since every one of those fields is
      assigned from the panel unconditionally. */
  lemma SyncOverridesDegrade(c: Config)
    ensures var r := Sync(DegradeForFiltering(c, false), InitialControls);
            && r.reinit
            && r.config.dyeResolution == 1024.0
            && r.keywords == ["SHADING", "BLOOM", "SUNRAYS"]
  {
  }

  /** The initial background string reads as black. */
  lemma BlackBackground()
    ensures ParseBackColor(InitialControls.backgroundColor) == BackColor(Some(0), Some(0), Some(0))
  {
    var hex := InitialControls.backgroundColor;
    assert |hex| == 7;
    assert Slice(hex, 1, 3) == hex[1..3] && Slice(hex, 3, 5) == hex[3..5] && Slice(hex, 5, 7) == hex[5..7];
    ZeroPair(hex[1..3]);
    ZeroPair(hex[3..5]);
    ZeroPair(hex[5..7]);
  }

  /** "00" reads as 0. */
  lemma ZeroPair(z: string)
    requires |z| == 2 && z[0] == '0' && z[1] == '0'
    ensures ParseInt16(z) == Some(0)
  {
    assert AllHex(z) by {
      assert IsHexDigit(z[0]) && IsHexDigit(z[1]);
    }
    ParseDigits(z, []);
    assert z + [] == z;
    HexValueOfTwo(z);
  }
}
