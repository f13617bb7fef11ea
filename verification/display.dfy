/**
  Display-mode selection (`updateKeywords` in fluidSimulation.ts): the
  keyword list handed to the display material. The three transmissive
  modes are mutually exclusive and take precedence in the order 1, 2, 3;
  only when none is enabled does the default composite get SHADING,
  BLOOM and SUNRAYS, each when its flag is set.
 */
module Display {
  import opened EngineConfig

  /** The display mode a configuration selects, as a closed enumeration. */
  datatype DisplayMode =
    | Bubble        // TRANSMISSION1
    | Refraction2   // TRANSMISSION2
    | Refraction3   // TRANSMISSION3
    | Composite(shading: bool, bloom: bool, sunrays: bool)

  function ModeOf(c: Config): DisplayMode {
    if c.transmission1 then Bubble
    else if c.transmission2 then Refraction2
    else if c.transmission3 then Refraction3
    else Composite(c.shading, c.bloom, c.sunrays)
  }

  /** `updateKeywords()`: the keyword list of the selected mode. */
  function UpdateKeywords(c: Config): (r: seq<string>)
    ensures c.transmission1 ==> r == ["TRANSMISSION1"]
    ensures !c.transmission1 && c.transmission2 ==> r == ["TRANSMISSION2"]
    ensures !c.transmission1 && !c.transmission2 && c.transmission3 ==> r == ["TRANSMISSION3"]
    ensures "SHADING" in r <==> ModeOf(c).Composite? && c.shading
    ensures "BLOOM" in r <==> ModeOf(c).Composite? && c.bloom
    ensures "SUNRAYS" in r <==> ModeOf(c).Composite? && c.sunrays
    ensures ModeOf(c).Composite? ==>
              forall i, j :: 0 <= i < j < |r| ==> Order(r[i]) < Order(r[j])
    ensures ModeOf(c).Composite? ==>
              forall k :: k in r ==> k == "SHADING" || k == "BLOOM" || k == "SUNRAYS"
  {
    if c.transmission1 then ["TRANSMISSION1"]
    else if c.transmission2 then ["TRANSMISSION2"]
    else if c.transmission3 then ["TRANSMISSION3"]
    else
      (if c.shading then ["SHADING"] else [])
      + (if c.bloom then ["BLOOM"] else [])
      + (if c.sunrays then ["SUNRAYS"] else [])
  }

  /** The fixed order of the composite keywords. */
  function Order(keyword: string): int {
    if keyword == "SHADING" then 0
    else if keyword == "BLOOM" then 1
    else if keyword == "SUNRAYS" then 2
    else 3
  }

  /** The keyword list determines the mode back: a list names a
      transmissive mode exactly when that mode is selected, and the
      composite flags can be read off a composite list. */
  function ModeOfKeywords(keywords: seq<string>): DisplayMode {
    if keywords == ["TRANSMISSION1"] then Bubble
    else if keywords == ["TRANSMISSION2"] then Refraction2
    else if keywords == ["TRANSMISSION3"] then Refraction3
    else Composite("SHADING" in keywords, "BLOOM" in keywords, "SUNRAYS" in keywords)
  }

  /** Round trip: reading the mode back from the keyword list gives the
      mode the configuration selects. */
  lemma KeywordsDetermineMode(c: Config)
    ensures ModeOfKeywords(UpdateKeywords(c)) == ModeOf(c)
  {
    var r := UpdateKeywords(c);
    if ModeOf(c).Composite? {
      assert r != ["TRANSMISSION1"] && r != ["TRANSMISSION2"] && r != ["TRANSMISSION3"] by {
        if |r| == 1 {
          assert r[0] in r;
          assert Order(r[0]) < 3 by {
            assert r[0] == "SHADING" || r[0] == "BLOOM" || r[0] == "SUNRAYS";
          }
        }
      }
    }
  }

  /** Right after the capability degrade on a device without linear
      filtering, the display does not ask for the shading, bloom or sunrays
      variants, whatever the configuration said. A later sync from the
      panel can switch them back on (`ControlSync.SyncOverridesDegrade`). */
  lemma DegradedKeywords(c: Config)
    ensures var r := UpdateKeywords(DegradeForFiltering(c, false));
            "SHADING" !in r && "BLOOM" !in r && "SUNRAYS" !in r
  {
  }
}
