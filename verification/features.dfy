/**
 * Human-readable names for OpenType feature tags, following the "Feature
 * Tags" list of the OpenType Layout Tag Registry, with the upper-cased tag
 * as the fallback for tags the table does not list.
 */
module Features {
  import opened Wrappers
  import opened JsString

  /**
   * The constant `FEATURE_NAMES` record read at `tag`: the registered name,
   * or None (`undefined`) for a tag the record does not list.
   */
  function RegisteredName(tag: string): Option<string>
  {
    match tag
    // Ligatures
    case "liga" => Some("Standard Ligatures")
    case "dlig" => Some("Discretionary Ligatures")
    case "hlig" => Some("Historical Ligatures")
    case "clig" => Some("Contextual Ligatures")
    case "rlig" => Some("Required Ligatures")
    // Letter case
    case "smcp" => Some("Small Capitals")
    case "c2sc" => Some("Capitals to Small Capitals")
    case "pcap" => Some("Petite Capitals")
    case "c2pc" => Some("Capitals to Petite Capitals")
    case "unic" => Some("Unicase")
    case "case" => Some("Case-Sensitive Forms")
    // Numerals
    case "lnum" => Some("Lining Figures")
    case "onum" => Some("Oldstyle Figures")
    case "pnum" => Some("Proportional Figures")
    case "tnum" => Some("Tabular Figures")
    case "frac" => Some("Fractions")
    case "afrc" => Some("Alternative Fractions")
    case "ordn" => Some("Ordinals")
    case "zero" => Some("Slashed Zero")
    // Positioning
    case "kern" => Some("Kerning")
    case "cpsp" => Some("Capital Spacing")
    case "mark" => Some("Mark Positioning")
    case "mkmk" => Some("Mark to Mark Positioning")
    // Stylistic
    case "salt" => Some("Stylistic Alternates")
    case "swsh" => Some("Swash")
    case "calt" => Some("Contextual Alternates")
    case "hist" => Some("Historical Forms")
    case "locl" => Some("Localized Forms")
    case "rand" => Some("Randomize")
    // Width variants
    case "fwid" => Some("Full Widths")
    case "hwid" => Some("Half Widths")
    case "pwid" => Some("Proportional Widths")
    case "twid" => Some("Third Widths")
    case "qwid" => Some("Quarter Widths")
    // Vertical
    case "vert" => Some("Vertical Writing")
    case "vrt2" => Some("Vertical Alternates and Rotation")
    case "vkrn" => Some("Vertical Kerning")
    // Other
    case "aalt" => Some("Access All Alternates")
    case "ccmp" => Some("Glyph Composition/Decomposition")
    case "rclt" => Some("Required Contextual Alternates")
    case "rvrn" => Some("Required Variation Alternates")
    case "curs" => Some("Cursive Positioning")
    case "dist" => Some("Distances")
    case "size" => Some("Optical Size")
    case "subs" => Some("Subscript")
    case "sups" => Some("Superscript")
    case "sinf" => Some("Scientific Inferiors")
    case "titl" => Some("Titling")
    case _ => None
  }

  /** The registered name of `tag`, or the tag in upper case when the table does not list it. */
  function GetFeatureName(tag: string): (name: string)
    ensures RegisteredName(tag).Some? ==> name == RegisteredName(tag).value
    ensures RegisteredName(tag).None? ==> |name| == |tag| && ToLower(name) == ToLower(tag)
    ensures RegisteredName(tag).None? ==> forall i :: 0 <= i < |name| ==> !IsAsciiLower(name[i])
  {
    match RegisteredName(tag)
    case Some(registered) => registered
    case None =>
      LowerOfUpper(tag);
      ToUpper(tag)
  }

  /** Spot checks: two registered tags and one unregistered. */
  lemma FeatureNameExamples()
    ensures GetFeatureName("liga") == "Standard Ligatures"
    ensures GetFeatureName("kern") == "Kerning"
    ensures GetFeatureName("xyzw") == "XYZW"
  {
  }
}
