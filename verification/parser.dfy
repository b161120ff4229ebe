/**
 * The font summary built by `parseFontFromBuffer`: one group per table
 * category, filled by a walk over the decoder's character set, together with
 * the font's metadata and its feature list, plus the `U+XXXX` formatter.
 *
 * The binary decoder is an input here: a `DecodedFont` value holds what the
 * decoder exposes (character set, the partial code point -> glyph lookup,
 * per-glyph id, name, SVG path text and advance width, metadata).
 */
module Parser {
  import opened Wrappers
  import opened JsString
  import opened Categories
  import Features

  datatype Glyph = Glyph(
    id: int,
    codePoints: seq<CodePoint>,
    name: Option<string>,
    categoryId: string,
    path: string,
    advanceWidth: int)

  datatype GlyphGroup = GlyphGroup(category: GlyphCategory, glyphs: seq<Glyph>)

  datatype FontFeature = FontFeature(tag: string, name: string)

  datatype BBox = BBox(minX: int, minY: int, maxX: int, maxY: int, width: int, height: int)

  datatype FontInfo = FontInfo(
    familyName: string,
    styleName: string,
    fullName: string,
    version: string,
    bbox: BBox,
    isVariable: bool)

  datatype ParsedFont = ParsedFont(
    totalGlyphs: int,
    groups: seq<GlyphGroup>,
    info: FontInfo,
    features: seq<FontFeature>)

  /**
   * A glyph as the decoder hands it out; `svgPath` is the outline's path
   * text, kept opaque. A font without glyph names (no `post` table, or one
   * of version 3) gives `undefined` or `null` as the name: None.
   */
  datatype DecodedGlyph = DecodedGlyph(id: int, name: Option<string>, svgPath: string, advanceWidth: int)

  /** What the decoder exposes about one font (absent properties are None). */
  datatype DecodedFont = DecodedFont(
    familyName: Option<string>,
    subfamilyName: Option<string>,
    fullName: Option<string>,
    version: Option<string>,
    bbox: BBox,
    variationAxes: Option<set<string>>,
    characterSet: Option<seq<CodePoint>>,
    glyphForCodePoint: map<CodePoint, DecodedGlyph>,
    numGlyphs: int,
    availableFeatures: Option<seq<string>>)

  // ---------------------------------------------------------------------------
  // The placeholder-name filter `/^u.*\d+/`
  // ---------------------------------------------------------------------------

  /** The characters `.` does not match in a JavaScript regular expression. */
  predicate IsLineTerminator(c: char) {
    c == '\n' || c == '\r' || c as int == 0x2028 || c as int == 0x2029
  }

  /** `/.*\d/` anchored at the start of `s`, scanned left to right. */
  function DigitAfterAnyChars(s: string): bool
  {
    if s == [] then false
    else if IsDigit(s[0]) then true
    else if IsLineTerminator(s[0]) then false
    else DigitAfterAnyChars(s[1..])
  }

  /** `glyphNameRegEx.test(name)`. */
  function IsPlaceholderName(name: string): bool
  {
    |name| > 0 && name[0] == 'u' && DigitAfterAnyChars(name[1..])
  }

  /** The scan finds a digit preceded only by characters `.` matches. */
  lemma {:induction false} DigitAfterAnyCharsMeaning(s: string)
    ensures DigitAfterAnyChars(s) <==>
      exists k :: 0 <= k < |s| && IsDigit(s[k]) && forall j :: 0 <= j < k ==> !IsLineTerminator(s[j])
  {
    if s != [] && !IsDigit(s[0]) && !IsLineTerminator(s[0]) {
      DigitAfterAnyCharsMeaning(s[1..]);
      if DigitAfterAnyChars(s) {
        var k :| 0 <= k < |s[1..]| && IsDigit(s[1..][k]) &&
                 forall j :: 0 <= j < k ==> !IsLineTerminator(s[1..][j]);
        assert IsDigit(s[k + 1]) && forall j :: 0 <= j < k + 1 ==> !IsLineTerminator(s[j]);
      } else {
        forall k | 0 <= k < |s| && IsDigit(s[k])
          ensures exists j :: 0 <= j < k && IsLineTerminator(s[j])
        {
          assert k > 0 && IsDigit(s[1..][k - 1]);
          var j :| 0 <= j < k - 1 && IsLineTerminator(s[1..][j]);
          assert IsLineTerminator(s[j + 1]);
        }
      }
    }
  }

  /**
   * A name is a generated placeholder ("uni0041", "u1F600") exactly when it
   * starts with 'u' and a digit follows later with no line terminator in
   * between.
   */
  lemma {:induction false} PlaceholderNameMeaning(name: string)
    ensures IsPlaceholderName(name) <==>
      |name| > 0 && name[0] == 'u' &&
      exists k :: 1 <= k < |name| && IsDigit(name[k]) && forall j :: 1 <= j < k ==> !IsLineTerminator(name[j])
  {
    if |name| > 0 && name[0] == 'u' {
      var t := name[1..];
      DigitAfterAnyCharsMeaning(t);
      if DigitAfterAnyChars(t) {
        var k :| 0 <= k < |t| && IsDigit(t[k]) && forall j :: 0 <= j < k ==> !IsLineTerminator(t[j]);
        assert IsDigit(name[k + 1]) && forall j :: 1 <= j < k + 1 ==> !IsLineTerminator(name[j]);
      } else {
        forall k | 1 <= k < |name| && IsDigit(name[k])
          ensures exists j :: 1 <= j < k && IsLineTerminator(name[j])
        {
          assert IsDigit(t[k - 1]);
          var j :| 0 <= j < k - 1 && IsLineTerminator(t[j]);
          assert IsLineTerminator(name[j + 1]);
        }
      }
    }
  }

  /**
   * The `name` a record carries: dropped for placeholders, kept verbatim
   * otherwise. `test` converts a missing name to the text "undefined" (or
   * "null") first; neither matches, so a missing name stays missing.
   */
  function RecordName(decoderName: Option<string>): (name: Option<string>)
    ensures name.None? <==> decoderName.None? || IsPlaceholderName(decoderName.value)
    ensures name.Some? ==> name == decoderName
  {
    if IsPlaceholderName(decoderName.GetOr("undefined")) then None else decoderName
  }

  /** The texts `test` sees for a missing name are no placeholders, and the record has no name. */
  lemma MissingNameStaysMissing()
    ensures !IsPlaceholderName("undefined") && !IsPlaceholderName("null")
    ensures RecordName(None) == None
  {
    DigitAfterAnyCharsMeaning("ndefined");
  }

  /**
   * Any name of 'u', then characters other than line terminators, then a
   * digit is dropped, whether or not it spells a code point.
   */
  lemma UThenDigitIsPlaceholder(w: string, d: char)
    requires forall j :: 0 <= j < |w| ==> !IsLineTerminator(w[j])
    requires IsDigit(d)
    ensures RecordName(Some("u" + w + [d])) == None
  {
    var name := "u" + w + [d];
    assert name[|w| + 1] == d;
    assert forall j :: 1 <= j < |w| + 1 ==> name[j] == w[j - 1];
    PlaceholderNameMeaning(name);
  }

  lemma PlaceholderNameExamples()
    ensures RecordName(Some("uni0041")) == None
    ensures RecordName(Some("u1F600")) == None
    ensures RecordName(Some("underscore_2")) == None
  {
    assert IsDigit("uni0041"[3]);
    assert IsDigit("u1F600"[1]);
    UThenDigitIsPlaceholder("nderscore_", '2');
    assert "u" + "nderscore_" + ['2'] == "underscore_2";
  }

  lemma KeptNameExamples()
    ensures RecordName(Some("A")) == Some("A")
    ensures RecordName(Some("uni")) == Some("uni")
    ensures RecordName(Some("Uni0041")) == Some("Uni0041")
    ensures RecordName(Some("a1")) == Some("a1")
    ensures RecordName(Some("u\n1")) == Some("u\n1")
  {
  }

  // ---------------------------------------------------------------------------
  // The grouping walk, as a specification
  // ---------------------------------------------------------------------------

  /** The record the walk pushes for a code point whose glyph lookup succeeded. */
  function GlyphRecord(cp: CodePoint, glyph: DecodedGlyph): Glyph
  {
    Glyph(glyph.id, [cp], RecordName(glyph.name), GetCategoryForCodePoint(cp).id, glyph.svgPath, glyph.advanceWidth)
  }

  /** Whether `cp` yields a record of the group at table position `i`. */
  predicate LandsInGroup(cp: CodePoint, glyphFor: map<CodePoint, DecodedGlyph>, i: nat)
  {
    cp in glyphFor && CategoryIndexFor(cp) == i
  }

  /** The records the walk over `cps` leaves in the group at table position `i`. */
  function GroupGlyphs(cps: seq<CodePoint>, glyphFor: map<CodePoint, DecodedGlyph>, i: nat): seq<Glyph>
  {
    if cps == [] then []
    else
      var cp := cps[|cps| - 1];
      GroupGlyphs(cps[..|cps| - 1], glyphFor, i) +
        (if LandsInGroup(cp, glyphFor, i) then [GlyphRecord(cp, glyphFor[cp])] else [])
  }

  /** The character set the walk visits: none at all when the decoder has none. */
  function CharacterSet(font: DecodedFont): seq<CodePoint>
  {
    font.characterSet.GetOr([])
  }

  /** The code points of `cps` whose glyph lookup succeeds, in order. */
  function ResolvingCodePoints(cps: seq<CodePoint>, glyphFor: map<CodePoint, DecodedGlyph>): seq<CodePoint>
  {
    if cps == [] then []
    else
      ResolvingCodePoints(cps[..|cps| - 1], glyphFor) +
        (if cps[|cps| - 1] in glyphFor then [cps[|cps| - 1]] else [])
  }

  /** The sizes of the groups at positions below `n`, summed. */
  function GroupSizesBelow(cps: seq<CodePoint>, glyphFor: map<CodePoint, DecodedGlyph>, n: nat): nat
  {
    if n == 0 then 0 else GroupSizesBelow(cps, glyphFor, n - 1) + |GroupGlyphs(cps, glyphFor, n - 1)|
  }

  /** `features` of the summary: the decoder's tags in order, each with its name. */
  function FeatureList(tags: seq<string>): (features: seq<FontFeature>)
    ensures |features| == |tags|
    ensures forall i :: 0 <= i < |tags| ==>
      features[i].tag == tags[i] && features[i].name == Features.GetFeatureName(tags[i])
  {
    if tags == [] then []
    else [FontFeature(tags[0], Features.GetFeatureName(tags[0]))] + FeatureList(tags[1..])
  }

  /** The walk is a fold: walking `a` then `b` leaves `a`'s records before `b`'s. */
  lemma {:induction false} GroupGlyphsAppend(a: seq<CodePoint>, b: seq<CodePoint>, glyphFor: map<CodePoint, DecodedGlyph>, i: nat)
    ensures GroupGlyphs(a + b, glyphFor, i) == GroupGlyphs(a, glyphFor, i) + GroupGlyphs(b, glyphFor, i)
    decreases |b|
  {
    if b == [] {
      assert a + b == a;
    } else {
      var b' := b[..|b| - 1];
      assert (a + b)[..|a + b| - 1] == a + b';
      GroupGlyphsAppend(a, b', glyphFor, i);
    }
  }

  /** Every record of group `i` is the record of some code point of the walk that lands in that group. */
  lemma {:induction false} GroupGlyphsSource(cps: seq<CodePoint>, glyphFor: map<CodePoint, DecodedGlyph>, i: nat, p: nat)
    requires p < |GroupGlyphs(cps, glyphFor, i)|
    ensures exists k :: 0 <= k < |cps| && LandsInGroup(cps[k], glyphFor, i) &&
                        GroupGlyphs(cps, glyphFor, i)[p] == GlyphRecord(cps[k], glyphFor[cps[k]])
    decreases |cps|
  {
    var init := cps[..|cps| - 1];
    var cp := cps[|cps| - 1];
    var before := GroupGlyphs(init, glyphFor, i);
    var g := GroupGlyphs(cps, glyphFor, i);
    var tail := if LandsInGroup(cp, glyphFor, i) then [GlyphRecord(cp, glyphFor[cp])] else [];
    assert g == before + tail;
    if p < |before| {
      GroupGlyphsSource(init, glyphFor, i, p);
      var k :| 0 <= k < |init| && LandsInGroup(init[k], glyphFor, i) &&
        before[p] == GlyphRecord(init[k], glyphFor[init[k]]);
      assert cps[k] == init[k] && g[p] == before[p];
    } else {
      assert g[p] == tail[0];
      assert LandsInGroup(cps[|cps| - 1], glyphFor, i);
    }
  }

  /**
   * Every record of group `i` comes from a code point of the walk whose glyph
   * lookup succeeded and whose category is the group's: it carries exactly
   * that code point and the group's category id.
   */
  lemma GroupGlyphsMembers(cps: seq<CodePoint>, glyphFor: map<CodePoint, DecodedGlyph>, i: nat, p: nat)
    requires p < |GroupGlyphs(cps, glyphFor, i)|
    ensures i < |GlyphCategories|
    ensures exists k :: (0 <= k < |cps| && cps[k] in glyphFor && CategoryIndexFor(cps[k]) == i &&
                         GroupGlyphs(cps, glyphFor, i)[p] == GlyphRecord(cps[k], glyphFor[cps[k]]))
    ensures GroupGlyphs(cps, glyphFor, i)[p].codePoints == [GroupGlyphs(cps, glyphFor, i)[p].codePoints[0]]
    ensures GroupGlyphs(cps, glyphFor, i)[p].categoryId == GlyphCategories[i].id
  {
    GroupGlyphsSource(cps, glyphFor, i, p);
    var k :| 0 <= k < |cps| && LandsInGroup(cps[k], glyphFor, i) &&
      GroupGlyphs(cps, glyphFor, i)[p] == GlyphRecord(cps[k], glyphFor[cps[k]]);
    RecordOfGroup(cps[k], glyphFor[cps[k]], i);
  }

  /** The walk over `cps` splits around position `k` into the part before, that code point, and the part after. */
  lemma GroupGlyphsSplitAt(cps: seq<CodePoint>, glyphFor: map<CodePoint, DecodedGlyph>, i: nat, k: nat)
    requires k < |cps|
    ensures GroupGlyphs(cps, glyphFor, i) ==
      GroupGlyphs(cps[..k], glyphFor, i) + GroupGlyphs([cps[k]], glyphFor, i) + GroupGlyphs(cps[k + 1..], glyphFor, i)
  {
    assert cps == cps[..k] + [cps[k]] + cps[k + 1..];
    GroupGlyphsAppend(cps[..k] + [cps[k]], cps[k + 1..], glyphFor, i);
    GroupGlyphsAppend(cps[..k], [cps[k]], glyphFor, i);
  }

  /**
   * Conversely, every code point of the walk whose glyph lookup succeeds puts
   * its record into the group of its category, right after the records of
   * the code points before it.
   */
  lemma GroupGlyphsComplete(cps: seq<CodePoint>, glyphFor: map<CodePoint, DecodedGlyph>, k: nat)
    requires k < |cps| && cps[k] in glyphFor
    ensures var i := CategoryIndexFor(cps[k]);
      var before := GroupGlyphs(cps[..k], glyphFor, i);
      |before| < |GroupGlyphs(cps, glyphFor, i)| &&
      GroupGlyphs(cps, glyphFor, i)[|before|] == GlyphRecord(cps[k], glyphFor[cps[k]]) &&
      GlyphRecord(cps[k], glyphFor[cps[k]]) in GroupGlyphs(cps, glyphFor, i)
  {
    var i := CategoryIndexFor(cps[k]);
    GroupGlyphsSplitAt(cps, glyphFor, i, k);
    assert GroupGlyphs([cps[k]], glyphFor, i) == [GlyphRecord(cps[k], glyphFor[cps[k]])] by {
      assert [cps[k]][..0] == [];
      assert LandsInGroup(cps[k], glyphFor, i);
    }
  }

  /** The record of a code point carries that code point alone and its group's category id. */
  lemma RecordOfGroup(cp: CodePoint, glyph: DecodedGlyph, i: nat)
    requires CategoryIndexFor(cp) == i
    ensures i < |GlyphCategories|
    ensures GlyphRecord(cp, glyph).codePoints == [cp]
    ensures GlyphRecord(cp, glyph).categoryId == GlyphCategories[i].id
  {
  }

  /** No code point is ever classified as a ligature, so that group stays empty. */
  lemma {:induction false} LigatureGroupEmpty(cps: seq<CodePoint>, glyphFor: map<CodePoint, DecodedGlyph>)
    ensures GroupGlyphs(cps, glyphFor, LigatureIndex) == []
    decreases |cps|
  {
    if cps != [] {
      LigatureGroupEmpty(cps[..|cps| - 1], glyphFor);
    }
  }

  /** Adding one code point to the walk adds one record below `n` iff it resolves into a group below `n`. */
  lemma {:induction false} GroupSizesStep(cps: seq<CodePoint>, glyphFor: map<CodePoint, DecodedGlyph>, n: nat)
    requires cps != []
    ensures GroupSizesBelow(cps, glyphFor, n) ==
      GroupSizesBelow(cps[..|cps| - 1], glyphFor, n) +
      (if cps[|cps| - 1] in glyphFor && CategoryIndexFor(cps[|cps| - 1]) < n then 1 else 0)
  {
    if n > 0 {
      GroupSizesStep(cps, glyphFor, n - 1);
    }
  }

  lemma {:induction false} NoRecordsWithoutCodePoints(glyphFor: map<CodePoint, DecodedGlyph>, n: nat)
    ensures GroupSizesBelow([], glyphFor, n) == 0
  {
    if n > 0 {
      NoRecordsWithoutCodePoints(glyphFor, n - 1);
    }
  }

  /**
   * The groups hold exactly one record per code point whose glyph lookup
   * succeeds: code points without a glyph add nothing, and a glyph reached
   * from two code points is recorded twice.
   */
  lemma {:induction false} RecordCountIsResolvingCount(cps: seq<CodePoint>, glyphFor: map<CodePoint, DecodedGlyph>)
    ensures GroupSizesBelow(cps, glyphFor, |GlyphCategories|) == |ResolvingCodePoints(cps, glyphFor)|
    ensures |ResolvingCodePoints(cps, glyphFor)| <= |cps|
    decreases |cps|
  {
    if cps == [] {
      NoRecordsWithoutCodePoints(glyphFor, |GlyphCategories|);
    } else {
      RecordCountIsResolvingCount(cps[..|cps| - 1], glyphFor);
      GroupSizesStep(cps, glyphFor, |GlyphCategories|);
      assert CategoryIndexFor(cps[|cps| - 1]) < |GlyphCategories|;
    }
  }

  /** One glyph mapped from 'A' and 'a' yields two records, in character-set order. */
  lemma SharedGlyphRecordedTwice(glyph: DecodedGlyph)
    ensures var glyphFor := map[0x41 := glyph, 0x61 := glyph];
      GroupGlyphs([0x41, 0x61], glyphFor, 0) == [GlyphRecord(0x41, glyph), GlyphRecord(0x61, glyph)]
  {
    var glyphFor := map[0x41 := glyph, 0x61 := glyph];
    LookupMatchesBlockOrder(0x41);
    LookupMatchesBlockOrder(0x61);
    assert CategoryIndexFor(0x41) == 0 && CategoryIndexFor(0x61) == 0;
    assert [0x41, 0x61][..1] == [0x41];
    assert [0x41][..0] == [];
    assert GroupGlyphs([0x41], glyphFor, 0) == [GlyphRecord(0x41, glyph)];
  }

  // ---------------------------------------------------------------------------
  // formatCodePoint
  // ---------------------------------------------------------------------------

  /** The lower-case hexadecimal digit `Number.prototype.toString(16)` writes for `d`. */
  function HexDigit(d: nat): char
    requires d < 16
  {
    if d < 10 then ('0' as int + d) as char else ('a' as int + d - 10) as char
  }

  /** `n.toString(16)` for n >= 0: lower-case hexadecimal digits, most significant first. */
  function ToHex(n: nat): (s: string)
    ensures |s| >= 1
  {
    if n < 16 then [HexDigit(n)] else ToHex(n / 16) + [HexDigit(n % 16)]
  }

  /** `v.toString(16)` for an integer: a minus sign before the digits of a negative value. */
  function ToStringRadix16(v: int): string
  {
    if v < 0 then "-" + ToHex(-v) else ToHex(v)
  }

  /** The "U+XXXX" notation: upper-case hexadecimal, padded with zeros to four digits. */
  function FormatCodePoint(codePoint: int): string
  {
    "U+" + PadStart(ToUpper(ToStringRadix16(codePoint)), 4, '0')
  }

  predicate IsUpperHexDigit(c: char) {
    ('0' <= c <= '9') || ('A' <= c <= 'F')
  }

  function HexDigitValue(c: char): nat
  {
    if '0' <= c <= '9' then c as int - '0' as int
    else if 'A' <= c <= 'F' then c as int - 'A' as int + 10
    else 0
  }

  /** The value of a string of hexadecimal digits, read most significant first. */
  function HexValue(s: string): nat
  {
    if s == [] then 0 else HexValue(s[..|s| - 1]) * 16 + HexDigitValue(s[|s| - 1])
  }

  lemma UpperHexDigit(d: nat)
    requires d < 16
    ensures IsUpperHexDigit(UpperChar(HexDigit(d)))
    ensures HexDigitValue(UpperChar(HexDigit(d))) == d
    ensures d > 0 ==> UpperChar(HexDigit(d)) != '0'
  {
  }

  lemma {:induction false} UpperHexDigitsOfToHex(n: nat)
    ensures forall c :: c in ToUpper(ToHex(n)) ==> IsUpperHexDigit(c)
    ensures HexValue(ToUpper(ToHex(n))) == n
    ensures n > 0 ==> ToUpper(ToHex(n))[0] != '0'
    decreases n
  {
    var s := ToUpper(ToHex(n));
    if n < 16 {
      UpperHexDigit(n);
      assert s == [UpperChar(HexDigit(n))];
      assert s[..0] == [];
    } else {
      var prefix := ToHex(n / 16);
      var up := ToUpper(prefix);
      var last := UpperChar(HexDigit(n % 16));
      assert s == up + [last] by {
        assert ToHex(n) == prefix + [HexDigit(n % 16)];
      }
      assert HexValue(up) == n / 16 && up[0] != '0' && forall c :: c in up ==> IsUpperHexDigit(c) by {
        UpperHexDigitsOfToHex(n / 16);
      }
      assert IsUpperHexDigit(last) && HexDigitValue(last) == n % 16 by {
        UpperHexDigit(n % 16);
      }
      assert s[..|s| - 1] == up;
      forall c | c in s ensures IsUpperHexDigit(c) {
        assert c in up || c == last;
      }
    }
  }

  /** Leading zeros do not change a hexadecimal value. */
  lemma {:induction false} HexValueIgnoresLeadingZeros(zeros: string, s: string)
    requires forall i :: 0 <= i < |zeros| ==> zeros[i] == '0'
    ensures HexValue(zeros + s) == HexValue(s)
    decreases |s|, |zeros|
  {
    if s == [] {
      assert zeros + s == zeros;
      if zeros != [] {
        HexValueIgnoresLeadingZeros(zeros[..|zeros| - 1], []);
        assert zeros[..|zeros| - 1] + [] == zeros[..|zeros| - 1];
      }
    } else {
      assert (zeros + s)[..|zeros + s| - 1] == zeros + s[..|s| - 1];
      HexValueIgnoresLeadingZeros(zeros, s[..|s| - 1]);
    }
  }

  /** Zeros followed by hexadecimal digits are hexadecimal digits of the same value. */
  lemma ZerosThenHexDigits(zeros: string, digits: string)
    requires forall i :: 0 <= i < |zeros| ==> zeros[i] == '0'
    requires forall c :: c in digits ==> IsUpperHexDigit(c)
    ensures forall i :: 0 <= i < |zeros + digits| ==> IsUpperHexDigit((zeros + digits)[i])
    ensures HexValue(zeros + digits) == HexValue(digits)
  {
    HexValueIgnoresLeadingZeros(zeros, digits);
    forall i | 0 <= i < |zeros + digits| ensures IsUpperHexDigit((zeros + digits)[i]) {
      if i >= |zeros| {
        assert (zeros + digits)[i] == digits[i - |zeros|];
      }
    }
  }

  /** Padding hexadecimal digits with zeros to four keeps them digits and keeps their value. */
  lemma PadHexDigits(digits: string)
    requires forall c :: c in digits ==> IsUpperHexDigit(c)
    ensures var padded := PadStart(digits, 4, '0');
      (forall i :: 0 <= i < |padded| ==> IsUpperHexDigit(padded[i])) &&
      (|padded| > 4 ==> padded == digits) &&
      HexValue(padded) == HexValue(digits)
  {
    var padded := PadStart(digits, 4, '0');
    var k := |padded| - |digits|;
    var zeros := padded[..k];
    assert padded == zeros + padded[k..];
    ZerosThenHexDigits(zeros, digits);
  }

  /**
   * For a code point >= 0, `formatCodePoint` gives "U+" and then at least
   * four upper-case hexadecimal digits, with no leading zero beyond the
   * padding to four, and reading those digits back gives the code point.
   */
  lemma {:induction false} FormatCodePointRoundTrip(codePoint: nat)
    ensures var r := FormatCodePoint(codePoint);
      |r| >= 6 && r[..2] == "U+" &&
      (forall i :: 2 <= i < |r| ==> IsUpperHexDigit(r[i])) &&
      (|r| > 6 ==> r[2] != '0') &&
      HexValue(r[2..]) == codePoint
  {
    var digits := ToUpper(ToHex(codePoint));
    UpperHexDigitsOfToHex(codePoint);
    PadHexDigits(digits);
    var padded := PadStart(digits, 4, '0');
    var r := FormatCodePoint(codePoint);
    assert r == "U+" + padded;
    assert r[2..] == padded;
    forall i | 2 <= i < |r| ensures IsUpperHexDigit(r[i]) {
      assert r[i] == padded[i - 2];
    }
    if |r| > 6 {
      assert r[2] == digits[0];
    }
  }

  lemma FormatCodePointExamples()
    ensures FormatCodePoint(0x41) == "U+0041"
    ensures FormatCodePoint(0x1F600) == "U+1F600"
  {
    assert ToHex(0x41) == "41";
    assert ToHex(0x1F600) == "1f600";
  }

  // ---------------------------------------------------------------------------
  // parseFontFromBuffer
  // ---------------------------------------------------------------------------

  /**
   * Builds the summary of a decoded font: metadata with its fallbacks, one
   * empty group per table category (in table order), then one record per
   * character-set code point whose glyph lookup succeeds, pushed onto the
   * group of its category.
   */
  method ParseFontFromBuffer(font: DecodedFont) returns (parsed: ParsedFont)
    ensures parsed.totalGlyphs == font.numGlyphs
    ensures parsed.info.familyName == font.familyName.GetOr("Unknown")
    ensures parsed.info.styleName == font.subfamilyName.GetOr("Regular")
    ensures parsed.info.fullName == font.fullName.GetOr(font.familyName.GetOr("Unknown"))
    ensures parsed.info.version == font.version.GetOr("")
    ensures parsed.info.bbox == font.bbox
    ensures parsed.info.isVariable <==> font.variationAxes.Some? && font.variationAxes.value != {}
    ensures |parsed.groups| == |GlyphCategories|
    ensures forall i :: 0 <= i < |GlyphCategories| ==>
      parsed.groups[i] == GlyphGroup(GlyphCategories[i], GroupGlyphs(CharacterSet(font), font.glyphForCodePoint, i))
    ensures parsed.features == FeatureList(font.availableFeatures.GetOr([]))
  {
    var info := FontInfo(
      font.familyName.GetOr("Unknown"),
      font.subfamilyName.GetOr("Regular"),
      font.fullName.GetOr(font.familyName.GetOr("Unknown")),
      font.version.GetOr(""),
      font.bbox,
      |font.variationAxes.GetOr({})| > 0);

    // GLYPH_CATEGORIES.reduce(...): one empty group per category, in table order.
    var groups: seq<GlyphGroup> := [];
    for i := 0 to |GlyphCategories|
      invariant |groups| == i
      invariant forall j :: 0 <= j < i ==> groups[j] == GlyphGroup(GlyphCategories[j], [])
    {
      groups := groups + [GlyphGroup(GlyphCategories[i], [])];
    }

    var cps := CharacterSet(font);
    if font.characterSet.Some? {
      for k := 0 to |cps|
        invariant |groups| == |GlyphCategories|
        invariant forall i :: 0 <= i < |GlyphCategories| ==>
          groups[i] == GlyphGroup(GlyphCategories[i], GroupGlyphs(cps[..k], font.glyphForCodePoint, i))
      {
        var codePoint := cps[k];
        assert cps[..k + 1][..k] == cps[..k];
        if codePoint !in font.glyphForCodePoint {
          continue;
        }
        var glyph := font.glyphForCodePoint[codePoint];
        var category := GetCategoryForCodePoint(codePoint);
        // groups[category.id]: the group whose category carries that id.
        IdLookupFindsPosition(CategoryIndexFor(codePoint));
        var g := FirstCategoryWithId(GlyphCategories, category.id).value;
        var record := Glyph(glyph.id, [codePoint], RecordName(glyph.name), category.id, glyph.svgPath, glyph.advanceWidth);
        groups := groups[g := GlyphGroup(groups[g].category, groups[g].glyphs + [record])];
      }
      assert cps[..|cps|] == cps;
    }

    var tags := font.availableFeatures.GetOr([]);
    parsed := ParsedFont(font.numGlyphs, groups, info, FeatureList(tags));
  }
}
