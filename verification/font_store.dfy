/**
 * The font store's helpers in `state/index.ts`: the display name and the
 * format detected for an uploaded file, and the list update `addFonts`
 * applies, which drops files already in the store and keeps the list sorted.
 * Font ids, which the source draws from `crypto.randomUUID`, are parameters.
 */
module FontStore {
  import opened Wrappers
  import opened JsString
  import opened BrowserFile
  import opened Collation
  import opened FontUtils

  const FontExtensions: seq<string> := [".woff2", ".woff", ".ttf", ".otf"]

  /** The position of the first of `extensions` that `lower` ends with. */
  function FirstSuffixIn(lower: string, extensions: seq<string>): (r: Option<nat>)
    ensures r.Some? ==> r.value < |extensions| && EndsWith(lower, extensions[r.value])
  {
    if extensions == [] then None
    else if EndsWith(lower, extensions[0]) then Some(0)
    else match FirstSuffixIn(lower, extensions[1..])
      case None => None
      case Some(k) => Some(k + 1)
  }

  /** The search finds the first extension `lower` ends with, and nothing when there is none. */
  lemma {:induction false} FirstSuffixInMeaning(lower: string, extensions: seq<string>)
    ensures var r := FirstSuffixIn(lower, extensions);
      (r.None? <==> forall k :: 0 <= k < |extensions| ==> !EndsWith(lower, extensions[k])) &&
      (r.Some? ==> r.value < |extensions| && EndsWith(lower, extensions[r.value])) &&
      (r.Some? ==> forall k :: 0 <= k < r.value ==> !EndsWith(lower, extensions[k]))
    decreases |extensions|
  {
    if extensions != [] && !EndsWith(lower, extensions[0]) {
      FirstSuffixInMeaning(lower, extensions[1..]);
      assert forall k :: 1 <= k < |extensions| ==> extensions[k] == extensions[1..][k - 1];
    }
  }

  /** No name ends with two of the font extensions, so their order in the list is immaterial. */
  lemma FontExtensionsExclusive(s: string, i: nat)
    requires i < |FontExtensions| && EndsWith(s, FontExtensions[i])
    ensures forall j :: 0 <= j < |FontExtensions| && j != i ==> !EndsWith(s, FontExtensions[j])
  {
    var n, ext := |s|, FontExtensions[i];
    assert s[n - 1] == ext[|ext| - 1];
    assert s[n - 3] == ext[|ext| - 3];
    assert s[n - 4] == ext[|ext| - 4];
  }

  /** The first font extension a name ends with is the only one it ends with. */
  lemma FirstSuffixIsTheSuffix(lower: string, k: nat)
    requires k < |FontExtensions| && EndsWith(lower, FontExtensions[k])
    ensures FirstSuffixIn(lower, FontExtensions) == Some(k)
  {
    FontExtensionsExclusive(lower, k);
    FirstSuffixInMeaning(lower, FontExtensions);
  }

  // ---------------------------------------------------------------------------
  // normalizeName
  // ---------------------------------------------------------------------------

  /**
   * `fileName` without the first font extension `lower`, its lower-cased
   * form, ends with; the rest keeps its case.
   */
  function CutFontExtension(fileName: string, lower: string): (r: string)
    requires |lower| == |fileName|
    ensures |r| <= |fileName| && r == fileName[..|r|]
  {
    match FirstSuffixIn(lower, FontExtensions)
    case Some(k) => fileName[..|fileName| - |FontExtensions[k]|]
    case None => fileName
  }

  /** The file name without its font extension, matched case-insensitively. */
  function StripFontExtension(fileName: string): string
  {
    CutFontExtension(fileName, ToLower(fileName))
  }

  /** Exactly the one extension the name ends with is removed, and only once. */
  lemma StripRemovesTheExtension(fileName: string, k: nat)
    requires k < |FontExtensions| && EndsWith(ToLower(fileName), FontExtensions[k])
    ensures StripFontExtension(fileName) == fileName[..|fileName| - |FontExtensions[k]|]
  {
    var lower := ToLower(fileName);
    FirstSuffixIsTheSuffix(lower, k);
    CutAt(fileName, lower, k);
  }

  lemma CutAt(fileName: string, lower: string, k: nat)
    requires |lower| == |fileName| && FirstSuffixIn(lower, FontExtensions) == Some(k)
    ensures CutFontExtension(fileName, lower) == fileName[..|fileName| - |FontExtensions[k]|]
  {
  }

  /** A name that ends with no font extension is kept whole. */
  lemma StripKeepsOtherNames(fileName: string)
    requires forall k :: 0 <= k < |FontExtensions| ==> !EndsWith(ToLower(fileName), FontExtensions[k])
    ensures StripFontExtension(fileName) == fileName
  {
    var lower := ToLower(fileName);
    FirstSuffixInMeaning(lower, FontExtensions);
  }

  /** Whatever the stem, one appended font extension is removed and nothing more. */
  lemma StripAppendedExtension(stem: string, k: nat)
    requires k < |FontExtensions|
    ensures StripFontExtension(stem + FontExtensions[k]) == stem
  {
    var ext := FontExtensions[k];
    var name := stem + ext;
    var lower := ToLower(name);
    ToLowerOfLowerCase(ext);
    assert lower[|stem|..] == ext by {
      forall i | 0 <= i < |ext| ensures lower[|stem|..][i] == ext[i] {
        assert name[|stem| + i] == ext[i];
      }
    }
    StripRemovesTheExtension(name, k);
    assert name[..|stem|] == stem;
  }


  /** The extension is found whatever its case. */
  lemma StripUpperCaseExtension()
    ensures StripFontExtension("A.TTF") == "A"
  {
    assert ToLower("A.TTF") == "a.ttf";
    assert FontExtensions[2] == ".ttf";
    StripRemovesTheExtension("A.TTF", 2);
    assert "A.TTF"[..1] == "A";
  }

  predicate IsSeparator(c: char) {
    c == '-' || c == '_'
  }

  /** `s` without its leading run of separators. */
  function DropSeparators(s: string): (r: string)
    ensures |r| <= |s|
  {
    if s != [] && IsSeparator(s[0]) then DropSeparators(s[1..]) else s
  }

  /** `s.replace(/[-_]+/g, " ")`: each maximal run of '-' and '_' becomes one space. */
  function CollapseSeparators(s: string): string
    decreases |s|
  {
    if s == [] then []
    else if IsSeparator(s[0]) then " " + CollapseSeparators(DropSeparators(s))
    else [s[0]] + CollapseSeparators(s[1..])
  }

  /** No '-' or '_' survives, and the text does not grow. */
  lemma {:induction false} CollapseMeaning(s: string)
    ensures var r := CollapseSeparators(s);
      (forall i :: 0 <= i < |r| ==> !IsSeparator(r[i])) && |r| <= |s|
    decreases |s|
  {
    if s != [] {
      if IsSeparator(s[0]) {
        assert |DropSeparators(s)| < |s| by {
          assert DropSeparators(s) == DropSeparators(s[1..]);
        }
        CollapseMeaning(DropSeparators(s));
      } else {
        CollapseMeaning(s[1..]);
      }
    }
  }

  /** Text without separators is left as it is. */
  lemma {:induction false} CollapseWithoutSeparators(s: string)
    requires forall i :: 0 <= i < |s| ==> !IsSeparator(s[i])
    ensures CollapseSeparators(s) == s
    decreases |s|
  {
    if s != [] {
      CollapseWithoutSeparators(s[1..]);
    }
  }

  /** A whole run of separators, however long, becomes a single space. */
  lemma CollapseRun(run: string, rest: string)
    requires |run| > 0 && forall i :: 0 <= i < |run| ==> IsSeparator(run[i])
    requires rest == [] || !IsSeparator(rest[0])
    ensures CollapseSeparators(run + rest) == " " + CollapseSeparators(rest)
  {
    DropRun(run, rest);
  }

  lemma {:induction false} DropRun(run: string, rest: string)
    requires forall i :: 0 <= i < |run| ==> IsSeparator(run[i])
    requires rest == [] || !IsSeparator(rest[0])
    ensures DropSeparators(run + rest) == rest
    decreases |run|
  {
    if run == [] {
      assert run + rest == rest;
    } else {
      assert (run + rest)[1..] == run[1..] + rest;
      DropRun(run[1..], rest);
    }
  }

  /** `normalizeName` as a value: extension removed, separator runs replaced by a space, trimmed. */
  function NormalizedName(fileName: string): string
  {
    Trim(CollapseSeparators(StripFontExtension(fileName)))
  }

  /** The displayed name has no '-' or '_' and no white space at either end. */
  lemma NormalizedNameShape(fileName: string)
    ensures var r := NormalizedName(fileName);
      (forall i :: 0 <= i < |r| ==> !IsSeparator(r[i])) &&
      (r == [] || (!IsJsWhitespace(r[0]) && !IsJsWhitespace(r[|r| - 1])))
  {
    var collapsed := CollapseSeparators(StripFontExtension(fileName));
    CollapseMeaning(StripFontExtension(fileName));
    TrimMeaning(collapsed);
    var r := Trim(collapsed);
    var k := |collapsed| - |TrimStart(collapsed)|;
    forall i | 0 <= i < |r| ensures !IsSeparator(r[i]) {
      assert r[i] == collapsed[k + i];
    }
  }

  /** Text without separators passes through unchanged ahead of the rest. */
  lemma {:induction false} CollapseKeepsPlain(a: string, rest: string)
    requires forall i :: 0 <= i < |a| ==> !IsSeparator(a[i])
    ensures CollapseSeparators(a + rest) == a + CollapseSeparators(rest)
    decreases |a|
  {
    if a != [] {
      assert (a + rest)[1..] == a[1..] + rest;
      CollapseKeepsPlain(a[1..], rest);
      assert a == [a[0]] + a[1..];
    } else {
      assert a + rest == rest;
    }
  }


  /** Two words joined by any run of separators become the words joined by one space. */
  lemma CollapseWords(a: string, run: string, b: string)
    requires forall i :: 0 <= i < |a| ==> !IsSeparator(a[i])
    requires forall i :: 0 <= i < |b| ==> !IsSeparator(b[i])
    requires run != [] && forall i :: 0 <= i < |run| ==> IsSeparator(run[i])
    ensures CollapseSeparators(a + run + b) == a + " " + b
  {
    assert a + run + b == a + (run + b);
    CollapseKeepsPlain(a, run + b);
    CollapseRun(run, b);
    CollapseWithoutSeparators(b);
  }

  /**
   * Names like "Open__Sans.TTF": two words joined by a run of '-' and '_',
   * with a font extension, are shown as the two words and one space.
   */
  lemma NormalizedNameOfWords(a: string, run: string, b: string, k: nat)
    requires k < |FontExtensions|
    requires a != [] && b != [] && !IsJsWhitespace(a[0]) && !IsJsWhitespace(b[|b| - 1])
    requires forall i :: 0 <= i < |a| ==> !IsSeparator(a[i])
    requires forall i :: 0 <= i < |b| ==> !IsSeparator(b[i])
    requires run != [] && forall i :: 0 <= i < |run| ==> IsSeparator(run[i])
    ensures NormalizedName(a + run + b + FontExtensions[k]) == a + " " + b
  {
    var stem := a + run + b;
    StripAppendedExtension(stem, k);
    CollapseWords(a, run, b);
    var r := a + " " + b;
    assert r[0] == a[0] && r[|r| - 1] == b[|b| - 1];
    TrimKeepsTrimmed(r);
  }
  /**
   * `normalizeName`: scans the extensions in order and cuts the first one the
   * lower-cased name ends with, then collapses separators and trims.
   */
  method NormalizeName(fileName: string) returns (name: string)
    ensures name == NormalizedName(fileName)
  {
    name := fileName;
    var lower := ToLower(name);
    var i := 0;
    while i < |FontExtensions|
      invariant 0 <= i <= |FontExtensions|
      invariant name == fileName
      invariant forall k :: 0 <= k < i ==> !EndsWith(lower, FontExtensions[k])
    {
      var ext := FontExtensions[i];
      if EndsWith(lower, ext) {
        name := name[..|name| - |ext|];
        break;
      }
      i := i + 1;
    }
    if i < |FontExtensions| {
      StripRemovesTheExtension(fileName, i);
    } else {
      StripKeepsOtherNames(fileName);
    }
    ghost var stripped := name;
    assert stripped == StripFontExtension(fileName);
    name := Trim(CollapseSeparators(name));
  }

  // ---------------------------------------------------------------------------
  // extensionFromFile
  // ---------------------------------------------------------------------------

  /** `MIME_TO_EXT`: the MIME types fonts are served with, and their format. */
  function MimeToExt(mimeType: string): Option<string>
  {
    match mimeType
    case "font/woff2" => Some("woff2")
    case "font/woff" => Some("woff")
    case "font/ttf" => Some("ttf")
    case "font/otf" => Some("otf")
    case "application/font-woff2" => Some("woff2")
    case "application/font-woff" => Some("woff")
    case "application/x-font-ttf" => Some("ttf")
    case "application/x-font-otf" => Some("otf")
    case _ => None
  }

  /** The four formats, and "" for none. */
  predicate IsKnownFormat(ext: string) {
    ext == "woff2" || ext == "woff" || ext == "ttf" || ext == "otf" || ext == ""
  }

  /** The format for a file whose lower-cased name is `lower`. */
  function FormatFor(lower: string, mimeType: string): (ext: string)
    ensures IsKnownFormat(ext)
  {
    match FirstSuffixIn(lower, FontExtensions)
    case Some(k) => FontExtensions[k][1..]
    case None => MimeToExt(mimeType).GetOr("")
  }

  /** `extensionFromFile` as a value: the name's extension without its dot, else the MIME type's format, else "". */
  function ExtensionOf(fileName: string, mimeType: string): (ext: string)
    ensures IsKnownFormat(ext)
  {
    FormatFor(ToLower(fileName), mimeType)
  }

  /** An extension in the name wins over the MIME type, whatever that says. */
  lemma ExtensionFromNameWins(fileName: string, mimeType: string, k: nat)
    requires k < |FontExtensions| && EndsWith(ToLower(fileName), FontExtensions[k])
    ensures ExtensionOf(fileName, mimeType) == FontExtensions[k][1..]
  {
    var lower := ToLower(fileName);
    FirstSuffixIsTheSuffix(lower, k);
    assert FirstSuffixIn(lower, FontExtensions) == Some(k);
  }

  /** Without an extension in the name, the MIME type decides; an unknown one gives "". */
  lemma ExtensionFromMimeType(fileName: string, mimeType: string)
    requires forall k :: 0 <= k < |FontExtensions| ==> !EndsWith(ToLower(fileName), FontExtensions[k])
    ensures ExtensionOf(fileName, mimeType) == (if MimeToExt(mimeType).Some? then MimeToExt(mimeType).value else "")
    ensures MimeToExt(mimeType).None? ==> ExtensionOf(fileName, mimeType) == ""
  {
    FirstSuffixInMeaning(ToLower(fileName), FontExtensions);
  }

  /** Every format the MIME table yields is one of the four. */
  lemma MimeFormatsAreKnown(mimeType: string)
    ensures MimeToExt(mimeType).Some? ==> IsKnownFormat(MimeToExt(mimeType).value) && MimeToExt(mimeType).value != ""
  {
  }

  /** `extensionFromFile`: returns from inside the scan at the first match. */
  method ExtensionFromFile(fileName: string, mimeType: string) returns (ext: string)
    ensures ext == ExtensionOf(fileName, mimeType)
  {
    var lower := ToLower(fileName);
    for i := 0 to |FontExtensions|
      invariant forall k :: 0 <= k < i ==> !EndsWith(lower, FontExtensions[k])
    {
      if EndsWith(lower, FontExtensions[i]) {
        FirstSuffixIsTheSuffix(lower, i);
        return FontExtensions[i][1..];
      }
    }
    FirstSuffixInMeaning(lower, FontExtensions);
    ext := MimeToExt(mimeType).GetOr("");
  }

  // ---------------------------------------------------------------------------
  // addFonts
  // ---------------------------------------------------------------------------

  /** `createFontFromFile`, with the id given. */
  function CreateFont(file: File, id: string): Font
  {
    Font(id, NormalizedName(file.name), file.name, file.size, ExtensionOf(file.name, file.mimeType), file)
  }

  function FileNames(fonts: seq<Font>): set<string>
  {
    set f | f in fonts :: f.fileName
  }

  /** One font per file, `ids[i]` being the id drawn for `files[i]`. */
  function MakeFonts(files: seq<File>, ids: seq<string>): (r: seq<Font>)
    requires |ids| == |files|
    ensures |r| == |files|
    ensures forall i :: 0 <= i < |files| ==> r[i].fileName == files[i].name
  {
    if files == [] then []
    else
      var rest := MakeFonts(files[1..], ids[1..]);
      assert forall i :: 1 <= i < |files| ==> files[1..][i - 1] == files[i];
      [CreateFont(files[0], ids[0])] + rest
  }

  /** The font made for `files[i]` is the one `createFontFromFile` builds from it. */
  lemma {:induction false} MakeFontsAt(files: seq<File>, ids: seq<string>, i: nat)
    requires |ids| == |files| && i < |files|
    ensures MakeFonts(files, ids)[i] == CreateFont(files[i], ids[i])
    decreases i
  {
    if i > 0 {
      MakeFontsAt(files[1..], ids[1..], i - 1);
      assert files[1..][i - 1] == files[i] && ids[1..][i - 1] == ids[i];
    }
  }

  /** The fonts of `made`, in order, whose file name no font of `prev` has. */
  function FreshFonts(prev: seq<Font>, made: seq<Font>): (r: seq<Font>)
    ensures |r| <= |made|
    ensures forall f :: f in r <==> f in made && f.fileName !in FileNames(prev)
    ensures (forall i :: 0 <= i < |made| ==> made[i].fileName !in FileNames(prev)) ==> r == made
    ensures forall f :: multiset(r)[f] == if f.fileName in FileNames(prev) then 0 else multiset(made)[f]
  {
    if made == [] then []
    else
      assert forall f :: f in made <==> f == made[0] || f in made[1..];
      assert made == [made[0]] + made[1..];
      (if made[0].fileName in FileNames(prev) then [] else [made[0]]) + FreshFonts(prev, made[1..])
  }

  /**
   * The fonts `addFonts` creates: one for each file whose name no font of
   * `prev` has, in file order. The source filters the files and then creates
   * fonts; creating first and filtering on the font's `fileName` gives the
   * same fonts, since a font keeps its file's name.
   */
  function NewFonts(prev: seq<Font>, files: seq<File>, ids: seq<string>): seq<Font>
    requires |ids| == |files|
  {
    FreshFonts(prev, MakeFonts(files, ids))
  }

  /** Every pair of fonts in `fonts` is in comparator order. */
  ghost predicate Sorted(fonts: seq<Font>, key: CollationKey)
  {
    forall i, j :: 0 <= i < j < |fonts| ==> FontsPredicate(fonts[i], fonts[j], key) <= 0
  }

  /** Inserts `x` before the first font that sorts strictly after it. */
  function Insert(x: Font, fonts: seq<Font>, key: CollationKey): seq<Font>
  {
    if fonts == [] then [x]
    else if FontsPredicate(x, fonts[0], key) < 0 then [x] + fonts
    else [fonts[0]] + Insert(x, fonts[1..], key)
  }

  /** The comparator sort of `Array.prototype.sort`, as an insertion sort. */
  function SortFonts(fonts: seq<Font>, key: CollationKey): seq<Font>
  {
    if fonts == [] then [] else Insert(fonts[|fonts| - 1], SortFonts(fonts[..|fonts| - 1], key), key)
  }

  lemma SortedTail(fonts: seq<Font>, key: CollationKey)
    requires fonts != [] && Sorted(fonts, key)
    ensures Sorted(fonts[1..], key)
  {
    forall i, j | 0 <= i < j < |fonts[1..]| ensures FontsPredicate(fonts[1..][i], fonts[1..][j], key) <= 0 {
      assert fonts[1..][i] == fonts[i + 1] && fonts[1..][j] == fonts[j + 1];
    }
  }

  lemma SortedCons(y: Font, fonts: seq<Font>, key: CollationKey)
    requires Sorted(fonts, key)
    requires forall k :: 0 <= k < |fonts| ==> FontsPredicate(y, fonts[k], key) <= 0
    ensures Sorted([y] + fonts, key)
  {
    var r := [y] + fonts;
    forall i, j | 0 <= i < j < |r| ensures FontsPredicate(r[i], r[j], key) <= 0 {
      if i == 0 {
        assert r[j] == fonts[j - 1];
      } else {
        assert r[i] == fonts[i - 1] && r[j] == fonts[j - 1];
      }
    }
  }

  /** A font no later than the head of a sorted list is no later than any font of it. */
  lemma BeforeHeadBeforeAll(y: Font, fonts: seq<Font>, key: CollationKey)
    requires fonts != [] && Sorted(fonts, key)
    requires FontsPredicate(y, fonts[0], key) <= 0
    ensures forall k :: 0 <= k < |fonts| ==> FontsPredicate(y, fonts[k], key) <= 0
  {
    forall k | 0 <= k < |fonts| ensures FontsPredicate(y, fonts[k], key) <= 0 {
      if k > 0 {
        FontsPredicateTransitive(y, fonts[0], fonts[k], key);
      }
    }
  }

  lemma {:induction false} InsertSorted(x: Font, fonts: seq<Font>, key: CollationKey)
    requires Sorted(fonts, key)
    ensures multiset(Insert(x, fonts, key)) == multiset(fonts) + multiset{x}
    ensures Sorted(Insert(x, fonts, key), key)
    decreases |fonts|
  {
    if fonts == [] {
    } else if FontsPredicate(x, fonts[0], key) < 0 {
      BeforeHeadBeforeAll(x, fonts, key);
      SortedCons(x, fonts, key);
    } else {
      var rest := Insert(x, fonts[1..], key);
      SortedTail(fonts, key);
      InsertSorted(x, fonts[1..], key);
      assert fonts == [fonts[0]] + fonts[1..];
      FontsPredicateAntisymmetric(x, fonts[0], key);
      forall k | 0 <= k < |rest| ensures FontsPredicate(fonts[0], rest[k], key) <= 0 {
        var y := rest[k];
        assert y in multiset(rest);
        if y != x {
          assert y in multiset(fonts[1..]);
          var m :| 0 <= m < |fonts[1..]| && fonts[1..][m] == y;
          assert fonts[m + 1] == y;
        }
      }
      SortedCons(fonts[0], rest, key);
    }
  }

  lemma {:induction false} SortFontsSorts(fonts: seq<Font>, key: CollationKey)
    ensures multiset(SortFonts(fonts, key)) == multiset(fonts)
    ensures Sorted(SortFonts(fonts, key), key)
    decreases |fonts|
  {
    if fonts != [] {
      var init := fonts[..|fonts| - 1];
      SortFontsSorts(init, key);
      InsertSorted(fonts[|fonts| - 1], SortFonts(init, key), key);
      assert fonts == init + [fonts[|fonts| - 1]];
    }
  }

  /** Inserting a font that sorts no earlier than every font of a list appends it. */
  lemma {:induction false} InsertLast(x: Font, fonts: seq<Font>, key: CollationKey)
    requires forall i :: 0 <= i < |fonts| ==> FontsPredicate(fonts[i], x, key) <= 0
    ensures Insert(x, fonts, key) == fonts + [x]
    decreases |fonts|
  {
    if fonts != [] {
      FontsPredicateAntisymmetric(fonts[0], x, key);
      InsertLast(x, fonts[1..], key);
      assert fonts == [fonts[0]] + fonts[1..];
    }
  }

  /** Sorting a list that is already sorted leaves it as it is. */
  lemma {:induction false} SortFontsOfSorted(fonts: seq<Font>, key: CollationKey)
    requires Sorted(fonts, key)
    ensures SortFonts(fonts, key) == fonts
    decreases |fonts|
  {
    if fonts != [] {
      var init := fonts[..|fonts| - 1];
      SortFontsOfSorted(init, key);
      InsertLast(fonts[|fonts| - 1], init, key);
      assert fonts == init + [fonts[|fonts| - 1]];
    }
  }

  /**
   * The list `addFonts` leaves in the store: the previous fonts and the new
   * ones, sorted by `fontsPredicate`.
   */
  function AddFonts(prev: seq<Font>, files: seq<File>, ids: seq<string>, key: CollationKey): seq<Font>
    requires |ids| == |files|
  {
    SortFonts(prev + NewFonts(prev, files, ids), key)
  }

  /**
   * `addFonts` keeps every previous font, adds exactly the fonts made from
   * files whose names the store did not hold (duplicates within the batch
   * included), and leaves the list sorted by name, then extension.
   */
  lemma AddFontsSpec(prev: seq<Font>, files: seq<File>, ids: seq<string>, key: CollationKey)
    requires |ids| == |files|
    ensures var r := AddFonts(prev, files, ids, key);
      multiset(r) == multiset(prev) + multiset(NewFonts(prev, files, ids)) &&
      (forall f :: multiset(r)[f] ==
        multiset(prev)[f] + if f.fileName in FileNames(prev) then 0 else multiset(MakeFonts(files, ids))[f]) &&
      (forall f :: f in prev ==> f in r) &&
      (forall f :: f in r && f !in prev ==> f.fileName !in FileNames(prev)) &&
      Sorted(r, key)
  {
    var all := prev + NewFonts(prev, files, ids);
    SortFontsSorts(all, key);
    var r := AddFonts(prev, files, ids, key);
    forall f | f in prev ensures f in r {
      assert f in multiset(all);
      assert f in multiset(r);
    }
    forall f | f in r && f !in prev ensures f.fileName !in FileNames(prev) {
      assert f in multiset(r);
      assert f in multiset(all);
      assert f in NewFonts(prev, files, ids);
    }
  }

  /** No font is fresh when the store already holds every file name. */
  lemma {:induction false} FreshFontsOfStored(prev: seq<Font>, made: seq<Font>)
    requires forall f :: f in made ==> f.fileName in FileNames(prev)
    ensures FreshFonts(prev, made) == []
    decreases |made|
  {
    if made != [] {
      assert made[0] in made;
      assert forall f :: f in made[1..] ==> f in made;
      FreshFontsOfStored(prev, made[1..]);
    }
  }

  /** After `addFonts`, the store holds a font for every file name of the batch. */
  lemma AddedNamesAreStored(prev: seq<Font>, files: seq<File>, ids: seq<string>, key: CollationKey)
    requires |ids| == |files|
    ensures forall i :: 0 <= i < |files| ==> files[i].name in FileNames(AddFonts(prev, files, ids, key))
  {
    var r := AddFonts(prev, files, ids, key);
    var made := MakeFonts(files, ids);
    AddFontsSpec(prev, files, ids, key);
    forall i | 0 <= i < |files| ensures files[i].name in FileNames(r) {
      if files[i].name in FileNames(prev) {
        var f :| f in prev && f.fileName == files[i].name;
        assert f in r;
      } else {
        var f := made[i];
        assert f in made;
        assert f in NewFonts(prev, files, ids);
        assert f in multiset(NewFonts(prev, files, ids));
        assert f in multiset(r);
        assert f in r;
      }
    }
  }

  /** Adding the same files a second time changes nothing. */
  lemma AddFontsAgainChangesNothing(prev: seq<Font>, files: seq<File>, ids: seq<string>, ids2: seq<string>, key: CollationKey)
    requires |ids| == |files| && |ids2| == |files|
    ensures var r := AddFonts(prev, files, ids, key);
      AddFonts(r, files, ids2, key) == r
  {
    var r := AddFonts(prev, files, ids, key);
    AddedNamesAreStored(prev, files, ids, key);
    assert Sorted(r, key) by {
      AddFontsSpec(prev, files, ids, key);
    }
    var made2 := MakeFonts(files, ids2);
    forall f | f in made2 ensures f.fileName in FileNames(r) {
      var i :| 0 <= i < |made2| && made2[i] == f;
    }
    FreshFontsOfStored(r, made2);
    assert r + NewFonts(r, files, ids2) == r;
    SortFontsOfSorted(r, key);
  }
  /** Files of one batch are not checked against each other: two files with one name both arrive. */
  lemma SameNameInOneBatch(file: File, id1: string, id2: string, key: CollationKey)
    ensures |AddFonts([], [file, file], [id1, id2], key)| == 2
  {
    var made := MakeFonts([file, file], [id1, id2]);
    assert FileNames([]) == {};
    assert NewFonts([], [file, file], [id1, id2]) == made;
    SortFontsSorts(made, key);
    assert [] + made == made;
    assert |multiset(AddFonts([], [file, file], [id1, id2], key))| == 2;
  }
}
