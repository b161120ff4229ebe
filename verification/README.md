# font-optimizer core, modelled in Dafny

font-optimizer is a browser tool. The user drops font files on the page. The
app keeps a sorted list of uploaded fonts and parses each font in a web worker,
one at a time. It then shows the glyphs grouped by Unicode category, with the
font's OpenType features. This project models the logic under that:

- the category table and code point lookup (`categories.ts`);
- the font summary built from a decoded font (`parser.ts`): one group per
  category, the placeholder glyph-name filter and the `U+XXXX` formatter;
- the feature-tag names (`features.ts`);
- the single-flight parse queue with its promises and reordering
  (`parserWorker.ts`), as a class;
- the font store helpers (`state/index.ts`): the display name, the format
  detected for a file, and the sorted, duplicate-free list update of
  `addFonts`;
- the font comparator (`utils.ts`);
- the file picker's filter (`useFilePicker.ts`);
- the class-name combiner (`cn.ts`);
- keyboard-modality focus tracking (`focusVisible.ts`), as two classes over
  the shared flag and each element's signals.

Layout:

- `wrappers.dfy`: `Option`.
- `js_string.dfy`: the JavaScript string built-ins the core uses
  (`toLowerCase`, `toUpperCase`, `endsWith`, `padStart`, `trim`).
- `browser_file.dfy`: the browser's `File`.
- `collation.dfy`: `localeCompare` over a caller-given collation key.
- Then one file per core source file: `categories.dfy`, `parser.dfy`,
  `features.dfy`, `parser_worker.dfy`, `font_store.dfy`, `font_utils.dfy`,
  `file_picker.dfy`, `class_names.dfy`, `focus_visible.dfy`.

The code's own form is kept:
- Pure helpers are functions.
- Loops in the source are methods with loop invariants, each proved against
  the function that specifies it: the group walk of `parseFontFromBuffer`,
  `normalizeName`, `extensionFromFile` and `findIndex`.
- The category table keeps each entry's id and ranges; the display name and
  description of the entries sit in a parallel table, `CategoryLabels`, in
  the same order, read through `LabelOf`.
- The module-level state of the parse queue and of the focus tracker is a set
  of classes whose methods update fields.

Inputs the code reads from its environment become parameters:
- the decoded font;
- font ids, drawn by `crypto.randomUUID` in the source;
- the worker's answer;
- the active element's tag;
- `document.hasFocus()`;
- the collation order of `localeCompare`.

## Model

| member | source | states |
|---|---|---|
| Categories.LabelOf | src/modules/fonts/categories.ts:40-151 | an id has display texts exactly when the table has an entry with that id |
| Categories.LabelOfEntry | src/modules/fonts/categories.ts:40-151 | each entry's id yields that entry's own name and description |
| Categories.SomeRangeContains | src/modules/fonts/categories.ts:14-16 | true exactly when some range of the list contains the code point |
| Categories.IsInCategory | src/modules/fonts/categories.ts:11-17 | a code point is in a category iff one of its `[start, end]` ranges contains it, both ends included |
| Categories.FirstCategoryContaining | src/modules/fonts/categories.ts:22-23 | `find` over the table: the first category containing the code point, none before it does, and None iff none does |
| Categories.CategoryIndexFor | src/modules/fonts/categories.ts:22-24 | the position found is never the ligature bucket; it is "other" iff no category contains the code point, else the first one that does |
| Categories.GetCategoryForCodePoint | src/modules/fonts/categories.ts:22-24 | the result is a table category, never "ligatures"; it is "other" exactly when no range covers the code point, else the first category whose range does |
| Categories.FirstCategoryWithId | src/modules/fonts/categories.ts:157 | `find` by id: first match, none before it, None iff no entry has the id |
| Categories.GetCategoryById | src/modules/fonts/categories.ts:156-157 | Some iff some table entry has the id, and then an entry with that id |
| Categories.SortedViewCoversRange | src/modules/fonts/categories.ts:40-151 | an independent sorted list of all range blocks finds each table range again, whole |
| Categories.SortedViewIsSound | src/modules/fonts/categories.ts:40-151 | every block the sorted view reports lies inside the range it names |
| Categories.OwnerMatchesTable | src/modules/fonts/categories.ts:40-151 | a category contains a code point iff the sorted view assigns the code point to it |
| Categories.CategoryOfOwner | src/modules/fonts/categories.ts:22-24 | the lookup returns whichever category the sorted view assigns the code point to |
| Categories.LookupMatchesBlockOrder | src/modules/fonts/categories.ts:22-24 | the table lookup agrees with the sorted reference view on every code point |
| Categories.RangesWellFormed | src/modules/fonts/categories.ts:40-151 | every range of the table has start <= end |
| Categories.CategoriesDisjoint | src/modules/fonts/categories.ts:40-151 | no code point lies in two categories, so table order never decides a lookup |
| Categories.RangesDisjoint | src/modules/fonts/categories.ts:40-151 | ranges of different categories never overlap |
| Categories.IdsDistinct | src/modules/fonts/categories.ts:40-151 | no two table entries share an id |
| Categories.GetCategoryByIdIsUnique | src/modules/fonts/categories.ts:156-157 | looking up an entry's id returns that entry |
| Categories.IdLookupFindsPosition | src/modules/fonts/categories.ts:157 | the id search finds the position of the entry whose id is sought |
| Categories.AnyContainingCategoryIsTheResult | src/modules/fonts/categories.ts:22-24 | any category containing the code point is the lookup's result |
| Categories.ControlsAreOther | src/modules/fonts/categories.ts:26-31 | C0, C1 and DEL code points fall into "other" |
| Categories.LatinLetterExample | src/modules/fonts/categories.ts:40-48 | U+0041 is basic Latin |
| Categories.EuroSignExample | src/modules/fonts/categories.ts:76-83 | U+20AC is currency |
| Categories.EmoticonExample | src/modules/fonts/categories.ts:138-147 | U+1F600 is emoji |
| Categories.DeleteExample | src/modules/fonts/categories.ts:22-24 | U+007F falls back to "other" |
| Categories.LookupByIdExample | src/modules/fonts/categories.ts:156-157 | "greek" finds the Greek entry |
| Categories.MissingIdExample | src/modules/fonts/categories.ts:156-157 | "latin" is no id of the table, so nothing is found |
| Features.GetFeatureName | src/modules/fonts/features.ts:67-68 | a listed tag gets its registered name; an unlisted tag comes back upper-cased, same length and same letters |
| Features.FeatureNameExamples | src/modules/fonts/features.ts:1-65 | "liga" and "kern" have their names, "xyzw" becomes "XYZW" |
| Features.RegisteredName | src/modules/fonts/features.ts:1-65 | the `FEATURE_NAMES` table: the name registered for each listed tag, None for any other tag |
| Parser.DigitAfterAnyCharsMeaning | src/modules/fonts/parser.ts:8 | the scan succeeds iff a digit occurs with no line terminator before it, as `.*\d` demands |
| Parser.PlaceholderNameMeaning | src/modules/fonts/parser.ts:8 | a name matches `/^u.*\d+/` iff it starts with 'u' and a digit follows with no line terminator between |
| Parser.RecordName | src/modules/fonts/parser.ts:56 | the record has no name iff the decoder gave none or a placeholder; otherwise it keeps the decoder's name verbatim |
| Parser.MissingNameStaysMissing | src/modules/fonts/parser.ts:56 | a glyph without a name (`undefined` or `null`) is tested as the text "undefined" or "null", which never matches, so its record has no name either |
| Parser.IsPlaceholderName | src/modules/fonts/parser.ts:8 | `glyphNameRegEx.test(name)`: a leading 'u' followed by `.*\d`; its meaning is stated by `Parser.PlaceholderNameMeaning` |
| Parser.UThenDigitIsPlaceholder | src/modules/fonts/parser.ts:8 | any name of 'u', characters other than line terminators, then a digit loses its name, whether or not it spells a code point |
| Parser.PlaceholderNameExamples | src/modules/fonts/parser.ts:8 | "uni0041", "u1F600" and "underscore_2" lose their names |
| Parser.KeptNameExamples | src/modules/fonts/parser.ts:8 | "A", "uni", "Uni0041", "a1" and "u\n1" keep their names |
| Parser.FeatureList | src/modules/fonts/parser.ts:68-71 | one feature per tag, in order, each named by `getFeatureName` |
| Parser.GlyphRecord | src/modules/fonts/parser.ts:52-59 | the record pushed for a resolving code point; `Parser.RecordOfGroup` states its code points and category id |
| Parser.GroupGlyphs | src/modules/fonts/parser.ts:45-61 | the records the walk leaves in one group, the reference `Parser.ParseFontFromBuffer` is proved against; `Parser.GroupGlyphsSource` and `Parser.GroupGlyphsComplete` state that it holds exactly the records of the code points landing in that group |
| Parser.ParseFontFromBuffer | src/modules/fonts/parser.ts:17-72 | metadata with its fallbacks ("Unknown", "Regular", full name falling back to family name, ""), variable iff some axis; one group per table category in table order, each holding exactly the records the walk yields for it; the feature list |
| Parser.GroupGlyphsAppend | src/modules/fonts/parser.ts:46-61 | the walk is a fold: records of an earlier part of the character set precede those of a later part |
| Parser.GroupGlyphsSplitAt | src/modules/fonts/parser.ts:46-61 | a group's records are those of the code points before position k, then that of the code point at k, then those after it |
| Parser.GroupGlyphsSource | src/modules/fonts/parser.ts:52-60 | every record in group i is the record of some code point of the set whose glyph resolves and whose category is i |
| Parser.RecordOfGroup | src/modules/fonts/parser.ts:52-59 | the record pushed for a code point of category i carries that code point alone and category i's id |
| Parser.GroupGlyphsMembers | src/modules/fonts/parser.ts:52-60 | every record in group i comes from a code point of the set that resolves to a glyph and is classified into category i; it carries exactly that one code point and that category's id |
| Parser.GroupGlyphsComplete | src/modules/fonts/parser.ts:46-61 | every code point of the set whose glyph resolves puts its record into the group of its category, right after the records of the code points before it |
| Parser.LigatureGroupEmpty | src/modules/fonts/parser.ts:52-53 | the ligature group is never filled |
| Parser.GroupSizesStep | src/modules/fonts/parser.ts:46-61 | one more code point adds one record exactly when its glyph resolves |
| Parser.RecordCountIsResolvingCount | src/modules/fonts/parser.ts:46-61 | the groups hold one record per resolving code point, no more than the character set's size |
| Parser.SharedGlyphRecordedTwice | src/modules/fonts/parser.ts:46-61 | one glyph mapped from 'A' and 'a' is recorded twice, once per code point |
| Parser.UpperHexDigitsOfToHex | src/modules/fonts/parser.ts:76 | `toString(16).toUpperCase()` gives upper-case hex digits whose value is the number, with no leading zero |
| Parser.FormatCodePoint | src/modules/fonts/parser.ts:75-76 | `"U+" + toString(16).toUpperCase().padStart(4, "0")`; `Parser.FormatCodePointRoundTrip` states that the text reads back to the code point |
| Parser.PadHexDigits | src/modules/fonts/parser.ts:76 | zero-padding to four keeps the text hex digits of the same value |
| Parser.FormatCodePointRoundTrip | src/modules/fonts/parser.ts:75-76 | "U+" then at least four upper-case hex digits whose value is the code point; longer only without a leading zero |
| Parser.FormatCodePointExamples | src/modules/fonts/parser.ts:75-76 | 0x41 is "U+0041", 0x1F600 is "U+1F600" |
| ParserWorker.OutcomeAsWritten | src/modules/fonts/parserWorker.ts:39-43 | as written: rejects iff the error text is present and non-empty, else resolves with `parsed` |
| ParserWorker.EmptyErrorResolvesWithNothing | src/modules/fonts/parserWorker.ts:39-43 | as written, a failure with empty error text resolves the promise with `undefined` |
| ParserWorker.OutcomeOf | src/modules/fonts/parserWorker.ts:39-43 | corrected: rejects iff the answer carries an error, with that message; otherwise resolves with the summary |
| ParserWorker.OutcomesAgreeOnNonEmptyErrors | src/modules/fonts/parserWorker.ts:39-43 | the two agree on every answer except one whose error text is "" |
| ParserWorker.WorkerAnswersSettleAsIntended | src/modules/fonts/parserWorker.ts:35-47 | a success resolves with its summary, any failure rejects |
| ParserWorker.FirstIndexOf | src/modules/fonts/parserWorker.ts:85 | first job for the font, none before it, None iff no job has it |
| ParserWorker.FindIndex | src/modules/fonts/parserWorker.ts:85 | `findIndex`: -1 when no job matches, else the first matching position |
| ParserWorker.MoveToFrontPermutes | src/modules/fonts/parserWorker.ts:84-90 | reordering keeps every job exactly as often |
| ParserWorker.MoveToFrontShape | src/modules/fonts/parserWorker.ts:84-90 | the font's first job goes to the front, the others keep their order |
| ParserWorker.MoveToFrontNoOp | src/modules/fonts/parserWorker.ts:86 | nothing moves when the font is not queued or already first |
| ParserWorker.MoveToFrontIdempotent | src/modules/fonts/parserWorker.ts:84-90 | prioritising twice is prioritising once |
| ParserWorker.MoveToFront | src/modules/fonts/parserWorker.ts:84-90 | the queue `prioritizeFont` leaves; its shape, permutation, no-op and idempotence lemmas above state what it promises |
| ParserWorker.RegisterKeepsPromises | src/modules/fonts/parserWorker.ts:74 | registering the next promise for a font keeps promises distinct and created, settles nothing, and drops the font's earlier promise from the awaited ones |
| ParserWorker.SettleKeepsPromises | src/modules/fonts/parserWorker.ts:36-44 | settling an awaited font's promise and dropping it keeps every promise settled at most once, and never while awaited |
| ParserWorker.ParseQueue.constructor | src/modules/fonts/parserWorker.ts:24-26 | empty queue, no promises, idle |
| ParserWorker.ParseQueue.ProcessNext | src/modules/fonts/parserWorker.ts:52-63 | when idle and something waits, the front job goes to the worker and the queue is busy; otherwise nothing changes; the bookkeeping invariant holds |
| ParserWorker.ParseQueue.ParseFontInWorker | src/modules/fonts/parserWorker.ts:69-78 | a fresh promise replaces any earlier one for the font, which is left unsettled; the job is queued and, when idle, dispatched at once |
| ParserWorker.ParseQueue.OnMessage | src/modules/fonts/parserWorker.ts:35-47 | the awaited promise for the answered font is settled and removed, an unknown font is ignored, and the next job is dispatched |
| ParserWorker.ParseQueue.PrioritizeFont | src/modules/fonts/parserWorker.ts:84-90 | the queue becomes its move-to-front reordering; nothing else changes |
| ParserWorker.PriorityScenario | src/modules/fonts/parserWorker.ts:84-90 | with A in flight and B, C queued, prioritising C dispatches A then C |
| ParserWorker.DuplicateEnqueueScenario | src/modules/fonts/parserWorker.ts:74 | enqueueing one font twice settles only the second promise |
| Collation.LexCompare | src/modules/fonts/utils.ts:4 | three-way comparison of keys, 0 exactly on equal keys |
| Collation.LexCompareAntisymmetric | src/modules/fonts/utils.ts:4 | swapping the arguments negates the result |
| Collation.LexCompareTransitive | src/modules/fonts/utils.ts:4 | the key order is transitive |
| Collation.LocaleCompare | src/modules/fonts/utils.ts:4 | `localeCompare`: -1, 0 or 1, and 0 on equal strings |
| Collation.LocaleCompareAntisymmetric | src/modules/fonts/utils.ts:4 | swapping the arguments negates the result |
| Collation.LocaleCompareTransitive | src/modules/fonts/utils.ts:4 | the collation order is transitive |
| FontUtils.FontsPredicate | src/modules/fonts/utils.ts:3-5 | name order first, the extension breaking ties; 0 exactly when both compare equal |
| FontUtils.FontsPredicateReflexive | src/modules/fonts/utils.ts:3-5 | every font compares equal to itself |
| FontUtils.FontsPredicateAntisymmetric | src/modules/fonts/utils.ts:3-5 | swapping the fonts negates the result |
| FontUtils.FontsPredicateTransitive | src/modules/fonts/utils.ts:3-5 | the comparator is a total preorder, as `sort` requires |
| JsString.TrimMeaning | src/modules/state/index.ts:16 | `trim` removes exactly the white space at both ends and nothing inside |
| JsString.Trim | src/modules/state/index.ts:16 | `trim`; `JsString.TrimMeaning` states what it removes and keeps |
| JsString.ToLower | src/modules/state/index.ts:9 | `toLowerCase`: same length, each character lower-cased |
| JsString.ToUpper | src/modules/fonts/parser.ts:76 | `toUpperCase`: same length, each character upper-cased |
| JsString.EndsWith | src/modules/state/index.ts:11 | `endsWith`: the text's last characters are the suffix |
| JsString.PadStart | src/modules/fonts/parser.ts:76 | `padStart`: the text ends the result, preceded by fill characters up to the width, and longer text is kept whole |
| FontStore.FirstSuffixInMeaning | src/modules/state/index.ts:10-15 | the extension scan finds the first listed extension the name ends with, or none |
| FontStore.FontExtensionsExclusive | src/modules/state/index.ts:5 | no name ends with two of the four extensions, so the list order never matters |
| FontStore.FirstSuffixIsTheSuffix | src/modules/state/index.ts:10-15 | the extension found is the one the name ends with |
| FontStore.StripRemovesTheExtension | src/modules/state/index.ts:10-15 | a name ending in an extension, in any case, loses exactly that extension once |
| FontStore.StripKeepsOtherNames | src/modules/state/index.ts:10-15 | a name with no font extension is kept whole |
| FontStore.StripAppendedExtension | src/modules/state/index.ts:10-15 | stripping undoes appending an extension, whatever the stem, so "a.ttf.ttf" keeps "a.ttf" |
| FontStore.StripUpperCaseExtension | src/modules/state/index.ts:9-11 | "A.TTF" loses ".TTF": matching is on the lower-cased name, the cut on the original |
| FontStore.StripFontExtension | src/modules/state/index.ts:8-15 | the first font extension the lower-cased name ends with is cut from the name; the lemmas above state what is cut and what is kept |
| FontStore.CollapseMeaning | src/modules/state/index.ts:16 | no '-' or '_' survives the replacement, and the text does not grow |
| FontStore.CollapseWithoutSeparators | src/modules/state/index.ts:16 | text with no separators is unchanged |
| FontStore.CollapseRun | src/modules/state/index.ts:16 | a whole run of separators becomes one space |
| FontStore.CollapseKeepsPlain | src/modules/state/index.ts:16 | text without separators passes through ahead of the rest |
| FontStore.CollapseWords | src/modules/state/index.ts:16 | two words joined by any separator run become the words with one space |
| FontStore.CollapseSeparators | src/modules/state/index.ts:16 | `replace(/[-_]+/g, " ")`; `FontStore.CollapseRun` states that each maximal run of separators becomes one space, `FontStore.CollapseKeepsPlain` and `FontStore.CollapseWithoutSeparators` that other text passes through unchanged, and `FontStore.CollapseMeaning` that no separator survives |
| FontStore.NormalizedNameShape | src/modules/state/index.ts:7-17 | the display name has no '-' or '_' and no white space at either end |
| FontStore.NormalizedNameOfWords | src/modules/state/index.ts:7-17 | two words joined by a run of '-' and '_', with a font extension ("Open__Sans.TTF"), show as the words and one space ("Open Sans") |
| FontStore.NormalizeName | src/modules/state/index.ts:7-17 | the loop with `break` computes the display name the specification function defines |
| FontStore.NormalizedName | src/modules/state/index.ts:7-17 | `normalizeName` as one expression, the reference `FontStore.NormalizeName` is proved against; `FontStore.NormalizedNameShape` states its shape |
| FontStore.MimeToExt | src/modules/state/index.ts:19-28 | the `MIME_TO_EXT` table: a format for each of the eight font MIME types, None for any other type |
| FontStore.FormatFor | src/modules/state/index.ts:30-36 | the format is one of woff2, woff, ttf, otf or "" |
| FontStore.ExtensionOf | src/modules/state/index.ts:30-36 | the format is one of woff2, woff, ttf, otf or "" |
| FontStore.ExtensionFromNameWins | src/modules/state/index.ts:30-34 | an extension in the name wins over the MIME type, returned without its dot |
| FontStore.ExtensionFromMimeType | src/modules/state/index.ts:35 | without one, the MIME table decides, and an unknown MIME type gives "" |
| FontStore.MimeFormatsAreKnown | src/modules/state/index.ts:19-28 | each MIME entry maps to one of the four formats |
| FontStore.ExtensionFromFile | src/modules/state/index.ts:30-36 | the loop with early return computes the format the specification function defines |
| FontStore.MakeFonts | src/modules/state/index.ts:65 | one font per file, carrying that file's name |
| FontStore.MakeFontsAt | src/modules/state/index.ts:38-45 | the font made for each file is `createFontFromFile` of it, with its drawn id |
| FontStore.CreateFont | src/modules/state/index.ts:38-45 | `createFontFromFile` with the id as a parameter: the normalised name, the file name, size, detected format and the file |
| FontStore.FreshFonts | src/modules/state/index.ts:62-64 | keeps exactly the fonts whose file name the store lacks, each as many times as the batch holds it (a clashing font zero times), and all of them when none clashes |
| FontStore.FreshFontsOfStored | src/modules/state/index.ts:62-64 | when the store holds every name, nothing is new |
| FontStore.NewFonts | src/modules/state/index.ts:62-65 | the fonts made from the batch whose file names the store lacks; `FontStore.AddFontsSpec` states what they are |
| FontStore.InsertSorted | src/modules/state/index.ts:66-69 | inserting into a sorted list keeps it sorted and adds exactly the font |
| FontStore.SortFontsSorts | src/modules/state/index.ts:66-69 | sorting yields a permutation ordered by the comparator |
| FontStore.SortFontsOfSorted | src/modules/state/index.ts:66-69 | sorting a sorted list leaves it unchanged |
| FontStore.SortFonts | src/modules/state/index.ts:66-69 | the sort by `fontsPredicate`; `FontStore.SortFontsSorts` states that the result is sorted and a permutation |
| FontStore.AddFonts | src/modules/state/index.ts:61-70 | the store update of `addFonts`; `FontStore.AddFontsSpec` and `FontStore.AddFontsAgainChangesNothing` state what it promises |
| FontStore.AddFontsSpec | src/modules/state/index.ts:55-72 | `addFonts` keeps every previous font, adds exactly the new-name fonts, each font as many times as the store held it plus, when its name is new, as many times as the batch made it, and leaves the list sorted |
| FontStore.AddedNamesAreStored | src/modules/state/index.ts:55-72 | afterwards every file name of the batch is in the store |
| FontStore.AddFontsAgainChangesNothing | src/modules/state/index.ts:55-72 | adding the same files again leaves the store as it is |
| FontStore.SameNameInOneBatch | src/modules/state/index.ts:62-65 | two files with one name in one batch both arrive |
| FilePicker.SomeSuffixMeaning | src/modules/uploader/useFilePicker.ts:19 | `some(endsWith)` holds iff the name ends with one of the extensions |
| FilePicker.IsFontFileMeaning | src/modules/uploader/useFilePicker.ts:14-20 | a font MIME type is accepted whatever the name; otherwise accepted iff the lower-cased name ends with a font extension |
| FilePicker.UpperCaseNameAccepted | src/modules/uploader/useFilePicker.ts:18-19 | "FONT.TTF" with no MIME type is accepted |
| FilePicker.IsFontFile | src/modules/uploader/useFilePicker.ts:14-20 | `isFontFile`; `FilePicker.IsFontFileMeaning` states which files it accepts |
| FilePicker.FontFilesOf | src/modules/uploader/useFilePicker.ts:24 | the filter never grows the list |
| FilePicker.FontFilesOfContents | src/modules/uploader/useFilePicker.ts:24 | exactly the font files are kept |
| FilePicker.FontFilesOfAppend | src/modules/uploader/useFilePicker.ts:24 | filtering distributes over concatenation, so kept files keep their order |
| FilePicker.FontFilesOfFonts | src/modules/uploader/useFilePicker.ts:24 | a list of font files is kept whole |
| FilePicker.FilterFontFilesIdempotent | src/modules/uploader/useFilePicker.ts:22-25 | no list gives []; filtering the result again changes nothing |
| FilePicker.FilterFontFiles | src/modules/uploader/useFilePicker.ts:22-25 | `filterFontFiles`: no list gives [], otherwise the font files of the list |
| FilePicker.HandleFileList | src/modules/uploader/useFilePicker.ts:34-39 | `handleFileList`: the batch passed to `onFilesSelected`, or None when it is not called; `FilePicker.HandleFileListSelects` states when and with what |
| FilePicker.HandleFileListSelects | src/modules/uploader/useFilePicker.ts:34-39 | the callback fires iff some listed file is a font file, and receives exactly the listed font files |
| FilePicker.AllowedMimeTypesHaveFormats | src/modules/uploader/useFilePicker.ts:3-12 | the picker's MIME types are exactly those the store maps to a format |
| FilePicker.AllowedExtensionsAreStoreExtensions | src/modules/uploader/useFilePicker.ts:1 | the picker and the store use the same extension list |
| FilePicker.AcceptedFilesHaveFormat | src/modules/uploader/useFilePicker.ts:14-20 | every accepted file gets a non-empty format in the store |
| ClassNames.Kept | src/glyph/cn.ts:2 | the filter never grows the list and keeps no empty string |
| ClassNames.KeptMeaning | src/glyph/cn.ts:2 | a string is kept iff it is a non-empty string argument: false, null, undefined and "" are dropped |
| ClassNames.KeptAppend | src/glyph/cn.ts:2 | filtering distributes over concatenation, so kept strings keep argument order |
| ClassNames.CnOfFalsy | src/glyph/cn.ts:1-2 | no arguments, or only falsy ones, give "" |
| ClassNames.DropFalsy | src/glyph/cn.ts:2 | a falsy argument anywhere changes nothing |
| ClassNames.Join | src/glyph/cn.ts:2 | `join(" ")`; `ClassNames.JoinLength` and `ClassNames.SplitJoin` state its length and that splitting undoes it |
| ClassNames.Cn | src/glyph/cn.ts:1-2 | `cn`; `ClassNames.CnReadsBack` states that its output reads back as the truthy arguments in order |
| ClassNames.JoinLength | src/glyph/cn.ts:2 | the joined length is the parts' lengths plus one per gap |
| ClassNames.CnLength | src/glyph/cn.ts:1-2 | `cn`'s length is the kept lengths plus kept count minus one |
| ClassNames.SplitWord | src/glyph/cn.ts:2 | a space-free word in front of any text joins the first piece of that text's split |
| ClassNames.SplitJoin | src/glyph/cn.ts:2 | splitting at spaces undoes the join when no part contains a space |
| ClassNames.CnReadsBack | src/glyph/cn.ts:1-2 | read back at the spaces, `cn`'s result is the truthy arguments in order: one space between each two |
| ClassNames.CnExamples | src/glyph/cn.ts:1-2 | ("btn", false, "", null, "active", undefined) gives "btn active"; no arguments give "" |
| FocusVisible.KeyDownFlagMeaning | src/glyph/hooks/focusVisible.ts:18-38 | after a key the flag is set iff the key is Tab, or Enter or Space on a control element, or it was set and the key is Escape |
| FocusVisible.KeyDownFlag | src/glyph/hooks/focusVisible.ts:18-38 | the flag `handleKeyDown` leaves, key by key; `FocusVisible.KeyDownFlagMeaning` states when it is set |
| FocusVisible.UpperCaseTagsAreControls | src/glyph/hooks/focusVisible.ts:16-28 | "BUTTON" and "A" count as controls after lower-casing; "DIV" and no active element do not |
| FocusVisible.RunKeepsRingOnFocused | src/glyph/hooks/focusVisible.ts:46-68 | across any events the ring shows only on a focused element |
| FocusVisible.FocusConsumesFlag | src/glyph/hooks/focusVisible.ts:60-63 | a focus shows the ring iff the flag was set, and clears the flag |
| FocusVisible.NoRingWithoutKeyboard | src/glyph/hooks/focusVisible.ts:12-68 | without Tab, Enter or Space on a control, or a direct set to true, the ring never shows |
| FocusVisible.RunStep | src/glyph/hooks/focusVisible.ts:46-68 | a run is its first step followed by the rest |
| FocusVisible.Step | src/glyph/hooks/focusVisible.ts:46-68 | one event on the flag and one element's signals; the run lemmas state what sequences of events keep |
| FocusVisible.TabAwayAndBack | src/glyph/hooks/focusVisible.ts:46-63 | leaving the window with the ring showing and coming back shows it again |
| FocusVisible.ClickAwayAndBack | src/glyph/hooks/focusVisible.ts:46-63 | blurring inside the page and refocusing without keys shows no ring |
| FocusVisible.KeyboardModality.constructor | src/glyph/hooks/focusVisible.ts:12 | the flag starts cleared |
| FocusVisible.KeyboardModality.SetWasControlKeyPressed | src/glyph/hooks/focusVisible.ts:13-15 | the flag becomes the argument |
| FocusVisible.KeyboardModality.HandleKeyDown | src/glyph/hooks/focusVisible.ts:18-38 | the new flag is the key-down rule applied to the old flag |
| FocusVisible.FocusTarget.constructor | src/glyph/hooks/focusVisible.ts:43-44 | both signals start false, no handler has run |
| FocusVisible.FocusTarget.OnFocus | src/glyph/hooks/focusVisible.ts:60-68 | focused, ring copied from the flag, flag cleared; then the caller's handler runs only if it is a function, seeing the new state |
| FocusVisible.FocusTarget.OnBlur | src/glyph/hooks/focusVisible.ts:46-59 | both signals cleared, the flag raised only when the page lost focus with the ring showing; then the caller's handler runs if it is a function |
| FocusVisible.WindowSwitchScenario | src/glyph/hooks/focusVisible.ts:46-68 | Tab, focus, window switch, return: the ring is back, and the handlers ran in order |
| FocusVisible.SharedFlagScenario | src/glyph/hooks/focusVisible.ts:12-68 | one Tab shows one ring: a second element focused afterwards without keys shows none |
| FocusVisible.EnterScenario | src/glyph/hooks/focusVisible.ts:24-29 | Enter on a button raises the flag, Enter on a div clears it |

## Left out

- Font decoding is not modelled. fontkit's `create`, the choice of the first font in a collection, `glyphForCodePoint`, and `path.toSVG()` are all inputs, given as a `DecodedFont` value.
- Metric numbers (bounding box, advance width) are integers; floating point is not modelled. `String(font.version ?? "")` is taken as text the decoder already formatted.
- `glyphCodePoints` in `parseFontFromBuffer` is written but never read, so it is left out.
- `Object.values(groups)` is modelled as table order. That is insertion order for these non-numeric keys.
- Parser.FormatCodePoint: a negative argument is formatted as in the source, with the minus sign counted in the padding, so it lands after any zeros: -5 gives "U+00-5" and -0x1F600 gives "U+-1F600". Only non-negative code points are proved about.
- Strings are sequences of characters, and a code point above U+FFFF counts as one character. The source's strings are UTF-16, so lengths differ for such characters.
- JsString.ToLower / ToUpper: case mapping is ASCII only. The source's `toLowerCase`/`toUpperCase` are full Unicode. Every constant the core compares against is ASCII.
- Collation.LocaleCompare: the locale's collation is an abstract key function supplied by the caller. Any key gives a total preorder; real ICU collation is not modelled.
- FontStore.SortFonts: `Array.prototype.sort` is modelled as a stable insertion sort. The proofs cover only that the result is sorted and a permutation; they do not prove that equal fonts keep their order.
- FontStore.AddFonts: the `setTimeout` deferral and the Solid store are left out. `addFonts` is the function from the previous list to the next one, with the random ids as a parameter.
- Features.GetFeatureName: `FEATURE_NAMES` is a plain object, so a tag equal to an `Object.prototype` key such as "toString" or "constructor" would read an inherited function in the source. The model upper-cases such a tag like any other unlisted tag. The decoder's tags are four-character OpenType tags and never equal such a key.
- FontStore.MimeToExt: a MIME type equal to an `Object.prototype` key such as "constructor" would read an inherited property in the source. The model returns no format for it.
- ParserWorker.ParseQueue: creating the worker, `postMessage` and the worker script are left out. A dispatch is recorded in `dispatched`, and `OnMessage` requires a job to be in flight, as only the worker sends answers.
- ParserWorker.ParseQueue.ProcessNext: the `if (!item)` branch is unreachable, since the queue is non-empty there, so it is not modelled.
- ParserWorker.ParseQueue.OnMessage: promise settlement is recorded as a `Settlement` value, and callbacks run later are not modelled. The model settles with the corrected ParserWorker.OutcomeOf; the as-written rule is kept beside it, see Findings.
- `openFilePicker` (the `<input type=file>` element) and `ACCEPT_EXTENSIONS` are left out. Only `handleFileList`'s decision is modelled; it returns the batch passed to the callback, or nothing.
- FocusVisible.FocusTarget: Solid signals are fields. The caller's `onFocus`/`onBlur` handlers are recorded calls, and they are taken not to touch the flag themselves. `focusPropsNames` and the pointer props are not used by the core, so they are left out.
- FocusVisible.KeyboardModality.HandleKeyDown: `document.activeElement?.tagName` is a parameter, `None` when no element is active.

## Findings

| source | as written | input that shows it | evidently intended | confidence | as-written member | corrected member |
|---|---|---|---|---|---|---|
| src/modules/fonts/parserWorker.ts:39 | the answer handler tests `e.data.error` for truthiness, so an error answer whose text is "" resolves the promise with `parsed!`, which is `undefined` | the worker catches `new Error()` (empty message), posts `{ fontId, error: "" }`; `ParserWorker.EmptyErrorResolvesWithNothing` shows the promise resolves with nothing | reject whenever the answer carries an `error` field | medium, not executed | ParserWorker.OutcomeAsWritten | ParserWorker.OutcomeOf |
