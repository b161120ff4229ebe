/**
 * The static table of glyph categories: ordered Unicode block ranges, each
 * category a list of inclusive `[start, end]` code-point intervals, with a
 * first-match lookup and an "Other" fallback.
 */
module Categories {
  import opened Wrappers

  type CodePoint = int

  /** An inclusive interval of code points, the source's `[start, end]` pair. */
  datatype Range = Range(start: CodePoint, end: CodePoint) {
    predicate Contains(cp: CodePoint) {
      start <= cp <= end
    }
  }

  /** A category as the lookups see it: its id and its `[start, end]` ranges. */
  datatype GlyphCategory = GlyphCategory(id: string, ranges: seq<Range>)

  /** The display texts a category carries beside its id. */
  datatype CategoryLabel = CategoryLabel(name: string, description: string)

  /** The fallback for code points no range covers; it has no ranges of its own. */
  const OtherCategory := GlyphCategory("other", [])
  /** The bucket for ligature glyphs; no code point is ever classified into it. */
  const LigatureCategory := GlyphCategory("ligatures", [])

  /** The table, in declaration order: earlier categories win a lookup. */
  const GlyphCategories: seq<GlyphCategory> := [
    GlyphCategory("basic-latin", [Range(0x0020, 0x007e)]),
    GlyphCategory("latin-supplement", [Range(0x00a0, 0x00ff)]),
    GlyphCategory("latin-extended", [Range(0x0100, 0x017f), Range(0x0180, 0x024f), Range(0x1e00, 0x1eff)]),
    GlyphCategory("punctuation", [Range(0x2000, 0x206f)]),
    GlyphCategory("currency", [Range(0x20a0, 0x20cf)]),
    GlyphCategory("symbols", [Range(0x2100, 0x214f), Range(0x2150, 0x218f), Range(0x2190, 0x21ff), Range(0x2600, 0x26ff), Range(0x2700, 0x27bf)]),
    GlyphCategory("math", [Range(0x2200, 0x22ff), Range(0x2300, 0x23ff), Range(0x27c0, 0x27ef), Range(0x2980, 0x29ff), Range(0x2a00, 0x2aff)]),
    GlyphCategory("greek", [Range(0x0370, 0x03ff), Range(0x1f00, 0x1fff)]),
    GlyphCategory("cyrillic", [Range(0x0400, 0x04ff), Range(0x0500, 0x052f), Range(0x2de0, 0x2dff), Range(0xa640, 0xa69f)]),
    GlyphCategory("box-drawing", [Range(0x2500, 0x257f), Range(0x2580, 0x259f), Range(0x25a0, 0x25ff)]),
    GlyphCategory("emoji", [Range(0x1f300, 0x1f5ff), Range(0x1f600, 0x1f64f), Range(0x1f680, 0x1f6ff), Range(0x1f900, 0x1f9ff)]),
    OtherCategory,
    LigatureCategory
  ]

  /** The `name` and `description` of each table entry, in table order. */
  const CategoryLabels: seq<CategoryLabel> := [
    CategoryLabel("Basic Latin", "Essential letters, numbers, and ASCII punctuation"),
    CategoryLabel("Latin Supplement", "Extended Latin characters with diacritics (Western European)"),
    CategoryLabel("Latin Extended", "Additional Latin characters for Central/Eastern European languages"),
    CategoryLabel("General Punctuation", "Typographic punctuation, dashes, quotes, and spaces"),
    CategoryLabel("Currency Symbols", "Currency signs and symbols"),
    CategoryLabel("Common Symbols", "Letterlike symbols, number forms, and miscellaneous symbols"),
    CategoryLabel("Mathematical", "Mathematical operators and symbols"),
    CategoryLabel("Greek", "Greek alphabet and Coptic"),
    CategoryLabel("Cyrillic", "Cyrillic alphabet"),
    CategoryLabel("Box Drawing", "Box drawing characters and block elements"),
    CategoryLabel("Emoji & Pictographs", "Emoji and pictographic symbols"),
    CategoryLabel("Other", "Uncategorized glyphs"),
    CategoryLabel("Ligatures", "Glyph substitutions for character sequences (e.g. fi, fl)")
  ]

  /** Positions of the two range-less categories in the table. */
  const OtherIndex := 11
  const LigatureIndex := 12

  /** `ranges.some(([start, end]) => cp >= start && cp <= end)`, scanned left to right. */
  function SomeRangeContains(ranges: seq<Range>, cp: CodePoint): (r: bool)
    ensures r <==> exists k :: 0 <= k < |ranges| && ranges[k].Contains(cp)
  {
    if ranges == [] then false
    else if ranges[0].Contains(cp) then true
    else
      var rest := SomeRangeContains(ranges[1..], cp);
      assert forall k :: 1 <= k < |ranges| ==> ranges[k] == ranges[1..][k - 1];
      rest
  }

  /** Whether `cp` lies in one of the category's ranges, both ends included. */
  function IsInCategory(cp: CodePoint, category: GlyphCategory): (r: bool)
    ensures r <==> exists k :: 0 <= k < |category.ranges| &&
                     category.ranges[k].start <= cp <= category.ranges[k].end
  {
    SomeRangeContains(category.ranges, cp)
  }

  /** `categories.findIndex(cat => isInCategory(cp, cat))`, or None for -1. */
  function FirstCategoryContaining(categories: seq<GlyphCategory>, cp: CodePoint): (r: Option<nat>)
    ensures r.Some? ==> r.value < |categories| && IsInCategory(cp, categories[r.value])
    ensures r.Some? ==> forall j :: 0 <= j < r.value ==> !IsInCategory(cp, categories[j])
    ensures r.None? <==> forall j :: 0 <= j < |categories| ==> !IsInCategory(cp, categories[j])
  {
    if categories == [] then None
    else if IsInCategory(cp, categories[0]) then Some(0)
    else
      match FirstCategoryContaining(categories[1..], cp)
      case None => None
      case Some(k) => Some(k + 1)
  }

  /** Table position of `getCategoryForCodePoint(cp)`. */
  function CategoryIndexFor(cp: CodePoint): (k: nat)
    ensures k < |GlyphCategories| && k != LigatureIndex
    ensures k == OtherIndex <==> forall j :: 0 <= j < |GlyphCategories| ==> !IsInCategory(cp, GlyphCategories[j])
    ensures k != OtherIndex ==> IsInCategory(cp, GlyphCategories[k])
    ensures k != OtherIndex ==> forall j :: 0 <= j < k ==> !IsInCategory(cp, GlyphCategories[j])
  {
    match FirstCategoryContaining(GlyphCategories, cp)
    case Some(k) => k
    case None => OtherIndex
  }

  /**
   * The first category of the table, in declaration order, whose ranges
   * contain `cp`; the "Other" category when none does.
   */
  function GetCategoryForCodePoint(cp: CodePoint): (c: GlyphCategory)
    ensures c in GlyphCategories
    ensures c != LigatureCategory
    ensures c == OtherCategory <==> forall j :: 0 <= j < |GlyphCategories| ==> !IsInCategory(cp, GlyphCategories[j])
    ensures c != OtherCategory ==>
      IsInCategory(cp, c) &&
      exists k :: 0 <= k < |GlyphCategories| && GlyphCategories[k] == c &&
        forall j :: 0 <= j < k ==> !IsInCategory(cp, GlyphCategories[j])
  {
    GlyphCategories[CategoryIndexFor(cp)]
  }

  /** `categories.findIndex(cat => cat.id === id)`, or None for -1. */
  function FirstCategoryWithId(categories: seq<GlyphCategory>, id: string): (r: Option<nat>)
    ensures r.Some? ==> r.value < |categories| && categories[r.value].id == id
    ensures r.Some? ==> forall j :: 0 <= j < r.value ==> categories[j].id != id
    ensures r.None? <==> forall j :: 0 <= j < |categories| ==> categories[j].id != id
  {
    if categories == [] then None
    else if categories[0].id == id then Some(0)
    else
      match FirstCategoryWithId(categories[1..], id)
      case None => None
      case Some(k) => Some(k + 1)
  }

  /** The category of the table with this id, or None (`undefined`). */
  function GetCategoryById(id: string): (r: Option<GlyphCategory>)
    ensures r.Some? <==> exists k :: 0 <= k < |GlyphCategories| && GlyphCategories[k].id == id
    ensures r.Some? ==> r.value in GlyphCategories && r.value.id == id
  {
    match FirstCategoryWithId(GlyphCategories, id)
    case None => None
    case Some(k) => Some(GlyphCategories[k])
  }

  /**
   * The same table re-read as a reference definition: its thirty ranges
   * sorted by code point. The result is the table position of the category
   * and the position of the range within that category.
   */
  function BlockInSortedOrder(cp: CodePoint): Option<(nat, nat)>
  {
    if cp < 0x0020 then None
    else if cp <= 0x007E then Some((0, 0))
    else if cp < 0x00A0 then None
    else if cp <= 0x00FF then Some((1, 0))
    else if cp <= 0x017F then Some((2, 0))
    else if cp <= 0x024F then Some((2, 1))
    else if cp < 0x0370 then None
    else if cp <= 0x03FF then Some((7, 0))
    else if cp <= 0x04FF then Some((8, 0))
    else if cp <= 0x052F then Some((8, 1))
    else if cp < 0x1E00 then None
    else if cp <= 0x1EFF then Some((2, 2))
    else if cp <= 0x1FFF then Some((7, 1))
    else if cp <= 0x206F then Some((3, 0))
    else if cp < 0x20A0 then None
    else if cp <= 0x20CF then Some((4, 0))
    else if cp < 0x2100 then None
    else if cp <= 0x214F then Some((5, 0))
    else if cp <= 0x218F then Some((5, 1))
    else if cp <= 0x21FF then Some((5, 2))
    else if cp <= 0x22FF then Some((6, 0))
    else if cp <= 0x23FF then Some((6, 1))
    else if cp < 0x2500 then None
    else if cp <= 0x257F then Some((9, 0))
    else if cp <= 0x259F then Some((9, 1))
    else if cp <= 0x25FF then Some((9, 2))
    else if cp <= 0x26FF then Some((5, 3))
    else if cp <= 0x27BF then Some((5, 4))
    else if cp <= 0x27EF then Some((6, 2))
    else if cp < 0x2980 then None
    else if cp <= 0x29FF then Some((6, 3))
    else if cp <= 0x2AFF then Some((6, 4))
    else if cp < 0x2DE0 then None
    else if cp <= 0x2DFF then Some((8, 2))
    else if cp < 0xA640 then None
    else if cp <= 0xA69F then Some((8, 3))
    else if cp < 0x1F300 then None
    else if cp <= 0x1F5FF then Some((10, 0))
    else if cp <= 0x1F64F then Some((10, 1))
    else if cp < 0x1F680 then None
    else if cp <= 0x1F6FF then Some((10, 2))
    else if cp < 0x1F900 then None
    else if cp <= 0x1F9FF then Some((10, 3))
    else None
  }

  /** Table position of the category the sorted view assigns to `cp`. */
  function OwnerInBlockOrder(cp: CodePoint): Option<nat>
  {
    match BlockInSortedOrder(cp)
    case None => None
    case Some(block) => Some(block.0)
  }

  /** Each range of the table is found again, whole, in the sorted view. */
  lemma {:induction false} SortedViewCoversRange(cp: CodePoint, k: nat, a: nat)
    requires k < |GlyphCategories| && a < |GlyphCategories[k].ranges|
    requires GlyphCategories[k].ranges[a].Contains(cp)
    ensures BlockInSortedOrder(cp) == Some((k, a))
  {
    if k == 0 {} else if k == 1 {} else if k == 2 {} else if k == 3 {}
    else if k == 4 {} else if k == 5 {} else if k == 6 {} else if k == 7 {}
    else if k == 8 {} else if k == 9 {} else if k == 10 {}
  }

  /** Each block of the sorted view lies inside the range it names. */
  lemma SortedViewIsSound(cp: CodePoint)
    ensures match BlockInSortedOrder(cp)
            case None => true
            case Some(block) =>
              block.0 < |GlyphCategories| && block.1 < |GlyphCategories[block.0].ranges| &&
              GlyphCategories[block.0].ranges[block.1].Contains(cp)
  {
  }

  /** A category of the table contains `cp` exactly when the sorted view assigns `cp` to it. */
  lemma {:induction false} OwnerMatchesTable(cp: CodePoint, k: nat)
    requires k < |GlyphCategories|
    ensures IsInCategory(cp, GlyphCategories[k]) <==> OwnerInBlockOrder(cp) == Some(k)
  {
    var c := GlyphCategories[k];
    if IsInCategory(cp, c) {
      var a :| 0 <= a < |c.ranges| && c.ranges[a].start <= cp <= c.ranges[a].end;
      SortedViewCoversRange(cp, k, a);
    }
    if OwnerInBlockOrder(cp) == Some(k) {
      SortedViewIsSound(cp);
      var block := BlockInSortedOrder(cp).value;
      assert c.ranges[block.1].Contains(cp);
    }
  }

  /** Every range of the table is a non-empty interval. */
  lemma RangesWellFormed()
    ensures forall i, a :: 0 <= i < |GlyphCategories| && 0 <= a < |GlyphCategories[i].ranges| ==>
      GlyphCategories[i].ranges[a].start <= GlyphCategories[i].ranges[a].end
  {
  }

  /** No code point lies in two categories of the table. */
  lemma {:induction false} CategoriesDisjoint(cp: CodePoint, i: nat, j: nat)
    requires i < |GlyphCategories| && j < |GlyphCategories|
    requires IsInCategory(cp, GlyphCategories[i]) && IsInCategory(cp, GlyphCategories[j])
    ensures i == j
  {
    OwnerMatchesTable(cp, i);
    OwnerMatchesTable(cp, j);
  }

  /** Ranges that belong to different categories never overlap. */
  lemma {:induction false} RangesDisjoint(i: nat, j: nat, a: nat, b: nat)
    requires i < j < |GlyphCategories|
    requires a < |GlyphCategories[i].ranges| && b < |GlyphCategories[j].ranges|
    ensures GlyphCategories[i].ranges[a].end < GlyphCategories[j].ranges[b].start ||
            GlyphCategories[j].ranges[b].end < GlyphCategories[i].ranges[a].start
  {
    var ra, rb := GlyphCategories[i].ranges[a], GlyphCategories[j].ranges[b];
    if !(ra.end < rb.start || rb.end < ra.start) {
      RangesWellFormed();
      var cp := if ra.start < rb.start then rb.start else ra.start;
      assert ra.Contains(cp) && rb.Contains(cp);
      CategoriesDisjoint(cp, i, j);
    }
  }

  /** No two categories of the table share an id. */
  lemma IdsDistinct()
    ensures forall i, j :: 0 <= i < j < |GlyphCategories| ==> GlyphCategories[i].id != GlyphCategories[j].id
  {
  }

  /** The display texts of the entry with the id, or None when no entry has it. */
  function LabelOf(id: string): (r: Option<CategoryLabel>)
    ensures r.Some? <==> GetCategoryById(id).Some?
  {
    match FirstCategoryWithId(GlyphCategories, id)
    case None => None
    case Some(k) => if k < |CategoryLabels| then Some(CategoryLabels[k]) else None
  }

  /** Each entry's id finds that entry's own texts. */
  lemma LabelOfEntry(k: nat)
    requires k < |GlyphCategories|
    ensures LabelOf(GlyphCategories[k].id) == Some(CategoryLabels[k])
  {
    IdLookupFindsPosition(k);
  }

  /** The category `getCategoryById` returns is the only one with that id. */
  lemma {:induction false} GetCategoryByIdIsUnique(id: string, k: nat)
    requires k < |GlyphCategories| && GlyphCategories[k].id == id
    ensures GetCategoryById(id) == Some(GlyphCategories[k])
  {
    var f := FirstCategoryWithId(GlyphCategories, id).value;
    IdsDistinct();
  }

  /** Looking up the id of a table entry finds that very entry. */
  lemma {:induction false} IdLookupFindsPosition(k: nat)
    requires k < |GlyphCategories|
    ensures FirstCategoryWithId(GlyphCategories, GlyphCategories[k].id) == Some(k)
  {
    IdsDistinct();
  }

  /**
   * Because the ranges are disjoint, any category that contains `cp` is the
   * one the lookup returns: first-match order changes no result today.
   */
  lemma {:induction false} AnyContainingCategoryIsTheResult(cp: CodePoint, k: nat)
    requires k < |GlyphCategories| && IsInCategory(cp, GlyphCategories[k])
    ensures CategoryIndexFor(cp) == k
    ensures GetCategoryForCodePoint(cp) == GlyphCategories[k]
  {
    var f := CategoryIndexFor(cp);
    if f != k {
      CategoriesDisjoint(cp, f, k);
    }
  }

  /** The lookup agrees with the sorted reference view on every code point. */
  lemma {:induction false} LookupMatchesBlockOrder(cp: CodePoint)
    ensures CategoryIndexFor(cp) == OwnerInBlockOrder(cp).GetOr(OtherIndex)
  {
    match OwnerInBlockOrder(cp)
    case Some(k) =>
      OwnerMatchesTable(cp, k);
      AnyContainingCategoryIsTheResult(cp, k);
    case None =>
      forall j | 0 <= j < |GlyphCategories| ensures !IsInCategory(cp, GlyphCategories[j]) {
        OwnerMatchesTable(cp, j);
      }
  }

  /** The lookup returns whichever category the sorted view names. */
  lemma CategoryOfOwner(cp: CodePoint, k: nat)
    requires OwnerInBlockOrder(cp) == Some(k)
    ensures GetCategoryForCodePoint(cp) == GlyphCategories[k]
  {
    LookupMatchesBlockOrder(cp);
  }

  /** C0 and C1 control characters and DEL fall into "Other". */
  lemma ControlsAreOther(cp: CodePoint)
    requires 0x00 <= cp <= 0x1F || 0x7F <= cp <= 0x9F
    ensures GetCategoryForCodePoint(cp) == OtherCategory
  {
    LookupMatchesBlockOrder(cp);
  }

  /** Spot checks of the lookup against the Unicode block table. */
  lemma LatinLetterExample()
    ensures GetCategoryForCodePoint(0x41).id == "basic-latin"
  {
    CategoryOfOwner(0x41, 0);
  }

  lemma EuroSignExample()
    ensures GetCategoryForCodePoint(0x20AC).id == "currency"
  {
    assert GlyphCategories[4].ranges[0].Contains(0x20AC);
    AnyContainingCategoryIsTheResult(0x20AC, 4);
    assert GlyphCategories[4].id == "currency";
  }

  lemma EmoticonExample()
    ensures GetCategoryForCodePoint(0x1F600).id == "emoji"
  {
    CategoryOfOwner(0x1F600, 10);
  }

  lemma DeleteExample()
    ensures GetCategoryForCodePoint(0x7F).id == "other"
  {
    ControlsAreOther(0x7F);
  }

  /** Spot checks of the lookup by id. */
  lemma LookupByIdExample()
    ensures GetCategoryById("greek") == Some(GlyphCategories[7])
  {
    GetCategoryByIdIsUnique("greek", 7);
  }

  lemma MissingIdExample()
    ensures GetCategoryById("latin").None?
  {
    var ids := seq(|GlyphCategories|, j requires 0 <= j < |GlyphCategories| => GlyphCategories[j].id);
    assert "latin" !in ids;
    assert forall j :: 0 <= j < |GlyphCategories| ==> GlyphCategories[j].id == ids[j];
  }
}
