/** The font record the store keeps, and the comparator that orders fonts. */
module FontUtils {
  import opened BrowserFile
  import opened Collation

  /**
   * `TFont`: a font added by the user. `name` is the display name derived
   * from `fileName`, `extension` the detected format ("woff2", "woff",
   * "ttf", "otf" or "").
   */
  datatype Font = Font(id: string, name: string, fileName: string, size: nat, extension: string, file: File)

  /**
   * `fontsPredicate`: compare by name, and by extension when the names
   * compare equal (`a || b` on numbers takes `b` exactly when `a` is 0).
   */
  function FontsPredicate(a: Font, b: Font, key: CollationKey): (r: int)
    ensures LocaleCompare(a.name, b.name, key) != 0 ==> r == LocaleCompare(a.name, b.name, key)
    ensures LocaleCompare(a.name, b.name, key) == 0 ==> r == LocaleCompare(a.extension, b.extension, key)
    ensures r == 0 <==> LocaleCompare(a.name, b.name, key) == 0 && LocaleCompare(a.extension, b.extension, key) == 0
  {
    var byName := LocaleCompare(a.name, b.name, key);
    if byName != 0 then byName else LocaleCompare(a.extension, b.extension, key)
  }

  lemma FontsPredicateReflexive(a: Font, key: CollationKey)
    ensures FontsPredicate(a, a, key) == 0
  {
  }

  /** Swapping the fonts negates the comparison. */
  lemma FontsPredicateAntisymmetric(a: Font, b: Font, key: CollationKey)
    ensures FontsPredicate(b, a, key) == -FontsPredicate(a, b, key)
  {
    LocaleCompareAntisymmetric(a.name, b.name, key);
    LocaleCompareAntisymmetric(a.extension, b.extension, key);
  }

  /** The comparator is transitive, so together with the above it is a total preorder. */
  lemma FontsPredicateTransitive(a: Font, b: Font, c: Font, key: CollationKey)
    requires FontsPredicate(a, b, key) <= 0 && FontsPredicate(b, c, key) <= 0
    ensures FontsPredicate(a, c, key) <= 0
  {
    var ab, bc := LocaleCompare(a.name, b.name, key), LocaleCompare(b.name, c.name, key);
    LocaleCompareTransitive(a.name, b.name, c.name, key);
    if ab == 0 && bc == 0 {
      LocaleCompareTransitive(a.extension, b.extension, c.extension, key);
    } else if LocaleCompare(a.name, c.name, key) == 0 {
      // a ties with c by name, so a strict step from a to b or from b to c would loop back
      LocaleCompareAntisymmetric(a.name, c.name, key);
      LocaleCompareAntisymmetric(a.name, b.name, key);
      LocaleCompareAntisymmetric(b.name, c.name, key);
      if ab < 0 {
        LocaleCompareTransitive(b.name, c.name, a.name, key);
      } else {
        LocaleCompareTransitive(c.name, a.name, b.name, key);
      }
    }
  }
}
