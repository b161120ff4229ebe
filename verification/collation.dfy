/**
 * `String.prototype.localeCompare`, abstracted. Its result depends on the
 * user's locale, so the model takes the locale as a collation key: a function
 * from a string to a sequence of weights, compared lexicographically. Any such
 * key orders strings by a total preorder; strings with equal keys compare
 * as equal even when they differ.
 */
module Collation {
  type CollationKey = string -> seq<int>

  /** Lexicographic comparison of weight sequences: -1, 0 or 1. */
  function LexCompare(x: seq<int>, y: seq<int>): (r: int)
    ensures -1 <= r <= 1
    ensures r == 0 <==> x == y
  {
    if x == [] then (if y == [] then 0 else -1)
    else if y == [] then 1
    else if x[0] < y[0] then -1
    else if x[0] > y[0] then 1
    else
      assert x == [x[0]] + x[1..] && y == [y[0]] + y[1..];
      LexCompare(x[1..], y[1..])
  }

  lemma {:induction false} LexCompareAntisymmetric(x: seq<int>, y: seq<int>)
    ensures LexCompare(y, x) == -LexCompare(x, y)
    decreases |x|
  {
    if x != [] && y != [] && x[0] == y[0] {
      LexCompareAntisymmetric(x[1..], y[1..]);
    }
  }

  lemma {:induction false} LexCompareTransitive(x: seq<int>, y: seq<int>, z: seq<int>)
    requires LexCompare(x, y) <= 0 && LexCompare(y, z) <= 0
    ensures LexCompare(x, z) <= 0
    decreases |x|
  {
    if x != [] && y != [] && z != [] && x[0] == y[0] && y[0] == z[0] {
      LexCompareTransitive(x[1..], y[1..], z[1..]);
    }
  }

  /** `a.localeCompare(b)` under the collation `key`. */
  function LocaleCompare(a: string, b: string, key: CollationKey): (r: int)
    ensures -1 <= r <= 1
    ensures a == b ==> r == 0
  {
    LexCompare(key(a), key(b))
  }

  /** Swapping the operands negates the comparison. */
  lemma LocaleCompareAntisymmetric(a: string, b: string, key: CollationKey)
    ensures LocaleCompare(b, a, key) == -LocaleCompare(a, b, key)
  {
    LexCompareAntisymmetric(key(a), key(b));
  }

  lemma LocaleCompareTransitive(a: string, b: string, c: string, key: CollationKey)
    requires LocaleCompare(a, b, key) <= 0 && LocaleCompare(b, c, key) <= 0
    ensures LocaleCompare(a, c, key) <= 0
  {
    LexCompareTransitive(key(a), key(b), key(c));
  }
}
