/**
 * The React keys MasonryList gives to the views it emits: the column views
 * (`masonry-column-${num}`), the item views (`keyExtractor(el, i)` or
 * `masonry-row-${num}-${i}`) and the header wrappers (`'header' + index`).
 * A non-negative integer inside a template literal or after `+` is written
 * in decimal, which `Decimal` models.
 */
module Keys {
  import opened Wrappers

  predicate IsDigit(c: char) {
    '0' <= c <= '9'
  }

  predicate AllDigits(s: string) {
    forall i :: 0 <= i < |s| ==> IsDigit(s[i])
  }

  function DigitChar(d: nat): (c: char)
    requires d < 10
    ensures IsDigit(c) && c as int - '0' as int == d
  {
    ('0' as int + d) as char
  }

  /** The decimal text JavaScript produces for a non-negative integer. */
  function Decimal(n: nat): (s: string)
    ensures |s| > 0 && AllDigits(s)
    ensures |s| > 1 ==> s[0] != '0'
    decreases n
  {
    if n < 10 then [DigitChar(n)] else Decimal(n / 10) + [DigitChar(n % 10)]
  }

  /** Reads a string of digits back as a number: the inverse of `Decimal`. */
  function ParseDecimal(s: string): nat
    requires AllDigits(s)
    decreases |s|
  {
    if s == [] then 0
    else 10 * ParseDecimal(s[..|s| - 1]) + (s[|s| - 1] as int - '0' as int)
  }

  lemma {:induction false} ParseDecimalOfDecimal(n: nat)
    ensures ParseDecimal(Decimal(n)) == n
    decreases n
  {
    if n >= 10 {
      var s := Decimal(n);
      assert s[..|s| - 1] == Decimal(n / 10);
      ParseDecimalOfDecimal(n / 10);
    }
  }

  /** Distinct numbers are written differently. */
  lemma DecimalInjective(a: nat, b: nat)
    ensures Decimal(a) == Decimal(b) <==> a == b
  {
    if Decimal(a) == Decimal(b) {
      ParseDecimalOfDecimal(a);
      ParseDecimalOfDecimal(b);
    }
  }

  /** Length of the run of digits a string starts with. */
  function DigitRunLength(s: string): (n: nat)
    ensures n <= |s|
  {
    if s == [] || !IsDigit(s[0]) then 0 else 1 + DigitRunLength(s[1..])
  }

  lemma {:induction false} DigitRunBeforeDash(u: string, x: string)
    requires AllDigits(u)
    ensures DigitRunLength(u + "-" + x) == |u|
    decreases |u|
  {
    if u != [] {
      assert (u + "-" + x)[1..] == u[1..] + "-" + x;
      DigitRunBeforeDash(u[1..], x);
    }
  }

  /** A decimal followed by a dash can be split at its first dash in only one way. */
  lemma SplitAtDash(a: nat, x: string, b: nat, y: string)
    requires Decimal(a) + "-" + x == Decimal(b) + "-" + y
    ensures a == b && x == y
  {
    var u, v := Decimal(a), Decimal(b);
    var s := u + "-" + x;
    DigitRunBeforeDash(u, x);
    DigitRunBeforeDash(v, y);
    assert u == s[..|u|];
    assert v == (v + "-" + y)[..|v|];
    DecimalInjective(a, b);
    assert x == s[|u| + 1..];
    assert y == (v + "-" + y)[|v| + 1..];
  }

  /** Key of the view that holds column `num`. */
  function ColumnKey(num: nat): string {
    "masonry-column-" + Decimal(num)
  }

  /** Key synthesized for the item at original index `i` placed in column `num`. */
  function RowKey(num: nat, i: nat): string {
    "masonry-row-" + Decimal(num) + "-" + Decimal(i)
  }

  /** Key of the wrapper around entry `index` of the header list. */
  function HeaderKey(index: nat): string {
    "header" + Decimal(index)
  }

  /** Key of the wrapper around the primary header. */
  const PrimaryHeaderKey: string := "header"

  lemma ColumnKeyInjective(a: nat, b: nat)
    ensures ColumnKey(a) == ColumnKey(b) <==> a == b
  {
    var p := "masonry-column-";
    if ColumnKey(a) == ColumnKey(b) {
      assert Decimal(a) == ColumnKey(a)[|p|..];
      assert Decimal(b) == ColumnKey(b)[|p|..];
      DecimalInjective(a, b);
    }
  }

  /** Two synthesized item keys agree only for the same column and the same index. */
  lemma RowKeyInjective(num: nat, i: nat, num': nat, i': nat)
    ensures RowKey(num, i) == RowKey(num', i') <==> num == num' && i == i'
  {
    var p := "masonry-row-";
    if RowKey(num, i) == RowKey(num', i') {
      var s, s' := RowKey(num, i), RowKey(num', i');
      assert s[|p|..] == Decimal(num) + "-" + Decimal(i);
      assert s'[|p|..] == Decimal(num') + "-" + Decimal(i');
      SplitAtDash(num, Decimal(i), num', Decimal(i'));
      DecimalInjective(i, i');
    }
  }

  /** The header wrappers' keys are pairwise distinct, the primary one included. */
  lemma HeaderKeysDistinct(a: nat, b: nat)
    ensures HeaderKey(a) == HeaderKey(b) <==> a == b
    ensures HeaderKey(a) != PrimaryHeaderKey
  {
    var p := "header";
    assert |HeaderKey(a)| > |PrimaryHeaderKey|;
    if HeaderKey(a) == HeaderKey(b) {
      assert Decimal(a) == HeaderKey(a)[|p|..];
      assert Decimal(b) == HeaderKey(b)[|p|..];
      DecimalInjective(a, b);
    }
  }

  /**
   * `keyExtractor?.(el, i) || `masonry-row-${num}-${i}``: the caller's key
   * when an extractor is given and returns a non-empty (truthy) string,
   * the synthesized key otherwise.
   */
  function ItemKey<T>(keyExtractor: Option<(T, nat) -> string>, el: T, i: nat, num: nat): (key: string)
    ensures key != ""
    ensures keyExtractor.Some? && keyExtractor.value(el, i) != "" ==> key == keyExtractor.value(el, i)
    ensures keyExtractor.None? || keyExtractor.value(el, i) == "" ==> key == RowKey(num, i)
  {
    match keyExtractor
    case Some(extract) => if extract(el, i) != "" then extract(el, i) else RowKey(num, i)
    case None => RowKey(num, i)
  }
}
