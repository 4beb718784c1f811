/**
 The plural categories of CLDR, the keywords ICU's PluralRules::select
 returns for them, and the binding's projection of a keyword onto the
 integer code the Java side stores and compares.
 */
module PluralCategory {

  /** The six CLDR plural categories; Other is the universal fallback. */
  datatype Category = Zero | One | Two | Few | Many | Other

  /** The keyword ICU returns for a category. */
  function Keyword(c: Category): string {
    match c
    case Zero => "zero"
    case One => "one"
    case Two => "two"
    case Few => "few"
    case Many => "many"
    case Other => "other"
  }

  /** The fixed compatibility code of a category: zero 0, one 1, two 2, few 3, many 4, other 5. */
  function Code(c: Category): nat {
    match c
    case Zero => 0
    case One => 1
    case Two => 2
    case Few => 3
    case Many => 4
    case Other => 5
  }

  /** The categories the binding tests for by keyword, in the order it tests them. */
  const Named: seq<Category> := [Zero, One, Two, Few, Many]

  /** k is the keyword of one of the five named categories. */
  predicate IsNamedKeyword(k: string) {
    exists i :: 0 <= i < |Named| && Keyword(Named[i]) == k
  }

  /**
   Reference reading of a keyword: the category whose keyword it is, and
   Other for anything else (an unrecognised string as much as "other").
   */
  ghost function CategoryOf(k: string): Category {
    if exists c :: c != Other && Keyword(c) == k then
      var c :| c != Other && Keyword(c) == k; c
    else
      Other
  }

  /**
   The binding's chain of string comparisons on the keyword ICU returned.
   The result is the position of k among the named keywords, or 5 when k
   is none of them.
   */
  function Ordinal(k: string): (r: int)
    ensures 0 <= r <= 5
    ensures r < 5 ==> Keyword(Named[r]) == k
    ensures r == 5 <==> !IsNamedKeyword(k)
  {
    if k == "zero" then 0
    else if k == "one" then 1
    else if k == "two" then 2
    else if k == "few" then 3
    else if k == "many" then 4
    else 5
  }

  /** Distinct categories have distinct keywords and distinct codes. */
  lemma CategoryEncodingsInjective(c: Category, d: Category)
    ensures Keyword(c) == Keyword(d) ==> c == d
    ensures Code(c) == Code(d) ==> c == d
  {
  }

  /** The keyword of a category is mapped to that category's code: the mapping is exactly zero 0, one 1, two 2, few 3, many 4, other 5. */
  lemma OrdinalOfKeyword(c: Category)
    ensures Ordinal(Keyword(c)) == Code(c)
  {
  }

  /** The binding's projection agrees with the reference reading of the keyword. */
  lemma OrdinalIsCodeOfCategory(k: string)
    ensures Ordinal(k) == Code(CategoryOf(k))
  {
  }

  /** The projection is injective on the five named keywords; everything else shares code 5. */
  lemma OrdinalInjectiveOnNamed(k1: string, k2: string)
    requires Ordinal(k1) == Ordinal(k2) < 5
    ensures k1 == k2
    ensures IsNamedKeyword(k1)
  {
  }

  /** Keywords outside the named five, "other" and strings that differ only in case included, map to 5. */
  lemma OrdinalFallbackExamples()
    ensures Ordinal("other") == 5
    ensures Ordinal("ONE") == 5
    ensures Ordinal("") == 5
  {
  }

  /**
   The projection computed by scanning the named categories' keywords; it
   agrees with the binding's comparison chain on every keyword.
   */
  method ScanOrdinal(k: string) returns (r: int)
    ensures r == Ordinal(k)
  {
    var i := 0;
    while i < |Named|
      invariant 0 <= i <= |Named|
      invariant forall j :: 0 <= j < i ==> Keyword(Named[j]) != k
    {
      if Keyword(Named[i]) == k {
        return i;
      }
      i := i + 1;
    }
    return 5;
  }
}
