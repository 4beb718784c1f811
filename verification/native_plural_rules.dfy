/**
 The two native entry points of the plural-rules binding that carry logic:
 forLocaleImpl, which rewrites a legacy locale code and asks ICU for the
 locale's PluralRules, and quantityForIntImpl, which asks those rules for
 the keyword of an int and projects it onto the fixed integer code. ICU is
 not part of this model: its forLocale and select are parameters.
 */
module NativePluralRules {
  import opened Wrappers
  import LocaleAlias
  import PluralCategory

  /** Java's int (jint), a 32-bit two's-complement integer. */
  newtype Int32 = x: int | -0x8000_0000 <= x < 0x8000_0000

  /** ICU's U_ZERO_ERROR. Negative UErrorCode values are warnings, positive ones failures. */
  const ZeroError: int := 0

  /** ICU's U_FAILURE test on a status code. */
  predicate IcuFailure(status: int) {
    status > ZeroError
  }

  /** An ICU PluralRules object, seen only through its select operation on an int. */
  datatype PluralRules = PluralRules(select: Int32 -> string)

  /** What ICU's locale lookup hands back: the rules it built and the status it set. */
  datatype IcuLookup = IcuLookup(rules: PluralRules, status: int)

  /**
   forLocaleImpl: the locale name is rewritten, ICU is asked for its rules,
   and a failing status is raised to the Java caller as an exception,
   modelled as Failure carrying the status.
   */
  function ForLocale(localeName: string, icuForLocale: string -> IcuLookup): (r: Result<PluralRules, int>)
    ensures r.Failure? ==> IcuFailure(r.error)
    ensures r.Success? <==> !IcuFailure(icuForLocale(LocaleAlias.Rewrite(localeName)).status)
    ensures r.Success? ==> r.value == icuForLocale(LocaleAlias.Rewrite(localeName)).rules
    ensures r.Failure? ==> r.error == icuForLocale(LocaleAlias.Rewrite(localeName)).status
  {
    var lookup := icuForLocale(LocaleAlias.Rewrite(localeName));
    if IcuFailure(lookup.status) then Failure(lookup.status) else Success(lookup.rules)
  }

  /** ICU is never consulted on a name under a withdrawn code: two ICUs that agree on every other name give the same result. */
  lemma ForLocaleNeverAsksLegacy(localeName: string, icu1: string -> IcuLookup, icu2: string -> IcuLookup)
    requires forall n :: !LocaleAlias.HasLegacyPrefix(n) ==> icu1(n) == icu2(n)
    ensures ForLocale(localeName, icu1) == ForLocale(localeName, icu2)
  {
  }

  /** Rewriting the name beforehand changes nothing: the lookup is invariant under the rewrite. */
  lemma ForLocaleCanonical(localeName: string, icuForLocale: string -> IcuLookup)
    ensures ForLocale(LocaleAlias.Rewrite(localeName), icuForLocale) == ForLocale(localeName, icuForLocale)
  {
  }

  /** A name under a withdrawn code resolves exactly as the same name under the current code. */
  lemma LegacyLocaleResolvesAsCurrent(i: nat, rest: string, icuForLocale: string -> IcuLookup)
    requires i < |LocaleAlias.Aliases|
    ensures ForLocale(LocaleAlias.Aliases[i].deprecated + rest, icuForLocale)
         == ForLocale(LocaleAlias.Aliases[i].current + rest, icuForLocale)
  {
    LocaleAlias.LegacyAndCurrentAgree(i, rest);
  }

  /**
   quantityForIntImpl: the keyword ICU selects for the value, projected onto
   the fixed code. The code is that of the category the keyword names,
   and 5 (other) for any keyword outside the named five.
   */
  function QuantityForInt(rules: PluralRules, value: Int32): (r: Int32)
    ensures 0 <= r <= 5
    ensures r as int == PluralCategory.Code(PluralCategory.CategoryOf(rules.select(value)))
  {
    PluralCategory.OrdinalIsCodeOfCategory(rules.select(value));
    PluralCategory.Ordinal(rules.select(value)) as Int32
  }

  /** Whenever ICU selects a category's keyword, the caller receives that category's code. */
  lemma QuantityOfCategory(rules: PluralRules, value: Int32, c: PluralCategory.Category)
    requires rules.select(value) == PluralCategory.Keyword(c)
    ensures QuantityForInt(rules, value) as int == PluralCategory.Code(c)
  {
  }

  /** Rules that only ever select "other" (ICU's answer for a locale it has no data for) give code 5 for every value. */
  lemma OtherOnlyRulesGiveFive(rules: PluralRules)
    requires forall v :: rules.select(v) == "other"
    ensures forall v :: QuantityForInt(rules, v) == 5
  {
  }

  /** English cardinal rules on ints: 1 and -1 select "one" (the rule applies to the absolute value), every other int selects "other". */
  function EnglishCardinal(): PluralRules {
    PluralRules((v: Int32) => if v == 1 || v == -1 then "one" else "other")
  }

  /** With English rules, 1 and -1 give code 1 and 2 gives code 5. */
  lemma EnglishExample()
    ensures QuantityForInt(EnglishCardinal(), 1) == 1
    ensures QuantityForInt(EnglishCardinal(), 2) == 5
    ensures QuantityForInt(EnglishCardinal(), -1) == 1
  {
  }
}
