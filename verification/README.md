# Plural rules binding — a Dafny model

This project models the logic of the native half of libcore's
`NativePluralRules` binding (`luni/src/main/native/libcore_icu_NativePluralRules.cpp`),
which exposes ICU's `PluralRules` to Java. Two pieces of that file compute
something of their own, and both are modelled exactly:

- **Legacy locale-code rewrite** (`forLocaleImpl`). Before asking ICU for
  a locale's rules, the binding rewrites the withdrawn ISO 639 codes Java
  still reports: `iw` → `he`, `in` → `id`, `ji` → `yi`. The test is a raw
  comparison of characters 0 and 1, with no delimiter check, and only those
  two characters are written. `std::string::operator[]` yields `'\0'` at
  index `size()`, and `&&` short-circuits, so names shorter than two
  characters never match (`LocaleAlias.At` models the `'\0'`).
- **Keyword to code projection** (`quantityForIntImpl`). ICU's `select`
  returns a CLDR keyword; the binding maps `zero`, `one`, `two`, `few`,
  `many` to 0–4 and every other string, `other` included, to 5.

Modules:

- `Wrappers` (`wrappers.dfy`): the `Result` type for the exception path.
- `LocaleAlias` (`locale_alias.dfy`): the alias table, the rewrite, and a
  table-driven rewrite proved equal to it.
- `PluralCategory` (`plural_category.dfy`): the six categories, their
  keywords and fixed codes, the binding's comparison chain `Ordinal`, a
  reference reading `CategoryOf`, and a table scan proved equal to `Ordinal`.
- `NativePluralRules` (`native_plural_rules.dfy`): the two entry points.
  ICU's `forLocale` and `select` are parameters (a function from name to
  lookup result, and a `select` function carried by `PluralRules`).
  `QuantityForInt` is `Ordinal` composed with `select`.

The Java `int` argument and result are the `Int32` newtype. ICU's status
check (`maybeThrowIcuException`, from `IcuUtilities.h`, which is not part of
this model) is taken to raise exactly when `U_FAILURE(status)` holds, i.e.
the status is positive. The exception is modelled as `Failure(status)`.

The binding does not reject an empty name: it reaches ICU unchanged, and so
it does here.

## Model

| member | source | states |
|---|---|---|
| `LocaleAlias.Rewrite` | luni/src/main/native/libcore_icu_NativePluralRules.cpp:39-49 | Length is preserved. Every character from index 2 on is unchanged. The name changes iff it starts with a withdrawn code. The result never starts with a withdrawn code. |
| `LocaleAlias.RewriteFollowsTable` | luni/src/main/native/libcore_icu_NativePluralRules.cpp:40-49 | A name starting `iw`, `in` or `ji` becomes `he`, `id` or `yi` followed by the unchanged rest. |
| `LocaleAlias.RewriteKeepsOtherNames` | luni/src/main/native/libcore_icu_NativePluralRules.cpp:40-49 | A name that does not start with a withdrawn code, and any name shorter than two characters, comes back unchanged. |
| `LocaleAlias.RewriteIdempotent` | luni/src/main/native/libcore_icu_NativePluralRules.cpp:40-49 | Rewriting twice gives the same as rewriting once. |
| `LocaleAlias.LegacyAndCurrentAgree` | luni/src/main/native/libcore_icu_NativePluralRules.cpp:37-49 | A name under a withdrawn code and the same name under the current code reach ICU as the same string, the current-code one. |
| `LocaleAlias.AliasTableWellFormed` | luni/src/main/native/libcore_icu_NativePluralRules.cpp:40-48 | All codes have two letters. The withdrawn codes are distinct. No current code is a withdrawn one, so the table does not chain. |
| `LocaleAlias.NoDelimiterCheck` | luni/src/main/native/libcore_icu_NativePluralRules.cpp:43-45 | The prefix test needs no delimiter: the three-letter code `inh` becomes `idh`. |
| `LocaleAlias.RewriteUnchangedExamples` | luni/src/main/native/libcore_icu_NativePluralRules.cpp:40-49 | `english`, `he_IL`, `i` and the empty name are left alone. |
| `LocaleAlias.RewriteByTable` | luni/src/main/native/libcore_icu_NativePluralRules.cpp:40-49 | A lookup through the alias table gives the same string as the binding's branch chain, for every name. |
| `PluralCategory.Ordinal` | luni/src/main/native/libcore_icu_NativePluralRules.cpp:60-72 | The result is in 0..5. A result below 5 is the position of the keyword among `zero, one, two, few, many`. The result is 5 iff the keyword is none of those five. |
| `PluralCategory.CategoryEncodingsInjective` | luni/src/main/native/libcore_icu_NativePluralRules.cpp:60-71 | Distinct categories have distinct keywords and distinct codes. |
| `PluralCategory.OrdinalOfKeyword` | luni/src/main/native/libcore_icu_NativePluralRules.cpp:60-71 | Each category's keyword maps to its code: zero 0, one 1, two 2, few 3, many 4, other 5. |
| `PluralCategory.OrdinalIsCodeOfCategory` | luni/src/main/native/libcore_icu_NativePluralRules.cpp:60-72 | For every string, the comparison chain gives the code of the category that string names, and 5 when it names none. |
| `PluralCategory.OrdinalInjectiveOnNamed` | luni/src/main/native/libcore_icu_NativePluralRules.cpp:60-71 | Two keywords with the same code below 5 are equal, and each is one of the five named keywords. |
| `PluralCategory.OrdinalFallbackExamples` | luni/src/main/native/libcore_icu_NativePluralRules.cpp:70-71 | `other`, the upper-case `ONE` and the empty string all map to 5. |
| `PluralCategory.ScanOrdinal` | luni/src/main/native/libcore_icu_NativePluralRules.cpp:60-72 | A scan over the named categories' keywords gives the same code as the comparison chain, for every keyword. |
| `NativePluralRules.ForLocale` | luni/src/main/native/libcore_icu_NativePluralRules.cpp:36-55 | The call succeeds iff ICU's status for the rewritten name is not a failure. A success carries the rules ICU built for the rewritten name; a failure carries ICU's own (failing) status. |
| `NativePluralRules.ForLocaleNeverAsksLegacy` | luni/src/main/native/libcore_icu_NativePluralRules.cpp:37-53 | ICU is never asked about a name under a withdrawn code. Two ICUs that agree on every other name give the same result. |
| `NativePluralRules.ForLocaleCanonical` | luni/src/main/native/libcore_icu_NativePluralRules.cpp:39-53 | Rewriting the name beforehand does not change the result. |
| `NativePluralRules.LegacyLocaleResolvesAsCurrent` | luni/src/main/native/libcore_icu_NativePluralRules.cpp:37-53 | `iw…`, `in…` and `ji…` resolve exactly as `he…`, `id…` and `yi…`. |
| `NativePluralRules.QuantityForInt` | luni/src/main/native/libcore_icu_NativePluralRules.cpp:58-72 | The result is in 0..5. It is the code of the category that the selected keyword names, or 5 for any other keyword. |
| `NativePluralRules.QuantityOfCategory` | luni/src/main/native/libcore_icu_NativePluralRules.cpp:58-72 | Whenever ICU selects a category's keyword, the caller receives that category's code. |
| `NativePluralRules.OtherOnlyRulesGiveFive` | luni/src/main/native/libcore_icu_NativePluralRules.cpp:58-72 | Rules that always select `other`, which ICU gives for a locale it has no data for, return 5 for every int. |
| `NativePluralRules.EnglishExample` | luni/src/main/native/libcore_icu_NativePluralRules.cpp:58-72 | Under English cardinal rules, 1 and -1 give code 1 and 2 gives code 5. |

## Left out

- ICU itself: `icu::Locale::createFromName`, `PluralRules::forLocale` and `PluralRules::select` (lines 51-53, 59). They are foreign code whose CLDR rule evaluation is not in this repository. The model takes them as function parameters, and `EnglishCardinal` is only an example selector.
- `maybeThrowIcuException` (line 54) is reduced to "raise iff `U_FAILURE(status)`". Its message text and exception class are not modelled.
- JNI marshalling: the `ScopedUtfChars` conversion (line 39) and native-method registration (lines 75-82). Names are modelled as `seq<char>` rather than modified UTF-8 bytes. The matched characters are ASCII, and a UTF-8 lead byte is never ASCII, so the two-character test means the same either way.
- The handle lifecycle: `toPluralRules`, the pointer returned by `forLocaleImpl` and the `delete` in `finalizeImpl` (lines 28-34, 55). This is raw memory management and has no pure-value counterpart.
