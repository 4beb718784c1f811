/**
 The legacy locale-code rewrite that the plural-rules binding applies to a
 locale name before handing it to ICU. Java still reports Hebrew, Indonesian
 and Yiddish under their withdrawn ISO 639 codes ("iw", "in", "ji"), while
 ICU's plural data is indexed under the current ones ("he", "id", "yi").
 The rewrite is a raw test of the first two characters: there is no check
 for a delimiter after them, so "inh" becomes "idh" just as "in_ID" becomes
 "id_ID".
 */
module LocaleAlias {

  /** One row of the alias table: a withdrawn language code and its current replacement. */
  datatype Alias = Alias(deprecated: string, current: string)

  /** The withdrawn codes, in the order the binding tests them. */
  const Aliases: seq<Alias> := [Alias("iw", "he"), Alias("in", "id"), Alias("ji", "yi")]

  predicate StartsWith(s: string, p: string) {
    |p| <= |s| && s[..|p|] == p
  }

  /** s begins with one of the withdrawn codes. */
  predicate HasLegacyPrefix(s: string) {
    exists i :: 0 <= i < |Aliases| && StartsWith(s, Aliases[i].deprecated)
  }

  /**
   The character that std::string's operator[] yields: the element itself
   inside the string and the terminating '\0' at index |s|. Reading further
   is undefined in C++, hence the precondition.
   */
  function At(s: string, i: nat): char
    requires i <= |s|
  {
    if i < |s| then s[i] else '\0'
  }

  /**
   The in-place rewrite of the first two characters. The right-hand test of
   each `&&` is only evaluated when the left one held, so index 1 is read
   only on strings of length at least 1.
   */
  function Rewrite(s: string): (r: string)
    ensures |r| == |s|
    ensures forall i :: 2 <= i < |s| ==> r[i] == s[i]
    ensures r != s <==> HasLegacyPrefix(s)
    ensures !HasLegacyPrefix(r)
  {
    if At(s, 0) == 'i' && At(s, 1) == 'w' then
      assert StartsWith(s, Aliases[0].deprecated);
      s[0 := 'h'][1 := 'e']
    else if At(s, 0) == 'i' && At(s, 1) == 'n' then
      assert StartsWith(s, Aliases[1].deprecated);
      s[0 := 'i'][1 := 'd']
    else if At(s, 0) == 'j' && At(s, 1) == 'i' then
      assert StartsWith(s, Aliases[2].deprecated);
      s[0 := 'y'][1 := 'i']
    else
      s
  }

  /** A string that starts with a withdrawn code gets the current code in its place and keeps the rest. */
  lemma RewriteFollowsTable(s: string, i: nat)
    requires i < |Aliases| && StartsWith(s, Aliases[i].deprecated)
    ensures Rewrite(s) == Aliases[i].current + s[2..]
  {
  }

  /** A string that does not start with a withdrawn code, any string shorter than two characters included, is left alone. */
  lemma RewriteKeepsOtherNames(s: string)
    requires !HasLegacyPrefix(s) || |s| < 2
    ensures Rewrite(s) == s
  {
  }

  /** Rewriting twice is rewriting once: the current codes are not withdrawn ones. */
  lemma RewriteIdempotent(s: string)
    ensures Rewrite(Rewrite(s)) == Rewrite(s)
  {
  }

  /** A name under a withdrawn code and the same name under its current code reach ICU as the same string. */
  lemma LegacyAndCurrentAgree(i: nat, rest: string)
    requires i < |Aliases|
    ensures Rewrite(Aliases[i].deprecated + rest) == Aliases[i].current + rest
    ensures Rewrite(Aliases[i].current + rest) == Aliases[i].current + rest
  {
    var legacy := Aliases[i].deprecated + rest;
    var current := Aliases[i].current + rest;
    assert legacy[..2] == Aliases[i].deprecated;
    RewriteFollowsTable(legacy, i);
    assert legacy[2..] == rest;
    assert current[..2] == Aliases[i].current;
    RewriteKeepsOtherNames(current);
  }

  /** The table does not chain: no current code is itself a withdrawn one, and the withdrawn codes are distinct two-letter strings. */
  lemma AliasTableWellFormed()
    ensures forall i :: 0 <= i < |Aliases| ==> |Aliases[i].deprecated| == 2 == |Aliases[i].current|
    ensures forall i, j :: 0 <= i < |Aliases| && 0 <= j < |Aliases| && i != j ==> Aliases[i].deprecated != Aliases[j].deprecated
    ensures forall i, j :: 0 <= i < |Aliases| && 0 <= j < |Aliases| ==> Aliases[i].current != Aliases[j].deprecated
  {
  }

  /** No delimiter is required after the code: the three-letter code "inh" (Ingush) is rewritten as well. */
  lemma NoDelimiterCheck()
    ensures Rewrite("inh") == "idh"
  {
  }

  /** Examples: names that reach ICU unchanged, short ones included. */
  lemma RewriteUnchangedExamples()
    ensures Rewrite("english") == "english"
    ensures Rewrite("he_IL") == "he_IL"
    ensures Rewrite("i") == "i"
    ensures Rewrite("") == ""
  {
  }

  /**
   The rewrite driven by the alias table rather than by a chain of branches;
   it agrees with the binding's hand-written chain on every name.
   */
  method RewriteByTable(s: string) returns (r: string)
    ensures r == Rewrite(s)
  {
    var i := 0;
    while i < |Aliases|
      invariant 0 <= i <= |Aliases|
      invariant forall j :: 0 <= j < i ==> !StartsWith(s, Aliases[j].deprecated)
    {
      var a := Aliases[i];
      if |a.deprecated| <= |s| && s[..|a.deprecated|] == a.deprecated {
        RewriteFollowsTable(s, i);
        return a.current + s[|a.deprecated|..];
      }
      i := i + 1;
    }
    RewriteKeepsOtherNames(s);
    return s;
  }
}
