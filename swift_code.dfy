/**
 * The only structure the service reads out of a SWIFT code: a code whose last three
 * characters are "XXX" is a headquarter, and the code with that suffix cut off is the
 * prefix its branches share. Nothing else about the code's format is checked.
 */
module SwiftCode {

  /** The suffix that marks a headquarter's code. */
  const HeadquarterSuffix: string := "XXX"

  /** Go's strings.HasPrefix. */
  predicate HasPrefix(s: string, prefix: string) {
    |prefix| <= |s| && s[..|prefix|] == prefix
  }

  /** Go's strings.HasSuffix. */
  predicate HasSuffix(s: string, suffix: string) {
    |suffix| <= |s| && s[|s| - |suffix|..] == suffix
  }

  /** Go's strings.CutSuffix: the string without the suffix, and whether it was there. */
  function CutSuffix(s: string, suffix: string): (r: (string, bool))
    ensures r.1 == HasSuffix(s, suffix)
    ensures r.1 ==> r.0 + suffix == s
    ensures !r.1 ==> r.0 == s
  {
    if HasSuffix(s, suffix) then
      assert s == s[..|s| - |suffix|] + s[|s| - |suffix|..];
      (s[..|s| - |suffix|], true)
    else
      (s, false)
  }

  /** The rule that classifies a code as a headquarter's (parser.go and the handlers agree). */
  predicate IsHeadquarterCode(code: string) {
    HasSuffix(code, HeadquarterSuffix)
  }

  /** The prefix a headquarter's branches share: the code with a trailing "XXX" cut off. */
  function BranchPrefix(code: string): string {
    CutSuffix(code, HeadquarterSuffix).0
  }

  /** Appending the suffix makes a headquarter code, and cutting it gives back the prefix. */
  lemma SuffixRoundTrip(prefix: string)
    ensures IsHeadquarterCode(prefix + HeadquarterSuffix)
    ensures BranchPrefix(prefix + HeadquarterSuffix) == prefix
  {
  }

  /** A code is a headquarter code exactly when it is some prefix followed by "XXX". */
  lemma HeadquarterCodeShape(code: string)
    ensures IsHeadquarterCode(code) <==> exists prefix :: code == prefix + HeadquarterSuffix
  {
    if IsHeadquarterCode(code) {
      assert code == BranchPrefix(code) + HeadquarterSuffix;
    }
    if exists prefix :: code == prefix + HeadquarterSuffix {
      var prefix :| code == prefix + HeadquarterSuffix;
      SuffixRoundTrip(prefix);
    }
  }

  /** A code always starts with the prefix computed from it. */
  lemma CodeStartsWithBranchPrefix(code: string)
    ensures HasPrefix(code, BranchPrefix(code))
  {
  }
}
