/**
 * POSIX extended, case-insensitive regular expressions (regcomp with
 * REG_EXTENDED | REG_ICASE | REG_NOSUB, then regexec) are not implemented:
 * an Engine says which patterns compile and which strings a compiled pattern
 * finds a match in (an unanchored search). Every member that uses an engine
 * holds for every engine; where a fact about ".*" is needed it is assumed
 * through MatchAllMatchesEverything.
 */
module Regex {

  type Pattern = string

  datatype Engine = Engine(compiles: Pattern -> bool, search: (Pattern, string) -> bool)

  /** The pattern searchProducts substitutes for an empty one. */
  const MatchAll: Pattern := ".*"

  /** What POSIX guarantees of ".*": it compiles and matches every string. */
  ghost predicate MatchAllMatchesEverything(e: Engine) {
    e.compiles(MatchAll) && forall s :: e.search(MatchAll, s)
  }

  /** An empty pattern stands for ".*"; any other pattern for itself. */
  function Effective(p: Pattern): (r: Pattern)
    ensures r != ""
    ensures p != "" ==> r == p
  {
    if p == "" then MatchAll else p
  }
}
