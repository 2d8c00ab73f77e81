/**
 * The buckets the selector classifier fills (the `cssSelectors` object of the
 * DOM parser), and the entries the optimizers later read and flag.
 */
module Buckets {

  /** A selector with a pseudo-class or pseudo-element, cut at its first ':'. */
  datatype PseudoEntry = PseudoEntry(base: string, modifier: string)

  /** A rule with several comma-separated selectors, kept or removed as a whole. */
  datatype CommaEntry = CommaEntry(selectorStr: string, selectorsList: seq<string>, isUsed: bool)

  /** A `@keyframes` block by name; `isUsed` starts out unset (false). */
  datatype KeyframeEntry = KeyframeEntry(ruleName: string, isUsed: bool)

  /** The contents of all buckets at one moment. */
  datatype Selectors = Selectors(
    polyFills: seq<string>,
    escapedPseudos: seq<string>,
    pseudos: seq<PseudoEntry>,
    general: seq<string>,
    commaSeparatedSelectors: seq<CommaEntry>,
    ampElementSelectors: seq<string>,
    joinedRawCss: string,
    keyFrames: seq<KeyframeEntry>)

  const NoSelectors := Selectors([], [], [], [], [], [], "", [])

  /** No string occurs twice. */
  predicate Distinct(xs: seq<string>) {
    forall i, j :: 0 <= i < j < |xs| ==> xs[i] != xs[j]
  }

  /** `Set.prototype.add` on a set of strings, kept in insertion order. */
  function AddUnique(xs: seq<string>, x: string): (r: seq<string>)
    ensures Distinct(xs) ==> Distinct(r)
    ensures x in r && forall y :: y in r <==> y in xs || y == x
    ensures x in xs ==> r == xs
    ensures x !in xs ==> r == xs + [x]
  {
    if x in xs then xs else xs + [x]
  }

  /** The bucket object of one classification pass, updated in place. */
  class CssSelectors {
    var polyFills: seq<string>
    var escapedPseudos: seq<string>
    var pseudos: seq<PseudoEntry>
    var general: seq<string>
    var commaSeparatedSelectors: seq<CommaEntry>
    var ampElementSelectors: seq<string>
    var joinedRawCss: string
    var keyFrames: seq<KeyframeEntry>

    function Snapshot(): Selectors
      reads this
    {
      Selectors(polyFills, escapedPseudos, pseudos, general,
                commaSeparatedSelectors, ampElementSelectors, joinedRawCss, keyFrames)
    }

    /** Every bucket empty and no CSS text collected yet. */
    constructor()
      ensures Snapshot() == NoSelectors
    {
      polyFills, escapedPseudos, pseudos, general := [], [], [], [];
      commaSeparatedSelectors, ampElementSelectors := [], [];
      joinedRawCss, keyFrames := "", [];
    }
  }
}
