# AMP-UnCSS pruning core, modelled in Dafny

AMP-UnCSS shrinks the `<style amp-custom>` block of AMP pages. It removes the rules
that cannot apply to the page. This project models the decision logic behind that and
proves what it promises:

- **The selector classifier** (`lib/main/dom-parser.js`, `lib/utils/atruleHelpers.js`).
  It walks each parsed custom style text and sorts every rule whose parent is not an
  at-rule into exactly one bucket. The buckets, in order of precedence, are: comma
  group, polyfill, escaped pseudo, pseudo, amp element, general. It also records the
  names of `@keyframes` blocks, and collects the style text itself.
- **The three pruning optimizers**: type zero (`type-zero-optimizations.js`), its
  earlier revision (`typeZeroOptimizations.js`), and type one
  (`type-one-optimizations.js`). Each one removes rules from the live postcss tree of a
  file, and records every removal under a category. The decision is based on:
  - the page's answers: element counts, and the class/id attributes of its elements;
  - substring scans of declaration values.
- **The per-file record** (`amp-file.js`): path splitting, the statistics and status
  maps, the tier decision, the status logic of the HTML rewrite, the output path, and
  the completion statistics.
- **The run level** (`amp-uncss.js`, `UnCss.js`): option normalisation in the two
  constructors, and the split of prepared files into a static and a dynamic group.

How the model is built:

- **Rule tree.** It is a datatype `Css.Node`. One `walkRules`/`walkAtRules` pass is
  modelled exactly as postcss runs it:
  - it visits the tree as it stood when the walk began, in preorder;
  - a removed node's children are still visited;
  - a node is checked before its children are.

  One removing walk therefore leaves `Prune(tree, m)` behind and calls its callback on
  `Matches(tree, m)`.
- **The page** is what it answers. The number of elements a selector matches is
  `string -> Option<nat>`, where `None` means cheerio throws or the browser promise
  rejects. There is also a list of elements with their `class` and `id` attributes.
  Pruning never changes the page, so the answers are fixed functions.
- **The record** `AmpFiles.AmpFile` is a class, and the optimizer steps are methods
  that update its fields (`parsedCss`, `selectorsRemoved`, the `isUsed` flags of comma
  groups and keyframes, `status`). The step methods are proved equal to a
  specification function on the old state:
  - `Sweeps.Sweep` and `Sweeps.Pass` for walks and iterators;
  - `Commas.CommaFrom` for comma groups;
  - `Keyframes.KeyframesFrom` for keyframes;
  - `TypeZero.ZeroOptimize`, `TypeZeroLegacy.LegacyOptimize` and `TypeOne.OneOptimize`
    for whole runs.

  The lemmas then state what those functions promise. These functions follow the code
  as written: the keyframes step rebuilds its unused list after every scan, and the
  escaped step compares an element's whole `class` attribute. The type-one comma step
  is the one exception (see the Left out section).
- **Defects, both ways.** Where the code evidently does not do what it means, the
  corrected behaviour is a separate definition, and its own lemmas prove the intended
  property (see the Findings section). These are `Keyframes.KeyframesCorrected`,
  `Sweeps.ListedProbes` and `RunOptions.UserOptions`. No run uses them.
- **Type one** is modelled sequentially: each asynchronous call is taken in program
  order.

## Model

| member | source | states |
|---|---|---|
| Css.MatchesAreHitRules | lib/main/type-zero-optimizations.js:24-29 | a walk with a rule test calls its callback on exactly the rules it hits, in the preorder walkRules visits them |
| Css.MatchesAllHit | lib/main/type-zero-optimizations.js:24-29 | every node a walk records passes the walk's test |
| Css.PruneMissesNothing | lib/main/type-zero-optimizations.js:24-29 | a walk that hits nothing leaves the tree unchanged |
| Css.PruneKeepsUnhitRules | lib/main/type-zero-optimizations.js:24-29 | on a flat sheet a rule walk leaves exactly the rules it does not hit, unchanged and in order |
| Css.FlatEmptyRulesGone | lib/main/type-zero-optimizations.js:23-30 | on a flat sheet, after the empty-rule walk no rule without children is left |
| Css.NestedEmptyRuleSurvives | lib/main/type-zero-optimizations.js:23-30 | with nesting, a rule emptied by the walk survives, because it was checked while it still had its child |
| Css.PruneRemovesHits | lib/main/type-zero-optimizations.js:153-158 | after a walk for a selector text or keyframes names, no node anywhere passes that test |
| Css.PruneIdempotent | lib/main/type-zero-optimizations.js:153-158 | repeating such a walk removes nothing more |
| Css.PruneKeepsAbsence | lib/main/type-zero-optimizations.js:153-158 | no walk brings back a rule of a selector text that has no rule left |
| Css.KeyframesSurvive | lib/main/type-zero-optimizations.js:127-132 | removing the `@keyframes` blocks of some names leaves the blocks of every other name, in order |
| Css.ScanFinds | lib/main/type-zero-optimizations.js:112-118 | the `value.includes(name)` scan throws exactly on a non-declaration rule child; otherwise it finds the name exactly when some declaration value contains it |
| Css.ScanAfterPrune | lib/main/type-zero-optimizations.js:109-133 | after a walk removes nodes, a later scan finds a name only if the scan before the walk found it, and throws only if that scan could throw |
| AmpFiles.IncrementSpec | lib/main/amp-file.js:231-242 | one increment appends the selector to its category (created if new), leaves other categories alone, and keeps each count equal to its list's length |
| AmpFiles.RecordAllSpec | lib/main/amp-file.js:231-242 | a run of increments appends the selectors in call order, touches no other category, and keeps the counts consistent |
| AmpFiles.SplitPathRoundTrip | lib/main/amp-file.js:39-43 | the file name is the last '/'-segment and has no '/'; directory + "/" + name is the path; a path without '/' is all name |
| AmpFiles.FileExtSpec | lib/main/amp-file.js:42 | the extension of `stem.ext` is `ext`; a name without a dot has none |
| AmpFiles.OutputPathSpec | lib/main/amp-file.js:186-190 | the output path is `./dir/stem<decorator>.ext`; the decorator defaults to empty; a name without a dot gets the extension "undefined" |
| AmpFiles.Tier | lib/main/amp-file.js:77-79 | the level is 0 or 1, and it is 1 exactly when the target is above 0 and there is an exception tag |
| AmpFiles.AmpFile.constructor | lib/main/amp-file.js:24-58 | a Vinyl file's fields are taken as given and a path string is split; the stats start with only 'instantiated', zero sizes and nothing removed |
| AmpFiles.AmpFile.SetStatus | lib/main/amp-file.js:248-250 | exactly one status key is written |
| AmpFiles.AmpFile.IncrementSelectorsRemoved | lib/main/amp-file.js:231-242 | the statistics become one increment of the old ones, with the selector appended to its category and the counts kept consistent |
| AmpFiles.AmpFile.ExtractFileData | lib/main/amp-file.js:126-135 | the record's buckets, CSS text and exception tags become the classifier's results |
| AmpFiles.AmpFile.Prep | lib/main/amp-file.js:65-119 | 'started' is set; it succeeds exactly when every style text parses, tier 1 has its dynamic page and the joined text parses; on success the buckets are the classifier's well-formed harvest, the tier is chosen by `Tier`, tier 1 holds the dynamic page, and the parsed CSS is the joined text's parse |
| AmpFiles.AmpFile.LoadSelectors | lib/main/amp-file.js:72-73 | it succeeds exactly when the classifier's harvest does; the buckets, CSS text and exception tags are then the page's |
| AmpFiles.AmpFile.ChooseTier | lib/main/amp-file.js:77-117 | the level is always `Tier` of the target and exception tags; it succeeds exactly when tier 1 has a dynamic page and the CSS text parses |
| AmpFiles.AmpFile.ParseCss | lib/main/amp-file.js:117 | the rule tree is the parse of the collected CSS text; it fails exactly where postcss throws |
| AmpFiles.AmpFile.RewriteHtmlWithNewCss | lib/main/amp-file.js:151-178 | tier 0 takes the static page's HTML and tier 1 the browser's; a rejecting browser step sets 'failed'; 'complete' is set exactly when 'failed' is not; the HTML is not cleaned up |
| AmpFiles.AmpFile.SaveHtmlToDisc | lib/main/amp-file.js:185-196 | the output path is `OutputPath` of the target directory, file name and decorator |
| AmpFiles.AmpFile.GetCompletionStats | lib/main/amp-file.js:212-223 | the input size is the HTML length for a Vinyl file and the disk size otherwise; once 'complete' is set, the output size and exception-tag flag are recorded |
| AtRuleHelpers.TableShape | lib/utils/atruleHelpers.js:3-21 | `media` is the only at-rule walked into and `keyframes` the only one with a handler; every other listed name is skipped |
| AtRuleHelpers.PrefixedKeyframesUnlisted | lib/utils/atruleHelpers.js:3-21 | vendor-prefixed and unknown at-rules are not in the table |
| AtRuleHelpers.Stash | lib/utils/atruleHelpers.js:12-14 | the handler appends one unused entry named by the block's params and changes no other bucket |
| AtRuleHelpers.StashKeyframe | lib/utils/atruleHelpers.js:12-14 | on the bucket object, exactly the keyframes bucket grows by that one entry |
| Buckets.AddUnique | lib/main/dom-parser.js:234-237 | `Set.add` on a string bucket: the selector is in the result, a new one is appended, an old one changes nothing, and distinctness is kept |
| Buckets.CssSelectors.constructor | lib/main/dom-parser.js:73-82 | every bucket starts empty, with no CSS text |
| Dom.NamedIsListed | lib/main/type-zero-optimizations.js:193-200 | an element whose whole class attribute equals a class name carries that class |
| Dom.WholeAttributeMissesListedClass | lib/main/type-zero-optimizations.js:193-200 | `class="sm:flex p-4"` carries `sm:flex`, but comparing the whole attribute misses it |
| DomParser.VendorHasColon | lib/main/dom-parser.js:189-191 | a match of the vendor pseudo pattern contains a ':' |
| DomParser.PseudoHasColon | lib/main/dom-parser.js:149-183 | every selector the pseudo pattern matches has a ':' |
| DomParser.SplitPseudoRoundTrip | lib/main/dom-parser.js:230-233 | the base is the colon-free text before the first ':', the modifier starts with ':', and base + modifier is the selector |
| DomParser.SplitPseudoNoColon | lib/main/dom-parser.js:230-233 | without a colon the base is the whole selector and the modifier a lone ':' |
| DomParser.Classify | lib/main/dom-parser.js:202-239 | the precedence chain: several selectors make a comma group, then polyfill, escaped, pseudo, amp element, and otherwise general |
| DomParser.LandsInOneBucket | lib/main/dom-parser.js:205-238 | a rule lands in the one bucket `Classify` names and every other bucket is unchanged; a comma group is recorded whole and unused, its branches unclassified |
| DomParser.PseudoBucketEntry | lib/main/dom-parser.js:214-233 | a selector in the pseudo bucket matched a literal pseudo, not the vendor pattern, and its entry reassembles to it |
| DomParser.HandleRuleNode | lib/main/dom-parser.js:202-239 | on the bucket object, `_handleRuleNode` is `AddRule` of the old buckets |
| DomParser.NoSelectorsWellFormed | lib/main/dom-parser.js:73-82 | the empty buckets are well formed |
| DomParser.AddRuleWellFormed | lib/main/dom-parser.js:202-239 | classifying a rule keeps every bucket holding what its name says |
| DomParser.ApplyAllWellFormed | lib/main/dom-parser.js:102-118 | a whole walk of classifications and keyframe stashes keeps the buckets well formed |
| DomParser.DigClassifies | lib/main/dom-parser.js:103-117 | `dig` on one node classifies a rule exactly when its parent is not an at-rule |
| DomParser.WalkClassifies | lib/main/dom-parser.js:102-118 | the walk classifies exactly the rules whose parent is not an at-rule; rules inside `@media` or `@keyframes` are never bucketed |
| DomParser.KeyframesInMediaStashedTwice | lib/main/dom-parser.js:102-118 | a `@keyframes` inside `@media` is visited by both walks and recorded twice |
| DomParser.Dig | lib/main/dom-parser.js:103-117 | on the bucket object, `dig` is `DigEvents` applied to the old buckets |
| DomParser.Walk | lib/main/dom-parser.js:102-118 | on the bucket object, the walk is `WalkEvents` applied to the old buckets |
| DomParser.HarvestText | lib/main/dom-parser.js:89-121 | when every text parses, the collected CSS is the in-order concatenation of the non-empty text children, and the buckets stay well formed |
| DomParser.CollectStyleTag | lib/main/dom-parser.js:91-120 | one style tag's text children are appended and classified in order; it fails exactly where postcss rejects a text |
| DomParser.GetSelectors | lib/main/dom-parser.js:68-124 | the buckets are the harvest of all custom style texts; `None` exactly where a parse throws |
| DomParser.ExtractDomData | lib/main/dom-parser.js:28-51 | the well-formed harvest together with the page's exception tags; `None` where postcss throws |
| Sweeps.SweepSpec | lib/main/type-zero-optimizations.js:153-158 | a local walk leaves nothing it tests for; on a flat sheet a rule walk removes exactly its hits; the category grows by the hit labels in order and nothing else changes |
| Sweeps.SelectorHitsLabelled | lib/main/type-zero-optimizations.js:153-158 | every selector a walk for `t` records is `t` |
| Sweeps.RemoveWalk | lib/main/type-zero-optimizations.js:24-29 | the walk leaves `Sweep` of the old sheet and statistics |
| Sweeps.RemoveEmptySelectors | lib/main/type-zero-optimizations.js:23-30 | `_removeEmptySelectors` leaves the empty-rule `Sweep` under 'emptySelectors' |
| Sweeps.EmptySelectorsSpec | lib/main/type-zero-optimizations.js:23-30 | on a flat sheet no empty rule is left, every other rule stays in order, and the removed selectors are recorded once each in walk order |
| Sweeps.PassTotal | lib/main/type-zero-optimizations.js:147-161 | an iterator fails exactly when one of its queries throws |
| Sweeps.PassRemoves | lib/main/type-zero-optimizations.js:147-161 | after an iterator no rule of a selector found unused is left |
| Sweeps.PassKeeps | lib/main/type-zero-optimizations.js:147-161 | on a flat sheet an iterator removes exactly the rules of the unused selectors |
| Sweeps.PassKeepsAbsence | lib/main/type-zero-optimizations.js:147-161 | an iterator never brings back a rule of a selector text that has none |
| Sweeps.PassKeepsOtherKinds | lib/main/type-zero-optimizations.js:147-161 | an iterator leaves the other categories alone and keeps the counts consistent |
| Sweeps.SweepLog | lib/main/type-zero-optimizations.js:153-158 | one selector walk appends copies of that selector to its category |
| Sweeps.PassLog | lib/main/type-zero-optimizations.js:147-161 | an iterator only appends to its category, and only selectors found unused |
| Sweeps.SelectorPassSpec | lib/main/type-zero-optimizations.js:147-161 | the selector iterator fails exactly when a count throws; otherwise a selector with no element keeps no rule, and on a flat sheet every other rule stays |
| Sweeps.PseudoPassSpec | lib/main/type-zero-optimizations.js:163-176 | the pseudo iterator fails exactly when a base's count throws; otherwise every pseudo rule whose base has no element is gone, whatever its modifier |
| Sweeps.SelectorIterator | lib/main/type-zero-optimizations.js:147-161 | the loop over the bucket leaves exactly `Pass` of the selector probes, and fails where that does |
| Sweeps.PseudoIterator | lib/main/type-zero-optimizations.js:163-176 | the loop over the pseudo entries leaves exactly `Pass` of the pseudo probes |
| Sweeps.EscapeRoundTrip | lib/main/type-zero-optimizations.js:187-191 | unescaping `.` + escaped name + pseudo suffix gives the class name back |
| Sweeps.NamedOnPage | lib/main/type-zero-optimizations.js:192-200 | the element loop answers whether some element's whole class attribute, or its id, equals the name |
| Sweeps.EscapedPassSpec | lib/main/type-zero-optimizations.js:178-211 | the escaped iterator never fails; a selector whose class name is no element's whole class attribute or id keeps no rule; it removes exactly those selectors, and on a flat sheet every other rule stays |
| Sweeps.EscapedIterator | lib/main/type-zero-optimizations.js:178-211 | the loop leaves exactly `Pass` of the escaped probes |
| Sweeps.ListedOnPage | lib/main/type-zero-optimizations.js:192-200 | corrected: the element loop answers whether some element carries the class among its classes, or has it as id |
| Sweeps.ListedPassSpec | lib/main/type-zero-optimizations.js:178-211 | corrected: the iterator never fails; a selector whose class no element carries keeps no rule; it removes exactly those, and on a flat sheet one whose class is carried keeps all its rules |
| Sweeps.ListedIterator | lib/main/type-zero-optimizations.js:178-211 | corrected: the loop leaves exactly `Pass` of the corrected probes |
| Sweeps.ListedDoomsNoMore | lib/main/type-zero-optimizations.js:193-200 | for class names without whitespace the corrected iterator removes no selector the one as written keeps |
| Sweeps.PassKeepsAll | lib/main/type-zero-optimizations.js:147-161 | an iterator whose selectors are all found used leaves the sheet and statistics as they were |
| Sweeps.AsWrittenDropsListedClass | lib/main/type-zero-optimizations.js:193-200 | with `<div class="sm:flex p-4">`, the iterator as written removes the rule of `.sm\:flex:hover`; the corrected one keeps the sheet unchanged |
| Keyframes.UnusedNames | lib/main/type-zero-optimizations.js:120-125 | the names of exactly the unmarked entries, in entry order |
| Keyframes.CollectUnused | lib/main/type-zero-optimizations.js:120-125 | the loop collects `UnusedNames` |
| Keyframes.ScanRules | lib/main/type-zero-optimizations.js:112-118 | the loop over every rule's children gives the `ScanFor` answer |
| Keyframes.RemoveUnusedKeyframesAsWritten | lib/main/type-zero-optimizations.js:107-134 | the step as written, with the unused list rebuilt after every scan, is `KeyframesFrom` |
| Keyframes.ExampleFirstRound | lib/main/type-zero-optimizations.js:109-133 | on the example sheet, the first round as written marks `a` and removes the still-unmarked `b` |
| Keyframes.ExampleSecondRound | lib/main/type-zero-optimizations.js:109-133 | the second round marks `b`, whose block is already gone |
| Keyframes.AsWrittenDropsLaterKeyframes | lib/main/type-zero-optimizations.js:107-134 | as written, a `@keyframes` block that a declaration mentions is removed |
| Keyframes.KeyframesFromTotal | lib/main/type-zero-optimizations.js:109-118 | the step as written throws exactly when there is an entry and some rule has a non-declaration child |
| Keyframes.KeyframesFromMarks | lib/main/type-zero-optimizations.js:109-118 | entries keep their names and order; a used entry stays used, and an entry becomes used only when some declaration of the sheet mentions its name |
| Keyframes.KeyframesFromDrops | lib/main/type-zero-optimizations.js:120-132 | at the end no `@keyframes` block is left of a name whose entry stayed unmarked |
| Keyframes.KeyframesFromLog | lib/main/type-zero-optimizations.js:127-132 | the 'keyframes' category only grows, and only by names of entries that were unmarked at the start |
| Keyframes.KeyframesFromOtherKinds | lib/main/type-zero-optimizations.js:127-132 | the step leaves every other category alone and keeps the counts consistent |
| Keyframes.KeyframesFromKeepsAbsence | lib/main/type-zero-optimizations.js:107-134 | the step as written never brings back a rule of a selector text that has none |
| Keyframes.AsWrittenKeyframesSpec | lib/main/type-zero-optimizations.js:107-134 | the step as written fails exactly when a child scan throws; otherwise marks only grow, a new mark has a mention, an unmarked name has no block left, and neither has a name that was unmarked and never mentioned |
| Keyframes.MarkAllSpec | lib/main/type-zero-optimizations.js:112-118 | corrected: marking every entry first throws exactly when there is an entry and a non-declaration rule child; otherwise it marks exactly the entries whose name some declaration mentions |
| Keyframes.KeyframesSpec | lib/main/type-zero-optimizations.js:107-134 | corrected: an entry ends up used exactly when a declaration mentions it; every block of an unused name is gone; without nested keyframes every block of a mentioned name stays |
| Keyframes.CorrectedKeepsLaterKeyframes | lib/main/type-zero-optimizations.js:107-134 | corrected: on the same example, marking first keeps `b` |
| Keyframes.RemoveUnusedKeyframes | lib/main/type-zero-optimizations.js:107-134 | corrected: the loops leave exactly `KeyframesCorrected` of the old sheet and entries |
| Commas.CommaStep | lib/main/type-zero-optimizations.js:53-104 | one group: its empty walk, its flag set to its verdict, its rules walked away if unused, then the rest |
| Commas.CommaFromSpec | lib/main/type-zero-optimizations.js:51-105 | the comma step fails exactly on a verdict that throws; otherwise each flag becomes its verdict, texts and branches are unchanged, and no rule of an unused group is left |
| Commas.CommaFromFlat | lib/main/type-zero-optimizations.js:51-105 | on a flat sheet the rules left are exactly those no group's walks remove, whole groups only, in order |
| Commas.CommaKeepsAbsence | lib/main/type-zero-optimizations.js:51-105 | the comma step never brings back a rule of a selector text that has none |
| Commas.CommaLoop | lib/main/type-zero-optimizations.js:53-104 | the loop over the groups leaves exactly `CommaFrom` of the old sheet and entries |
| TypeZero.ScreenSpec | lib/main/type-zero-optimizations.js:66-81 | the first loop ends used exactly when some plain branch has an element, throws only on a plain branch whose count throws, and otherwise sets aside exactly the bases of the other branches |
| TypeZero.AnyFromSpec | lib/main/type-zero-optimizations.js:84-94 | the deferred loop throws exactly when a base's count does, and marks used exactly when some base has an element |
| TypeZero.CommaVerdictSpec | lib/main/type-zero-optimizations.js:63-94 | a group is used exactly when it was, or some branch has an element (a pseudo or escaped branch by its base, any other by itself); it throws only where a lookup throws |
| TypeZero.ScreenBranches | lib/main/type-zero-optimizations.js:66-81 | the branch loop computes `Screen` |
| TypeZero.AnyOnPage | lib/main/type-zero-optimizations.js:87-92 | the base loop computes `AnyFrom` |
| TypeZero.JudgeGroup | lib/main/type-zero-optimizations.js:63-94 | both loops for one group give `CommaVerdict` |
| TypeZero.JudgeGroups | lib/main/type-zero-optimizations.js:53-94 | the loop over the groups gives `ZeroVerdicts` |
| TypeZero.HandleCommaSeparatedSelectors | lib/main/type-zero-optimizations.js:51-105 | the step leaves exactly `CommaFrom` with the groups' verdicts, empty walks included |
| TypeZero.GuardedSteps | lib/main/type-zero-optimizations.js:222-229 | comma, general, pseudo, escaped and keyframe steps, all as written, together leave exactly `ZeroGuarded` |
| TypeZero.Optimize | lib/main/type-zero-optimizations.js:218-234 | the record ends as `ZeroOptimize` says, with 'optimized' set and `optLevel` 0 |
| TypeZero.GuardedKeepsAbsence | lib/main/type-zero-optimizations.js:222-229 | the guarded steps never bring back a rule |
| TypeZero.ZeroGuardedSpec | lib/main/type-zero-optimizations.js:222-229 | after the guarded steps no rule is left of a general selector without an element, of a pseudo whose base has none, of an escaped selector whose class name is no element's whole class attribute or id, or of a group with no branch on the page; each group's flag says whether it was used; an unmarked keyframes name has no block left |
| TypeZero.ZeroKeyframesSpec | lib/main/type-zero-optimizations.js:107-134 | after the guarded steps every keyframes entry keeps its name, a used one stays used, and an unmarked one has no block left |
| TypeZero.ZeroOptimizeSpec | lib/main/type-zero-optimizations.js:218-234 | no amp-element selector without an element keeps a rule; with exception tags the groups and keyframes are untouched; without them the guarded promises hold |
| TypeZeroLegacy.PrefixedPassSpec | lib/main/typeZeroOptimizations.js:163-177 | a prefixed iterator fails exactly when a prefixed count throws; otherwise no rule of a prefixed name without an element is left, and on a flat sheet all others stay |
| TypeZeroLegacy.RemoveUnusedClassSelectors | lib/main/typeZeroOptimizations.js:37-39 | the class iterator is the selector iterator over '.'-prefixed names |
| TypeZeroLegacy.RemoveUnusedIdSelectors | lib/main/typeZeroOptimizations.js:81-83 | the id iterator is the selector iterator over '#'-prefixed names |
| TypeZeroLegacy.LegacyVerdictSpec | lib/main/typeZeroOptimizations.js:105-110 | every branch is counted as written; the verdict throws exactly when a count does, and the group is used exactly when it was or some branch has an element |
| TypeZeroLegacy.PseudoBranchJudgedDifferently | lib/main/typeZeroOptimizations.js:105-110 | a group whose only live branch is a pseudo found by its base is dropped by this revision and kept by the later one |
| TypeZeroLegacy.JudgeGroupsUniformly | lib/main/typeZeroOptimizations.js:105-110 | the loops over the groups and their branches give `LegacyVerdicts` |
| TypeZeroLegacy.HandleCommaSeparatedSelectors | lib/main/typeZeroOptimizations.js:94-121 | the step leaves exactly `CommaFrom` with the uniform verdicts |
| TypeZeroLegacy.GuardedSteps | lib/main/typeZeroOptimizations.js:237-247 | general, pseudo, escaped, comma and keyframe steps, as written and in that order, leave exactly `LegacyGuarded` |
| TypeZeroLegacy.Optimize | lib/main/typeZeroOptimizations.js:233-250 | the record ends as `LegacyOptimize` says; no status is written |
| TypeZeroLegacy.LegacyGuardedSpec | lib/main/typeZeroOptimizations.js:237-247 | every general selector, pseudo base and comma branch was counted; no rule is left of a general or pseudo selector without an element, of an escaped selector whose class name is no element's whole class attribute or id, or of a group with no branch on the page; an unmarked keyframes name has no block left |
| TypeZeroLegacy.LegacyKeyframesSpec | lib/main/typeZeroOptimizations.js:123-150 | after the guarded steps every keyframes entry keeps its name, a used one stays used, and an unmarked one has no block left |
| TypeZeroLegacy.LegacyOptimizeSpec | lib/main/typeZeroOptimizations.js:233-250 | no amp-element selector without an element keeps a rule; with exception tags the groups and keyframes are untouched; without them the guarded promises hold |
| TypeZeroLegacy.LegacyKeepsAbsence | lib/main/typeZeroOptimizations.js:237-247 | the guarded steps never bring back a rule |
| TypeOne.EmptyWalksSpec | lib/main/type-one-optimizations.js:23-29 | the groups' empty walks are the comma step with every group kept |
| TypeOne.EmptyWalksOfSameTexts | lib/main/type-one-optimizations.js:23-29 | the empty walks depend only on the groups' selector texts |
| TypeOne.EmptyWalksFlat | lib/main/type-one-optimizations.js:23-29 | on a flat sheet the empty walks leave exactly the rules that are not an empty rule of a group's text |
| TypeOne.EmptyWalksKeepAbsence | lib/main/type-one-optimizations.js:23-29 | the empty walks never bring back a rule |
| TypeOne.RemoveGroupEmpties | lib/main/type-one-optimizations.js:21-29 | the walks on the record leave `EmptyWalks` |
| TypeOne.BranchesFromSpec | lib/main/type-one-optimizations.js:32-45 | intended predicates: every branch is counted; a pseudo or escaped branch is decided by its base and any other by itself; it rejects exactly when a count rejects |
| TypeOne.JudgeGroup | lib/main/type-one-optimizations.js:32-45 | intended predicates: the branch loop gives `OneVerdict` |
| TypeOne.JudgeGroups | lib/main/type-one-optimizations.js:19-57 | intended predicates: the loop over the groups gives `OneVerdicts` |
| TypeOne.HandleCommaSeparatedSelectors | lib/main/type-one-optimizations.js:19-57 | intended predicates: the step leaves exactly `CommaPhase` with the groups' verdicts |
| TypeOne.CommaPhaseSpec | lib/main/type-one-optimizations.js:19-57 | intended predicates: the comma step rejects exactly when a verdict does; it keeps texts and branches, sets each flag to whether a branch is on the page, and leaves no rule of an unused group |
| TypeOne.AsWrittenCommaRejects | lib/main/type-one-optimizations.js:35-36 | as written, any group with branches makes the run reject, while the corrected step succeeds when the page answers |
| TypeOne.AsWrittenAgreesWithoutBranches | lib/main/type-one-optimizations.js:19-57 | without branches the as-written and corrected runs agree |
| TypeOne.AfterCommaSteps | lib/main/type-one-optimizations.js:259-268 | general, pseudo, escaped and keyframe steps on the record, the last two as written, leave exactly `AfterCommas` |
| TypeOne.RestSteps | lib/main/type-one-optimizations.js:256-268 | the comma step and the steps after it leave exactly `OneRest` |
| TypeOne.Optimize | lib/main/type-one-optimizations.js:251-272 | intended predicates: the record ends as `OneOptimize` says, with 'optimized' set and `optLevel` 1 |
| TypeOne.AfterCommasKeepAbsence | lib/main/type-one-optimizations.js:259-268 | the steps after the comma step never bring back a rule |
| TypeOne.RestKeepsAbsence | lib/main/type-one-optimizations.js:256-268 | the steps after the amp selectors never bring back a rule |
| TypeOne.AfterCommasSpec | lib/main/type-one-optimizations.js:259-268 | the element list was read; no general selector without an element, pseudo whose base has none, or escaped selector whose class name is no element's whole `className` or id keeps a rule |
| TypeOne.AfterCommasKeyframesSpec | lib/main/type-one-optimizations.js:106-131 | after the steps every keyframes entry keeps its name, a used one stays used, and an unmarked one has no block left |
| TypeOne.OneRestSpec | lib/main/type-one-optimizations.js:256-268 | intended predicates: the comma step's and later steps' promises hold together, and no rule of an unused group is left at the end |
| TypeOne.OneOptimizeSpec | lib/main/type-one-optimizations.js:251-272 | intended predicates: no amp-element selector without an element keeps a rule, and the later promises hold; there is no exception-tag guard |
| RunOptions.ConfigFileIgnored | lib/main/amp-uncss.js:49 | as written a config path holds a promise with no keys, whatever the file holds; read on the spot, the file's contents are exactly the options |
| RunOptions.ReportSuffixSpec | lib/main/amp-uncss.js:58-60 | a truthy report name without '.json' gets it appended; one with it is unchanged; a truthy non-string throws; other keys are unchanged |
| RunOptions.ReportSuffixIdempotent | lib/main/amp-uncss.js:58-60 | adding the suffix twice is adding it once |
| RunOptions.WithStreamable | lib/main/amp-uncss.js:61-63 | an all-Vinyl input list sets `streamable` to true; otherwise the options are unchanged |
| RunOptions.EmptyInputStreamable | lib/main/amp-uncss.js:61-63 | an empty input list is streamable |
| RunOptions.AdjustSpec | lib/main/amp-uncss.js:56-63 | the two assignments throw exactly on `null`, on a boolean or number with an all-Vinyl input, and on a truthy non-string report name; otherwise an object's other keys are kept and a primitive contributes none |
| RunOptions.OptionsAsWrittenSpec | lib/main/amp-uncss.js:31-63 | the checks throw exactly on a non-array input, `null` options, a boolean or number with an all-Vinyl input, or a truthy non-string report name; a config path never throws and contributes at most `streamable`; an object's other keys keep the caller's values |
| RunOptions.UserOptionsSpec | lib/main/amp-uncss.js:31-63 | corrected: with the config file read on the spot, a config path throws exactly when the file is unreadable or its report name is truthy and not a string; then the file's other keys are the options; every other argument is handled as written |
| RunOptions.Merged | lib/main/UnCss.js:63 | user keys override defaults, and every other default key keeps its value |
| RunOptions.MergedIdempotent | lib/main/UnCss.js:63 | merging the same user options again changes nothing |
| AmpUncssRuns.SharedDefaults.constructor | lib/main/amp-uncss.js:55 | the shared defaults object holds the given values |
| AmpUncssRuns.AmpUncss.constructor | lib/main/amp-uncss.js:30-70 | the instance keeps the inputs and callback, and its options are the shared defaults with the user's keys assigned into them |
| AmpUncssRuns.New | lib/main/amp-uncss.js:30-70 | it throws exactly when the checks as written do, leaving the defaults alone; otherwise the callback is the function argument if any, and the defaults become the merge with the options as written |
| AmpUncssRuns.DefaultsLeakAcrossRuns | lib/main/amp-uncss.js:68 | two instances share one options object, and the second inherits a key that only the first set |
| UnCssRuns.UnCss.constructor | lib/main/UnCss.js:33-65 | the instance keeps the inputs and a fresh merge of defaults and user options |
| UnCssRuns.New | lib/main/UnCss.js:33-65 | it throws exactly when the checks as written do; otherwise the options are the fresh merge with the options as written |
| UnCssRuns.GroupAppend | lib/main/UnCss.js:127-134 | grouping keeps input order |
| UnCssRuns.GroupMembers | lib/main/UnCss.js:127-134 | a group holds exactly the files at its level |
| UnCssRuns.GroupsDisjoint | lib/main/UnCss.js:127-134 | the two groups together are never more files than the input; files at other levels are dropped |
| UnCssRuns.RunGroupSpec | lib/main/UnCss.js:136-146 | a group run throws exactly when its optimizer throws for a file not failed; otherwise one entry per file, `undefined` for a failed one |
| UnCssRuns.OptimizeSpec | lib/main/UnCss.js:125-150 | the level-0 results come first, then the level-1 results, each in input order; it throws exactly when an optimizer does for a live file |
| UnCssRuns.PlaceholderDynamicOptimizer | lib/main/UnCss.js:141-146 | with the imported placeholder dynamic optimizer, `_optimize` succeeds exactly when every level-1 file has failed |

## Left out

- File-system I/O is not modelled: reading the HTML, temp files, `mkdir`/`writeFileSync`, `statSync`, and the report files (`_initializeReport`, `_updateReportFile`). What a read or stat returns is a parameter (`diskContents`, `diskSize`, `read`).
- The browser and its lifecycle are not modelled: `init`, `end`, `closePage`, `puppeteer.launch`, `run`, `_setup`, `_tearDown`, `cleanup`. The two pages are given as data.
- HTML and CSS parsing and serialisation (cheerio, postcss) are parameters: `parse`, `htmlWith`, `htmlAfter`. postcss splits a rule's selector at commas; here the split is stored in the rule.
- `performance.now()` timestamps are parameters (`now`).
- The `dynamicDomCount` and `dynamicQueryAll` calls of the type-one optimizer are not defined in `amp-file.js`. The model answers them from the dynamic page.
- The legacy optimizer looks elements up with `ampFile.$`, which `amp-file.js` does not define. The model answers from the static page's counts and elements.
- Type-one iterators run `forEach(async …)`, which does not wait for its callbacks. In the source, their removals happen later and their rejections do not reach `optimize`. TypeOne.Optimize is sequential instead: every removal lands in order, and a rejected count makes the whole run fail.
- The regular expressions of `_hasPseudo` and `_isPolyFill` are modelled as literal substring tests plus the vendor pattern, with ASCII case folding.
- The constructors also change the caller's own options object in place (`reportName +=`, `streamable = true`). The model computes the new value instead.
- Only option values that are strings, booleans, integers, `null` or functions are modelled. Other numbers, arrays and objects with a prototype chain are not.
- The attribute and element iterators of the legacy optimizer are disabled in its `optimize`. They are one more `Sweeps.SelectorIterator` over their bucket, so they have no member of their own.
- `lib/utils/default-options.js` and `lib/utils/tags.js` are not part of this model. The defaults object and the AMP and exception tag sets are parameters.
- `UnCss.js` runs the legacy optimizer and a placeholder dynamic optimizer (`typeOneOptimizations.js`). UnCssRuns.Optimize takes both as parameters.
- `RewriteHtmlWithNewCss` does not model the `=""`/newline clean-up: its result is discarded.
- The `ref` field of a keyframes entry (the postcss node) is not kept.
- `ReturnOptimizedHtml` and `HasExceptionTags` are plain readers of the record, so they need no contract.
- lib/utils/stubs.js is not part of this model: it never runs.
- `stubAmpImg` (amp-file.js:70) belongs to the Cheerio interface. AmpFiles.AmpFile.Prep receives the page after it, with an empty `<img>` inside every `amp-img`.
- AmpFiles.AmpFile.constructor: it requires that `streamable` holds exactly for a Vinyl file, as that flag is documented (amp-uncss.js:23-24) and forced for an all-Vinyl input list (amp-uncss.js:61-63). The call at amp-uncss.js:110 does not ensure this in two cases, and the model does not cover them. In a mixed input list, a Vinyl file reaches `filePath.split` (amp-file.js:38), which throws. After an all-Vinyl run, the shared defaults keep `streamable` true (amp-uncss.js:68), so a later path string is read as a Vinyl file (amp-file.js:28-34) and its fields are undefined.
- TypeOne.Optimize: it judges comma branches with the classifier's `_hasPseudo` and `_hasEscapedPseudo`, not with the missing `_containsPseudo`/`_containsEscapedPseudo` it calls. TypeOne.OneOptimizeAsWritten is the run as written, and the Findings row gives the difference.
- Keyframes.AsWrittenKeyframesSpec: it does not promise that a mentioned name ends up marked. A mention inside a `@keyframes` block that an earlier round removed is no longer scanned. A block that a declaration mentions can also be removed before its own round (the keyframes row of the Findings table).

## Findings

| source | as written | input that shows it | evidently intended | confidence | as-written member | corrected member |
|---|---|---|---|---|---|---|
| lib/main/amp-uncss.js:68 | `Object.assign(defaultOptions, options)` writes the user's options into the module-level defaults, and `this.options` is that shared object | a run with `{report: true}` followed by one with `{}`: the second run also reports | a fresh merge per run, as `UnCss.js:63` does with spread | not executed | AmpUncssRuns.DefaultsLeakAcrossRuns | RunOptions.Merged |
| lib/main/type-one-optimizations.js:35-36 | calls `DomParser._containsPseudo` and `_containsEscapedPseudo`, which do not exist, so every branch's callback throws | any sheet with a comma group, e.g. `a, b {}` | the classifier's `_hasPseudo` and `_hasEscapedPseudo` | not executed | TypeOne.AsWrittenCommaRejects | TypeOne.CommaPhaseSpec |
| lib/main/type-zero-optimizations.js:120-132 | the unused list is rebuilt and removed after each entry's scan, before later entries are marked | `@keyframes a{} @keyframes b{} .x{animation: a b}`: block `b` is removed | mark every entry, then remove the unmarked blocks once | not executed | Keyframes.AsWrittenDropsLaterKeyframes | Keyframes.KeyframesSpec |
| lib/main/type-zero-optimizations.js:193-200 | the escaped selector is kept only when an element's whole `class` attribute equals the class name | `<div class="sm:flex p-4">` with `.sm\:flex:hover{}`: the rule is removed | keep it when the element carries the class among others | not executed | Sweeps.AsWrittenDropsListedClass | Sweeps.ListedPassSpec |
| lib/main/amp-uncss.js:49 | the `async` `_ingestConfigFile` returns a promise, so no key of the config file reaches the options | a config path naming a file with `{"optimizationLevel": 1}`: the run uses the default level | read the file and use its contents as the options | not executed | RunOptions.ConfigFileIgnored | RunOptions.UserOptionsSpec |

The keyframes defect is also in `typeZeroOptimizations.js:136-148` and `type-one-optimizations.js:117-129`. The whole-attribute comparison is also in `typeZeroOptimizations.js:208-215`, and in `type-one-optimizations.js:214-221` (`className`). The config-file defect is also in `UnCss.js:46`. In all these places the three optimizers and both constructors are modelled as written.
