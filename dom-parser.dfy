/**
 * The selector classifier: walks the rule trees of the page's custom style
 * text and sorts every rule it reaches into exactly one bucket, and records
 * the names of `@keyframes` blocks.
 */
module DomParser {

  import opened Wrappers
  import opened Strings
  import opened Css
  import opened Dom
  import opened Buckets
  import AtRuleHelpers

  // ---------------------------------------------------------------------------
  // Selector tests

  /** The literal alternatives of the ignored-pseudo pattern, all lower case. */
  const LiteralPseudos: seq<string> := [
    ":link", ":visited",
    ":hover", ":active", ":focus", ":focus-within",
    ":enabled", ":disabled", ":checked", ":indeterminate",
    ":required", ":invalid", ":valid",
    "::first-line", "::first-letter", "::selection", "::before", "::after",
    ":target",
    ":before", ":after",
    ":lang", ":placeholder-shown", "::placeholder", ":first-letter"
  ]

  /** One of the literal pseudos occurs in the selector, ignoring ASCII case. */
  predicate HasLiteralPseudo(s: string) {
    exists i :: 0 <= i < |LiteralPseudos| && Contains(Lower(s), LiteralPseudos[i])
  }

  const Vendors: seq<string> := ["moz", "ms", "webkit", "o"]

  /** `[a-z0-9-]`, applied to lower-cased text. */
  predicate NameChar(c: char) {
    'a' <= c <= 'z' || '0' <= c <= '9' || c == '-'
  }

  /** `-(?:moz|ms|webkit|o)-[a-z0-9-]+` matches at the start of `t`. */
  predicate VendorTail(t: string) {
    exists i :: 0 <= i < |Vendors| && StartsWith(t, "-" + Vendors[i] + "-")
                && |t| > |Vendors[i]| + 2 && NameChar(t[|Vendors[i]| + 2])
  }

  /** `::?-(?:moz|ms|webkit|o)-[a-z0-9-]+` matches at the start of `t`. */
  predicate VendorAt(t: string) {
    |t| > 0 && t[0] == ':' &&
    (VendorTail(t[1..]) || (|t| > 1 && t[1] == ':' && VendorTail(t[2..])))
  }

  predicate VendorSomewhere(t: string)
    decreases |t|
  {
    VendorAt(t) || (|t| > 0 && VendorSomewhere(t[1..]))
  }

  /** The vendor-prefixed pseudo pattern matches somewhere in the selector (flag `i`). */
  predicate HasVendorPseudo(s: string) {
    VendorSomewhere(Lower(s))
  }

  /** `_hasPseudo`: the combined ignored-pseudo pattern matches. */
  predicate HasPseudo(s: string) {
    HasLiteralPseudo(s) || HasVendorPseudo(s)
  }

  /** `_hasEscapedPseudo`: the selector contains a backslash. */
  predicate HasEscapedPseudo(s: string) {
    '\\' in s
  }

  /** `_isPolyFill`: the vendor-prefixed pseudo pattern on its own. */
  predicate IsPolyFill(s: string) {
    HasVendorPseudo(s)
  }

  /** `_isAmp`: the selector is an AMP element name. */
  predicate IsAmp(s: string, ampTags: set<string>) {
    s in ampTags
  }

  lemma {:induction false} VendorHasColon(t: string)
    requires VendorSomewhere(t)
    ensures ':' in t
    decreases |t|
  {
    if !VendorAt(t) {
      VendorHasColon(t[1..]);
    }
  }

  /** Every pseudo the pattern recognises starts with a colon, so a matching selector has one. */
  lemma PseudoHasColon(s: string)
    requires HasPseudo(s)
    ensures ':' in s
  {
    if HasLiteralPseudo(s) {
      var i :| 0 <= i < |LiteralPseudos| && Contains(Lower(s), LiteralPseudos[i]);
      ContainsFirstChar(Lower(s), LiteralPseudos[i]);
    } else {
      VendorHasColon(Lower(s));
    }
    LowerKeepsChar(s, ':');
  }

  // ---------------------------------------------------------------------------
  // Base and modifier of a pseudo selector

  /** `base` = the text before the first ':'; `modifier` = ':' and the rest. */
  function SplitPseudo(s: string): PseudoEntry {
    var parts := SplitOn(s, ":");
    PseudoEntry(parts[0], ":" + Join(parts[1..], ":"))
  }

  /**
   * For a selector with a colon, the base is the colon-free text before the
   * first colon, the modifier starts with that colon, and base + modifier is
   * the selector again.
   */
  lemma SplitPseudoRoundTrip(s: string)
    requires ':' in s
    ensures SplitPseudo(s).base + SplitPseudo(s).modifier == s
    ensures ':' !in SplitPseudo(s).base && StartsWith(s, SplitPseudo(s).base)
    ensures SplitPseudo(s).modifier[0] == ':'
  {
    var parts := SplitOn(s, ":");
    JoinSplit(s, ":");
    SplitPiecesFree(s, ':');
    assert |parts| != 1;
    assert Join(parts, ":") == parts[0] + ":" + Join(parts[1..], ":");
    assert s == parts[0] + (":" + Join(parts[1..], ":"));
    assert s[..|parts[0]|] == parts[0];
  }

  /** For a selector without a colon the base is the whole selector and the modifier a lone ':'. */
  lemma SplitPseudoNoColon(s: string)
    requires ':' !in s
    ensures SplitPseudo(s) == PseudoEntry(s, ":")
  {
    SplitWithout(s, ":");
  }

  // ---------------------------------------------------------------------------
  // Classification of one rule

  datatype Bucket = CommaGroup | PolyFill | EscapedPseudo | Pseudo | AmpElement | General

  /** The precedence chain of `_handleRuleNode`. */
  function Classify(selector: string, selectors: seq<string>, ampTags: set<string>): (b: Bucket)
    ensures b == CommaGroup <==> |selectors| > 1
    ensures b == PolyFill ==> HasVendorPseudo(selector)
    ensures b == EscapedPseudo ==> '\\' in selector && !HasVendorPseudo(selector)
    ensures b == Pseudo ==> HasLiteralPseudo(selector) && !HasVendorPseudo(selector) && '\\' !in selector
    ensures b == AmpElement ==> selector in ampTags && !HasPseudo(selector) && '\\' !in selector
    ensures b == General ==> selector !in ampTags && !HasPseudo(selector) && '\\' !in selector
  {
    if |selectors| > 1 then CommaGroup
    else if IsPolyFill(selector) then PolyFill
    else if HasEscapedPseudo(selector) then EscapedPseudo
    else if HasPseudo(selector) then Pseudo
    else if IsAmp(selector, ampTags) then AmpElement
    else General
  }

  /** The buckets after `_handleRuleNode` on one rule. */
  function AddRule(s: Selectors, rule: Node, ampTags: set<string>): Selectors
    requires rule.Rule?
  {
    match Classify(rule.selector, rule.selectors, ampTags)
    case CommaGroup =>
      s.(commaSeparatedSelectors := s.commaSeparatedSelectors + [CommaEntry(rule.selector, rule.selectors, false)])
    case PolyFill => s.(polyFills := AddUnique(s.polyFills, rule.selector))
    case EscapedPseudo => s.(escapedPseudos := AddUnique(s.escapedPseudos, rule.selector))
    case Pseudo => s.(pseudos := s.pseudos + [SplitPseudo(rule.selector)])
    case AmpElement => s.(ampElementSelectors := AddUnique(s.ampElementSelectors, rule.selector))
    case General => s.(general := AddUnique(s.general, rule.selector))
  }

  /**
   * A classified rule lands in the one bucket `Classify` names and every
   * other bucket is left as it was; a comma group is recorded whole, unused,
   * and its branches are not classified.
   */
  lemma LandsInOneBucket(s: Selectors, rule: Node, ampTags: set<string>)
    requires rule.Rule?
    ensures var t := AddRule(s, rule, ampTags);
            var b := Classify(rule.selector, rule.selectors, ampTags);
            t.joinedRawCss == s.joinedRawCss && t.keyFrames == s.keyFrames
            && (b == CommaGroup <==> t.commaSeparatedSelectors != s.commaSeparatedSelectors)
            && (b == Pseudo <==> t.pseudos != s.pseudos)
            && (b != PolyFill ==> t.polyFills == s.polyFills)
            && (b != EscapedPseudo ==> t.escapedPseudos == s.escapedPseudos)
            && (b != AmpElement ==> t.ampElementSelectors == s.ampElementSelectors)
            && (b != General ==> t.general == s.general)
            && (b == CommaGroup ==>
                  (t.commaSeparatedSelectors
                   == s.commaSeparatedSelectors + [CommaEntry(rule.selector, rule.selectors, false)]))
            && (b == PolyFill ==> rule.selector in t.polyFills)
            && (b == EscapedPseudo ==> rule.selector in t.escapedPseudos)
            && (b == AmpElement ==> rule.selector in t.ampElementSelectors)
            && (b == General ==> rule.selector in t.general)
  {
    var t := AddRule(s, rule, ampTags);
    match Classify(rule.selector, rule.selectors, ampTags)
    case CommaGroup =>
      assert |t.commaSeparatedSelectors| == |s.commaSeparatedSelectors| + 1;
    case Pseudo =>
      assert |t.pseudos| == |s.pseudos| + 1;
    case _ =>
  }

  /**
   * A selector in the pseudo bucket matched a literal pseudo: the vendor
   * alternative of the pattern is the polyfill test, which is tried first.
   * Its entry splits it at the first colon and reassembles to it.
   */
  lemma PseudoBucketEntry(selector: string, selectors: seq<string>, ampTags: set<string>)
    requires Classify(selector, selectors, ampTags) == Pseudo
    ensures HasLiteralPseudo(selector) && !IsPolyFill(selector)
    ensures SplitPseudo(selector).base + SplitPseudo(selector).modifier == selector
    ensures ':' !in SplitPseudo(selector).base
  {
    PseudoHasColon(selector);
    SplitPseudoRoundTrip(selector);
  }

  // ---------------------------------------------------------------------------
  // The classifying walk

  /** The two things the walk does to the buckets. */
  datatype Event = Classified(rule: Node) | Stashed(params: string)

  function Apply(s: Selectors, e: Event, ampTags: set<string>): Selectors {
    match e
    case Classified(r) => if r.Rule? then AddRule(s, r, ampTags) else s
    case Stashed(p) => AtRuleHelpers.Stash(s, p)
  }

  function ApplyAll(s: Selectors, es: seq<Event>, ampTags: set<string>): Selectors
    decreases |es|
  {
    if |es| == 0 then s else ApplyAll(Apply(s, es[0], ampTags), es[1..], ampTags)
  }

  lemma {:induction false} ApplyAllAppend(s: Selectors, a: seq<Event>, b: seq<Event>, ampTags: set<string>)
    ensures ApplyAll(s, a + b, ampTags) == ApplyAll(ApplyAll(s, a, ampTags), b, ampTags)
    decreases |a|
  {
    if |a| > 0 {
      assert (a + b)[0] == a[0] && (a + b)[1..] == a[1..] + b;
      ApplyAllAppend(Apply(s, a[0], ampTags), a[1..], b, ampTags);
    } else {
      assert a + b == b;
    }
  }

  /**
   * `dig` on one node whose parent is (`underAtRule`) or is not an at-rule:
   * a rule is classified unless its parent is an at-rule; an at-rule is
   * looked up in the dispatch table.
   */
  function DigEvents(n: Node, underAtRule: bool): seq<Event>
    decreases n, 1
  {
    if n.Rule? then (if underAtRule then [] else [Classified(n)])
    else if n.AtRule? && n.name in AtRuleHelpers.Table then
      match AtRuleHelpers.Table[n.name]
      case Recurse => WalkEvents(n.nodes, true)
      case Handler => [Stashed(n.params)]
      case Skip => []
    else []
  }

  /** `walk(dig)` over a list of siblings: each node, then its descendants, in preorder. */
  function WalkEvents(ns: seq<Node>, underAtRule: bool): seq<Event>
    decreases ns, 0
  {
    if |ns| == 0 then []
    else
      DigEvents(ns[0], underAtRule)
      + (if IsParent(ns[0]) then WalkEvents(ns[0].nodes, ns[0].AtRule?) else [])
      + WalkEvents(ns[1..], underAtRule)
  }

  /** Every rule of the tree whose parent is not an at-rule, in preorder. */
  function OutsideAtRules(ns: seq<Node>, underAtRule: bool): seq<Node>
    decreases ns
  {
    if |ns| == 0 then []
    else
      (if ns[0].Rule? && !underAtRule then [ns[0]] else [])
      + (if IsParent(ns[0]) then OutsideAtRules(ns[0].nodes, ns[0].AtRule?) else [])
      + OutsideAtRules(ns[1..], underAtRule)
  }

  lemma {:induction false} DigClassifies(n: Node, underAtRule: bool, r: Node)
    ensures Classified(r) in DigEvents(n, underAtRule) ==>
              (r == n && n.Rule? && !underAtRule)
              || (IsParent(n) && r in OutsideAtRules(n.nodes, n.AtRule?))
    decreases n, 1
  {
    if n.AtRule? && n.name in AtRuleHelpers.Table && AtRuleHelpers.Table[n.name] == AtRuleHelpers.Recurse {
      WalkClassifies(n.nodes, true, r);
    }
  }

  /**
   * The walk classifies exactly the rules whose parent is not an at-rule:
   * a rule inside `@media`, `@keyframes` or any other at-rule is never
   * bucketed, and every other rule, nested ones included, is.
   */
  lemma {:induction false} WalkClassifies(ns: seq<Node>, underAtRule: bool, r: Node)
    ensures Classified(r) in WalkEvents(ns, underAtRule) <==> r in OutsideAtRules(ns, underAtRule)
    decreases ns, 0
  {
    if |ns| > 0 {
      var n := ns[0];
      DigClassifies(n, underAtRule, r);
      WalkClassifies(ns[1..], underAtRule, r);
      if IsParent(n) {
        WalkClassifies(n.nodes, n.AtRule?, r);
      }
    }
  }

  /**
   * Walking into `@media` happens once for the block itself and again for
   * each of its descendants, so a `@keyframes` inside `@media` is recorded twice.
   */
  lemma KeyframesInMediaStashedTwice()
    ensures WalkEvents([AtRule("media", "print", [AtRule("keyframes", "spin", [])])], false)
            == [Stashed("spin"), Stashed("spin")]
  {
    var kf := AtRule("keyframes", "spin", []);
    var media := AtRule("media", "print", [kf]);
    assert DigEvents(kf, true) == [Stashed("spin")];
    assert WalkEvents([kf], true) == [Stashed("spin")];
    assert DigEvents(media, false) == [Stashed("spin")];
  }

  /** `dig` applied to one node, updating the buckets in place. */
  method Dig(n: Node, underAtRule: bool, cs: CssSelectors, ampTags: set<string>)
    modifies cs
    ensures cs.Snapshot() == ApplyAll(old(cs.Snapshot()), DigEvents(n, underAtRule), ampTags)
    decreases n, 1
  {
    if n.Rule? {
      if !underAtRule {
        HandleRuleNode(n, cs, ampTags);
      }
    } else if n.AtRule? && n.name in AtRuleHelpers.Table {
      match AtRuleHelpers.Table[n.name]
      case Recurse =>
        Walk(n.nodes, true, cs, ampTags);
      case Handler =>
        AtRuleHelpers.StashKeyframe(n, cs);
      case Skip =>
    }
  }

  /** postcss `walk(dig)` over a list of siblings. */
  method Walk(ns: seq<Node>, underAtRule: bool, cs: CssSelectors, ampTags: set<string>)
    modifies cs
    ensures cs.Snapshot() == ApplyAll(old(cs.Snapshot()), WalkEvents(ns, underAtRule), ampTags)
    decreases ns, 0
  {
    var i := 0;
    while i < |ns|
      invariant 0 <= i <= |ns|
      invariant ApplyAll(cs.Snapshot(), WalkEvents(ns[i..], underAtRule), ampTags)
                == ApplyAll(old(cs.Snapshot()), WalkEvents(ns, underAtRule), ampTags)
    {
      var n := ns[i];
      var sub := if IsParent(n) then WalkEvents(n.nodes, n.AtRule?) else [];
      assert ns[i..][1..] == ns[i + 1..];
      assert WalkEvents(ns[i..], underAtRule)
             == DigEvents(n, underAtRule) + sub + WalkEvents(ns[i + 1..], underAtRule);
      ApplyAllAppend(cs.Snapshot(), DigEvents(n, underAtRule) + sub, WalkEvents(ns[i + 1..], underAtRule), ampTags);
      ApplyAllAppend(cs.Snapshot(), DigEvents(n, underAtRule), sub, ampTags);
      Dig(n, underAtRule, cs, ampTags);
      if IsParent(n) {
        Walk(n.nodes, n.AtRule?, cs, ampTags);
      }
      i := i + 1;
    }
  }

  /** `_handleRuleNode`: puts one rule into its bucket. */
  method HandleRuleNode(rule: Node, cs: CssSelectors, ampTags: set<string>)
    requires rule.Rule?
    modifies cs
    ensures cs.Snapshot() == AddRule(old(cs.Snapshot()), rule, ampTags)
  {
    var selector := rule.selector;
    if |rule.selectors| > 1 {
      cs.commaSeparatedSelectors := cs.commaSeparatedSelectors + [CommaEntry(selector, rule.selectors, false)];
      return;
    }
    if IsPolyFill(selector) {
      cs.polyFills := AddUnique(cs.polyFills, selector);
    } else if HasEscapedPseudo(selector) {
      cs.escapedPseudos := AddUnique(cs.escapedPseudos, selector);
    } else if HasPseudo(selector) {
      cs.pseudos := cs.pseudos + [SplitPseudo(selector)];
    } else if IsAmp(selector, ampTags) {
      cs.ampElementSelectors := AddUnique(cs.ampElementSelectors, selector);
    } else {
      cs.general := AddUnique(cs.general, selector);
    }
  }

  // ---------------------------------------------------------------------------
  // What the classifier promises about its buckets

  predicate EntryOk(e: PseudoEntry) {
    ':' !in e.base && |e.modifier| > 0 && e.modifier[0] == ':' && HasPseudo(e.base + e.modifier)
  }

  /**
   * Each bucket holds what its name says: comma groups of several branches
   * not yet marked used, colon-split pseudo entries, backslashed escaped
   * selectors, polyfills matching the vendor pattern, general and AMP
   * selectors free of pseudos and backslashes, keyframes not yet marked used,
   * and no string selector twice.
   */
  predicate WellFormed(s: Selectors) {
    (forall i :: 0 <= i < |s.commaSeparatedSelectors| ==>
       |s.commaSeparatedSelectors[i].selectorsList| > 1 && !s.commaSeparatedSelectors[i].isUsed)
    && (forall i :: 0 <= i < |s.pseudos| ==> EntryOk(s.pseudos[i]))
    && (forall x :: x in s.escapedPseudos ==> '\\' in x)
    && (forall x :: x in s.polyFills ==> IsPolyFill(x))
    && (forall x :: x in s.general ==> !HasPseudo(x) && '\\' !in x)
    && (forall x :: x in s.ampElementSelectors ==> !HasPseudo(x) && '\\' !in x)
    && (forall i :: 0 <= i < |s.keyFrames| ==> !s.keyFrames[i].isUsed)
    && Distinct(s.polyFills) && Distinct(s.escapedPseudos)
    && Distinct(s.general) && Distinct(s.ampElementSelectors)
  }

  lemma NoSelectorsWellFormed()
    ensures WellFormed(NoSelectors)
  {
  }

  lemma AddRuleWellFormed(s: Selectors, rule: Node, ampTags: set<string>)
    requires rule.Rule? && WellFormed(s)
    ensures WellFormed(AddRule(s, rule, ampTags))
  {
    var t := AddRule(s, rule, ampTags);
    if Classify(rule.selector, rule.selectors, ampTags) == Pseudo {
      PseudoBucketEntry(rule.selector, rule.selectors, ampTags);
      assert t.pseudos == s.pseudos + [SplitPseudo(rule.selector)];
      assert EntryOk(SplitPseudo(rule.selector)) by {
        SplitPseudoRoundTrip(rule.selector);
      }
    }
  }

  /** Classifying and stashing keep every bucket well formed. */
  lemma {:induction false} ApplyAllWellFormed(s: Selectors, es: seq<Event>, ampTags: set<string>)
    requires WellFormed(s)
    ensures WellFormed(ApplyAll(s, es, ampTags))
    decreases |es|
  {
    if |es| > 0 {
      if es[0].Classified? && es[0].rule.Rule? {
        AddRuleWellFormed(s, es[0].rule, ampTags);
      }
      ApplyAllWellFormed(Apply(s, es[0], ampTags), es[1..], ampTags);
    }
  }

  // ---------------------------------------------------------------------------
  // Collecting the custom style text

  /** The texts the classifier takes from the style tags: non-empty text children, in order. */
  function ChunksOf(cs: seq<TextChild>): seq<string>
    decreases |cs|
  {
    if |cs| == 0 then []
    else (if cs[0].kind == "text" && cs[0].data != "" then [cs[0].data] else []) + ChunksOf(cs[1..])
  }

  function Chunks(tags: seq<StyleTag>): seq<string>
    decreases |tags|
  {
    if |tags| == 0 then [] else ChunksOf(tags[0].children) + Chunks(tags[1..])
  }

  function Concat(xs: seq<string>): string
    decreases |xs|
  {
    if |xs| == 0 then "" else xs[0] + Concat(xs[1..])
  }

  /**
   * The buckets after classifying the given texts one after another, or
   * `None` where postcss rejects one of them (the parse throws).
   */
  function Harvest(s: Selectors, chunks: seq<string>, parse: string -> Option<seq<Node>>,
                   ampTags: set<string>): Option<Selectors>
    decreases |chunks|
  {
    if |chunks| == 0 then Some(s)
    else
      var s1 := s.(joinedRawCss := s.joinedRawCss + chunks[0]);
      match parse(chunks[0])
      case None => None
      case Some(root) => Harvest(ApplyAll(s1, WalkEvents(root, false), ampTags), chunks[1..], parse, ampTags)
  }

  lemma {:induction false} HarvestAppend(s: Selectors, a: seq<string>, b: seq<string>,
                                         parse: string -> Option<seq<Node>>, ampTags: set<string>)
    ensures Harvest(s, a + b, parse, ampTags)
            == (match Harvest(s, a, parse, ampTags)
                case None => None
                case Some(t) => Harvest(t, b, parse, ampTags))
    decreases |a|
  {
    if |a| > 0 {
      assert (a + b)[0] == a[0] && (a + b)[1..] == a[1..] + b;
      var s1 := s.(joinedRawCss := s.joinedRawCss + a[0]);
      match parse(a[0])
      case None =>
      case Some(root) =>
        HarvestAppend(ApplyAll(s1, WalkEvents(root, false), ampTags), a[1..], b, parse, ampTags);
    } else {
      assert a + b == b;
    }
  }

  lemma {:induction false} ApplyAllKeepsText(s: Selectors, es: seq<Event>, ampTags: set<string>)
    ensures ApplyAll(s, es, ampTags).joinedRawCss == s.joinedRawCss
    decreases |es|
  {
    if |es| > 0 {
      ApplyAllKeepsText(Apply(s, es[0], ampTags), es[1..], ampTags);
    }
  }

  /**
   * When every text parses, the collected CSS text is the in-order
   * concatenation of the texts, and the buckets stay well formed.
   */
  lemma {:induction false} HarvestText(s: Selectors, chunks: seq<string>,
                                       parse: string -> Option<seq<Node>>, ampTags: set<string>)
    ensures Harvest(s, chunks, parse, ampTags).Some? <==>
              forall i :: 0 <= i < |chunks| ==> parse(chunks[i]).Some?
    ensures Harvest(s, chunks, parse, ampTags).Some? ==>
              Harvest(s, chunks, parse, ampTags).value.joinedRawCss == s.joinedRawCss + Concat(chunks)
    ensures Harvest(s, chunks, parse, ampTags).Some? && WellFormed(s) ==>
              WellFormed(Harvest(s, chunks, parse, ampTags).value)
    decreases |chunks|
  {
    if |chunks| > 0 {
      var s1 := s.(joinedRawCss := s.joinedRawCss + chunks[0]);
      match parse(chunks[0])
      case None =>
      case Some(root) =>
        var s2 := ApplyAll(s1, WalkEvents(root, false), ampTags);
        ApplyAllKeepsText(s1, WalkEvents(root, false), ampTags);
        if WellFormed(s) {
          assert WellFormed(s1);
          ApplyAllWellFormed(s1, WalkEvents(root, false), ampTags);
        }
        HarvestText(s2, chunks[1..], parse, ampTags);
        assert s1.joinedRawCss + Concat(chunks[1..]) == s.joinedRawCss + Concat(chunks);
        if forall i :: 0 <= i < |chunks[1..]| ==> parse(chunks[1..][i]).Some? {
          forall i | 0 <= i < |chunks|
            ensures parse(chunks[i]).Some?
          {
            if i > 0 {
              assert chunks[i] == chunks[1..][i - 1];
            }
          }
        } else {
          var i :| 0 <= i < |chunks[1..]| && parse(chunks[1..][i]).None?;
          assert chunks[1..][i] == chunks[i + 1];
        }
    }
  }

  /** The children of one style tag: each non-empty text is appended and classified. */
  method CollectStyleTag(children: seq<TextChild>, cs: CssSelectors, parse: string -> Option<seq<Node>>,
                         ampTags: set<string>) returns (ok: bool)
    modifies cs
    ensures ok <==> Harvest(old(cs.Snapshot()), ChunksOf(children), parse, ampTags).Some?
    ensures ok ==> Harvest(old(cs.Snapshot()), ChunksOf(children), parse, ampTags) == Some(cs.Snapshot())
  {
    var goal := Harvest(cs.Snapshot(), ChunksOf(children), parse, ampTags);
    var c := 0;
    while c < |children|
      invariant 0 <= c <= |children|
      invariant Harvest(cs.Snapshot(), ChunksOf(children[c..]), parse, ampTags) == goal
    {
      var ch := children[c];
      assert children[c..][1..] == children[c + 1..];
      if ch.kind == "text" && ch.data != "" {
        assert ChunksOf(children[c..]) == [ch.data] + ChunksOf(children[c + 1..]);
        cs.joinedRawCss := cs.joinedRawCss + ch.data;
        var root := parse(ch.data);
        if root.None? {
          return false;
        }
        Walk(root.value, false, cs, ampTags);
      } else {
        assert ChunksOf(children[c..]) == ChunksOf(children[c + 1..]);
      }
      c := c + 1;
    }
    assert children[c..] == [];
    return true;
  }

  /** `_getSelectors`: classifies the page's custom style text; `None` where postcss throws. */
  method GetSelectors(dom: StaticDom, parse: string -> Option<seq<Node>>, ampTags: set<string>)
    returns (r: Option<Selectors>)
    ensures r == Harvest(NoSelectors, Chunks(dom.customStyles), parse, ampTags)
  {
    var cs := new CssSelectors();
    var tags := dom.customStyles;
    var goal := Harvest(NoSelectors, Chunks(tags), parse, ampTags);
    var t := 0;
    while t < |tags|
      invariant 0 <= t <= |tags|
      invariant Harvest(cs.Snapshot(), Chunks(tags[t..]), parse, ampTags) == goal
    {
      assert tags[t..][1..] == tags[t + 1..];
      assert Chunks(tags[t..]) == ChunksOf(tags[t].children) + Chunks(tags[t + 1..]);
      HarvestAppend(cs.Snapshot(), ChunksOf(tags[t].children), Chunks(tags[t + 1..]), parse, ampTags);
      var ok := CollectStyleTag(tags[t].children, cs, parse, ampTags);
      if !ok {
        return None;
      }
      t := t + 1;
    }
    return Some(cs.Snapshot());
  }

  /** The result of `extractDomData`: the buckets and the page's exception tags. */
  datatype DomData = DomData(selectors: Selectors, exceptionElementTags: set<string>)

  /**
   * `extractDomData`: when the custom style text parses, the buckets of
   * `_getSelectors`, well formed, with the collected text, together with the
   * page's exception tags; `None` where postcss throws.
   */
  method ExtractDomData(dom: StaticDom, parse: string -> Option<seq<Node>>, ampTags: set<string>)
    returns (r: Option<DomData>)
    ensures r.Some? <==> forall i :: 0 <= i < |Chunks(dom.customStyles)| ==> parse(Chunks(dom.customStyles)[i]).Some?
    ensures r.Some? ==> r.value.exceptionElementTags == dom.exceptionTags
    ensures r.Some? ==> Harvest(NoSelectors, Chunks(dom.customStyles), parse, ampTags).Some?
                        && r.value.selectors == Harvest(NoSelectors, Chunks(dom.customStyles), parse, ampTags).value
    ensures r.Some? ==> r.value.selectors.joinedRawCss == Concat(Chunks(dom.customStyles))
    ensures r.Some? ==> WellFormed(r.value.selectors)
  {
    var selectors := GetSelectors(dom, parse, ampTags);
    HarvestText(NoSelectors, Chunks(dom.customStyles), parse, ampTags);
    if selectors.None? {
      return None;
    }
    r := Some(DomData(selectors.value, dom.exceptionTags));
  }
}
