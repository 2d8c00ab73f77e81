/**
 * The earlier revision of the type-zero optimizer
 * (`typeZeroOptimizations.js`): the same pruning against the static page,
 * with every branch of a comma group counted as it stands, the comma step
 * run after the escaped selectors, and no status written at the end. Its
 * class and id iterators (not called by `optimize`) prefix '.' or '#' to
 * each name, both to count it and to find its rules.
 */
module TypeZeroLegacy {

  import opened Wrappers
  import opened Css
  import opened Dom
  import opened Buckets
  import opened AmpFiles
  import opened Sweeps
  import opened Keyframes
  import opened Commas
  import opened TypeZero

  /** The selectors of a list with `prefix` in front of each. */
  function Prefixed(prefix: string, sels: seq<string>): (r: seq<string>)
  {
    seq(|sels|, i requires 0 <= i < |sels| => prefix + sels[i])
  }

  /**
   * A prefixed iterator fails exactly when the count of some prefixed name
   * throws; otherwise no rule is left whose selector is a prefixed name
   * without an element, and on a flat sheet every other rule stays.
   */
  lemma PrefixedPassSpec(st: Sheet, prefix: string, sels: seq<string>, count: string -> Option<nat>, kind: string)
    ensures Pass(st, SelectorProbes(Prefixed(prefix, sels), count), kind).Some? <==>
              forall i :: 0 <= i < |sels| ==> count(prefix + sels[i]).Some?
    ensures Pass(st, SelectorProbes(Prefixed(prefix, sels), count), kind).Some? ==>
              var r := Pass(st, SelectorProbes(Prefixed(prefix, sels), count), kind).value;
              (forall i :: 0 <= i < |sels| && count(prefix + sels[i]) == Some(0) ==>
                 Matches(r.css, SelectorIs(prefix + sels[i])) == [])
              && (Flat(st.css) ==>
                    RuleList(r.css) == KeepRules(RuleList(st.css), Doomed(SelectorProbes(Prefixed(prefix, sels), count))))
    ensures forall t :: t in Doomed(SelectorProbes(Prefixed(prefix, sels), count)) <==>
              exists i :: 0 <= i < |sels| && t == prefix + sels[i] && count(prefix + sels[i]) == Some(0)
  {
    var ps := Prefixed(prefix, sels);
    assert |ps| == |sels| && forall i :: 0 <= i < |sels| ==> ps[i] == prefix + sels[i];
    SelectorPassSpec(st, ps, count, kind);
    forall t | t in Doomed(SelectorProbes(ps, count))
      ensures exists i :: 0 <= i < |sels| && t == prefix + sels[i] && count(prefix + sels[i]) == Some(0)
    {
      var i :| 0 <= i < |ps| && ps[i] == t && count(ps[i]) == Some(0);
    }
    forall t | exists i :: 0 <= i < |sels| && t == prefix + sels[i] && count(prefix + sels[i]) == Some(0)
      ensures t in Doomed(SelectorProbes(ps, count))
    {
      var i :| 0 <= i < |sels| && t == prefix + sels[i] && count(prefix + sels[i]) == Some(0);
      assert ps[i] == t;
    }
  }

  /** `_removeUnusedClassSelectors`: the class iterator over a list of class names. */
  method RemoveUnusedClassSelectors(af: AmpFile, classSelectors: seq<string>, count: string -> Option<nat>)
    returns (ok: bool)
    modifies af`parsedCss, af`selectorsRemoved
    ensures ok == Pass(old(af.Styles()), SelectorProbes(Prefixed(".", classSelectors), count), "classSelectors").Some?
    ensures ok ==> af.Styles() == Pass(old(af.Styles()), SelectorProbes(Prefixed(".", classSelectors), count),
                                       "classSelectors").value
  {
    ok := SelectorIterator(af, "classSelectors", Prefixed(".", classSelectors), count);
  }

  /** `_removeUnusedIdSelectors`: the id iterator over a list of ids. */
  method RemoveUnusedIdSelectors(af: AmpFile, idSelectors: seq<string>, count: string -> Option<nat>)
    returns (ok: bool)
    modifies af`parsedCss, af`selectorsRemoved
    ensures ok == Pass(old(af.Styles()), SelectorProbes(Prefixed("#", idSelectors), count), "idSelectors").Some?
    ensures ok ==> af.Styles() == Pass(old(af.Styles()), SelectorProbes(Prefixed("#", idSelectors), count),
                                       "idSelectors").value
  {
    ok := SelectorIterator(af, "idSelectors", Prefixed("#", idSelectors), count);
  }

  // ---------------------------------------------------------------------------
  // Comma groups, every branch counted

  /** The group is used when it already was or any branch counts more than zero; `None` where a count throws. */
  function LegacyVerdict(e: CommaEntry, count: string -> Option<nat>): Option<bool> {
    AnyFrom(e.selectorsList, count, e.isUsed)
  }

  /**
   * Every branch is counted, so the verdict throws exactly when some
   * branch's count throws, and otherwise the group is used exactly when it
   * already was or some branch, as written, matches an element.
   */
  lemma LegacyVerdictSpec(e: CommaEntry, count: string -> Option<nat>)
    ensures LegacyVerdict(e, count).Some? <==>
              forall i :: 0 <= i < |e.selectorsList| ==> count(e.selectorsList[i]).Some?
    ensures LegacyVerdict(e, count).Some? ==>
              (LegacyVerdict(e, count).value <==>
                 e.isUsed || exists i :: 0 <= i < |e.selectorsList| && count(e.selectorsList[i]).Some?
                                                                    && count(e.selectorsList[i]).value > 0)
  {
    AnyFromSpec(e.selectorsList, count, e.isUsed);
  }

  /**
   * A group of a set-aside branch that only its base finds on the page and
   * a plain branch that matches nothing: counted as written, the earlier
   * revision drops a group the later one keeps.
   */
  lemma PseudoBranchJudgedDifferently(p: string, q: string, count: string -> Option<nat>)
    requires Deferred(p) && !Deferred(q)
    requires count(p) == Some(0) && count(q) == Some(0) && count(Lookup(p)).Some? && count(Lookup(p)).value > 0
    ensures LegacyVerdict(CommaEntry(p + "," + q, [p, q], false), count) == Some(false)
    ensures CommaVerdict(CommaEntry(p + "," + q, [p, q], false), count) == Some(true)
  {
    var e := CommaEntry(p + "," + q, [p, q], false);
    var l := Lookup(p);
    assert e.selectorsList[1..] == [q] && [q][1..] == [] && [l][1..] == [];
    assert [] + [l] == [l];
    assert Screen([q], count, Screening(false, [l])) == Some(Screening(false, [l]));
    assert Screen(e.selectorsList, count, Screening(false, [])) == Some(Screening(false, [l]));
    assert AnyFrom([l], count, false) == Some(true);
    assert AnyFrom([q], count, false) == Some(false);
    assert AnyFrom(e.selectorsList, count, false) == Some(false);
  }

  /** The verdicts on all groups. */
  function LegacyVerdicts(es: seq<CommaEntry>, count: string -> Option<nat>): (vs: seq<Option<bool>>)
  {
    seq(|es|, k requires 0 <= k < |es| => LegacyVerdict(es[k], count))
  }

  /** The verdicts on all groups, each by the loop over its branches. */
  method JudgeGroupsUniformly(es: seq<CommaEntry>, count: string -> Option<nat>) returns (vs: seq<Option<bool>>)
    ensures vs == LegacyVerdicts(es, count)
  {
    vs := [];
    var i := 0;
    while i < |es|
      invariant 0 <= i <= |es| && |vs| == i
      invariant forall k :: 0 <= k < i ==> vs[k] == LegacyVerdict(es[k], count)
    {
      var ok, used := AnyOnPage(es[i].selectorsList, count, es[i].isUsed);
      vs := vs + [if ok then Some(used) else None];
      i := i + 1;
    }
  }

  /** `_handleCommaSeparatedSelectors` of the earlier revision. */
  method HandleCommaSeparatedSelectors(af: AmpFile, count: string -> Option<nat>) returns (ok: bool)
    modifies af`parsedCss, af`selectorsRemoved, af`commaSeparatedSelectors
    ensures ok == CommaFrom(old(af.Styles()), old(af.commaSeparatedSelectors),
                            LegacyVerdicts(old(af.commaSeparatedSelectors), count), 0, true).Some?
    ensures ok ==> CommaFrom(old(af.Styles()), old(af.commaSeparatedSelectors),
                             LegacyVerdicts(old(af.commaSeparatedSelectors), count), 0, true)
                   == Some(CommaOutcome(af.Styles(), af.commaSeparatedSelectors))
  {
    var vs := JudgeGroupsUniformly(af.commaSeparatedSelectors, count);
    ok := CommaLoop(af, vs, true);
  }

  // ---------------------------------------------------------------------------
  // optimize

  /** The guarded steps of the earlier revision: general, pseudo, escaped, comma groups, keyframes. */
  function LegacyGuarded(st: Sheet, f: Selectors, dom: StaticDom): Option<Pruned> {
    var count := dom.count;
    match Pass(st, SelectorProbes(f.general, count), "general")
    case None => None
    case Some(s3) =>
      match Pass(s3, PseudoProbes(f.pseudos, count), "pseudos")
      case None => None
      case Some(s4) =>
        match Pass(s4, EscapedProbes(f.escapedPseudos, dom.elements), "escapedPseudos")
        case None => None
        case Some(s5) =>
          match CommaFrom(s5, f.commaSeparatedSelectors, LegacyVerdicts(f.commaSeparatedSelectors, count), 0, true)
          case None => None
          case Some(c) =>
            match KeyframesFrom(c.sheet, f.keyFrames, 0)
            case None => None
            case Some(k) => Some(Pruned(k.sheet, c.entries, k.frames))
  }

  /** One run of the earlier revision: empty rules and amp-element selectors, then the guarded steps. */
  function LegacyOptimize(st: Sheet, f: Selectors, dom: StaticDom, exceptions: bool): Option<Pruned> {
    var s1 := Sweep(st, EmptyRule, EmptyKind);
    match Pass(s1, SelectorProbes(f.ampElementSelectors, dom.count), "ampElementSelectors")
    case None => None
    case Some(s2) =>
      if exceptions then Some(Pruned(s2, f.commaSeparatedSelectors, f.keyFrames))
      else LegacyGuarded(s2, f, dom)
  }

  /** The guarded steps on the record. */
  method GuardedSteps(af: AmpFile, dom: StaticDom) returns (ok: bool)
    modifies af`parsedCss, af`selectorsRemoved, af`commaSeparatedSelectors, af`keyFrames
    ensures ok == LegacyGuarded(old(af.Styles()), old(af.Fields()), dom).Some?
    ensures ok ==> LegacyGuarded(old(af.Styles()), old(af.Fields()), dom)
                   == Some(Pruned(af.Styles(), af.commaSeparatedSelectors, af.keyFrames))
  {
    ghost var f := af.Fields();
    ok := SelectorIterator(af, "general", af.general, dom.count);
    if !ok {
      return;
    }
    ok := PseudoIterator(af, "pseudos", af.pseudos, dom.count);
    if !ok {
      return;
    }
    EscapedIterator(af, "escapedPseudos", af.escapedPseudos, dom.elements);
    ok := HandleCommaSeparatedSelectors(af, dom.count);
    if !ok {
      return;
    }
    ghost var c := CommaOutcome(af.Styles(), af.commaSeparatedSelectors);
    ok := RemoveUnusedKeyframesAsWritten(af);
    assert ok ==> KeyframesFrom(c.sheet, f.keyFrames, 0) == Some(Outcome(af.Styles(), af.keyFrames));
  }

  /** `optimize` of the earlier revision: the record comes back pruned and with no status added. */
  method Optimize(af: AmpFile) returns (ok: bool)
    requires af.staticDom.Some?
    modifies af`parsedCss, af`selectorsRemoved, af`commaSeparatedSelectors, af`keyFrames
    ensures ok == LegacyOptimize(old(af.Styles()), old(af.Fields()), af.staticDom.value, old(af.HasExceptionTags())).Some?
    ensures ok ==> LegacyOptimize(old(af.Styles()), old(af.Fields()), af.staticDom.value, old(af.HasExceptionTags()))
                   == Some(Pruned(af.Styles(), af.commaSeparatedSelectors, af.keyFrames))
  {
    var dom := af.staticDom.value;
    ghost var f := af.Fields();
    ghost var s1 := Sweep(af.Styles(), EmptyRule, EmptyKind);
    RemoveEmptySelectors(af);
    assert af.Styles() == s1 && af.Fields() == f;
    ok := SelectorIterator(af, "ampElementSelectors", af.ampElementSelectors, dom.count);
    ghost var p := Pass(s1, SelectorProbes(f.ampElementSelectors, dom.count), "ampElementSelectors");
    if !ok {
      assert p.None?;
      return;
    }
    assert af.Styles() == p.value && af.Fields() == f;
    if !af.HasExceptionTags() {
      ok := GuardedSteps(af, dom);
    }
  }

  // ---------------------------------------------------------------------------
  // What a run promises

  /**
   * What the guarded steps of the earlier revision promise: every general
   * selector, pseudo base and comma branch was counted, and after them no
   * rule is left of a general selector without an element, of a pseudo
   * selector whose base has none, of an escaped selector whose class name
   * is no element's whole class attribute or id, or of a comma group none
   * of whose branches, as written, is on the page; each group's flag says
   * whether it was used, and no block is left of a keyframes name the last
   * step did not mark.
   */
  lemma LegacyGuardedSpec(st: Sheet, f: Selectors, dom: StaticDom)
    requires LegacyGuarded(st, f, dom).Some?
    ensures var count := dom.count;
            var r := LegacyGuarded(st, f, dom).value;
            var es := f.commaSeparatedSelectors;
            (forall i :: 0 <= i < |f.general| ==> count(f.general[i]).Some?)
            && (forall i :: 0 <= i < |f.pseudos| ==> count(f.pseudos[i].base).Some?)
            && (forall k, i :: 0 <= k < |es| && 0 <= i < |es[k].selectorsList| ==> count(es[k].selectorsList[i]).Some?)
            && (forall i :: 0 <= i < |f.general| && count(f.general[i]) == Some(0) ==>
                  Matches(r.sheet.css, SelectorIs(f.general[i])) == [])
            && (forall i :: 0 <= i < |f.pseudos| && count(f.pseudos[i].base) == Some(0) ==>
                  Matches(r.sheet.css, SelectorIs(f.pseudos[i].base + f.pseudos[i].modifier)) == [])
            && (forall i :: 0 <= i < |f.escapedPseudos| && !AnyNamed(dom.elements, Unescape(f.escapedPseudos[i])) ==>
                  Matches(r.sheet.css, SelectorIs(f.escapedPseudos[i])) == [])
            && |r.commas| == |es|
            && (forall k :: 0 <= k < |es| ==>
                  r.commas[k].selectorStr == es[k].selectorStr
                  && r.commas[k].selectorsList == es[k].selectorsList
                  && (r.commas[k].isUsed <==>
                        es[k].isUsed || exists i :: 0 <= i < |es[k].selectorsList| && count(es[k].selectorsList[i]).value > 0))
            && (forall k :: 0 <= k < |es| && !r.commas[k].isUsed ==>
                  Matches(r.sheet.css, SelectorIs(es[k].selectorStr)) == [])
  {
    LegacySheetSpec(st, f, dom);
    LegacyCommaSpec(st, f, dom);
    LegacyKeyframesSpec(st, f, dom);
  }

  /** The keyframes half of `LegacyGuardedSpec`: every entry keeps its name, and an unmarked one has no block left. */
  lemma LegacyKeyframesSpec(st: Sheet, f: Selectors, dom: StaticDom)
    requires LegacyGuarded(st, f, dom).Some?
    ensures var r := LegacyGuarded(st, f, dom).value;
            var ks := f.keyFrames;
            |r.frames| == |ks|
            && (forall k :: 0 <= k < |ks| ==> r.frames[k].ruleName == ks[k].ruleName && (ks[k].isUsed ==> r.frames[k].isUsed))
            && (forall k :: 0 <= k < |ks| && !r.frames[k].isUsed ==>
                  Matches(r.sheet.css, KeyframesNamed([ks[k].ruleName])) == [])
  {
    var count := dom.count;
    var es := f.commaSeparatedSelectors;
    var s3 := Pass(st, SelectorProbes(f.general, count), "general").value;
    var s4 := Pass(s3, PseudoProbes(f.pseudos, count), "pseudos").value;
    var s5 := Pass(s4, EscapedProbes(f.escapedPseudos, dom.elements), "escapedPseudos").value;
    var c := CommaFrom(s5, es, LegacyVerdicts(es, count), 0, true).value;
    var kf := KeyframesFrom(c.sheet, f.keyFrames, 0).value;
    assert LegacyGuarded(st, f, dom).value == Pruned(kf.sheet, c.entries, kf.frames);
    AsWrittenKeyframesSpec(c.sheet, f.keyFrames);
  }

  /** The iterator half of `LegacyGuardedSpec`: what the general, pseudo and escaped iterators leave. */
  lemma LegacySheetSpec(st: Sheet, f: Selectors, dom: StaticDom)
    requires LegacyGuarded(st, f, dom).Some?
    ensures var count := dom.count;
            var r := LegacyGuarded(st, f, dom).value;
            (forall i :: 0 <= i < |f.general| ==> count(f.general[i]).Some?)
            && (forall i :: 0 <= i < |f.pseudos| ==> count(f.pseudos[i].base).Some?)
            && (forall i :: 0 <= i < |f.general| && count(f.general[i]) == Some(0) ==>
                  Matches(r.sheet.css, SelectorIs(f.general[i])) == [])
            && (forall i :: 0 <= i < |f.pseudos| && count(f.pseudos[i].base) == Some(0) ==>
                  Matches(r.sheet.css, SelectorIs(f.pseudos[i].base + f.pseudos[i].modifier)) == [])
            && (forall i :: 0 <= i < |f.escapedPseudos| && !AnyNamed(dom.elements, Unescape(f.escapedPseudos[i])) ==>
                  Matches(r.sheet.css, SelectorIs(f.escapedPseudos[i])) == [])
  {
    var count := dom.count;
    var es := f.commaSeparatedSelectors;
    var gs := SelectorProbes(f.general, count);
    var s3 := Pass(st, gs, "general").value;
    var ps := PseudoProbes(f.pseudos, count);
    var s4 := Pass(s3, ps, "pseudos").value;
    var xs := EscapedProbes(f.escapedPseudos, dom.elements);
    var s5 := Pass(s4, xs, "escapedPseudos").value;
    var vs := LegacyVerdicts(es, count);
    var c := CommaFrom(s5, es, vs, 0, true).value;
    var kf := KeyframesFrom(c.sheet, f.keyFrames, 0).value;
    assert LegacyGuarded(st, f, dom).value.sheet == kf.sheet;
    SelectorPassSpec(st, f.general, count, "general");
    PseudoPassSpec(s3, f.pseudos, count, "pseudos");
    EscapedPassSpec(s4, f.escapedPseudos, dom.elements, "escapedPseudos");
    forall t | Matches(s3.css, SelectorIs(t)) == []
      ensures Matches(s4.css, SelectorIs(t)) == []
    {
      PassKeepsAbsence(s3, ps, "pseudos", t);
    }
    forall t | Matches(s4.css, SelectorIs(t)) == []
      ensures Matches(s5.css, SelectorIs(t)) == []
    {
      PassKeepsAbsence(s4, xs, "escapedPseudos", t);
    }
    forall t | Matches(s5.css, SelectorIs(t)) == []
      ensures Matches(c.sheet.css, SelectorIs(t)) == []
    {
      CommaKeepsAbsence(s5, es, vs, 0, true, t);
    }
    forall t | Matches(c.sheet.css, SelectorIs(t)) == []
      ensures Matches(kf.sheet.css, SelectorIs(t)) == []
    {
      KeyframesFromKeepsAbsence(c.sheet, f.keyFrames, 0, SelectorIs(t));
    }
  }

  /** The comma half of `LegacyGuardedSpec`: every branch was counted and each group's flag and rules. */
  lemma LegacyCommaSpec(st: Sheet, f: Selectors, dom: StaticDom)
    requires LegacyGuarded(st, f, dom).Some?
    ensures var count := dom.count;
            var r := LegacyGuarded(st, f, dom).value;
            var es := f.commaSeparatedSelectors;
            (forall k, i :: 0 <= k < |es| && 0 <= i < |es[k].selectorsList| ==> count(es[k].selectorsList[i]).Some?)
            && |r.commas| == |es|
            && (forall k :: 0 <= k < |es| ==>
                  r.commas[k].selectorStr == es[k].selectorStr
                  && r.commas[k].selectorsList == es[k].selectorsList
                  && (r.commas[k].isUsed <==>
                        es[k].isUsed || exists i :: 0 <= i < |es[k].selectorsList| && count(es[k].selectorsList[i]).value > 0))
            && (forall k :: 0 <= k < |es| && !r.commas[k].isUsed ==>
                  Matches(r.sheet.css, SelectorIs(es[k].selectorStr)) == [])
  {
    var count := dom.count;
    var es := f.commaSeparatedSelectors;
    var s3 := Pass(st, SelectorProbes(f.general, count), "general").value;
    var s4 := Pass(s3, PseudoProbes(f.pseudos, count), "pseudos").value;
    var s5 := Pass(s4, EscapedProbes(f.escapedPseudos, dom.elements), "escapedPseudos").value;
    var vs := LegacyVerdicts(es, count);
    var c := CommaFrom(s5, es, vs, 0, true).value;
    var kf := KeyframesFrom(c.sheet, f.keyFrames, 0).value;
    assert LegacyGuarded(st, f, dom).value == Pruned(kf.sheet, c.entries, kf.frames);
    CommaFromSpec(s5, es, vs, 0, true);
    forall k | 0 <= k < |es|
      ensures vs[k].Some?
      ensures forall i :: 0 <= i < |es[k].selectorsList| ==> count(es[k].selectorsList[i]).Some?
      ensures vs[k].value <==> es[k].isUsed || exists i :: 0 <= i < |es[k].selectorsList| && count(es[k].selectorsList[i]).value > 0
    {
      LegacyVerdictSpec(es[k], count);
    }
    forall t | Matches(c.sheet.css, SelectorIs(t)) == []
      ensures Matches(kf.sheet.css, SelectorIs(t)) == []
    {
      KeyframesFromKeepsAbsence(c.sheet, f.keyFrames, 0, SelectorIs(t));
    }
  }

  /**
   * What a run of the earlier revision promises: every amp-element selector
   * was counted and none without an element keeps a rule; with exception
   * tags the comma and keyframe entries are left as they were, and without
   * them the guarded steps' promises hold of the result.
   */
  lemma LegacyOptimizeSpec(st: Sheet, f: Selectors, dom: StaticDom, exceptions: bool)
    requires LegacyOptimize(st, f, dom, exceptions).Some?
    ensures var r := LegacyOptimize(st, f, dom, exceptions).value;
            var amp := f.ampElementSelectors;
            (forall i :: 0 <= i < |amp| ==> dom.count(amp[i]).Some?)
            && (forall i :: 0 <= i < |amp| && dom.count(amp[i]) == Some(0) ==>
                  Matches(r.sheet.css, SelectorIs(amp[i])) == [])
            && (exceptions ==> r.commas == f.commaSeparatedSelectors && r.frames == f.keyFrames)
            && (!exceptions ==> r == LegacyGuarded(Pass(Sweep(st, EmptyRule, EmptyKind),
                                                        SelectorProbes(amp, dom.count), "ampElementSelectors").value,
                                                   f, dom).value)
  {
    var s1 := Sweep(st, EmptyRule, EmptyKind);
    var amp := f.ampElementSelectors;
    SelectorPassSpec(s1, amp, dom.count, "ampElementSelectors");
    var s2 := Pass(s1, SelectorProbes(amp, dom.count), "ampElementSelectors").value;
    if !exceptions {
      forall t | Matches(s2.css, SelectorIs(t)) == []
        ensures Matches(LegacyGuarded(s2, f, dom).value.sheet.css, SelectorIs(t)) == []
      {
        LegacyKeepsAbsence(s2, f, dom, t);
      }
    }
  }

  /** A selector text with no rules left gets none back from the guarded steps. */
  lemma LegacyKeepsAbsence(st: Sheet, f: Selectors, dom: StaticDom, t: string)
    requires Matches(st.css, SelectorIs(t)) == []
    requires LegacyGuarded(st, f, dom).Some?
    ensures Matches(LegacyGuarded(st, f, dom).value.sheet.css, SelectorIs(t)) == []
  {
    var count := dom.count;
    var es := f.commaSeparatedSelectors;
    var s3 := Pass(st, SelectorProbes(f.general, count), "general").value;
    PassKeepsAbsence(st, SelectorProbes(f.general, count), "general", t);
    var s4 := Pass(s3, PseudoProbes(f.pseudos, count), "pseudos").value;
    PassKeepsAbsence(s3, PseudoProbes(f.pseudos, count), "pseudos", t);
    var s5 := Pass(s4, EscapedProbes(f.escapedPseudos, dom.elements), "escapedPseudos").value;
    PassKeepsAbsence(s4, EscapedProbes(f.escapedPseudos, dom.elements), "escapedPseudos", t);
    var c := CommaFrom(s5, es, LegacyVerdicts(es, count), 0, true).value;
    CommaKeepsAbsence(s5, es, LegacyVerdicts(es, count), 0, true, t);
    KeyframesFromKeepsAbsence(c.sheet, f.keyFrames, 0, SelectorIs(t));
  }
}
