/**
 * The type-zero optimizer (`type-zero-optimizations.js`): pruning against
 * the static page only. A comma group is screened branch by branch until
 * one branch is found on the page; branches with a pseudo part are set
 * aside and, only if no plain branch matched, looked up by their base.
 */
module TypeZero {

  import opened Wrappers
  import opened Css
  import opened Dom
  import opened Buckets
  import opened AmpFiles
  import opened DomParser
  import opened Sweeps
  import opened Keyframes
  import opened Commas

  // ---------------------------------------------------------------------------
  // The verdict on one comma group

  /** A branch the first screening sets aside: it has a pseudo part or an escaped colon. */
  predicate Deferred(sel: string) {
    HasPseudo(sel) || HasEscapedPseudo(sel)
  }

  /** The selector a branch is looked up by: its base when set aside, itself otherwise. */
  function Lookup(sel: string): string {
    if Deferred(sel) then SplitPseudo(sel).base else sel
  }

  /** The page has an element for the branch. */
  predicate Live(sel: string, count: string -> Option<nat>) {
    count(Lookup(sel)).Some? && count(Lookup(sel)).value > 0
  }

  /** The state of the first loop: the group's `isUsed` flag and the bases set aside. */
  datatype Screening = Screening(used: bool, deferred: seq<string>)

  /**
   * The first loop from a given state: once the group is used nothing more
   * is asked; a set-aside branch adds its base; a plain branch is counted
   * (`None` where the count throws).
   */
  function Screen(sels: seq<string>, count: string -> Option<nat>, acc: Screening): Option<Screening>
    decreases |sels|
  {
    if |sels| == 0 then Some(acc)
    else if acc.used then Screen(sels[1..], count, acc)
    else if Deferred(sels[0]) then Screen(sels[1..], count, acc.(deferred := acc.deferred + [Lookup(sels[0])]))
    else match count(sels[0])
      case None => None
      case Some(n) => Screen(sels[1..], count, acc.(used := n > 0))
  }

  /** The loop over the set-aside bases: every base is counted, and any match marks the group used. */
  function AnyFrom(bases: seq<string>, count: string -> Option<nat>, used: bool): Option<bool>
    decreases |bases|
  {
    if |bases| == 0 then Some(used)
    else match count(bases[0])
      case None => None
      case Some(n) => AnyFrom(bases[1..], count, used || n > 0)
  }

  /** Whether the group is used after both loops, `None` where a count throws. */
  function CommaVerdict(e: CommaEntry, count: string -> Option<nat>): Option<bool> {
    match Screen(e.selectorsList, count, Screening(e.isUsed, []))
    case None => None
    case Some(s) => if s.used then Some(true) else AnyFrom(s.deferred, count, false)
  }

  /**
   * The first loop: a group already used stays so; otherwise it throws only
   * on a plain branch whose count throws, and never when none does; it ends
   * used exactly when some plain branch is on the page, and when it does
   * not, it has set aside exactly the bases of the other branches.
   */
  lemma {:induction false} ScreenSpec(sels: seq<string>, count: string -> Option<nat>, acc: Screening)
    ensures acc.used ==> Screen(sels, count, acc) == Some(acc)
    ensures Screen(sels, count, acc).None? ==>
              exists i :: 0 <= i < |sels| && !Deferred(sels[i]) && count(sels[i]).None?
    ensures (forall i :: 0 <= i < |sels| && !Deferred(sels[i]) ==> count(sels[i]).Some?) ==>
              Screen(sels, count, acc).Some?
    ensures Screen(sels, count, acc).Some? && !acc.used ==>
              var s := Screen(sels, count, acc).value;
              (s.used <==> exists i :: 0 <= i < |sels| && !Deferred(sels[i]) && Live(sels[i], count))
              && (!s.used ==> forall b :: b in s.deferred <==>
                    b in acc.deferred || exists i :: 0 <= i < |sels| && Deferred(sels[i]) && Lookup(sels[i]) == b)
    decreases |sels|
  {
    if |sels| > 0 {
      var rest := sels[1..];
      assert forall i :: 1 <= i < |sels| ==> sels[i] == rest[i - 1];
      if acc.used {
        ScreenSpec(rest, count, acc);
      } else if Deferred(sels[0]) {
        var acc' := acc.(deferred := acc.deferred + [Lookup(sels[0])]);
        ScreenSpec(rest, count, acc');
        if Screen(sels, count, acc).None? {
          var i :| 0 <= i < |rest| && !Deferred(rest[i]) && count(rest[i]).None?;
          assert sels[i + 1] == rest[i];
        }
        if Screen(sels, count, acc).Some? {
          var s := Screen(sels, count, acc).value;
          if s.used {
            var i :| 0 <= i < |rest| && !Deferred(rest[i]) && Live(rest[i], count);
            assert sels[i + 1] == rest[i];
          }
        }
      } else {
        match count(sels[0])
        case None =>
        case Some(n) =>
          var acc' := acc.(used := n > 0);
          ScreenSpec(rest, count, acc');
          if Screen(sels, count, acc).None? {
            var i :| 0 <= i < |rest| && !Deferred(rest[i]) && count(rest[i]).None?;
            assert sels[i + 1] == rest[i];
          }
          if Screen(sels, count, acc).Some? && n == 0 {
            var s := Screen(sels, count, acc).value;
            if s.used {
              var i :| 0 <= i < |rest| && !Deferred(rest[i]) && Live(rest[i], count);
              assert sels[i + 1] == rest[i];
            }
          }
      }
    }
  }

  /** The second loop throws exactly when some base's count does, and marks used exactly when some base is on the page. */
  lemma {:induction false} AnyFromSpec(bases: seq<string>, count: string -> Option<nat>, used: bool)
    ensures AnyFrom(bases, count, used).Some? <==> forall j :: 0 <= j < |bases| ==> count(bases[j]).Some?
    ensures AnyFrom(bases, count, used).Some? ==>
              (AnyFrom(bases, count, used).value <==>
                 used || exists j :: 0 <= j < |bases| && count(bases[j]).Some? && count(bases[j]).value > 0)
    decreases |bases|
  {
    if |bases| > 0 {
      var rest := bases[1..];
      assert forall j :: 1 <= j < |bases| ==> bases[j] == rest[j - 1];
      if count(bases[0]).Some? {
        AnyFromSpec(rest, count, used || count(bases[0]).value > 0);
        if AnyFrom(bases, count, used).Some? && AnyFrom(bases, count, used).value && !used
           && count(bases[0]).value == 0 {
          var j :| 0 <= j < |rest| && count(rest[j]).Some? && count(rest[j]).value > 0;
          assert bases[j + 1] == rest[j];
        }
      }
    }
  }

  /**
   * What the two loops decide: a group already used stays used; otherwise it
   * is used exactly when some branch is on the page, a branch with a pseudo
   * part by its base and any other by itself. It never throws when every
   * lookup answers, and throws only when some lookup throws.
   */
  lemma CommaVerdictSpec(e: CommaEntry, count: string -> Option<nat>)
    ensures e.isUsed ==> CommaVerdict(e, count) == Some(true)
    ensures CommaVerdict(e, count).Some? ==>
              (CommaVerdict(e, count).value <==>
                 e.isUsed || exists i :: 0 <= i < |e.selectorsList| && Live(e.selectorsList[i], count))
    ensures (forall i :: 0 <= i < |e.selectorsList| ==> count(Lookup(e.selectorsList[i])).Some?) ==>
              CommaVerdict(e, count).Some?
    ensures CommaVerdict(e, count).None? ==>
              exists i :: 0 <= i < |e.selectorsList| && count(Lookup(e.selectorsList[i])).None?
  {
    var sels := e.selectorsList;
    var acc := Screening(e.isUsed, []);
    ScreenSpec(sels, count, acc);
    if !e.isUsed && Screen(sels, count, acc).Some? {
      var s := Screen(sels, count, acc).value;
      if !s.used {
        AnyFromSpec(s.deferred, count, false);
        if AnyFrom(s.deferred, count, false).None? {
          var j :| 0 <= j < |s.deferred| && count(s.deferred[j]).None?;
          assert s.deferred[j] in s.deferred;
          var i :| 0 <= i < |sels| && Deferred(sels[i]) && Lookup(sels[i]) == s.deferred[j];
        }
        if AnyFrom(s.deferred, count, false).Some? && AnyFrom(s.deferred, count, false).value {
          var j :| 0 <= j < |s.deferred| && count(s.deferred[j]).Some? && count(s.deferred[j]).value > 0;
          assert s.deferred[j] in s.deferred;
          var i :| 0 <= i < |sels| && Deferred(sels[i]) && Lookup(sels[i]) == s.deferred[j];
          assert Live(sels[i], count);
        }
        if exists i :: 0 <= i < |sels| && Live(sels[i], count) {
          var i :| 0 <= i < |sels| && Live(sels[i], count);
          assert Deferred(sels[i]);
          assert Lookup(sels[i]) in s.deferred;
          var j :| 0 <= j < |s.deferred| && s.deferred[j] == Lookup(sels[i]);
        }
        if forall i :: 0 <= i < |sels| ==> count(Lookup(sels[i])).Some? {
          forall j | 0 <= j < |s.deferred|
            ensures count(s.deferred[j]).Some?
          {
            assert s.deferred[j] in s.deferred;
          }
        }
      }
    }
  }

  /** The first loop over a group's branches. */
  method ScreenBranches(sels: seq<string>, count: string -> Option<nat>, isUsed: bool)
    returns (ok: bool, used: bool, deferred: seq<string>)
    ensures ok == Screen(sels, count, Screening(isUsed, [])).Some?
    ensures ok ==> Screen(sels, count, Screening(isUsed, [])) == Some(Screening(used, deferred))
  {
    used, deferred := isUsed, [];
    var j := 0;
    while j < |sels|
      invariant 0 <= j <= |sels|
      invariant Screen(sels, count, Screening(isUsed, [])) == Screen(sels[j..], count, Screening(used, deferred))
    {
      assert sels[j..][0] == sels[j] && sels[j..][1..] == sels[j + 1..];
      if !used {
        if Deferred(sels[j]) {
          deferred := deferred + [SplitPseudo(sels[j]).base];
        } else {
          var c := count(sels[j]);
          if c.None? {
            return false, used, deferred;
          }
          if c.value > 0 {
            used := true;
          }
        }
      }
      j := j + 1;
    }
    assert sels[j..] == [];
    return true, used, deferred;
  }

  /** A loop counting every selector of a list, starting from flag `used`: any match sets it. */
  method AnyOnPage(xs: seq<string>, count: string -> Option<nat>, used0: bool) returns (ok: bool, used: bool)
    ensures ok == AnyFrom(xs, count, used0).Some?
    ensures ok ==> AnyFrom(xs, count, used0) == Some(used)
  {
    used := used0;
    var j := 0;
    while j < |xs|
      invariant 0 <= j <= |xs|
      invariant AnyFrom(xs, count, used0) == AnyFrom(xs[j..], count, used)
    {
      assert xs[j..][0] == xs[j] && xs[j..][1..] == xs[j + 1..];
      var c := count(xs[j]);
      if c.None? {
        return false, used;
      }
      if c.value > 0 {
        used := true;
      }
      j := j + 1;
    }
    assert xs[j..] == [];
    return true, used;
  }

  /** Both loops for one group. */
  method JudgeGroup(e: CommaEntry, count: string -> Option<nat>) returns (v: Option<bool>)
    ensures v == CommaVerdict(e, count)
  {
    var ok, used, deferred := ScreenBranches(e.selectorsList, count, e.isUsed);
    if !ok {
      return None;
    }
    if used {
      return Some(true);
    }
    var ok2, used2 := AnyOnPage(deferred, count, false);
    if !ok2 {
      return None;
    }
    return Some(used2);
  }

  /** The verdicts on all groups. */
  function ZeroVerdicts(es: seq<CommaEntry>, count: string -> Option<nat>): (vs: seq<Option<bool>>)
  {
    seq(|es|, k requires 0 <= k < |es| => CommaVerdict(es[k], count))
  }

  /** The verdicts on all groups, one group at a time. */
  method JudgeGroups(es: seq<CommaEntry>, count: string -> Option<nat>) returns (vs: seq<Option<bool>>)
    ensures vs == ZeroVerdicts(es, count)
  {
    vs := [];
    var i := 0;
    while i < |es|
      invariant 0 <= i <= |es| && |vs| == i
      invariant forall k :: 0 <= k < i ==> vs[k] == CommaVerdict(es[k], count)
    {
      var v := JudgeGroup(es[i], count);
      vs := vs + [v];
      i := i + 1;
    }
  }

  /**
   * `_handleCommaSeparatedSelectors`. The page is not changed by pruning, so
   * the verdicts are asked before the walks rather than between them.
   */
  method HandleCommaSeparatedSelectors(af: AmpFile, count: string -> Option<nat>) returns (ok: bool)
    modifies af`parsedCss, af`selectorsRemoved, af`commaSeparatedSelectors
    ensures ok == CommaFrom(old(af.Styles()), old(af.commaSeparatedSelectors),
                            ZeroVerdicts(old(af.commaSeparatedSelectors), count), 0, true).Some?
    ensures ok ==> CommaFrom(old(af.Styles()), old(af.commaSeparatedSelectors),
                             ZeroVerdicts(old(af.commaSeparatedSelectors), count), 0, true)
                   == Some(CommaOutcome(af.Styles(), af.commaSeparatedSelectors))
  {
    var vs := JudgeGroups(af.commaSeparatedSelectors, count);
    ok := CommaLoop(af, vs, true);
  }

  // ---------------------------------------------------------------------------
  // optimize

  /**
   * The steps run only without exception tags: comma groups, general
   * selectors, pseudo selectors, escaped selectors and keyframes.
   */
  function ZeroGuarded(st: Sheet, f: Selectors, dom: StaticDom): Option<Pruned> {
    var count := dom.count;
    match CommaFrom(st, f.commaSeparatedSelectors, ZeroVerdicts(f.commaSeparatedSelectors, count), 0, true)
    case None => None
    case Some(c) =>
      match Pass(c.sheet, SelectorProbes(f.general, count), "general")
      case None => None
      case Some(s3) =>
        match Pass(s3, PseudoProbes(f.pseudos, count), "pseudos")
        case None => None
        case Some(s4) =>
          match Pass(s4, EscapedProbes(f.escapedPseudos, dom.elements), "escapedPseudos")
          case None => None
          case Some(s5) =>
            match KeyframesFrom(s5, f.keyFrames, 0)
            case None => None
            case Some(k) => Some(Pruned(k.sheet, c.entries, k.frames))
  }

  /**
   * One run: empty rules, then amp-element selectors, then, without
   * exception tags, the guarded steps. `None` where a step throws.
   */
  function ZeroOptimize(st: Sheet, f: Selectors, dom: StaticDom, exceptions: bool): Option<Pruned> {
    var s1 := Sweep(st, EmptyRule, EmptyKind);
    match Pass(s1, SelectorProbes(f.ampElementSelectors, dom.count), "ampElementSelectors")
    case None => None
    case Some(s2) =>
      if exceptions then Some(Pruned(s2, f.commaSeparatedSelectors, f.keyFrames))
      else ZeroGuarded(s2, f, dom)
  }

  /** The guarded steps on the record. */
  method GuardedSteps(af: AmpFile, dom: StaticDom) returns (ok: bool)
    modifies af`parsedCss, af`selectorsRemoved, af`commaSeparatedSelectors, af`keyFrames
    ensures ok == ZeroGuarded(old(af.Styles()), old(af.Fields()), dom).Some?
    ensures ok ==> ZeroGuarded(old(af.Styles()), old(af.Fields()), dom)
                   == Some(Pruned(af.Styles(), af.commaSeparatedSelectors, af.keyFrames))
  {
    ghost var f := af.Fields();
    ok := HandleCommaSeparatedSelectors(af, dom.count);
    if !ok {
      return;
    }
    ghost var c := CommaOutcome(af.Styles(), af.commaSeparatedSelectors);
    ok := SelectorIterator(af, "general", af.general, dom.count);
    if !ok {
      return;
    }
    ok := PseudoIterator(af, "pseudos", af.pseudos, dom.count);
    if !ok {
      return;
    }
    EscapedIterator(af, "escapedPseudos", af.escapedPseudos, dom.elements);
    ghost var s5 := af.Styles();
    assert af.commaSeparatedSelectors == c.entries;
    ok := RemoveUnusedKeyframesAsWritten(af);
    assert ok ==> KeyframesFrom(s5, f.keyFrames, 0) == Some(Outcome(af.Styles(), af.keyFrames));
  }

  /** `optimize`: the run, then the 'optimized' time and optimization level 0. */
  method Optimize(af: AmpFile, now: int) returns (ok: bool)
    requires af.staticDom.Some?
    modifies af`parsedCss, af`selectorsRemoved, af`commaSeparatedSelectors, af`keyFrames, af`status
    ensures ok == ZeroOptimize(old(af.Styles()), old(af.Fields()), af.staticDom.value, old(af.HasExceptionTags())).Some?
    ensures ok ==> ZeroOptimize(old(af.Styles()), old(af.Fields()), af.staticDom.value, old(af.HasExceptionTags()))
                   == Some(Pruned(af.Styles(), af.commaSeparatedSelectors, af.keyFrames))
    ensures ok ==> af.status == old(af.status)["optimized" := now]["optLevel" := 0]
  {
    var dom := af.staticDom.value;
    ghost var f := af.Fields();
    ghost var s1 := Sweep(af.Styles(), EmptyRule, EmptyKind);
    RemoveEmptySelectors(af);
    assert af.Styles() == s1 && af.Fields() == f;
    ok := SelectorIterator(af, "ampElementSelectors", af.ampElementSelectors, dom.count);
    ghost var p := Pass(s1, SelectorProbes(f.ampElementSelectors, dom.count), "ampElementSelectors");
    if !ok {
      assert p.None?;
      return;
    }
    assert af.Styles() == p.value && af.Fields() == f;
    if !af.HasExceptionTags() {
      ok := GuardedSteps(af, dom);
      if !ok {
        return;
      }
    }
    af.SetStatus("optimized", now);
    af.SetStatus("optLevel", 0);
  }

  // ---------------------------------------------------------------------------
  // What a run promises

  /** A selector text with no rules left gets none back from the guarded steps. */
  lemma GuardedKeepsAbsence(st: Sheet, f: Selectors, dom: StaticDom, t: string)
    requires Matches(st.css, SelectorIs(t)) == []
    requires ZeroGuarded(st, f, dom).Some?
    ensures Matches(ZeroGuarded(st, f, dom).value.sheet.css, SelectorIs(t)) == []
  {
    var count := dom.count;
    var es := f.commaSeparatedSelectors;
    var c := CommaFrom(st, es, ZeroVerdicts(es, count), 0, true).value;
    CommaKeepsAbsence(st, es, ZeroVerdicts(es, count), 0, true, t);
    var s3 := Pass(c.sheet, SelectorProbes(f.general, count), "general").value;
    PassKeepsAbsence(c.sheet, SelectorProbes(f.general, count), "general", t);
    var s4 := Pass(s3, PseudoProbes(f.pseudos, count), "pseudos").value;
    PassKeepsAbsence(s3, PseudoProbes(f.pseudos, count), "pseudos", t);
    var s5 := Pass(s4, EscapedProbes(f.escapedPseudos, dom.elements), "escapedPseudos").value;
    PassKeepsAbsence(s4, EscapedProbes(f.escapedPseudos, dom.elements), "escapedPseudos", t);
    KeyframesFromKeepsAbsence(s5, f.keyFrames, 0, SelectorIs(t));
  }

  /**
   * What the guarded steps promise: every general selector and pseudo base
   * was counted, and after them no rule is left of a general selector
   * without an element, of a pseudo selector whose base has none, of an
   * escaped selector whose class name is no element's whole class
   * attribute or id, or of a comma group none of whose branches is on the
   * page; each group's flag says whether it was used, and no block is left
   * of a keyframes name the last step did not mark.
   */
  lemma ZeroGuardedSpec(st: Sheet, f: Selectors, dom: StaticDom)
    requires ZeroGuarded(st, f, dom).Some?
    ensures var count := dom.count;
            var r := ZeroGuarded(st, f, dom).value;
            var es := f.commaSeparatedSelectors;
            (forall i :: 0 <= i < |f.general| ==> count(f.general[i]).Some?)
            && (forall i :: 0 <= i < |f.pseudos| ==> count(f.pseudos[i].base).Some?)
            && (forall i :: 0 <= i < |f.general| && count(f.general[i]) == Some(0) ==>
                  Matches(r.sheet.css, SelectorIs(f.general[i])) == [])
            && (forall i :: 0 <= i < |f.pseudos| && count(f.pseudos[i].base) == Some(0) ==>
                  Matches(r.sheet.css, SelectorIs(f.pseudos[i].base + f.pseudos[i].modifier)) == [])
            && (forall i :: 0 <= i < |f.escapedPseudos| && !AnyNamed(dom.elements, Unescape(f.escapedPseudos[i])) ==>
                  Matches(r.sheet.css, SelectorIs(f.escapedPseudos[i])) == [])
            && |r.commas| == |es|
            && (forall k :: 0 <= k < |es| ==>
                  r.commas[k].selectorStr == es[k].selectorStr
                  && r.commas[k].selectorsList == es[k].selectorsList
                  && (r.commas[k].isUsed <==>
                        es[k].isUsed || exists i :: 0 <= i < |es[k].selectorsList| && Live(es[k].selectorsList[i], count)))
            && (forall k :: 0 <= k < |es| && !r.commas[k].isUsed ==>
                  Matches(r.sheet.css, SelectorIs(es[k].selectorStr)) == [])
  {
    ZeroSheetSpec(st, f, dom);
    ZeroCommaSpec(st, f, dom);
    ZeroKeyframesSpec(st, f, dom);
  }

  /** The keyframes half of `ZeroGuardedSpec`: every entry keeps its name, and an unmarked one has no block left. */
  lemma ZeroKeyframesSpec(st: Sheet, f: Selectors, dom: StaticDom)
    requires ZeroGuarded(st, f, dom).Some?
    ensures var r := ZeroGuarded(st, f, dom).value;
            var ks := f.keyFrames;
            |r.frames| == |ks|
            && (forall k :: 0 <= k < |ks| ==> r.frames[k].ruleName == ks[k].ruleName && (ks[k].isUsed ==> r.frames[k].isUsed))
            && (forall k :: 0 <= k < |ks| && !r.frames[k].isUsed ==>
                  Matches(r.sheet.css, KeyframesNamed([ks[k].ruleName])) == [])
  {
    var count := dom.count;
    var es := f.commaSeparatedSelectors;
    var c := CommaFrom(st, es, ZeroVerdicts(es, count), 0, true).value;
    var s3 := Pass(c.sheet, SelectorProbes(f.general, count), "general").value;
    var s4 := Pass(s3, PseudoProbes(f.pseudos, count), "pseudos").value;
    var s5 := Pass(s4, EscapedProbes(f.escapedPseudos, dom.elements), "escapedPseudos").value;
    var kf := KeyframesFrom(s5, f.keyFrames, 0).value;
    assert ZeroGuarded(st, f, dom).value == Pruned(kf.sheet, c.entries, kf.frames);
    AsWrittenKeyframesSpec(s5, f.keyFrames);
  }

  /** The iterator half of `ZeroGuardedSpec`: what the general, pseudo and escaped iterators leave. */
  lemma ZeroSheetSpec(st: Sheet, f: Selectors, dom: StaticDom)
    requires ZeroGuarded(st, f, dom).Some?
    ensures var count := dom.count;
            var r := ZeroGuarded(st, f, dom).value;
            (forall i :: 0 <= i < |f.general| ==> count(f.general[i]).Some?)
            && (forall i :: 0 <= i < |f.pseudos| ==> count(f.pseudos[i].base).Some?)
            && (forall i :: 0 <= i < |f.general| && count(f.general[i]) == Some(0) ==>
                  Matches(r.sheet.css, SelectorIs(f.general[i])) == [])
            && (forall i :: 0 <= i < |f.pseudos| && count(f.pseudos[i].base) == Some(0) ==>
                  Matches(r.sheet.css, SelectorIs(f.pseudos[i].base + f.pseudos[i].modifier)) == [])
            && (forall i :: 0 <= i < |f.escapedPseudos| && !AnyNamed(dom.elements, Unescape(f.escapedPseudos[i])) ==>
                  Matches(r.sheet.css, SelectorIs(f.escapedPseudos[i])) == [])
  {
    var count := dom.count;
    var es := f.commaSeparatedSelectors;
    var vs := ZeroVerdicts(es, count);
    var c := CommaFrom(st, es, vs, 0, true).value;
    var gs := SelectorProbes(f.general, count);
    var s3 := Pass(c.sheet, gs, "general").value;
    var ps := PseudoProbes(f.pseudos, count);
    var s4 := Pass(s3, ps, "pseudos").value;
    var xs := EscapedProbes(f.escapedPseudos, dom.elements);
    var s5 := Pass(s4, xs, "escapedPseudos").value;
    var kf := KeyframesFrom(s5, f.keyFrames, 0).value;
    assert ZeroGuarded(st, f, dom).value.sheet == kf.sheet;
    SelectorPassSpec(c.sheet, f.general, count, "general");
    PseudoPassSpec(s3, f.pseudos, count, "pseudos");
    EscapedPassSpec(s4, f.escapedPseudos, dom.elements, "escapedPseudos");
    forall t | Matches(s3.css, SelectorIs(t)) == []
      ensures Matches(s4.css, SelectorIs(t)) == []
    {
      PassKeepsAbsence(s3, ps, "pseudos", t);
    }
    forall t | Matches(s4.css, SelectorIs(t)) == []
      ensures Matches(s5.css, SelectorIs(t)) == []
    {
      PassKeepsAbsence(s4, xs, "escapedPseudos", t);
    }
    forall t | Matches(s5.css, SelectorIs(t)) == []
      ensures Matches(kf.sheet.css, SelectorIs(t)) == []
    {
      KeyframesFromKeepsAbsence(s5, f.keyFrames, 0, SelectorIs(t));
    }
  }

  /** The comma half of `ZeroGuardedSpec`: each group's flag, and no rule of an unused group at the end. */
  lemma ZeroCommaSpec(st: Sheet, f: Selectors, dom: StaticDom)
    requires ZeroGuarded(st, f, dom).Some?
    ensures var count := dom.count;
            var r := ZeroGuarded(st, f, dom).value;
            var es := f.commaSeparatedSelectors;
            |r.commas| == |es|
            && (forall k :: 0 <= k < |es| ==>
                  r.commas[k].selectorStr == es[k].selectorStr
                  && r.commas[k].selectorsList == es[k].selectorsList
                  && (r.commas[k].isUsed <==>
                        es[k].isUsed || exists i :: 0 <= i < |es[k].selectorsList| && Live(es[k].selectorsList[i], count)))
            && (forall k :: 0 <= k < |es| && !r.commas[k].isUsed ==>
                  Matches(r.sheet.css, SelectorIs(es[k].selectorStr)) == [])
  {
    var count := dom.count;
    var es := f.commaSeparatedSelectors;
    var vs := ZeroVerdicts(es, count);
    var c := CommaFrom(st, es, vs, 0, true).value;
    var gs := SelectorProbes(f.general, count);
    var s3 := Pass(c.sheet, gs, "general").value;
    var ps := PseudoProbes(f.pseudos, count);
    var s4 := Pass(s3, ps, "pseudos").value;
    var xs := EscapedProbes(f.escapedPseudos, dom.elements);
    var s5 := Pass(s4, xs, "escapedPseudos").value;
    var kf := KeyframesFrom(s5, f.keyFrames, 0).value;
    assert ZeroGuarded(st, f, dom).value == Pruned(kf.sheet, c.entries, kf.frames);
    CommaFromSpec(st, es, vs, 0, true);
    forall k | 0 <= k < |es|
      ensures vs[k].Some?
      ensures vs[k].value <==> es[k].isUsed || exists i :: 0 <= i < |es[k].selectorsList| && Live(es[k].selectorsList[i], count)
    {
      CommaVerdictSpec(es[k], count);
    }
    forall t | Matches(c.sheet.css, SelectorIs(t)) == []
      ensures Matches(s3.css, SelectorIs(t)) == []
    {
      PassKeepsAbsence(c.sheet, gs, "general", t);
    }
    forall t | Matches(s3.css, SelectorIs(t)) == []
      ensures Matches(s4.css, SelectorIs(t)) == []
    {
      PassKeepsAbsence(s3, ps, "pseudos", t);
    }
    forall t | Matches(s4.css, SelectorIs(t)) == []
      ensures Matches(s5.css, SelectorIs(t)) == []
    {
      PassKeepsAbsence(s4, xs, "escapedPseudos", t);
    }
    forall t | Matches(s5.css, SelectorIs(t)) == []
      ensures Matches(kf.sheet.css, SelectorIs(t)) == []
    {
      KeyframesFromKeepsAbsence(s5, f.keyFrames, 0, SelectorIs(t));
    }
  }

  /**
   * What a run promises: every amp-element selector was counted and none
   * without an element keeps a rule; with exception tags the comma and
   * keyframe entries are left as they were, and without them the guarded
   * steps' promises hold of the result.
   */
  lemma ZeroOptimizeSpec(st: Sheet, f: Selectors, dom: StaticDom, exceptions: bool)
    requires ZeroOptimize(st, f, dom, exceptions).Some?
    ensures var r := ZeroOptimize(st, f, dom, exceptions).value;
            var amp := f.ampElementSelectors;
            (forall i :: 0 <= i < |amp| ==> dom.count(amp[i]).Some?)
            && (forall i :: 0 <= i < |amp| && dom.count(amp[i]) == Some(0) ==>
                  Matches(r.sheet.css, SelectorIs(amp[i])) == [])
            && (exceptions ==> r.commas == f.commaSeparatedSelectors && r.frames == f.keyFrames)
            && (!exceptions ==> r == ZeroGuarded(Pass(Sweep(st, EmptyRule, EmptyKind),
                                                      SelectorProbes(amp, dom.count), "ampElementSelectors").value,
                                                 f, dom).value)
  {
    var s1 := Sweep(st, EmptyRule, EmptyKind);
    var amp := f.ampElementSelectors;
    SelectorPassSpec(s1, amp, dom.count, "ampElementSelectors");
    var s2 := Pass(s1, SelectorProbes(amp, dom.count), "ampElementSelectors").value;
    if !exceptions {
      forall t | Matches(s2.css, SelectorIs(t)) == []
        ensures Matches(ZeroGuarded(s2, f, dom).value.sheet.css, SelectorIs(t)) == []
      {
        GuardedKeepsAbsence(s2, f, dom, t);
      }
    }
  }
}

