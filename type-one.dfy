/**
 * The type-one optimizer (`type-one-optimizations.js`): the same pruning
 * against the headless-browser page and with no exception-tag guard. The
 * asynchronous calls are taken in program order: within the comma step
 * every group's empty-rule walk runs before any branch is counted (each
 * group's callback reaches its first `await` after its empty walk), and
 * an oracle rejection ends the run.
 */
module TypeOne {

  import opened Wrappers
  import opened Css
  import opened Dom
  import opened Buckets
  import opened AmpFiles
  import opened DomParser
  import opened Sweeps
  import opened Keyframes
  import opened Commas
  import opened TypeZero

  // ---------------------------------------------------------------------------
  // Empty rules of every comma group

  /** The empty-rule walks of the groups from `i` on, in bucket order. */
  function EmptyWalks(st: Sheet, es: seq<CommaEntry>, i: nat): Sheet
    decreases |es| - i
  {
    if i >= |es| then st
    else EmptyWalks(Sweep(st, EmptyRuleIs(es[i].selectorStr), EmptyKind), es, i + 1)
  }

  /** The verdict "used" for every group: the comma step then does its empty walks and nothing else. */
  function AllUsed(es: seq<CommaEntry>): (vs: seq<Option<bool>>)
    ensures |vs| == |es| && forall k :: 0 <= k < |es| ==> vs[k] == Some(true)
  {
    seq(|es|, k requires 0 <= k < |es| => Some(true))
  }

  /**
   * The empty walks are the comma step with every group kept. So, on a flat
   * sheet, the rules left are exactly those that are not an empty rule of
   * some group's selector text, in order.
   */
  lemma {:induction false} EmptyWalksSpec(st: Sheet, es: seq<CommaEntry>, i: nat)
    requires i <= |es|
    ensures CommaFrom(st, es, AllUsed(es), i, true).Some?
    ensures EmptyWalks(st, es, i) == CommaFrom(st, es, AllUsed(es), i, true).value.sheet
    decreases |es| - i
  {
    if i < |es| {
      var st1 := Sweep(st, EmptyRuleIs(es[i].selectorStr), EmptyKind);
      var es' := es[i := es[i].(isUsed := true)];
      CommaStep(st, es, AllUsed(es), i, true);
      assert AllUsed(es') == AllUsed(es);
      EmptyWalksSpec(st1, es', i + 1);
      EmptyWalksOfSameTexts(st1, es, es', i + 1);
    }
  }

  /** The empty walks only look at the groups' selector texts. */
  lemma {:induction false} EmptyWalksOfSameTexts(st: Sheet, es: seq<CommaEntry>, ds: seq<CommaEntry>, i: nat)
    requires |es| == |ds| && forall k :: 0 <= k < |es| ==> es[k].selectorStr == ds[k].selectorStr
    ensures EmptyWalks(st, es, i) == EmptyWalks(st, ds, i)
    decreases |es| - i
  {
    if i < |es| {
      EmptyWalksOfSameTexts(Sweep(st, EmptyRuleIs(es[i].selectorStr), EmptyKind), es, ds, i + 1);
    }
  }

  /** On a flat sheet the empty walks leave exactly the rules that are not an empty rule of a group's text. */
  lemma EmptyWalksFlat(st: Sheet, es: seq<CommaEntry>)
    requires Flat(st.css)
    ensures Flat(EmptyWalks(st, es, 0).css)
    ensures RuleList(EmptyWalks(st, es, 0).css)
            == Survivors(RuleList(st.css), seq(|es|, k requires 0 <= k < |es| => es[k].(isUsed := true)), true)
  {
    EmptyWalksSpec(st, es, 0);
    CommaFromSpec(st, es, AllUsed(es), 0, true);
    CommaFromFlat(st, es, AllUsed(es), 0, true);
    var o := CommaFrom(st, es, AllUsed(es), 0, true).value;
    assert o.entries[0..] == o.entries;
    assert o.entries == seq(|es|, k requires 0 <= k < |es| => es[k].(isUsed := true));
  }

  /** A selector text with no rules left gets none back from the empty walks. */
  lemma EmptyWalksKeepAbsence(st: Sheet, es: seq<CommaEntry>, t: string)
    requires Matches(st.css, SelectorIs(t)) == []
    ensures Matches(EmptyWalks(st, es, 0).css, SelectorIs(t)) == []
  {
    EmptyWalksSpec(st, es, 0);
    CommaKeepsAbsence(st, es, AllUsed(es), 0, true, t);
  }

  /** The empty walks on the record. */
  method RemoveGroupEmpties(af: AmpFile)
    modifies af`parsedCss, af`selectorsRemoved
    ensures af.Styles() == EmptyWalks(old(af.Styles()), af.commaSeparatedSelectors, 0)
  {
    var i := 0;
    while i < |af.commaSeparatedSelectors|
      invariant 0 <= i <= |af.commaSeparatedSelectors|
      invariant EmptyWalks(af.Styles(), af.commaSeparatedSelectors, i)
                == EmptyWalks(old(af.Styles()), af.commaSeparatedSelectors, 0)
    {
      RemoveWalk(af, EmptyRuleIs(af.commaSeparatedSelectors[i].selectorStr), EmptyKind);
      i := i + 1;
    }
  }

  // ---------------------------------------------------------------------------
  // The verdict on one comma group

  /**
   * Every branch is counted; a branch with a pseudo part or a backslash is
   * then decided by the count of its base (the text before the first ':'),
   * any other by its own count. `None` where a count rejects.
   */
  function BranchesFrom(sels: seq<string>, count: string -> Option<nat>, used: bool): Option<bool>
    decreases |sels|
  {
    if |sels| == 0 then Some(used)
    else match count(sels[0])
      case None => None
      case Some(n) =>
        if Deferred(sels[0]) then
          match count(Lookup(sels[0]))
          case None => None
          case Some(b) => BranchesFrom(sels[1..], count, used || b > 0)
        else BranchesFrom(sels[1..], count, used || n > 0)
  }

  /** Every count a branch asks for is answered. */
  predicate Answered(sel: string, count: string -> Option<nat>) {
    count(sel).Some? && count(Lookup(sel)).Some?
  }

  /**
   * The branch loop rejects exactly when a count it asks for rejects, and
   * otherwise ends used exactly when the group already was or some branch
   * is on the page by the count it is decided by.
   */
  lemma {:induction false} BranchesFromSpec(sels: seq<string>, count: string -> Option<nat>, used: bool)
    ensures BranchesFrom(sels, count, used).Some? <==> forall i :: 0 <= i < |sels| ==> Answered(sels[i], count)
    ensures BranchesFrom(sels, count, used).Some? ==>
              (BranchesFrom(sels, count, used).value <==> used || exists i :: 0 <= i < |sels| && Live(sels[i], count))
    decreases |sels|
  {
    if |sels| > 0 {
      var s := sels[0];
      var next := used || Live(s, count);
      BranchesFromSpec(sels[1..], count, next);
      if count(s).Some? && count(Lookup(s)).Some? {
        assert BranchesFrom(sels, count, used) == BranchesFrom(sels[1..], count, next);
      }
      assert forall i :: 1 <= i < |sels| ==> sels[i] == sels[1..][i - 1];
      if exists i :: 0 <= i < |sels[1..]| && Live(sels[1..][i], count) {
        var i :| 0 <= i < |sels[1..]| && Live(sels[1..][i], count);
        assert sels[i + 1] == sels[1..][i];
      }
      if forall i :: 0 <= i < |sels[1..]| ==> Answered(sels[1..][i], count) {
        assert forall i :: 1 <= i < |sels| ==> Answered(sels[i], count);
      }
    }
  }

  /** Whether the group is used, `None` where a count rejects (with the helpers the classifier defines). */
  function OneVerdict(e: CommaEntry, count: string -> Option<nat>): Option<bool> {
    BranchesFrom(e.selectorsList, count, e.isUsed)
  }

  /**
   * The verdict as written: the pseudo tests are called under names the
   * classifier does not define, so each branch's callback throws once its
   * first count settles, and only a group without branches gets a verdict.
   */
  function AsWrittenVerdict(e: CommaEntry): Option<bool> {
    if |e.selectorsList| == 0 then Some(e.isUsed) else None
  }

  /** The verdicts on all groups. */
  function OneVerdicts(es: seq<CommaEntry>, count: string -> Option<nat>): (vs: seq<Option<bool>>)
  {
    seq(|es|, k requires 0 <= k < |es| => OneVerdict(es[k], count))
  }

  /** The verdicts as written. */
  function AsWrittenVerdicts(es: seq<CommaEntry>): (vs: seq<Option<bool>>)
  {
    seq(|es|, k requires 0 <= k < |es| => AsWrittenVerdict(es[k]))
  }

  /** One group's verdict by the loop over its branches. */
  method JudgeGroup(e: CommaEntry, count: string -> Option<nat>) returns (v: Option<bool>)
    ensures v == OneVerdict(e, count)
  {
    var used := e.isUsed;
    var i := 0;
    while i < |e.selectorsList|
      invariant 0 <= i <= |e.selectorsList|
      invariant BranchesFrom(e.selectorsList[i..], count, used) == OneVerdict(e, count)
    {
      var sel := e.selectorsList[i];
      assert e.selectorsList[i..][0] == sel && e.selectorsList[i..][1..] == e.selectorsList[i + 1..];
      var n := count(sel);
      if n.None? {
        return None;
      }
      if Deferred(sel) {
        var b := count(SplitPseudo(sel).base);
        if b.None? {
          return None;
        }
        used := used || b.value > 0;
      } else {
        used := used || n.value > 0;
      }
      i := i + 1;
    }
    assert e.selectorsList[i..] == [];
    return Some(used);
  }

  /** The verdicts on all groups. */
  method JudgeGroups(es: seq<CommaEntry>, count: string -> Option<nat>) returns (vs: seq<Option<bool>>)
    ensures vs == OneVerdicts(es, count)
  {
    vs := [];
    var i := 0;
    while i < |es|
      invariant 0 <= i <= |es| && |vs| == i
      invariant forall k :: 0 <= k < i ==> vs[k] == OneVerdict(es[k], count)
    {
      var v := JudgeGroup(es[i], count);
      vs := vs + [v];
      i := i + 1;
    }
  }

  /** The comma step: every group's empty walk, then per group the verdict and the removal of an unused one. */
  function CommaPhase(st: Sheet, es: seq<CommaEntry>, vs: seq<Option<bool>>): Option<CommaOutcome>
    requires |vs| == |es|
  {
    CommaFrom(EmptyWalks(st, es, 0), es, vs, 0, false)
  }

  /** `_handleCommaSeparatedSelectors` of the type-one optimizer. */
  method HandleCommaSeparatedSelectors(af: AmpFile, count: string -> Option<nat>) returns (ok: bool)
    modifies af`parsedCss, af`selectorsRemoved, af`commaSeparatedSelectors
    ensures ok == CommaPhase(old(af.Styles()), old(af.commaSeparatedSelectors),
                             OneVerdicts(old(af.commaSeparatedSelectors), count)).Some?
    ensures ok ==> CommaPhase(old(af.Styles()), old(af.commaSeparatedSelectors),
                              OneVerdicts(old(af.commaSeparatedSelectors), count))
                   == Some(CommaOutcome(af.Styles(), af.commaSeparatedSelectors))
  {
    RemoveGroupEmpties(af);
    var vs := JudgeGroups(af.commaSeparatedSelectors, count);
    ok := CommaLoop(af, vs, false);
  }

  // ---------------------------------------------------------------------------
  // optimize

  /** The steps after the comma step: general, pseudo and escaped selectors, then keyframes. */
  function AfterCommas(c: CommaOutcome, f: Selectors, dom: DynamicDom): Option<Pruned> {
    var count := dom.count;
    match Pass(c.sheet, SelectorProbes(f.general, count), "general")
    case None => None
    case Some(s3) =>
      match Pass(s3, PseudoProbes(f.pseudos, count), "pseudos")
      case None => None
      case Some(s4) =>
        match dom.queryAll
        case None => None
        case Some(els) =>
          match Pass(s4, EscapedProbes(f.escapedPseudos, els), "escapedPseudos")
          case None => None
          case Some(s5) =>
            match KeyframesFrom(s5, f.keyFrames, 0)
            case None => None
            case Some(k) => Some(Pruned(k.sheet, c.entries, k.frames))
  }

  /** The steps after the amp-element selectors, with the given comma verdicts. */
  function OneRest(st: Sheet, f: Selectors, dom: DynamicDom, vs: seq<Option<bool>>): Option<Pruned>
    requires |vs| == |f.commaSeparatedSelectors|
  {
    match CommaPhase(st, f.commaSeparatedSelectors, vs)
    case None => None
    case Some(c) => AfterCommas(c, f, dom)
  }

  /** A run with the given comma verdicts: empty rules, amp-element selectors, then the rest. */
  function OneRun(st: Sheet, f: Selectors, dom: DynamicDom, vs: seq<Option<bool>>): Option<Pruned>
    requires |vs| == |f.commaSeparatedSelectors|
  {
    var s1 := Sweep(st, EmptyRule, EmptyKind);
    match Pass(s1, SelectorProbes(f.ampElementSelectors, dom.count), "ampElementSelectors")
    case None => None
    case Some(s2) => OneRest(s2, f, dom, vs)
  }

  /** One run with the classifier's pseudo tests. */
  function OneOptimize(st: Sheet, f: Selectors, dom: DynamicDom): Option<Pruned> {
    OneRun(st, f, dom, OneVerdicts(f.commaSeparatedSelectors, dom.count))
  }

  /** One run as written. */
  function OneOptimizeAsWritten(st: Sheet, f: Selectors, dom: DynamicDom): Option<Pruned> {
    OneRun(st, f, dom, AsWrittenVerdicts(f.commaSeparatedSelectors))
  }

  /** The steps after the comma step on the record. */
  method AfterCommaSteps(af: AmpFile, dom: DynamicDom) returns (ok: bool)
    modifies af`parsedCss, af`selectorsRemoved, af`keyFrames
    ensures ok == AfterCommas(CommaOutcome(old(af.Styles()), af.commaSeparatedSelectors), old(af.Fields()), dom).Some?
    ensures ok ==> AfterCommas(CommaOutcome(old(af.Styles()), af.commaSeparatedSelectors), old(af.Fields()), dom)
                   == Some(Pruned(af.Styles(), af.commaSeparatedSelectors, af.keyFrames))
  {
    ghost var f := af.Fields();
    ok := SelectorIterator(af, "general", af.general, dom.count);
    if !ok {
      return;
    }
    ok := PseudoIterator(af, "pseudos", af.pseudos, dom.count);
    if !ok {
      return;
    }
    if dom.queryAll.None? {
      return false;
    }
    EscapedIterator(af, "escapedPseudos", af.escapedPseudos, dom.queryAll.value);
    ghost var s5 := af.Styles();
    ok := RemoveUnusedKeyframesAsWritten(af);
    assert ok ==> KeyframesFrom(s5, f.keyFrames, 0) == Some(Outcome(af.Styles(), af.keyFrames));
  }

  /** The steps after the amp-element selectors on the record. */
  method RestSteps(af: AmpFile, dom: DynamicDom) returns (ok: bool)
    modifies af`parsedCss, af`selectorsRemoved, af`commaSeparatedSelectors, af`keyFrames
    ensures ok == OneRest(old(af.Styles()), old(af.Fields()), dom,
                          OneVerdicts(old(af.commaSeparatedSelectors), dom.count)).Some?
    ensures ok ==> OneRest(old(af.Styles()), old(af.Fields()), dom,
                           OneVerdicts(old(af.commaSeparatedSelectors), dom.count))
                   == Some(Pruned(af.Styles(), af.commaSeparatedSelectors, af.keyFrames))
  {
    ghost var f := af.Fields();
    ok := HandleCommaSeparatedSelectors(af, dom.count);
    if !ok {
      return;
    }
    assert af.Fields().general == f.general && af.Fields().pseudos == f.pseudos
           && af.Fields().escapedPseudos == f.escapedPseudos && af.Fields().keyFrames == f.keyFrames;
    ok := AfterCommaSteps(af, dom);
  }

  /** `optimize`: the run, then the 'optimized' time and optimization level 1. */
  method Optimize(af: AmpFile, now: int) returns (ok: bool)
    requires af.dynamicDom.Some?
    modifies af`parsedCss, af`selectorsRemoved, af`commaSeparatedSelectors, af`keyFrames, af`status
    ensures ok == OneOptimize(old(af.Styles()), old(af.Fields()), af.dynamicDom.value).Some?
    ensures ok ==> OneOptimize(old(af.Styles()), old(af.Fields()), af.dynamicDom.value)
                   == Some(Pruned(af.Styles(), af.commaSeparatedSelectors, af.keyFrames))
    ensures ok ==> af.status == old(af.status)["optimized" := now]["optLevel" := 1]
  {
    var dom := af.dynamicDom.value;
    ghost var f := af.Fields();
    ghost var vs := OneVerdicts(f.commaSeparatedSelectors, dom.count);
    ghost var s1 := Sweep(af.Styles(), EmptyRule, EmptyKind);
    RemoveEmptySelectors(af);
    assert af.Styles() == s1 && af.Fields() == f;
    ok := SelectorIterator(af, "ampElementSelectors", af.ampElementSelectors, dom.count);
    ghost var p := Pass(s1, SelectorProbes(f.ampElementSelectors, dom.count), "ampElementSelectors");
    if !ok {
      assert p.None?;
      return;
    }
    assert af.Styles() == p.value && af.Fields() == f;
    assert OneRun(old(af.Styles()), f, dom, vs) == OneRest(p.value, f, dom, vs);
    ok := RestSteps(af, dom);
    if !ok {
      return;
    }
    af.SetStatus("optimized", now);
    af.SetStatus("optLevel", 1);
  }

  // ---------------------------------------------------------------------------
  // What a run promises

  /**
   * The comma step rejects exactly when some group's verdict does; it keeps
   * every group's text and branches, sets each flag to whether the group
   * was already used or has a branch on the page, and leaves no rule of an
   * unused group.
   */
  lemma CommaPhaseSpec(st: Sheet, es: seq<CommaEntry>, count: string -> Option<nat>)
    ensures CommaPhase(st, es, OneVerdicts(es, count)).Some? <==>
              forall k, i :: 0 <= k < |es| && 0 <= i < |es[k].selectorsList| ==> Answered(es[k].selectorsList[i], count)
    ensures CommaPhase(st, es, OneVerdicts(es, count)).Some? ==>
              var c := CommaPhase(st, es, OneVerdicts(es, count)).value;
              |c.entries| == |es|
              && (forall k :: 0 <= k < |es| ==>
                    c.entries[k].selectorStr == es[k].selectorStr
                    && c.entries[k].selectorsList == es[k].selectorsList
                    && (c.entries[k].isUsed <==>
                          es[k].isUsed || exists i :: 0 <= i < |es[k].selectorsList| && Live(es[k].selectorsList[i], count)))
              && (forall k :: 0 <= k < |es| && !c.entries[k].isUsed ==>
                    Matches(c.sheet.css, SelectorIs(es[k].selectorStr)) == [])
  {
    var vs := OneVerdicts(es, count);
    CommaFromSpec(EmptyWalks(st, es, 0), es, vs, 0, false);
    forall k | 0 <= k < |es|
      ensures vs[k].Some? <==> forall i :: 0 <= i < |es[k].selectorsList| ==> Answered(es[k].selectorsList[i], count)
      ensures vs[k].Some? ==>
                (vs[k].value <==> es[k].isUsed || exists i :: 0 <= i < |es[k].selectorsList| && Live(es[k].selectorsList[i], count))
    {
      BranchesFromSpec(es[k].selectorsList, count, es[k].isUsed);
    }
    if !(forall k :: 0 <= k < |es| ==> vs[k].Some?) {
      var k :| 0 <= k < |es| && vs[k].None?;
      var i :| 0 <= i < |es[k].selectorsList| && !Answered(es[k].selectorsList[i], count);
    }
  }

  /**
   * As written, the comma step of a sheet with any group that has branches
   * rejects whatever the page holds, so the run ends there; the corrected
   * step succeeds on the same groups whenever the page answers their counts.
   */
  lemma AsWrittenCommaRejects(st: Sheet, f: Selectors, dom: DynamicDom)
    requires exists k :: 0 <= k < |f.commaSeparatedSelectors| && |f.commaSeparatedSelectors[k].selectorsList| > 0
    ensures OneOptimizeAsWritten(st, f, dom) == None
  {
    var es := f.commaSeparatedSelectors;
    var k :| 0 <= k < |es| && |es[k].selectorsList| > 0;
    var s1 := Sweep(st, EmptyRule, EmptyKind);
    match Pass(s1, SelectorProbes(f.ampElementSelectors, dom.count), "ampElementSelectors")
    case None =>
    case Some(s2) =>
      CommaFromSpec(EmptyWalks(s2, es, 0), es, AsWrittenVerdicts(es), 0, false);
      assert AsWrittenVerdicts(es)[k] == None;
  }

  /** Without branches to judge, the run as written and the corrected run agree. */
  lemma AsWrittenAgreesWithoutBranches(st: Sheet, f: Selectors, dom: DynamicDom)
    requires forall k :: 0 <= k < |f.commaSeparatedSelectors| ==> f.commaSeparatedSelectors[k].selectorsList == []
    ensures OneOptimizeAsWritten(st, f, dom) == OneOptimize(st, f, dom)
  {
    var es := f.commaSeparatedSelectors;
    assert AsWrittenVerdicts(es) == OneVerdicts(es, dom.count);
  }

  /** A selector text with no rules left gets none back from the steps after the comma step. */
  lemma AfterCommasKeepAbsence(c: CommaOutcome, f: Selectors, dom: DynamicDom, t: string)
    requires Matches(c.sheet.css, SelectorIs(t)) == []
    requires AfterCommas(c, f, dom).Some?
    ensures Matches(AfterCommas(c, f, dom).value.sheet.css, SelectorIs(t)) == []
  {
    var count := dom.count;
    var s3 := Pass(c.sheet, SelectorProbes(f.general, count), "general").value;
    PassKeepsAbsence(c.sheet, SelectorProbes(f.general, count), "general", t);
    var s4 := Pass(s3, PseudoProbes(f.pseudos, count), "pseudos").value;
    PassKeepsAbsence(s3, PseudoProbes(f.pseudos, count), "pseudos", t);
    var els := dom.queryAll.value;
    var s5 := Pass(s4, EscapedProbes(f.escapedPseudos, els), "escapedPseudos").value;
    PassKeepsAbsence(s4, EscapedProbes(f.escapedPseudos, els), "escapedPseudos", t);
    KeyframesFromKeepsAbsence(s5, f.keyFrames, 0, SelectorIs(t));
  }

  /** A selector text with no rules left gets none back from the steps after the amp selectors. */
  lemma RestKeepsAbsence(st: Sheet, f: Selectors, dom: DynamicDom, t: string)
    requires Matches(st.css, SelectorIs(t)) == []
    requires OneRest(st, f, dom, OneVerdicts(f.commaSeparatedSelectors, dom.count)).Some?
    ensures Matches(OneRest(st, f, dom, OneVerdicts(f.commaSeparatedSelectors, dom.count)).value.sheet.css,
                    SelectorIs(t)) == []
  {
    var es := f.commaSeparatedSelectors;
    var vs := OneVerdicts(es, dom.count);
    EmptyWalksKeepAbsence(st, es, t);
    CommaKeepsAbsence(EmptyWalks(st, es, 0), es, vs, 0, false, t);
    AfterCommasKeepAbsence(CommaPhase(st, es, vs).value, f, dom, t);
  }

  /**
   * What the steps after the comma step promise: the element list was
   * read, every general selector and pseudo base was counted, no rule is
   * left of a general selector without an element, of a pseudo selector
   * whose base has none or of an escaped selector whose class name is no
   * element's whole class attribute or id, and a selector text without
   * rules stays so.
   */
  lemma AfterCommasSpec(c: CommaOutcome, f: Selectors, dom: DynamicDom)
    requires AfterCommas(c, f, dom).Some?
    ensures var count := dom.count;
            var r := AfterCommas(c, f, dom).value;
            dom.queryAll.Some?
            && (forall i :: 0 <= i < |f.general| ==> count(f.general[i]).Some?)
            && (forall i :: 0 <= i < |f.pseudos| ==> count(f.pseudos[i].base).Some?)
            && (forall i :: 0 <= i < |f.general| && count(f.general[i]) == Some(0) ==>
                  Matches(r.sheet.css, SelectorIs(f.general[i])) == [])
            && (forall i :: 0 <= i < |f.pseudos| && count(f.pseudos[i].base) == Some(0) ==>
                  Matches(r.sheet.css, SelectorIs(f.pseudos[i].base + f.pseudos[i].modifier)) == [])
            && (forall i :: 0 <= i < |f.escapedPseudos| && !AnyNamed(dom.queryAll.value, Unescape(f.escapedPseudos[i])) ==>
                  Matches(r.sheet.css, SelectorIs(f.escapedPseudos[i])) == [])
            && r.commas == c.entries
            && (forall t :: Matches(c.sheet.css, SelectorIs(t)) == [] ==> Matches(r.sheet.css, SelectorIs(t)) == [])
  {
    var count := dom.count;
    var gs := SelectorProbes(f.general, count);
    var s3 := Pass(c.sheet, gs, "general").value;
    var ps := PseudoProbes(f.pseudos, count);
    var s4 := Pass(s3, ps, "pseudos").value;
    var els := dom.queryAll.value;
    var xs := EscapedProbes(f.escapedPseudos, els);
    var s5 := Pass(s4, xs, "escapedPseudos").value;
    SelectorPassSpec(c.sheet, f.general, count, "general");
    PseudoPassSpec(s3, f.pseudos, count, "pseudos");
    EscapedPassSpec(s4, f.escapedPseudos, els, "escapedPseudos");
    forall t | Matches(s5.css, SelectorIs(t)) == []
      ensures Matches(AfterCommas(c, f, dom).value.sheet.css, SelectorIs(t)) == []
    {
      KeyframesFromKeepsAbsence(s5, f.keyFrames, 0, SelectorIs(t));
    }
    forall t | Matches(s4.css, SelectorIs(t)) == []
      ensures Matches(s5.css, SelectorIs(t)) == []
    {
      PassKeepsAbsence(s4, xs, "escapedPseudos", t);
    }
    forall t | Matches(s3.css, SelectorIs(t)) == []
      ensures Matches(s4.css, SelectorIs(t)) == []
    {
      PassKeepsAbsence(s3, ps, "pseudos", t);
    }
    forall t | Matches(c.sheet.css, SelectorIs(t)) == []
      ensures Matches(s3.css, SelectorIs(t)) == []
    {
      PassKeepsAbsence(c.sheet, gs, "general", t);
    }
  }

  /** The keyframes part of the steps after the comma step: every entry keeps its name, and an unmarked one has no block left. */
  lemma AfterCommasKeyframesSpec(c: CommaOutcome, f: Selectors, dom: DynamicDom)
    requires AfterCommas(c, f, dom).Some?
    ensures var r := AfterCommas(c, f, dom).value;
            var ks := f.keyFrames;
            |r.frames| == |ks|
            && (forall k :: 0 <= k < |ks| ==> r.frames[k].ruleName == ks[k].ruleName && (ks[k].isUsed ==> r.frames[k].isUsed))
            && (forall k :: 0 <= k < |ks| && !r.frames[k].isUsed ==>
                  Matches(r.sheet.css, KeyframesNamed([ks[k].ruleName])) == [])
  {
    var count := dom.count;
    var s3 := Pass(c.sheet, SelectorProbes(f.general, count), "general").value;
    var s4 := Pass(s3, PseudoProbes(f.pseudos, count), "pseudos").value;
    var s5 := Pass(s4, EscapedProbes(f.escapedPseudos, dom.queryAll.value), "escapedPseudos").value;
    var kf := KeyframesFrom(s5, f.keyFrames, 0).value;
    assert AfterCommas(c, f, dom).value == Pruned(kf.sheet, c.entries, kf.frames);
    AsWrittenKeyframesSpec(s5, f.keyFrames);
  }

  /**
   * What the steps after the amp selectors promise: those of the comma step
   * and of the steps after it, with no rule of an unused group left at the end.
   */
  lemma OneRestSpec(st: Sheet, f: Selectors, dom: DynamicDom)
    requires OneRest(st, f, dom, OneVerdicts(f.commaSeparatedSelectors, dom.count)).Some?
    ensures var es := f.commaSeparatedSelectors;
            var c := CommaPhase(st, es, OneVerdicts(es, dom.count));
            var r := OneRest(st, f, dom, OneVerdicts(es, dom.count)).value;
            c.Some? && r == AfterCommas(c.value, f, dom).value && |r.commas| == |es|
            && (forall k :: 0 <= k < |es| && !r.commas[k].isUsed ==>
                  Matches(r.sheet.css, SelectorIs(es[k].selectorStr)) == [])
  {
    var es := f.commaSeparatedSelectors;
    var vs := OneVerdicts(es, dom.count);
    var c := CommaPhase(st, es, vs).value;
    var r := AfterCommas(c, f, dom).value;
    assert r == OneRest(st, f, dom, vs).value;
    CommaFromSpec(EmptyWalks(st, es, 0), es, vs, 0, false);
    forall k | 0 <= k < |es| && !r.commas[k].isUsed
      ensures Matches(r.sheet.css, SelectorIs(es[k].selectorStr)) == []
    {
      AfterCommasKeepAbsence(c, f, dom, es[k].selectorStr);
    }
  }

  /**
   * What a run promises: every amp-element selector was counted and none
   * without an element keeps a rule, and the later steps' promises hold of
   * the result; there is no exception-tag guard.
   */
  lemma OneOptimizeSpec(st: Sheet, f: Selectors, dom: DynamicDom)
    requires OneOptimize(st, f, dom).Some?
    ensures var r := OneOptimize(st, f, dom).value;
            var amp := f.ampElementSelectors;
            var s2 := Pass(Sweep(st, EmptyRule, EmptyKind), SelectorProbes(amp, dom.count), "ampElementSelectors");
            (forall i :: 0 <= i < |amp| ==> dom.count(amp[i]).Some?)
            && (forall i :: 0 <= i < |amp| && dom.count(amp[i]) == Some(0) ==>
                  Matches(r.sheet.css, SelectorIs(amp[i])) == [])
            && s2.Some? && r == OneRest(s2.value, f, dom, OneVerdicts(f.commaSeparatedSelectors, dom.count)).value
  {
    var s1 := Sweep(st, EmptyRule, EmptyKind);
    var amp := f.ampElementSelectors;
    SelectorPassSpec(s1, amp, dom.count, "ampElementSelectors");
    var s2 := Pass(s1, SelectorProbes(amp, dom.count), "ampElementSelectors").value;
    forall t | Matches(s2.css, SelectorIs(t)) == []
      ensures Matches(OneRest(s2, f, dom, OneVerdicts(f.commaSeparatedSelectors, dom.count)).value.sheet.css,
                      SelectorIs(t)) == []
    {
      RestKeepsAbsence(s2, f, dom, t);
    }
  }
}
