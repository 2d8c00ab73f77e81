/**
 * `_removeUnusedKeyframes`, the same in all three optimizers: a
 * `@keyframes` block is used when some declaration value inside a rule
 * mentions its name, and unused blocks are removed and recorded under
 * 'keyframes'. Reading `value` off a rule child that is not a declaration
 * (a comment, say) throws.
 */
module Keyframes {

  import opened Wrappers
  import opened Strings
  import opened Css
  import opened Buckets
  import opened AmpFiles
  import opened Sweeps

  /** The sheet after the step and the keyframe entries with their `isUsed` flags. */
  datatype Outcome = Outcome(sheet: Sheet, frames: seq<KeyframeEntry>)

  /** The names of the entries not marked used, in entry order. */
  function UnusedNames(es: seq<KeyframeEntry>): (r: seq<string>)
    ensures forall n :: n in r <==> exists i :: 0 <= i < |es| && !es[i].isUsed && es[i].ruleName == n
    decreases |es|
  {
    if |es| == 0 then []
    else
      var rest := UnusedNames(es[1..]);
      assert forall i :: 1 <= i < |es| ==> es[i] == es[1..][i - 1];
      (if es[0].isUsed then [] else [es[0].ruleName]) + rest
  }

  /** The rule children the scan reads include a node that is not a declaration: the scan throws. */
  predicate Crashes(css: seq<Node>) {
    exists i :: 0 <= i < |ScannedChildren(css)| && !ScannedChildren(css)[i].Decl?
  }

  /** The scan of the rule tree for one entry's name, marking the entry used when found. */
  function Mark(css: seq<Node>, e: KeyframeEntry): KeyframeEntry {
    e.(isUsed := e.isUsed || ScanFor(ScannedChildren(css), e.ruleName).found)
  }

  /**
   * The loop `walkRules(rule => rule.nodes.forEach(…))` for one name: the
   * answer of the scan (when it throws, only that it throws).
   */
  method ScanRules(css: seq<Node>, name: string) returns (r: Scan)
    ensures r.crashed == ScanFor(ScannedChildren(css), name).crashed
    ensures !r.crashed ==> r.found == ScanFor(ScannedChildren(css), name).found
  {
    var cs := ScannedChildren(css);
    var found := false;
    var j := 0;
    while j < |cs|
      invariant 0 <= j <= |cs|
      invariant ScanFor(cs, name) == Scan(found || ScanFor(cs[j..], name).found, ScanFor(cs[j..], name).crashed)
    {
      assert cs[j..][1..] == cs[j + 1..];
      if !cs[j].Decl? {
        return Scan(found, true);
      }
      if Contains(cs[j].value, name) {
        found := true;
      }
      j := j + 1;
    }
    assert cs[j..] == [];
    return Scan(found, false);
  }

  // ---------------------------------------------------------------------------
  // As written: the unused list is rebuilt after every entry's scan

  /**
   * The loop from entry `i` on, as written: scan for the entry's name, mark
   * it, then remove every block whose entry is not (yet) marked.
   */
  function KeyframesFrom(st: Sheet, es: seq<KeyframeEntry>, i: nat): Option<Outcome>
    decreases |es| - i
  {
    if i >= |es| then Some(Outcome(st, es))
    else
      var sc := ScanFor(ScannedChildren(st.css), es[i].ruleName);
      if sc.crashed then None
      else
        var es' := if sc.found then es[i := es[i].(isUsed := true)] else es;
        KeyframesFrom(Sweep(st, KeyframesNamed(UnusedNames(es')), "keyframes"), es', i + 1)
  }

  /** `_removeUnusedKeyframes` as written. */
  method RemoveUnusedKeyframesAsWritten(af: AmpFile) returns (ok: bool)
    modifies af`parsedCss, af`selectorsRemoved, af`keyFrames
    ensures ok == KeyframesFrom(old(af.Styles()), old(af.keyFrames), 0).Some?
    ensures ok ==> KeyframesFrom(old(af.Styles()), old(af.keyFrames), 0) == Some(Outcome(af.Styles(), af.keyFrames))
  {
    var i := 0;
    while i < |af.keyFrames|
      invariant 0 <= i <= |af.keyFrames| && |af.keyFrames| == |old(af.keyFrames)|
      invariant KeyframesFrom(af.Styles(), af.keyFrames, i) == KeyframesFrom(old(af.Styles()), old(af.keyFrames), 0)
      decreases |af.keyFrames| - i
    {
      var sc := ScanRules(af.parsedCss, af.keyFrames[i].ruleName);
      if sc.crashed {
        return false;
      }
      if sc.found {
        af.keyFrames := af.keyFrames[i := af.keyFrames[i].(isUsed := true)];
      }
      var unused := CollectUnused(af.keyFrames);
      RemoveWalk(af, KeyframesNamed(unused), "keyframes");
      i := i + 1;
    }
    return true;
  }

  /** The loop collecting the names of the entries not marked used. */
  method CollectUnused(es: seq<KeyframeEntry>) returns (names: seq<string>)
    ensures names == UnusedNames(es)
  {
    names := [];
    var i := |es|;
    while i > 0
      invariant 0 <= i <= |es|
      invariant names == UnusedNames(es[i..])
    {
      i := i - 1;
      assert es[i..][1..] == es[i + 1..];
      if !es[i].isUsed {
        names := [es[i].ruleName] + names;
      }
    }
    assert es[0..] == es;
  }

  // The sheet of the example: two blocks, and one rule whose declaration mentions both.
  const ExampleRule := Rule(".x", [".x"], [Decl("animation", "a b")])
  const FramesA := AtRule("keyframes", "a", [])
  const FramesB := AtRule("keyframes", "b", [])
  const ExampleCss := [FramesA, FramesB, ExampleRule]
  const ExampleEntries := [KeyframeEntry("a", false), KeyframeEntry("b", false)]

  lemma ExampleRuleAlone(m: Matcher)
    ensures RuleList([ExampleRule]) == [ExampleRule]
    ensures ScannedChildren([ExampleRule]) == ExampleRule.nodes
    ensures Prune([ExampleRule], KeyframesNamed(["b"])) == [ExampleRule]
    ensures Matches([ExampleRule], KeyframesNamed(["b"])) == []
    ensures Matches([ExampleRule], KeyframesNamed([])) == []
  {
    assert [ExampleRule][1..] == [];
    assert ExampleRule.nodes[1..] == [];
    assert Bodies([ExampleRule]) == ExampleRule.nodes + Bodies([]);
  }

  /** Both names occur in the declaration, which is the only rule child. */
  lemma ExampleScans(css: seq<Node>)
    requires css == ExampleCss || css == [FramesA, ExampleRule]
    ensures ScannedChildren(css) == [Decl("animation", "a b")]
    ensures ScanFor(ScannedChildren(css), "a") == Scan(true, false)
    ensures ScanFor(ScannedChildren(css), "b") == Scan(true, false)
    ensures Referenced(css, "b")
  {
    ExampleRuleAlone(EmptyRule);
    assert RuleList(css) == [ExampleRule] by {
      if css == ExampleCss {
        assert css[1..] == [FramesB, ExampleRule];
        assert css[1..][1..] == [ExampleRule];
      } else {
        assert css[1..] == [ExampleRule];
      }
    }
    assert StartsWith("a b", "a");
    assert Contains("a b", "b") by {
      assert "a b"[1..][1..] == "b";
      assert StartsWith("b", "b");
    }
    assert ScannedChildren(css)[0].Decl? && Contains(ScannedChildren(css)[0].value, "b");
  }

  /** Removing the block `b` from the example leaves `a` and the rule. */
  lemma ExampleRemoveB()
    ensures Prune(ExampleCss, KeyframesNamed(["b"])) == [FramesA, ExampleRule]
    ensures Matches(ExampleCss, KeyframesNamed(["b"])) == [FramesB]
    ensures Matches(ExampleCss, KeyframesNamed([])) == []
    ensures Matches([FramesA, ExampleRule], KeyframesNamed([])) == []
    ensures Matches([FramesA, ExampleRule], KeyframesNamed(["b"])) == []
  {
    ExampleRuleAlone(EmptyRule);
    assert ExampleCss[1..] == [FramesB, ExampleRule];
    assert ExampleCss[1..][1..] == [ExampleRule];
    assert [FramesA, ExampleRule][1..] == [ExampleRule];
  }

  /** The first round as written: `a` is marked, and the still unmarked `b` is removed. */
  lemma ExampleFirstRound()
    ensures KeyframesFrom(Sheet(ExampleCss, map[]), ExampleEntries, 0)
            == KeyframesFrom(Sweep(Sheet(ExampleCss, map[]), KeyframesNamed(["b"]), "keyframes"),
                             [KeyframeEntry("a", true), KeyframeEntry("b", false)], 1)
  {
    ExampleScans(ExampleCss);
    var es1 := [KeyframeEntry("a", true), KeyframeEntry("b", false)];
    assert ExampleEntries[0 := ExampleEntries[0].(isUsed := true)] == es1;
    assert UnusedNames(es1) == ["b"] by {
      assert es1[1..] == [KeyframeEntry("b", false)];
      assert es1[1..][1..] == [];
    }
  }

  /** The second round as written: `b` is marked, but its block is already gone. */
  lemma ExampleSecondRound(st: Sheet)
    requires st.css == [FramesA, ExampleRule]
    ensures KeyframesFrom(st, [KeyframeEntry("a", true), KeyframeEntry("b", false)], 1)
            == Some(Outcome(st, [KeyframeEntry("a", true), KeyframeEntry("b", true)]))
  {
    ExampleScans(st.css);
    ExampleRemoveB();
    var es2 := [KeyframeEntry("a", true), KeyframeEntry("b", true)];
    assert [KeyframeEntry("a", true), KeyframeEntry("b", false)][1 := KeyframeEntry("b", true)] == es2;
    assert UnusedNames(es2) == [] by {
      assert es2[1..] == [KeyframeEntry("b", true)];
      assert es2[1..][1..] == [];
    }
    SweepSpec(st, KeyframesNamed([]), "keyframes");
  }

  /**
   * As written, a block mentioned in a declaration can still be removed: the
   * scan for `a` marks `a` and then removes `b`, whose own scan has not run
   * yet.
   */
  lemma AsWrittenDropsLaterKeyframes()
    ensures Referenced(ExampleCss, "b")
    ensures KeyframesFrom(Sheet(ExampleCss, map[]), ExampleEntries, 0).Some?
    ensures Matches(KeyframesFrom(Sheet(ExampleCss, map[]), ExampleEntries, 0).value.sheet.css,
                    KeyframesNamed(["b"])) == []
  {
    ExampleScans(ExampleCss);
    ExampleRemoveB();
    ExampleFirstRound();
    var st1 := Sweep(Sheet(ExampleCss, map[]), KeyframesNamed(["b"]), "keyframes");
    ExampleSecondRound(st1);
  }

  /** The names left unmarked after marking entry `i` were already unmarked before. */
  lemma UnusedAfterMark(es: seq<KeyframeEntry>, i: nat, n: string)
    requires i < |es|
    requires n in UnusedNames(es[i := es[i].(isUsed := true)])
    ensures n in UnusedNames(es)
  {
    var es' := es[i := es[i].(isUsed := true)];
    var j :| 0 <= j < |es'| && !es'[j].isUsed && es'[j].ruleName == n;
    assert j != i && es'[j] == es[j];
  }

  /**
   * As written, the step throws exactly when there is an entry left to scan
   * and the sheet has a non-declaration rule child: the first scan meets it,
   * and the removals never bring one in.
   */
  lemma {:induction false} KeyframesFromTotal(st: Sheet, es: seq<KeyframeEntry>, i: nat)
    ensures KeyframesFrom(st, es, i).None? <==> i < |es| && Crashes(st.css)
    decreases |es| - i
  {
    if i < |es| {
      var sc := ScanFor(ScannedChildren(st.css), es[i].ruleName);
      ScanFinds(ScannedChildren(st.css), es[i].ruleName);
      if !sc.crashed {
        var es' := if sc.found then es[i := es[i].(isUsed := true)] else es;
        var m := KeyframesNamed(UnusedNames(es'));
        ScanAfterPrune(st.css, m, es[i].ruleName);
        KeyframesFromTotal(Sweep(st, m, "keyframes"), es', i + 1);
      }
    }
  }

  /** A local test that hits nothing before the rounds from `i` on hits nothing after them. */
  lemma {:induction false} KeyframesFromKeepsAbsence(st: Sheet, es: seq<KeyframeEntry>, i: nat, q: Matcher)
    requires Local(q) && Matches(st.css, q) == []
    requires KeyframesFrom(st, es, i).Some?
    ensures Matches(KeyframesFrom(st, es, i).value.sheet.css, q) == []
    decreases |es| - i
  {
    if i < |es| {
      var sc := ScanFor(ScannedChildren(st.css), es[i].ruleName);
      var es' := if sc.found then es[i := es[i].(isUsed := true)] else es;
      var m := KeyframesNamed(UnusedNames(es'));
      PruneKeepsAbsence(st.css, q, m);
      KeyframesFromKeepsAbsence(Sweep(st, m, "keyframes"), es', i + 1, q);
    }
  }

  /**
   * The marks the rounds from `i` on leave: the names never change, the
   * entries before `i` are not touched, and an entry from `i` on keeps its
   * mark and gains one only when its name is mentioned in the sheet.
   */
  lemma {:induction false} KeyframesFromMarks(st: Sheet, es: seq<KeyframeEntry>, i: nat)
    requires KeyframesFrom(st, es, i).Some?
    ensures var o := KeyframesFrom(st, es, i).value;
            |o.frames| == |es|
            && (forall k :: 0 <= k < |es| ==> o.frames[k].ruleName == es[k].ruleName)
            && (forall k :: 0 <= k < i && k < |es| ==> o.frames[k] == es[k])
            && (forall k :: i <= k < |es| ==>
                  (es[k].isUsed ==> o.frames[k].isUsed)
                  && (o.frames[k].isUsed ==> es[k].isUsed || Referenced(st.css, es[k].ruleName)))
    decreases |es| - i
  {
    if i < |es| {
      var sc := ScanFor(ScannedChildren(st.css), es[i].ruleName);
      ScanFinds(ScannedChildren(st.css), es[i].ruleName);
      var es' := if sc.found then es[i := es[i].(isUsed := true)] else es;
      var m := KeyframesNamed(UnusedNames(es'));
      var st' := Sweep(st, m, "keyframes");
      KeyframesFromMarks(st', es', i + 1);
      forall n | Referenced(st'.css, n)
        ensures Referenced(st.css, n)
      {
        ScanAfterPrune(st.css, m, n);
      }
      assert sc.found ==> Referenced(st.css, es[i].ruleName);
    }
  }

  /** An entry from `i` on that ends unmarked has no block left: its own round removed them all. */
  lemma {:induction false} KeyframesFromDrops(st: Sheet, es: seq<KeyframeEntry>, i: nat)
    requires KeyframesFrom(st, es, i).Some?
    ensures var o := KeyframesFrom(st, es, i).value;
            |o.frames| == |es|
            && forall k :: i <= k < |es| && !o.frames[k].isUsed ==>
                 Matches(o.sheet.css, KeyframesNamed([es[k].ruleName])) == []
    decreases |es| - i
  {
    KeyframesFromMarks(st, es, i);
    if i < |es| {
      var sc := ScanFor(ScannedChildren(st.css), es[i].ruleName);
      var es' := if sc.found then es[i := es[i].(isUsed := true)] else es;
      var m := KeyframesNamed(UnusedNames(es'));
      var st' := Sweep(st, m, "keyframes");
      var o := KeyframesFrom(st, es, i).value;
      assert o == KeyframesFrom(st', es', i + 1).value;
      KeyframesFromMarks(st', es', i + 1);
      KeyframesFromDrops(st', es', i + 1);
      if !o.frames[i].isUsed {
        var n := es[i].ruleName;
        assert o.frames[i] == es'[i] && es'[i].ruleName == n;
        assert n in UnusedNames(es');
        PruneRemovesHits(st.css, m);
        assert forall x :: Hits(KeyframesNamed([n]), x) ==> Hits(m, x);
        MatchesNarrower(st'.css, m, KeyframesNamed([n]));
        KeyframesFromKeepsAbsence(st', es', i + 1, KeyframesNamed([n]));
      }
    }
  }

  /**
   * The statistics the rounds from `i` on leave: 'keyframes' only grows, and
   * only by names of entries unmarked at the start; no other category changes.
   */
  lemma {:induction false} KeyframesFromLog(st: Sheet, es: seq<KeyframeEntry>, i: nat)
    requires KeyframesFrom(st, es, i).Some?
    ensures var before := Recorded(st.removed, "keyframes");
            var after := Recorded(KeyframesFrom(st, es, i).value.sheet.removed, "keyframes");
            |before| <= |after| && after[..|before|] == before
            && (forall j :: |before| <= j < |after| ==> after[j] in UnusedNames(es))
    decreases |es| - i
  {
    if i < |es| {
      var sc := ScanFor(ScannedChildren(st.css), es[i].ruleName);
      var es' := if sc.found then es[i := es[i].(isUsed := true)] else es;
      var st' := Sweep(st, KeyframesNamed(UnusedNames(es')), "keyframes");
      assert KeyframesFrom(st, es, i) == KeyframesFrom(st', es', i + 1);
      RoundLog(st, UnusedNames(es'), UnusedNames(es));
      KeyframesFromLog(st', es', i + 1);
      var after := Recorded(KeyframesFrom(st, es, i).value.sheet.removed, "keyframes");
      var mid := Recorded(st'.removed, "keyframes");
      forall j | |mid| <= j < |after|
        ensures after[j] in UnusedNames(es)
      {
        if sc.found {
          UnusedAfterMark(es, i, after[j]);
        }
      }
      GrowsWithin(Recorded(st.removed, "keyframes"), mid, after, UnusedNames(es));
    }
  }

  /** One round's walk appends to 'keyframes' only names it removes by. */
  lemma RoundLog(st: Sheet, names: seq<string>, pool: seq<string>)
    requires forall n :: n in names ==> n in pool
    ensures var before := Recorded(st.removed, "keyframes");
            var mid := Recorded(Sweep(st, KeyframesNamed(names), "keyframes").removed, "keyframes");
            |before| <= |mid| && mid[..|before|] == before
            && forall j :: |before| <= j < |mid| ==> mid[j] in pool
  {
    var labels := Labels(Matches(st.css, KeyframesNamed(names)));
    RecordAllSpec(st.removed, "keyframes", labels);
    LabelsNamed(st.css, names);
    var before := Recorded(st.removed, "keyframes");
    var mid := before + labels;
    forall j | |before| <= j < |mid|
      ensures mid[j] in pool
    {
      assert mid[j] == labels[j - |before|];
    }
  }

  /** Two appends drawn from the same pool make one. */
  lemma GrowsWithin(before: seq<string>, mid: seq<string>, after: seq<string>, pool: seq<string>)
    requires |before| <= |mid| && mid[..|before|] == before
    requires forall j :: |before| <= j < |mid| ==> mid[j] in pool
    requires |mid| <= |after| && after[..|mid|] == mid
    requires forall j :: |mid| <= j < |after| ==> after[j] in pool
    ensures |before| <= |after| && after[..|before|] == before
    ensures forall j :: |before| <= j < |after| ==> after[j] in pool
  {
    assert after[..|before|] == mid[..|before|];
    forall j | |before| <= j < |mid|
      ensures after[j] in pool
    {
      assert after[j] == after[..|mid|][j];
    }
  }

  /** A walk for the blocks named in `names` records only names from `names`. */
  lemma LabelsNamed(ns: seq<Node>, names: seq<string>)
    ensures forall j :: 0 <= j < |Labels(Matches(ns, KeyframesNamed(names)))| ==>
              Labels(Matches(ns, KeyframesNamed(names)))[j] in names
  {
    var hs := Matches(ns, KeyframesNamed(names));
    MatchesAllHit(ns, KeyframesNamed(names));
    forall j | 0 <= j < |hs|
      ensures Label(hs[j]) in names
    {
      assert hs[j] in hs;
    }
  }

  /** The rounds from `i` on touch no category of the statistics but 'keyframes' and keep the counts consistent. */
  lemma {:induction false} KeyframesFromOtherKinds(st: Sheet, es: seq<KeyframeEntry>, i: nat)
    requires KeyframesFrom(st, es, i).Some?
    ensures var r := KeyframesFrom(st, es, i).value.sheet.removed;
            (forall k :: k in st.removed && k != "keyframes" ==> k in r && r[k] == st.removed[k])
            && r.Keys <= st.removed.Keys + {"keyframes"}
            && (CountsConsistent(st.removed) ==> CountsConsistent(r))
    decreases |es| - i
  {
    if i < |es| {
      var sc := ScanFor(ScannedChildren(st.css), es[i].ruleName);
      var es' := if sc.found then es[i := es[i].(isUsed := true)] else es;
      var m := KeyframesNamed(UnusedNames(es'));
      var st' := Sweep(st, m, "keyframes");
      assert KeyframesFrom(st, es, i) == KeyframesFrom(st', es', i + 1);
      SweepSpec(st, m, "keyframes");
      KeyframesFromOtherKinds(st', es', i + 1);
    }
  }

  /**
   * What the keyframes step as written promises: it throws exactly when
   * there is an entry and some rule holds a non-declaration. Otherwise every
   * entry keeps its name and its mark, gains a mark only when some
   * declaration value mentions its name, and has no block left when it ends
   * unmarked, so the blocks of a name that was neither marked nor mentioned
   * are all gone; 'keyframes' grows only by names of entries that started
   * unmarked, and the other categories stay as they were.
   */
  lemma AsWrittenKeyframesSpec(st: Sheet, es: seq<KeyframeEntry>)
    ensures KeyframesFrom(st, es, 0).Some? <==> |es| == 0 || !Crashes(st.css)
    ensures KeyframesFrom(st, es, 0).Some? ==>
              var o := KeyframesFrom(st, es, 0).value;
              |o.frames| == |es|
              && (forall k :: 0 <= k < |es| ==>
                    o.frames[k].ruleName == es[k].ruleName
                    && (es[k].isUsed ==> o.frames[k].isUsed)
                    && (o.frames[k].isUsed ==> es[k].isUsed || Referenced(st.css, es[k].ruleName)))
              && (forall k :: 0 <= k < |es| && !o.frames[k].isUsed ==>
                    Matches(o.sheet.css, KeyframesNamed([es[k].ruleName])) == [])
              && (forall k :: 0 <= k < |es| && !es[k].isUsed && !Referenced(st.css, es[k].ruleName) ==>
                    Matches(o.sheet.css, KeyframesNamed([es[k].ruleName])) == [])
  {
    KeyframesFromTotal(st, es, 0);
    if KeyframesFrom(st, es, 0).Some? {
      KeyframesFromMarks(st, es, 0);
      KeyframesFromDrops(st, es, 0);
    }
  }

  // ---------------------------------------------------------------------------
  // Corrected: every entry is scanned before anything is removed

  /** Every entry scanned against the same tree; `None` where the scan throws. */
  function MarkAll(css: seq<Node>, es: seq<KeyframeEntry>): Option<seq<KeyframeEntry>>
    decreases |es|
  {
    if |es| == 0 then Some([])
    else
      var sc := ScanFor(ScannedChildren(css), es[0].ruleName);
      if sc.crashed then None
      else match MarkAll(css, es[1..])
        case None => None
        case Some(rest) => Some([es[0].(isUsed := es[0].isUsed || sc.found)] + rest)
  }

  /** The step with marking and removal separated. */
  function KeyframesCorrected(st: Sheet, es: seq<KeyframeEntry>): Option<Outcome> {
    match MarkAll(st.css, es)
    case None => None
    case Some(ms) => Some(Outcome(Sweep(st, KeyframesNamed(UnusedNames(ms)), "keyframes"), ms))
  }

  /** Marking throws exactly when there is an entry and the tree has a non-declaration rule child; otherwise it marks every entry. */
  lemma {:induction false} MarkAllSpec(css: seq<Node>, es: seq<KeyframeEntry>)
    ensures MarkAll(css, es) == if |es| > 0 && Crashes(css) then None
                                else Some(seq(|es|, k requires 0 <= k < |es| => Mark(css, es[k])))
    decreases |es|
  {
    if |es| > 0 {
      ScanFinds(ScannedChildren(css), es[0].ruleName);
      MarkAllSpec(css, es[1..]);
      if !Crashes(css) {
        var tail := seq(|es| - 1, k requires 0 <= k < |es| - 1 => Mark(css, es[1..][k]));
        var all := seq(|es|, k requires 0 <= k < |es| => Mark(css, es[k]));
        assert MarkAll(css, es[1..]) == Some(tail);
        assert !ScanFor(ScannedChildren(css), es[0].ruleName).crashed;
        assert forall k :: 0 <= k < |es| - 1 ==> tail[k] == all[k + 1];
        assert all == [Mark(css, es[0])] + tail;
      }
    } else {
      var all := seq(|es|, k requires 0 <= k < |es| => Mark(css, es[k]));
      assert all == [];
    }
  }

  /**
   * What the keyframes step promises: it throws exactly when there is an
   * entry and some rule holds a non-declaration; otherwise an entry ends up
   * marked used exactly when it was already or some declaration value
   * mentions its name, every block of an unmarked, unmentioned name is gone,
   * and (in a sheet without nested `@keyframes`) every block of a mentioned
   * name stays, in order.
   */
  lemma KeyframesSpec(st: Sheet, es: seq<KeyframeEntry>)
    ensures KeyframesCorrected(st, es).Some? <==> |es| == 0 || !Crashes(st.css)
    ensures KeyframesCorrected(st, es).Some? ==>
              var o := KeyframesCorrected(st, es).value;
              |o.frames| == |es|
              && (forall k :: 0 <= k < |es| ==>
                    o.frames[k].ruleName == es[k].ruleName
                    && (o.frames[k].isUsed <==> es[k].isUsed || Referenced(st.css, es[k].ruleName)))
              && (forall k :: 0 <= k < |es| && !es[k].isUsed && !Referenced(st.css, es[k].ruleName) ==>
                    Matches(o.sheet.css, KeyframesNamed([es[k].ruleName])) == [])
              && (NoNestedKeyframes(st.css) ==>
                    forall k :: 0 <= k < |es| && Referenced(st.css, es[k].ruleName) ==>
                      Labels(Matches(o.sheet.css, KeyframesNamed([es[k].ruleName])))
                      == Labels(Matches(st.css, KeyframesNamed([es[k].ruleName]))))
  {
    KeyframesMarks(st, es);
    if KeyframesCorrected(st, es).Some? {
      KeyframesDropsUnused(st, es);
      if NoNestedKeyframes(st.css) {
        KeyframesKeepsReferenced(st, es);
      }
    }
  }

  /** The marking half of `KeyframesSpec`: when it throws, and which entries end up used. */
  lemma KeyframesMarks(st: Sheet, es: seq<KeyframeEntry>)
    ensures KeyframesCorrected(st, es).Some? <==> |es| == 0 || !Crashes(st.css)
    ensures KeyframesCorrected(st, es).Some? ==>
              var o := KeyframesCorrected(st, es).value;
              |o.frames| == |es|
              && (forall k :: 0 <= k < |es| ==>
                    o.frames[k].ruleName == es[k].ruleName
                    && (o.frames[k].isUsed <==> es[k].isUsed || Referenced(st.css, es[k].ruleName)))
  {
    MarkAllSpec(st.css, es);
    if KeyframesCorrected(st, es).Some? {
      var ms := KeyframesCorrected(st, es).value.frames;
      forall k | 0 <= k < |es|
        ensures ms[k].isUsed <==> es[k].isUsed || Referenced(st.css, es[k].ruleName)
      {
        ScanFinds(ScannedChildren(st.css), es[k].ruleName);
      }
    }
  }

  /** Every block of a name that ends up unused is gone. */
  lemma KeyframesDropsUnused(st: Sheet, es: seq<KeyframeEntry>)
    requires KeyframesCorrected(st, es).Some?
    ensures var o := KeyframesCorrected(st, es).value;
            forall k :: 0 <= k < |es| && !es[k].isUsed && !Referenced(st.css, es[k].ruleName) ==>
              Matches(o.sheet.css, KeyframesNamed([es[k].ruleName])) == []
  {
    forall k | 0 <= k < |es| && !es[k].isUsed && !Referenced(st.css, es[k].ruleName)
      ensures Matches(KeyframesCorrected(st, es).value.sheet.css, KeyframesNamed([es[k].ruleName])) == []
    {
      DropsUnusedEntry(st, es, k);
    }
  }

  /** One entry of `KeyframesDropsUnused`. */
  lemma DropsUnusedEntry(st: Sheet, es: seq<KeyframeEntry>, k: int)
    requires KeyframesCorrected(st, es).Some?
    requires 0 <= k < |es| && !es[k].isUsed && !Referenced(st.css, es[k].ruleName)
    ensures Matches(KeyframesCorrected(st, es).value.sheet.css, KeyframesNamed([es[k].ruleName])) == []
  {
    MarkAllSpec(st.css, es);
    var o := KeyframesCorrected(st, es).value;
    var n := es[k].ruleName;
    ScanFinds(ScannedChildren(st.css), n);
    assert o.frames[k] == Mark(st.css, es[k]);
    assert !o.frames[k].isUsed && o.frames[k].ruleName == n;
    var unused := UnusedNames(o.frames);
    var m := KeyframesNamed(unused);
    assert n in unused;
    assert o.sheet.css == Prune(st.css, m);
    PruneRemovesHits(st.css, m);
    assert forall x :: Hits(KeyframesNamed([n]), x) ==> Hits(m, x);
    MatchesNarrower(o.sheet.css, m, KeyframesNamed([n]));
  }

  /** Without nested `@keyframes`, every block of a mentioned name stays, in order. */
  lemma KeyframesKeepsReferenced(st: Sheet, es: seq<KeyframeEntry>)
    requires KeyframesCorrected(st, es).Some? && NoNestedKeyframes(st.css)
    ensures var o := KeyframesCorrected(st, es).value;
            forall k :: 0 <= k < |es| && Referenced(st.css, es[k].ruleName) ==>
              Labels(Matches(o.sheet.css, KeyframesNamed([es[k].ruleName])))
              == Labels(Matches(st.css, KeyframesNamed([es[k].ruleName])))
  {
    KeyframesMarks(st, es);
    var o := KeyframesCorrected(st, es).value;
    var ms := o.frames;
    var unused := UnusedNames(ms);
    assert o.sheet.css == Prune(st.css, KeyframesNamed(unused));
    forall k | 0 <= k < |es| && Referenced(st.css, es[k].ruleName)
      ensures Labels(Matches(o.sheet.css, KeyframesNamed([es[k].ruleName])))
              == Labels(Matches(st.css, KeyframesNamed([es[k].ruleName])))
    {
      var n := es[k].ruleName;
      assert forall j :: 0 <= j < |ms| && ms[j].ruleName == n ==> ms[j].isUsed;
      assert n !in unused;
      KeyframesSurvive(st.css, unused, n);
    }
  }

  /** On the same sheet, marking every entry before removing keeps the block `b`. */
  lemma CorrectedKeepsLaterKeyframes()
    ensures KeyframesCorrected(Sheet(ExampleCss, map[]), ExampleEntries).Some?
    ensures Matches(KeyframesCorrected(Sheet(ExampleCss, map[]), ExampleEntries).value.sheet.css,
                    KeyframesNamed(["b"])) == [FramesB]
  {
    ExampleMarkAll();
    ExampleRemoveB();
    PruneMissesNothing(ExampleCss, KeyframesNamed([]));
  }

  /** On the example, marking every entry first marks both, so no name is unused. */
  lemma ExampleMarkAll()
    ensures MarkAll(ExampleCss, ExampleEntries) == Some([KeyframeEntry("a", true), KeyframeEntry("b", true)])
    ensures UnusedNames([KeyframeEntry("a", true), KeyframeEntry("b", true)]) == []
  {
    ExampleScans(ExampleCss);
    var es2 := [KeyframeEntry("a", true), KeyframeEntry("b", true)];
    assert ExampleEntries[1..] == [KeyframeEntry("b", false)];
    assert [KeyframeEntry("b", false)][1..] == [];
    assert MarkAll(ExampleCss, []) == Some([]);
    assert [KeyframeEntry("b", true)] + [] == [KeyframeEntry("b", true)];
    assert MarkAll(ExampleCss, [KeyframeEntry("b", false)]) == Some([KeyframeEntry("b", true)]);
    assert [KeyframeEntry("a", true)] + [KeyframeEntry("b", true)] == es2;
    assert es2[1..] == [KeyframeEntry("b", true)];
    assert es2[1..][1..] == [];
  }

  /** `_removeUnusedKeyframes` with every entry marked before the removal walk. */
  method RemoveUnusedKeyframes(af: AmpFile) returns (ok: bool)
    modifies af`parsedCss, af`selectorsRemoved, af`keyFrames
    ensures ok == KeyframesCorrected(old(af.Styles()), old(af.keyFrames)).Some?
    ensures ok ==> KeyframesCorrected(old(af.Styles()), old(af.keyFrames)) == Some(Outcome(af.Styles(), af.keyFrames))
  {
    ghost var es := af.keyFrames;
    MarkAllSpec(af.parsedCss, es);
    var i := 0;
    while i < |af.keyFrames|
      invariant 0 <= i <= |af.keyFrames| && |af.keyFrames| == |es|
      invariant af.Styles() == old(af.Styles())
      invariant i > 0 ==> !Crashes(af.parsedCss)
      invariant forall k :: 0 <= k < i ==> af.keyFrames[k] == Mark(af.parsedCss, es[k])
      invariant forall k :: i <= k < |es| ==> af.keyFrames[k] == es[k]
    {
      var sc := ScanRules(af.parsedCss, af.keyFrames[i].ruleName);
      ScanFinds(ScannedChildren(af.parsedCss), af.keyFrames[i].ruleName);
      if sc.crashed {
        return false;
      }
      if sc.found {
        af.keyFrames := af.keyFrames[i := af.keyFrames[i].(isUsed := true)];
      }
      i := i + 1;
    }
    assert af.keyFrames == seq(|es|, k requires 0 <= k < |es| => Mark(old(af.parsedCss), es[k]));
    var unused := CollectUnused(af.keyFrames);
    RemoveWalk(af, KeyframesNamed(unused), "keyframes");
    return true;
  }
}
