/**
 * The pruning steps the optimizers share: one removing walk over the rule
 * tree with its statistics, and the selector, pseudo and escaped-selector
 * iterators, which decide per bucket entry whether the page uses it and
 * remove the rules of those it does not.
 */
module Sweeps {

  import opened Wrappers
  import opened Strings
  import opened Css
  import opened Dom
  import opened Buckets
  import opened AmpFiles

  // ---------------------------------------------------------------------------
  // One removing walk

  /** The sheet after a walk that removes and records every node `m` hits, under `kind`. */
  function Sweep(st: Sheet, m: Matcher, kind: string): Sheet {
    Sheet(Prune(st.css, m), RecordAll(st.removed, kind, Labels(Matches(st.css, m))))
  }

  /**
   * A walk with a local test leaves nothing it tests for; on a flat sheet a
   * rule test removes exactly the rules it hits; the statistics of `kind`
   * grow by the labels of the hits in walk order and nothing else changes.
   */
  lemma SweepSpec(st: Sheet, m: Matcher, kind: string)
    ensures Local(m) ==> Matches(Sweep(st, m, kind).css, m) == []
    ensures RuleTest(m) && Flat(st.css) ==>
              Flat(Sweep(st, m, kind).css)
              && RuleList(Sweep(st, m, kind).css) == Unhit(RuleList(st.css), m)
    ensures Recorded(Sweep(st, m, kind).removed, kind)
            == Recorded(st.removed, kind) + Labels(Matches(st.css, m))
    ensures forall k :: k in st.removed && k != kind ==> k in Sweep(st, m, kind).removed
                                                         && Sweep(st, m, kind).removed[k] == st.removed[k]
    ensures Sweep(st, m, kind).removed.Keys <= st.removed.Keys + {kind}
    ensures CountsConsistent(st.removed) ==> CountsConsistent(Sweep(st, m, kind).removed)
    ensures Matches(st.css, m) == [] ==> Sweep(st, m, kind) == st
  {
    RecordAllSpec(st.removed, kind, Labels(Matches(st.css, m)));
    if Local(m) {
      PruneRemovesHits(st.css, m);
    }
    if RuleTest(m) && Flat(st.css) {
      PruneKeepsFlat(st.css, m);
      PruneKeepsUnhitRules(st.css, m);
    }
    if Matches(st.css, m) == [] {
      PruneMissesNothing(st.css, m);
    }
  }

  /** Every selector a walk for `SelectorIs(t)` records is `t`. */
  lemma SelectorHitsLabelled(ns: seq<Node>, t: string)
    ensures forall j :: 0 <= j < |Labels(Matches(ns, SelectorIs(t)))| ==> Labels(Matches(ns, SelectorIs(t)))[j] == t
  {
    MatchesAllHit(ns, SelectorIs(t));
    var hs := Matches(ns, SelectorIs(t));
    forall j | 0 <= j < |hs|
      ensures Label(hs[j]) == t
    {
      assert hs[j] in hs;
    }
  }

  /**
   * One `walkRules`/`walkAtRules` pass whose callback removes the node and
   * calls `incrementSelectorsRemoved(kind, …)` with its selector or name.
   */
  method RemoveWalk(af: AmpFile, m: Matcher, kind: string)
    modifies af`parsedCss, af`selectorsRemoved
    ensures af.Styles() == Sweep(old(af.Styles()), m, kind)
    ensures af.parsedCss == Prune(old(af.parsedCss), m)
  {
    var hits := Matches(af.parsedCss, m);
    ghost var labels := Labels(hits);
    ghost var pruned := Prune(af.parsedCss, m);
    af.parsedCss := Prune(af.parsedCss, m);
    ghost var start := af.selectorsRemoved;
    assert Sweep(old(af.Styles()), m, kind) == Sheet(pruned, RecordAll(start, kind, labels));
    var i := 0;
    assert labels[i..] == labels;
    while i < |hits|
      invariant 0 <= i <= |hits|
      invariant af.parsedCss == pruned
      invariant RecordAll(af.selectorsRemoved, kind, labels[i..]) == RecordAll(start, kind, labels)
    {
      af.IncrementSelectorsRemoved(kind, Label(hits[i]));
      assert labels[i..][0] == labels[i] && labels[i..][1..] == labels[i + 1..];
      i := i + 1;
    }
    assert labels[i..] == [];
  }

  /**
   * `_removeEmptySelectors` (the same in all three optimizers): every rule
   * without children is removed and recorded under 'emptySelectors'.
   */
  method RemoveEmptySelectors(af: AmpFile)
    modifies af`parsedCss, af`selectorsRemoved
    ensures af.Styles() == Sweep(old(af.Styles()), EmptyRule, "emptySelectors")
  {
    RemoveWalk(af, EmptyRule, "emptySelectors");
  }

  /**
   * On a flat sheet the empty-selector step leaves no empty rule, keeps
   * every other rule in order, and records the selectors of the removed
   * rules in walk order.
   */
  lemma EmptySelectorsSpec(st: Sheet)
    requires Flat(st.css)
    ensures var r := Sweep(st, EmptyRule, "emptySelectors");
            Flat(r.css)
            && Matches(r.css, EmptyRule) == []
            && RuleList(r.css) == Unhit(RuleList(st.css), EmptyRule)
            && Recorded(r.removed, "emptySelectors")
               == Recorded(st.removed, "emptySelectors") + Labels(Hit(RuleList(st.css), EmptyRule))
  {
    SweepSpec(st, EmptyRule, "emptySelectors");
    FlatEmptyRulesGone(st.css);
    MatchesAreHitRules(st.css, EmptyRule);
  }

  // ---------------------------------------------------------------------------
  // Iterators: one verdict per bucket entry

  /**
   * The decision for one bucket entry: the selector whose rules go if the
   * entry is unused, and whether it is (`None` where the query throws).
   */
  datatype Probe = Probe(target: string, verdict: Option<bool>)

  /** The sheet after the probes in order, removing under `kind`; `None` at the first query that throws. */
  function Pass(st: Sheet, ps: seq<Probe>, kind: string): Option<Sheet>
    decreases |ps|
  {
    if |ps| == 0 then Some(st)
    else match ps[0].verdict
      case None => None
      case Some(unused) =>
        Pass(if unused then Sweep(st, SelectorIs(ps[0].target), kind) else st, ps[1..], kind)
  }

  /** The selectors found unused. */
  function Doomed(ps: seq<Probe>): set<string>
    decreases |ps|
  {
    if |ps| == 0 then {}
    else (if ps[0].verdict == Some(true) then {ps[0].target} else {}) + Doomed(ps[1..])
  }

  lemma {:induction false} DoomedMembers(ps: seq<Probe>, t: string)
    ensures t in Doomed(ps) <==> exists i :: 0 <= i < |ps| && ps[i].target == t && ps[i].verdict == Some(true)
    decreases |ps|
  {
    if |ps| > 0 {
      DoomedMembers(ps[1..], t);
      if exists i :: 0 <= i < |ps[1..]| && ps[1..][i].target == t && ps[1..][i].verdict == Some(true) {
        var i :| 0 <= i < |ps[1..]| && ps[1..][i].target == t && ps[1..][i].verdict == Some(true);
        assert ps[i + 1] == ps[1..][i];
      }
      if exists i :: 0 <= i < |ps| && ps[i].target == t && ps[i].verdict == Some(true) {
        var i :| 0 <= i < |ps| && ps[i].target == t && ps[i].verdict == Some(true);
        if i > 0 {
          assert ps[1..][i - 1] == ps[i];
        }
      }
    }
  }

  /** A pass fails exactly when one of its queries throws. */
  lemma {:induction false} PassTotal(st: Sheet, ps: seq<Probe>, kind: string)
    ensures Pass(st, ps, kind).Some? <==> forall i :: 0 <= i < |ps| ==> ps[i].verdict.Some?
    decreases |ps|
  {
    if |ps| > 0 && ps[0].verdict.Some? {
      var st' := if ps[0].verdict.value then Sweep(st, SelectorIs(ps[0].target), kind) else st;
      PassTotal(st', ps[1..], kind);
      assert forall i :: 1 <= i < |ps| ==> ps[i] == ps[1..][i - 1];
    }
  }

  /** A selector with no rules left gets none back from the rest of a pass. */
  lemma {:induction false} PassKeepsAbsence(st: Sheet, ps: seq<Probe>, kind: string, t: string)
    requires Matches(st.css, SelectorIs(t)) == []
    requires Pass(st, ps, kind).Some?
    ensures Matches(Pass(st, ps, kind).value.css, SelectorIs(t)) == []
    decreases |ps|
  {
    if |ps| > 0 {
      var st' := if ps[0].verdict.value then Sweep(st, SelectorIs(ps[0].target), kind) else st;
      if ps[0].verdict.value {
        PruneKeepsAbsence(st.css, SelectorIs(t), SelectorIs(ps[0].target));
      }
      PassKeepsAbsence(st', ps[1..], kind, t);
    }
  }

  /** After a pass, no rule of an unused selector is left anywhere in the tree. */
  lemma {:induction false} PassRemoves(st: Sheet, ps: seq<Probe>, kind: string)
    requires Pass(st, ps, kind).Some?
    ensures forall t :: t in Doomed(ps) ==> Matches(Pass(st, ps, kind).value.css, SelectorIs(t)) == []
    decreases |ps|
  {
    if |ps| > 0 {
      var st' := if ps[0].verdict.value then Sweep(st, SelectorIs(ps[0].target), kind) else st;
      PassRemoves(st', ps[1..], kind);
      if ps[0].verdict.value {
        PruneRemovesHits(st.css, SelectorIs(ps[0].target));
        PassKeepsAbsence(st', ps[1..], kind, ps[0].target);
      }
    }
  }

  /** On a flat sheet a pass removes exactly the rules of the unused selectors. */
  lemma {:induction false} PassKeeps(st: Sheet, ps: seq<Probe>, kind: string)
    requires Pass(st, ps, kind).Some? && Flat(st.css)
    ensures Flat(Pass(st, ps, kind).value.css)
    ensures RuleList(Pass(st, ps, kind).value.css) == KeepRules(RuleList(st.css), Doomed(ps))
    decreases |ps|
  {
    if |ps| == 0 {
      KeepNothing(RuleList(st.css));
    } else {
      var t := ps[0].target;
      var st' := if ps[0].verdict.value then Sweep(st, SelectorIs(t), kind) else st;
      assert Pass(st, ps, kind) == Pass(st', ps[1..], kind);
      if ps[0].verdict.value {
        SweepSpec(st, SelectorIs(t), kind);
      }
      PassKeeps(st', ps[1..], kind);
      if ps[0].verdict.value {
        KeepUnhit(RuleList(st.css), Doomed(ps[1..]), t);
        assert Doomed(ps) == Doomed(ps[1..]) + {t};
      } else {
        assert Doomed(ps) == Doomed(ps[1..]);
      }
    }
  }

  /** A pass leaves the other categories of the statistics as they were and keeps counts consistent. */
  lemma {:induction false} PassKeepsOtherKinds(st: Sheet, ps: seq<Probe>, kind: string)
    requires Pass(st, ps, kind).Some?
    ensures var r := Pass(st, ps, kind).value;
            (forall k :: k in st.removed && k != kind ==> k in r.removed && r.removed[k] == st.removed[k])
            && r.removed.Keys <= st.removed.Keys + {kind}
            && (CountsConsistent(st.removed) ==> CountsConsistent(r.removed))
    decreases |ps|
  {
    if |ps| > 0 {
      var t := ps[0].target;
      var st' := if ps[0].verdict.value then Sweep(st, SelectorIs(t), kind) else st;
      assert Pass(st, ps, kind) == Pass(st', ps[1..], kind);
      if ps[0].verdict.value {
        SweepSpec(st, SelectorIs(t), kind);
      }
      PassKeepsOtherKinds(st', ps[1..], kind);
    }
  }

  /** One selector walk appends copies of the selector to the statistics of `kind`. */
  lemma SweepLog(st: Sheet, t: string, kind: string)
    ensures var before := Recorded(st.removed, kind);
            var mid := Recorded(Sweep(st, SelectorIs(t), kind).removed, kind);
            |before| <= |mid| && mid[..|before|] == before
            && forall j :: |before| <= j < |mid| ==> mid[j] == t
  {
    RecordAllSpec(st.removed, kind, Labels(Matches(st.css, SelectorIs(t))));
    SelectorHitsLabelled(st.css, t);
  }

  /** A pass appends to the statistics of `kind`, and only selectors found unused. */
  lemma {:induction false} PassLog(st: Sheet, ps: seq<Probe>, kind: string)
    requires Pass(st, ps, kind).Some?
    ensures var after := Recorded(Pass(st, ps, kind).value.removed, kind);
            var before := Recorded(st.removed, kind);
            |before| <= |after| && after[..|before|] == before
            && forall j :: |before| <= j < |after| ==> after[j] in Doomed(ps)
    decreases |ps|
  {
    if |ps| > 0 {
      var t := ps[0].target;
      var st' := if ps[0].verdict.value then Sweep(st, SelectorIs(t), kind) else st;
      assert Pass(st, ps, kind) == Pass(st', ps[1..], kind);
      PassLog(st', ps[1..], kind);
      var before := Recorded(st.removed, kind);
      var mid := Recorded(st'.removed, kind);
      var after := Recorded(Pass(st, ps, kind).value.removed, kind);
      if ps[0].verdict.value {
        SweepLog(st, t, kind);
        assert Doomed(ps) == Doomed(ps[1..]) + {t};
        assert after[..|before|] == before by {
          assert after[..|mid|] == mid;
          assert after[..|before|] == mid[..|before|];
        }
        forall j | |before| <= j < |after|
          ensures after[j] in Doomed(ps)
        {
          if j < |mid| {
            assert after[j] == after[..|mid|][j] == mid[j];
          }
        }
      } else {
        assert Doomed(ps) == Doomed(ps[1..]);
      }
    }
  }

  // ---------------------------------------------------------------------------
  // The static-page iterators (type 0)

  /** A count of 0 means unused; a count that throws is no verdict. */
  function ZeroCount(c: Option<nat>): Option<bool> {
    match c
    case None => None
    case Some(n) => Some(n == 0)
  }

  /** `_selectorIterator` with no prefix: a selector is unused when it matches no element. */
  function SelectorProbes(sels: seq<string>, count: string -> Option<nat>): (ps: seq<Probe>)
  {
    seq(|sels|, i requires 0 <= i < |sels| => Probe(sels[i], ZeroCount(count(sels[i]))))
  }

  /** `_pseudoSelectorIterator`: a pseudo selector is unused when its base matches no element. */
  function PseudoProbes(es: seq<PseudoEntry>, count: string -> Option<nat>): (ps: seq<Probe>)
  {
    seq(|es|, i requires 0 <= i < |es| => Probe(es[i].base + es[i].modifier, ZeroCount(count(es[i].base))))
  }

  /**
   * What the selector iterator promises: it fails exactly when a count
   * throws; otherwise every listed selector that matches no element has no
   * rule left, and on a flat sheet every other rule stays, in order.
   */
  lemma SelectorPassSpec(st: Sheet, sels: seq<string>, count: string -> Option<nat>, kind: string)
    ensures Pass(st, SelectorProbes(sels, count), kind).Some? <==> forall i :: 0 <= i < |sels| ==> count(sels[i]).Some?
    ensures Pass(st, SelectorProbes(sels, count), kind).Some? ==>
              var r := Pass(st, SelectorProbes(sels, count), kind).value;
              (forall i :: 0 <= i < |sels| && count(sels[i]) == Some(0) ==> Matches(r.css, SelectorIs(sels[i])) == [])
              && (Flat(st.css) ==> RuleList(r.css) == KeepRules(RuleList(st.css), Doomed(SelectorProbes(sels, count))))
    ensures forall t :: t in Doomed(SelectorProbes(sels, count)) <==>
              exists i :: 0 <= i < |sels| && sels[i] == t && count(sels[i]) == Some(0)
  {
    var ps := SelectorProbes(sels, count);
    assert |ps| == |sels| && forall i :: 0 <= i < |sels| ==> ps[i] == Probe(sels[i], ZeroCount(count(sels[i])));
    PassTotal(st, ps, kind);
    forall t
      ensures t in Doomed(ps) <==> exists i :: 0 <= i < |sels| && sels[i] == t && count(sels[i]) == Some(0)
    {
      DoomedMembers(ps, t);
    }
    if Pass(st, ps, kind).Some? {
      PassRemoves(st, ps, kind);
      forall i | 0 <= i < |sels| && count(sels[i]) == Some(0)
        ensures sels[i] in Doomed(ps)
      {
        DoomedMembers(ps, sels[i]);
      }
      if Flat(st.css) {
        PassKeeps(st, ps, kind);
      }
    }
  }

  /**
   * What the pseudo iterator promises: it fails exactly when the count of a
   * base throws; otherwise the rules of every pseudo selector whose base
   * matches no element are gone.
   */
  lemma PseudoPassSpec(st: Sheet, es: seq<PseudoEntry>, count: string -> Option<nat>, kind: string)
    ensures Pass(st, PseudoProbes(es, count), kind).Some? <==> forall i :: 0 <= i < |es| ==> count(es[i].base).Some?
    ensures Pass(st, PseudoProbes(es, count), kind).Some? ==>
              var r := Pass(st, PseudoProbes(es, count), kind).value;
              forall i :: 0 <= i < |es| && count(es[i].base) == Some(0) ==>
                Matches(r.css, SelectorIs(es[i].base + es[i].modifier)) == []
  {
    var ps := PseudoProbes(es, count);
    assert |ps| == |es| && forall i :: 0 <= i < |es| ==>
      ps[i] == Probe(es[i].base + es[i].modifier, ZeroCount(count(es[i].base)));
    PassTotal(st, ps, kind);
    if Pass(st, ps, kind).Some? {
      PassRemoves(st, ps, kind);
      forall i | 0 <= i < |es| && count(es[i].base) == Some(0)
        ensures es[i].base + es[i].modifier in Doomed(ps)
      {
        DoomedMembers(ps, es[i].base + es[i].modifier);
      }
    }
  }

  /** `_selectorIterator(ampFile, kind)` against the static page. */
  method SelectorIterator(af: AmpFile, kind: string, sels: seq<string>, count: string -> Option<nat>)
    returns (ok: bool)
    modifies af`parsedCss, af`selectorsRemoved
    ensures ok == Pass(old(af.Styles()), SelectorProbes(sels, count), kind).Some?
    ensures ok ==> af.Styles() == Pass(old(af.Styles()), SelectorProbes(sels, count), kind).value
  {
    ghost var ps := SelectorProbes(sels, count);
    var i := 0;
    while i < |sels|
      invariant 0 <= i <= |sels|
      invariant Pass(af.Styles(), ps[i..], kind) == Pass(old(af.Styles()), ps, kind)
    {
      assert ps[i..][0] == ps[i] && ps[i..][1..] == ps[i + 1..];
      var c := count(sels[i]);
      if c.None? {
        return false;
      }
      if c.value == 0 {
        RemoveWalk(af, SelectorIs(sels[i]), kind);
      }
      i := i + 1;
    }
    assert ps[i..] == [];
    return true;
  }

  /** `_pseudoSelectorIterator(ampFile, kind)` against the static page. */
  method PseudoIterator(af: AmpFile, kind: string, es: seq<PseudoEntry>, count: string -> Option<nat>)
    returns (ok: bool)
    modifies af`parsedCss, af`selectorsRemoved
    ensures ok == Pass(old(af.Styles()), PseudoProbes(es, count), kind).Some?
    ensures ok ==> af.Styles() == Pass(old(af.Styles()), PseudoProbes(es, count), kind).value
  {
    ghost var ps := PseudoProbes(es, count);
    var i := 0;
    while i < |es|
      invariant 0 <= i <= |es|
      invariant Pass(af.Styles(), ps[i..], kind) == Pass(old(af.Styles()), ps, kind)
    {
      assert ps[i..][0] == ps[i] && ps[i..][1..] == ps[i + 1..];
      var c := count(es[i].base);
      if c.None? {
        return false;
      }
      if c.value == 0 {
        RemoveWalk(af, SelectorIs(es[i].base + es[i].modifier), kind);
      }
      i := i + 1;
    }
    assert ps[i..] == [];
    return true;
  }

  // ---------------------------------------------------------------------------
  // Escaped selectors

  /**
   * The class name an escaped selector stands for: drop the leading '.',
   * turn every `\:` into ':', and cut the trailing pseudo-class at the last
   * piece's first ':'.
   */
  function Unescape(selector: string): string {
    var noDot := if |selector| == 0 then "" else selector[1..];
    var parts := SplitOn(noDot, "\\:");
    var last := SplitOn(parts[|parts| - 1], ":")[0];
    Join(parts[..|parts| - 1] + [last], ":")
  }

  /** How a class name with colons is written in a selector: every ':' escaped as `\:`. */
  function Escape(name: string): string {
    Join(SplitOn(name, ":"), "\\:")
  }

  /** Splitting a join on its separator, with a tail appended, gives the pieces back with the tail on the last. */
  lemma {:induction false} SplitJoinTail(ps: seq<string>, sep: string, tail: string)
    requires |sep| > 0 && |ps| > 0
    requires forall i :: 0 <= i < |ps| ==> sep[0] !in ps[i]
    requires sep[0] !in tail
    ensures SplitOn(Join(ps, sep) + tail, sep) == ps[..|ps| - 1] + [ps[|ps| - 1] + tail]
    decreases |ps|
  {
    if |ps| == 1 {
      assert sep[0] !in ps[0] + tail;
      SplitWithout(ps[0] + tail, sep);
    } else {
      var rest := ps[1..];
      var t := Join(rest, sep) + tail;
      SplitJoinTail(rest, sep, tail);
      assert Join(ps, sep) == ps[0] + sep + Join(rest, sep);
      AppendAssoc(ps[0] + sep, Join(rest, sep), tail);
      SplitAfter(ps[0], t, sep);
      assert SplitOn(Join(ps, sep) + tail, sep) == [ps[0]] + (rest[..|rest| - 1] + [rest[|rest| - 1] + tail]);
      assert rest[..|rest| - 1] == ps[1..|ps| - 1] && rest[|rest| - 1] == ps[|ps| - 1];
      assert ps[..|ps| - 1] == [ps[0]] + ps[1..|ps| - 1];
      AppendAssoc([ps[0]], ps[1..|ps| - 1], [ps[|ps| - 1] + tail]);
    }
  }

  /** Cutting a piece without ':' at the first ':' of its pseudo suffix gives the piece back. */
  lemma CutSuffix(piece: string, suffix: string)
    requires ':' !in piece
    requires suffix == "" || suffix[0] == ':'
    ensures SplitOn(piece + suffix, ":")[0] == piece
  {
    if suffix == "" {
      assert piece + suffix == piece;
      SplitWithout(piece, ":");
    } else {
      assert piece + suffix == piece + ":" + suffix[1..];
      SplitAfter(piece, suffix[1..], ":");
    }
  }

  /**
   * Unescaping undoes escaping: for a class name without backslashes, the
   * selector `.` + escaped name + an optional pseudo suffix (itself without
   * backslashes) stands for that name again.
   */
  lemma EscapeRoundTrip(dot: char, name: string, suffix: string)
    requires '\\' !in name && '\\' !in suffix
    requires suffix == "" || suffix[0] == ':'
    ensures Unescape([dot] + Escape(name) + suffix) == name
  {
    var pieces := SplitOn(name, ":");
    SplitPiecesFrom(name, ":", '\\');
    SplitPiecesFree(name, ':');
    assert forall i :: 0 <= i < |pieces| ==> '\\' !in pieces[i];
    var sel := [dot] + Escape(name) + suffix;
    assert sel[1..] == Escape(name) + suffix;
    SplitJoinTail(pieces, "\\:", suffix);
    var parts := SplitOn(sel[1..], "\\:");
    var k := |pieces| - 1;
    assert parts == pieces[..k] + [pieces[k] + suffix];
    CutSuffix(pieces[k], suffix);
    assert pieces[..k] + [pieces[k]] == pieces;
    JoinSplit(name, ":");
  }

  /** Whether some element's whole class attribute or id is `name`: the loop over `queryAll('*')`. */
  method NamedOnPage(els: seq<Element>, name: string) returns (used: bool)
    ensures used == AnyNamed(els, name)
  {
    used := false;
    var i := 0;
    while i < |els|
      invariant 0 <= i <= |els|
      invariant used == exists j :: 0 <= j < i && NamedBy(els[j], name)
    {
      if NamedBy(els[i], name) {
        used := true;
      }
      i := i + 1;
    }
  }

  /**
   * `_escapedPseudoSelectorIterator`: an escaped selector is unused when no
   * element's class attribute, taken whole, or id equals its class name.
   */
  function EscapedProbes(sels: seq<string>, els: seq<Element>): (ps: seq<Probe>)
  {
    seq(|sels|, i requires 0 <= i < |sels| => Probe(sels[i], Some(!AnyNamed(els, Unescape(sels[i])))))
  }

  /**
   * The escaped iterator never fails; afterwards an escaped selector whose
   * class name no element's class attribute or id equals has no rule left,
   * and on a flat sheet every other rule stays, in order.
   */
  lemma EscapedPassSpec(st: Sheet, sels: seq<string>, els: seq<Element>, kind: string)
    ensures Pass(st, EscapedProbes(sels, els), kind).Some?
    ensures var r := Pass(st, EscapedProbes(sels, els), kind).value;
            (forall i :: 0 <= i < |sels| && !AnyNamed(els, Unescape(sels[i])) ==>
               Matches(r.css, SelectorIs(sels[i])) == [])
            && (forall t :: t in Doomed(EscapedProbes(sels, els)) <==>
                  exists i :: 0 <= i < |sels| && sels[i] == t && !AnyNamed(els, Unescape(sels[i])))
            && (Flat(st.css) ==> RuleList(r.css) == KeepRules(RuleList(st.css), Doomed(EscapedProbes(sels, els))))
  {
    var ps := EscapedProbes(sels, els);
    assert |ps| == |sels| && forall i :: 0 <= i < |sels| ==> ps[i] == Probe(sels[i], Some(!AnyNamed(els, Unescape(sels[i]))));
    PassTotal(st, ps, kind);
    PassRemoves(st, ps, kind);
    forall t
      ensures t in Doomed(ps) <==> exists i :: 0 <= i < |sels| && sels[i] == t && !AnyNamed(els, Unescape(sels[i]))
    {
      DoomedMembers(ps, t);
    }
    if Flat(st.css) {
      PassKeeps(st, ps, kind);
    }
  }

  /** The escaped iterator over a given element list. */
  method EscapedIterator(af: AmpFile, kind: string, sels: seq<string>, els: seq<Element>)
    modifies af`parsedCss, af`selectorsRemoved
    ensures Pass(old(af.Styles()), EscapedProbes(sels, els), kind) == Some(af.Styles())
  {
    ghost var ps := EscapedProbes(sels, els);
    PassTotal(af.Styles(), ps, kind);
    var i := 0;
    while i < |sels|
      invariant 0 <= i <= |sels|
      invariant Pass(af.Styles(), ps[i..], kind) == Pass(old(af.Styles()), ps, kind)
    {
      assert ps[i..][0] == ps[i] && ps[i..][1..] == ps[i + 1..];
      var used := NamedOnPage(els, Unescape(sels[i]));
      if !used {
        RemoveWalk(af, SelectorIs(sels[i]), kind);
      }
      i := i + 1;
    }
    assert ps[i..] == [];
  }

  // ---------------------------------------------------------------------------
  // Escaped selectors, corrected: the class is looked up in the class list

  /** Whether some element carries the class (or id) `name`. */
  method ListedOnPage(els: seq<Element>, name: string) returns (used: bool)
    ensures used == AnyListed(els, name)
  {
    used := false;
    var i := 0;
    while i < |els|
      invariant 0 <= i <= |els|
      invariant used == exists j :: 0 <= j < i && ListedBy(els[j], name)
    {
      if ListedBy(els[i], name) {
        used := true;
      }
      i := i + 1;
    }
  }

  /** The escaped probes with the class looked up among the element's classes. */
  function ListedProbes(sels: seq<string>, els: seq<Element>): (ps: seq<Probe>)
  {
    seq(|sels|, i requires 0 <= i < |sels| => Probe(sels[i], Some(!AnyListed(els, Unescape(sels[i])))))
  }

  /**
   * The corrected escaped iterator never fails; afterwards an escaped
   * selector whose class no element carries has no rule left, and one whose
   * class some element carries, alone or among others, keeps all its rules
   * on a flat sheet.
   */
  lemma ListedPassSpec(st: Sheet, sels: seq<string>, els: seq<Element>, kind: string)
    ensures Pass(st, ListedProbes(sels, els), kind).Some?
    ensures var r := Pass(st, ListedProbes(sels, els), kind).value;
            (forall i :: 0 <= i < |sels| && !AnyListed(els, Unescape(sels[i])) ==>
               Matches(r.css, SelectorIs(sels[i])) == [])
            && (forall t :: t in Doomed(ListedProbes(sels, els)) <==>
                  exists i :: 0 <= i < |sels| && sels[i] == t && !AnyListed(els, Unescape(sels[i])))
            && (Flat(st.css) ==> RuleList(r.css) == KeepRules(RuleList(st.css), Doomed(ListedProbes(sels, els))))
  {
    var ps := ListedProbes(sels, els);
    assert |ps| == |sels| && forall i :: 0 <= i < |sels| ==> ps[i] == Probe(sels[i], Some(!AnyListed(els, Unescape(sels[i]))));
    PassTotal(st, ps, kind);
    PassRemoves(st, ps, kind);
    forall t
      ensures t in Doomed(ps) <==> exists i :: 0 <= i < |sels| && sels[i] == t && !AnyListed(els, Unescape(sels[i]))
    {
      DoomedMembers(ps, t);
    }
    if Flat(st.css) {
      PassKeeps(st, ps, kind);
    }
  }

  /** The corrected escaped iterator over a given element list. */
  method ListedIterator(af: AmpFile, kind: string, sels: seq<string>, els: seq<Element>)
    modifies af`parsedCss, af`selectorsRemoved
    ensures Pass(old(af.Styles()), ListedProbes(sels, els), kind) == Some(af.Styles())
  {
    ghost var ps := ListedProbes(sels, els);
    PassTotal(af.Styles(), ps, kind);
    var i := 0;
    while i < |sels|
      invariant 0 <= i <= |sels|
      invariant Pass(af.Styles(), ps[i..], kind) == Pass(old(af.Styles()), ps, kind)
    {
      assert ps[i..][0] == ps[i] && ps[i..][1..] == ps[i + 1..];
      var used := ListedOnPage(els, Unescape(sels[i]));
      if !used {
        RemoveWalk(af, SelectorIs(sels[i]), kind);
      }
      i := i + 1;
    }
    assert ps[i..] == [];
  }

  /**
   * For class names without whitespace the corrected iterator removes no
   * selector the one as written keeps: a whole-attribute match is a
   * class-list match.
   */
  lemma ListedDoomsNoMore(sels: seq<string>, els: seq<Element>)
    requires forall i, k :: 0 <= i < |sels| && 0 <= k < |Unescape(sels[i])| ==> !Space(Unescape(sels[i])[k])
    ensures forall t :: t in Doomed(ListedProbes(sels, els)) ==> t in Doomed(EscapedProbes(sels, els))
  {
    var listed, named := ListedProbes(sels, els), EscapedProbes(sels, els);
    assert |listed| == |sels| && forall i :: 0 <= i < |sels| ==> listed[i] == Probe(sels[i], Some(!AnyListed(els, Unescape(sels[i]))));
    assert |named| == |sels| && forall i :: 0 <= i < |sels| ==> named[i] == Probe(sels[i], Some(!AnyNamed(els, Unescape(sels[i]))));
    forall t | t in Doomed(ListedProbes(sels, els))
      ensures t in Doomed(EscapedProbes(sels, els))
    {
      DoomedMembers(ListedProbes(sels, els), t);
      DoomedMembers(EscapedProbes(sels, els), t);
      var i :| 0 <= i < |sels| && sels[i] == t && !AnyListed(els, Unescape(sels[i]));
      if AnyNamed(els, Unescape(sels[i])) {
        var j :| 0 <= j < |els| && NamedBy(els[j], Unescape(sels[i]));
        NamedIsListed(els[j], Unescape(sels[i]));
      }
    }
  }

  /** The escaped selector `.sm\:flex:hover` of the class `sm:flex`. */
  function ExampleEscaped(): (sel: string)
    ensures Unescape(sel) == "sm:flex"
  {
    EscapeRoundTrip('.', "sm:flex", ":hover");
    ['.'] + Escape("sm:flex") + ":hover"
  }

  /** On the page of one element with `class="sm:flex p-4"`, `sm:flex` is listed but not named. */
  lemma ExamplePage(els: seq<Element>)
    requires els == [Element(Some("sm:flex p-4"), None)]
    ensures !AnyNamed(els, "sm:flex") && AnyListed(els, "sm:flex")
  {
    WholeAttributeMissesListedClass();
    assert ListedBy(els[0], "sm:flex");
  }

  /** A tree whose first node the test hits has a match. */
  lemma FirstHitMatches(ns: seq<Node>, m: Matcher)
    requires |ns| > 0 && Hits(m, ns[0])
    ensures Matches(ns, m) != []
  {
    assert Matches(ns, m)[0] == ns[0];
  }

  /** Probes that all find their selector used leave the sheet as it is. */
  lemma {:induction false} PassKeepsAll(st: Sheet, ps: seq<Probe>, kind: string)
    requires forall i :: 0 <= i < |ps| ==> ps[i].verdict == Some(false)
    ensures Pass(st, ps, kind) == Some(st)
    decreases |ps|
  {
    if |ps| > 0 {
      PassKeepsAll(st, ps[1..], kind);
    }
  }

  /**
   * As written, the rule of `.sm\:flex:hover` is removed from a page whose
   * only element has `class="sm:flex p-4"`; the corrected iterator keeps it.
   */
  lemma AsWrittenDropsListedClass(sel: string, st: Sheet, els: seq<Element>)
    requires sel == ExampleEscaped()
    requires st == Sheet([Rule(sel, [sel], [Decl("color", "red")])], map[])
    requires els == [Element(Some("sm:flex p-4"), None)]
    ensures Matches(st.css, SelectorIs(sel)) != []
    ensures Pass(st, EscapedProbes([sel], els), "escapedPseudos").Some?
    ensures Matches(Pass(st, EscapedProbes([sel], els), "escapedPseudos").value.css, SelectorIs(sel)) == []
    ensures Pass(st, ListedProbes([sel], els), "escapedPseudos") == Some(st)
  {
    ExamplePage(els);
    EscapedPassSpec(st, [sel], els, "escapedPseudos");
    PassKeepsAll(st, ListedProbes([sel], els), "escapedPseudos");
    FirstHitMatches(st.css, SelectorIs(sel));
  }
}
