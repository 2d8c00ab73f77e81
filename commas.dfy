/**
 * `_handleCommaSeparatedSelectors`, the part the three optimizers share: a
 * rule with several selectors is kept or removed as a whole. Per entry, in
 * bucket order, the rules of exactly that selector text without children
 * are removed under 'emptySelectors', the entry's branches decide whether
 * it is used (the decision only asks the page, never the sheet, so it is
 * given as one verdict per entry, `None` where a query throws), the flag is
 * written back into the entry, and an unused entry's rules are removed
 * under 'Comma Separated Selector'.
 */
module Commas {

  import opened Wrappers
  import opened Css
  import opened Buckets
  import opened AmpFiles
  import opened Sweeps

  const EmptyKind := "emptySelectors"
  const CommaKind := "Comma Separated Selector"

  /** What an optimizer run changes on the record: the sheet, the comma entries and the keyframe entries. */
  datatype Pruned = Pruned(sheet: Sheet, commas: seq<CommaEntry>, frames: seq<KeyframeEntry>)

  /** The sheet after the step and the entries with their `isUsed` flags. */
  datatype CommaOutcome = CommaOutcome(sheet: Sheet, entries: seq<CommaEntry>)

  /**
   * The loop from entry `i` on, with verdict `vs[k]` for entry `k`;
   * `empties` says whether the loop itself removes the entry's empty rules
   * first. `None` at the first verdict that throws.
   */
  function CommaFrom(st: Sheet, es: seq<CommaEntry>, vs: seq<Option<bool>>, i: nat, empties: bool)
    : Option<CommaOutcome>
    requires |vs| == |es|
    decreases |es| - i
  {
    if i >= |es| then Some(CommaOutcome(st, es))
    else
      var sel := es[i].selectorStr;
      var st1 := if empties then Sweep(st, EmptyRuleIs(sel), EmptyKind) else st;
      match vs[i]
      case None => None
      case Some(used) =>
        var st2 := if used then st1 else Sweep(st1, SelectorIs(sel), CommaKind);
        CommaFrom(st2, es[i := es[i].(isUsed := used)], vs, i + 1, empties)
  }

  /** The rule is one the walks of entry `e` remove: its selector text, and empty or `e` unused. */
  predicate DroppedBy(r: Node, e: CommaEntry, empties: bool) {
    r.Rule? && r.selector == e.selectorStr && ((empties && |r.nodes| == 0) || !e.isUsed)
  }

  /** The rules of a list that the walks of none of the entries remove, in order. */
  function Survivors(rs: seq<Node>, es: seq<CommaEntry>, empties: bool): seq<Node>
    decreases |rs|
  {
    if |rs| == 0 then []
    else
      (if exists k :: 0 <= k < |es| && DroppedBy(rs[0], es[k], empties) then [] else [rs[0]])
      + Survivors(rs[1..], es, empties)
  }

  /** The rules left by the walks of one entry, on the rule list of a flat sheet. */
  function EntryUnhit(rs: seq<Node>, e: CommaEntry, empties: bool): seq<Node> {
    var r1 := if empties then Unhit(rs, EmptyRuleIs(e.selectorStr)) else rs;
    if e.isUsed then r1 else Unhit(r1, SelectorIs(e.selectorStr))
  }

  /** The walks of one entry on a rule list, one rule at a time. */
  lemma EntryUnhitCons(rs: seq<Node>, e: CommaEntry, empties: bool)
    requires |rs| > 0
    ensures EntryUnhit(rs, e, empties)
            == (if DroppedBy(rs[0], e, empties) then [] else [rs[0]]) + EntryUnhit(rs[1..], e, empties)
  {
    var r := rs[0];
    var sel := e.selectorStr;
    assert rs == [r] + rs[1..];
    assert [r][1..] == [];
    UnhitAppend([r], rs[1..], EmptyRuleIs(sel));
    var r1 := if empties then Unhit(rs, EmptyRuleIs(sel)) else rs;
    var h1 := if empties && Hits(EmptyRuleIs(sel), r) then [] else [r];
    var t1 := if empties then Unhit(rs[1..], EmptyRuleIs(sel)) else rs[1..];
    assert r1 == h1 + t1;
    UnhitAppend(h1, t1, SelectorIs(sel));
    if h1 != [] {
      assert h1[1..] == [];
    }
  }

  /** The walks of one entry followed by those of the rest drop what all of them drop. */
  lemma {:induction false} SurvivorsCons(rs: seq<Node>, e: CommaEntry, rest: seq<CommaEntry>, empties: bool)
    ensures Survivors(EntryUnhit(rs, e, empties), rest, empties) == Survivors(rs, [e] + rest, empties)
    decreases |rs|
  {
    var es := [e] + rest;
    if |rs| > 0 {
      SurvivorsCons(rs[1..], e, rest, empties);
      EntryUnhitCons(rs, e, empties);
      var r := rs[0];
      var here := DroppedBy(r, e, empties);
      assert (exists k :: 0 <= k < |es| && DroppedBy(r, es[k], empties))
             <==> here || exists k :: 0 <= k < |rest| && DroppedBy(r, rest[k], empties) by {
        if exists k :: 0 <= k < |rest| && DroppedBy(r, rest[k], empties) {
          var k :| 0 <= k < |rest| && DroppedBy(r, rest[k], empties);
          assert es[k + 1] == rest[k];
        }
        if exists k :: 0 <= k < |es| && DroppedBy(r, es[k], empties) {
          var k :| 0 <= k < |es| && DroppedBy(r, es[k], empties);
          if k > 0 {
            assert rest[k - 1] == es[k];
          }
        }
        assert es[0] == e;
      }
      if !here {
        var u := EntryUnhit(rs, e, empties);
        assert u[0] == r && u[1..] == EntryUnhit(rs[1..], e, empties);
        var head := if exists k :: 0 <= k < |rest| && DroppedBy(r, rest[k], empties) then [] else [r];
        assert Survivors(u, rest, empties) == head + Survivors(u[1..], rest, empties);
        assert Survivors(rs, es, empties) == head + Survivors(rs[1..], es, empties);
      } else {
        assert EntryUnhit(rs, e, empties) == EntryUnhit(rs[1..], e, empties);
        assert Survivors(rs, es, empties) == Survivors(rs[1..], es, empties);
      }
    } else {
      assert EntryUnhit(rs, e, empties) == [];
    }
  }

  lemma {:induction false} SurvivorsNone(rs: seq<Node>, empties: bool)
    ensures Survivors(rs, [], empties) == rs
    decreases |rs|
  {
    if |rs| > 0 {
      SurvivorsNone(rs[1..], empties);
      assert rs == [rs[0]] + rs[1..];
    }
  }

  /** One entry of the comma step: its walks, then the rest of the entries. */
  lemma CommaStep(st: Sheet, es: seq<CommaEntry>, vs: seq<Option<bool>>, i: nat, empties: bool)
    requires |vs| == |es| && i < |es| && vs[i].Some?
    ensures var sel := es[i].selectorStr;
            var st1 := if empties then Sweep(st, EmptyRuleIs(sel), EmptyKind) else st;
            var st2 := if vs[i].value then st1 else Sweep(st1, SelectorIs(sel), CommaKind);
            CommaFrom(st, es, vs, i, empties)
            == CommaFrom(st2, es[i := es[i].(isUsed := vs[i].value)], vs, i + 1, empties)
  {
  }

  /**
   * What the comma step promises: it fails exactly when some remaining
   * verdict throws; otherwise each remaining entry's flag becomes its
   * verdict and nothing else about the entries changes, and no rule of an
   * unused entry's selector text is left anywhere.
   */
  lemma {:induction false} CommaFromSpec(st: Sheet, es: seq<CommaEntry>, vs: seq<Option<bool>>, i: nat,
                                         empties: bool)
    requires |vs| == |es| && i <= |es|
    ensures CommaFrom(st, es, vs, i, empties).Some? <==> forall k :: i <= k < |es| ==> vs[k].Some?
    ensures CommaFrom(st, es, vs, i, empties).Some? ==>
              var o := CommaFrom(st, es, vs, i, empties).value;
              |o.entries| == |es|
              && (forall k :: 0 <= k < i ==> o.entries[k] == es[k])
              && (forall k :: i <= k < |es| ==> o.entries[k] == es[k].(isUsed := vs[k].value))
              && (forall k :: i <= k < |es| && !vs[k].value ==>
                    Matches(o.sheet.css, SelectorIs(es[k].selectorStr)) == [])
    decreases |es| - i
  {
    if i < |es| && vs[i].Some? {
      var sel := es[i].selectorStr;
      var st1 := if empties then Sweep(st, EmptyRuleIs(sel), EmptyKind) else st;
      var used := vs[i].value;
      var st2 := if used then st1 else Sweep(st1, SelectorIs(sel), CommaKind);
      var es' := es[i := es[i].(isUsed := used)];
      CommaStep(st, es, vs, i, empties);
      CommaFromSpec(st2, es', vs, i + 1, empties);
      if CommaFrom(st, es, vs, i, empties).Some? && !used {
        PruneRemovesHits(st1.css, SelectorIs(sel));
        CommaKeepsAbsence(st2, es', vs, i + 1, empties, sel);
      }
    }
  }

  /**
   * On a flat sheet the comma step keeps the sheet flat, and the rules left
   * are exactly those that the walks of none of the entries remove, in order.
   */
  lemma {:induction false} CommaFromFlat(st: Sheet, es: seq<CommaEntry>, vs: seq<Option<bool>>, i: nat,
                                         empties: bool)
    requires |vs| == |es| && i <= |es| && Flat(st.css)
    requires CommaFrom(st, es, vs, i, empties).Some?
    ensures var o := CommaFrom(st, es, vs, i, empties).value;
            |o.entries| == |es|
            && Flat(o.sheet.css) && RuleList(o.sheet.css) == Survivors(RuleList(st.css), o.entries[i..], empties)
    decreases |es| - i
  {
    if i >= |es| {
      assert es[i..] == [];
      SurvivorsNone(RuleList(st.css), empties);
    } else {
      var sel := es[i].selectorStr;
      var st1 := if empties then Sweep(st, EmptyRuleIs(sel), EmptyKind) else st;
      var used := vs[i].value;
      var st2 := if used then st1 else Sweep(st1, SelectorIs(sel), CommaKind);
      var es' := es[i := es[i].(isUsed := used)];
      CommaStep(st, es, vs, i, empties);
      var rs := RuleList(st.css);
      if empties {
        SweepSpec(st, EmptyRuleIs(sel), EmptyKind);
      }
      if !used {
        SweepSpec(st1, SelectorIs(sel), CommaKind);
      }
      assert RuleList(st2.css) == EntryUnhit(rs, es'[i], empties);
      CommaFromFlat(st2, es', vs, i + 1, empties);
      CommaFromSpec(st2, es', vs, i + 1, empties);
      var o := CommaFrom(st, es, vs, i, empties).value;
      SurvivorsCons(rs, es'[i], o.entries[i + 1..], empties);
      assert o.entries[i] == es'[i];
      assert o.entries[i..] == [es'[i]] + o.entries[i + 1..];
    }
  }

  /** A selector text with no rules left gets none back from the rest of the comma step. */
  lemma {:induction false} CommaKeepsAbsence(st: Sheet, es: seq<CommaEntry>, vs: seq<Option<bool>>, i: nat,
                                             empties: bool, t: string)
    requires |vs| == |es|
    requires Matches(st.css, SelectorIs(t)) == []
    requires CommaFrom(st, es, vs, i, empties).Some?
    ensures Matches(CommaFrom(st, es, vs, i, empties).value.sheet.css, SelectorIs(t)) == []
    decreases |es| - i
  {
    if i < |es| {
      var sel := es[i].selectorStr;
      var st1 := if empties then Sweep(st, EmptyRuleIs(sel), EmptyKind) else st;
      var used := vs[i].value;
      var st2 := if used then st1 else Sweep(st1, SelectorIs(sel), CommaKind);
      if empties {
        PruneKeepsAbsence(st.css, SelectorIs(t), EmptyRuleIs(sel));
      }
      if !used {
        PruneKeepsAbsence(st1.css, SelectorIs(t), SelectorIs(sel));
      }
      CommaKeepsAbsence(st2, es[i := es[i].(isUsed := used)], vs, i + 1, empties, t);
    }
  }

  /**
   * The comma loop over the file's entries with the given verdicts, the
   * entry's empty-rule walk first when `empties`.
   */
  method CommaLoop(af: AmpFile, vs: seq<Option<bool>>, empties: bool) returns (ok: bool)
    requires |vs| == |af.commaSeparatedSelectors|
    modifies af`parsedCss, af`selectorsRemoved, af`commaSeparatedSelectors
    ensures ok == CommaFrom(old(af.Styles()), old(af.commaSeparatedSelectors), vs, 0, empties).Some?
    ensures ok ==> CommaFrom(old(af.Styles()), old(af.commaSeparatedSelectors), vs, 0, empties)
                   == Some(CommaOutcome(af.Styles(), af.commaSeparatedSelectors))
  {
    var i := 0;
    while i < |af.commaSeparatedSelectors|
      invariant 0 <= i <= |af.commaSeparatedSelectors| == |vs|
      invariant CommaFrom(af.Styles(), af.commaSeparatedSelectors, vs, i, empties)
                == CommaFrom(old(af.Styles()), old(af.commaSeparatedSelectors), vs, 0, empties)
      decreases |af.commaSeparatedSelectors| - i
    {
      ghost var st := af.Styles();
      ghost var es := af.commaSeparatedSelectors;
      var sel := af.commaSeparatedSelectors[i].selectorStr;
      ghost var st1 := if empties then Sweep(st, EmptyRuleIs(sel), EmptyKind) else st;
      if empties {
        RemoveWalk(af, EmptyRuleIs(sel), EmptyKind);
      }
      assert af.Styles() == st1 && af.commaSeparatedSelectors == es;
      if vs[i].None? {
        assert CommaFrom(st, es, vs, i, empties) == None;
        return false;
      }
      var used := vs[i].value;
      ghost var st2 := if used then st1 else Sweep(st1, SelectorIs(sel), CommaKind);
      if !used {
        RemoveWalk(af, SelectorIs(sel), CommaKind);
      }
      assert af.Styles() == st2 && af.commaSeparatedSelectors == es;
      af.commaSeparatedSelectors := af.commaSeparatedSelectors[i := af.commaSeparatedSelectors[i].(isUsed := used)];
      CommaStep(st, es, vs, i, empties);
      assert CommaFrom(af.Styles(), af.commaSeparatedSelectors, vs, i + 1, empties) == CommaFrom(st, es, vs, i, empties);
      i := i + 1;
    }
    return true;
  }
}
