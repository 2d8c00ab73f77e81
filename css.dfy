/**
 * The parsed style sheet as the optimizers see it (a postcss tree), and what
 * one `walkRules` or `walkAtRules` pass with a removing callback does to it.
 *
 * A walk visits the nodes of the tree as it stood when the walk began, in
 * preorder; a node removed by the callback is not revisited, its siblings
 * are not skipped, and its own children are still walked (and may hit and be
 * "removed" again from the detached subtree). So one pass leaves
 * `Prune(tree, m)` behind and calls the callback once for every node of
 * `Matches(tree, m)`, in that order. A node is checked before its children are
 * visited, so the test sees its original children.
 */
module Css {

  import opened Strings

  datatype Node =
    | Rule(selector: string, selectors: seq<string>, nodes: seq<Node>)
    | AtRule(name: string, params: string, nodes: seq<Node>)
    | Decl(prop: string, value: string)
    | Comment(text: string)

  predicate IsParent(n: Node) {
    n.Rule? || n.AtRule?
  }

  function Children(n: Node): seq<Node> {
    if IsParent(n) then n.nodes else []
  }

  /** The node with its children replaced (a leaf stays as it is). */
  function WithChildren(n: Node, c: seq<Node>): Node {
    match n
    case Rule(s, ss, _) => Rule(s, ss, c)
    case AtRule(a, p, _) => AtRule(a, p, c)
    case _ => n
  }

  /** The callback tests the walks of the optimizers apply before removing a node. */
  datatype Matcher =
    | EmptyRule                     // walkRules(cb), cb tests `rule.nodes.length === 0`
    | EmptyRuleIs(sel: string)      // walkRules(sel, cb), same test
    | SelectorIs(sel: string)       // walkRules(sel, cb), or walkRules(cb) testing `selector === sel`
    | KeyframesNamed(names: seq<string>)  // walkAtRules('keyframes', cb), cb tests `names.includes(params)`

  predicate Hits(m: Matcher, n: Node) {
    match m
    case EmptyRule => n.Rule? && |n.nodes| == 0
    case EmptyRuleIs(s) => n.Rule? && n.selector == s && |n.nodes| == 0
    case SelectorIs(s) => n.Rule? && n.selector == s
    case KeyframesNamed(names) => n.AtRule? && n.name == "keyframes" && n.params in names
  }

  /** A test that does not look at the node's children. */
  predicate Local(m: Matcher) {
    m.SelectorIs? || m.KeyframesNamed?
  }

  /** A test that only ever hits rules. */
  predicate RuleTest(m: Matcher) {
    !m.KeyframesNamed?
  }

  /** What the removal callback records for a node: its selector or its parameters. */
  function Label(n: Node): string {
    if n.Rule? then n.selector else if n.AtRule? then n.params else ""
  }

  function Labels(ns: seq<Node>): (r: seq<string>)
    ensures |r| == |ns|
    ensures forall i :: 0 <= i < |ns| ==> r[i] == Label(ns[i])
  {
    seq(|ns|, i requires 0 <= i < |ns| => Label(ns[i]))
  }

  /** The tree left behind by one removing walk. */
  function Prune(ns: seq<Node>, m: Matcher): seq<Node>
    decreases ns
  {
    if |ns| == 0 then []
    else
      var n := ns[0];
      var kept := if IsParent(n) then WithChildren(n, Prune(n.nodes, m)) else n;
      (if Hits(m, n) then [] else [kept]) + Prune(ns[1..], m)
  }

  /** The nodes the walk's callback removes and records, in visiting order. */
  function Matches(ns: seq<Node>, m: Matcher): seq<Node>
    decreases ns
  {
    if |ns| == 0 then []
    else
      var n := ns[0];
      (if Hits(m, n) then [n] else [])
      + (if IsParent(n) then Matches(n.nodes, m) else [])
      + Matches(ns[1..], m)
  }

  /** Every rule of the tree, in preorder (the order `walkRules` visits them). */
  function RuleList(ns: seq<Node>): seq<Node>
    decreases ns
  {
    if |ns| == 0 then []
    else
      var n := ns[0];
      (if n.Rule? then [n] else [])
      + (if IsParent(n) then RuleList(n.nodes) else [])
      + RuleList(ns[1..])
  }

  /** The rules a test does not hit, in order. */
  function Unhit(rs: seq<Node>, m: Matcher): seq<Node>
    decreases |rs|
  {
    if |rs| == 0 then []
    else (if Hits(m, rs[0]) then [] else [rs[0]]) + Unhit(rs[1..], m)
  }

  /** The rules a test hits, in order. */
  function Hit(rs: seq<Node>, m: Matcher): seq<Node>
    decreases |rs|
  {
    if |rs| == 0 then []
    else (if Hits(m, rs[0]) then [rs[0]] else []) + Hit(rs[1..], m)
  }

  /** No rule has a rule or an at-rule among its children (the usual, un-nested style sheet). */
  predicate Flat(ns: seq<Node>)
    decreases ns
  {
    |ns| == 0 ||
    ((ns[0].Rule? ==> forall i :: 0 <= i < |ns[0].nodes| ==> !IsParent(ns[0].nodes[i]))
     && (IsParent(ns[0]) ==> Flat(ns[0].nodes))
     && Flat(ns[1..]))
  }

  lemma {:induction false} PruneAppend(a: seq<Node>, b: seq<Node>, m: Matcher)
    ensures Prune(a + b, m) == Prune(a, m) + Prune(b, m)
    decreases |a|
  {
    if |a| > 0 {
      var n := a[0];
      var kept := if IsParent(n) then WithChildren(n, Prune(n.nodes, m)) else n;
      var h := if Hits(m, n) then [] else [kept];
      assert (a + b)[0] == n && (a + b)[1..] == a[1..] + b;
      assert Prune(a + b, m) == h + Prune(a[1..] + b, m);
      PruneAppend(a[1..], b, m);
      assert Prune(a, m) == h + Prune(a[1..], m);
      AppendAssoc(h, Prune(a[1..], m), Prune(b, m));
    } else {
      assert a + b == b;
    }
  }

  lemma {:induction false} MatchesAppend(a: seq<Node>, b: seq<Node>, m: Matcher)
    ensures Matches(a + b, m) == Matches(a, m) + Matches(b, m)
    decreases |a|
  {
    if |a| > 0 {
      var n := a[0];
      var h := (if Hits(m, n) then [n] else []) + (if IsParent(n) then Matches(n.nodes, m) else []);
      assert (a + b)[0] == n && (a + b)[1..] == a[1..] + b;
      assert Matches(a + b, m) == h + Matches(a[1..] + b, m);
      MatchesAppend(a[1..], b, m);
      assert Matches(a, m) == h + Matches(a[1..], m);
      AppendAssoc(h, Matches(a[1..], m), Matches(b, m));
    } else {
      assert a + b == b;
    }
  }

  lemma {:induction false} RuleListAppend(a: seq<Node>, b: seq<Node>)
    ensures RuleList(a + b) == RuleList(a) + RuleList(b)
    decreases |a|
  {
    if |a| > 0 {
      var n := a[0];
      var h := (if n.Rule? then [n] else []) + (if IsParent(n) then RuleList(n.nodes) else []);
      assert (a + b)[0] == n && (a + b)[1..] == a[1..] + b;
      assert RuleList(a + b) == h + RuleList(a[1..] + b);
      RuleListAppend(a[1..], b);
      assert RuleList(a) == h + RuleList(a[1..]);
      AppendAssoc(h, RuleList(a[1..]), RuleList(b));
    } else {
      assert a + b == b;
    }
  }

  lemma {:induction false} UnhitAppend(a: seq<Node>, b: seq<Node>, m: Matcher)
    ensures Unhit(a + b, m) == Unhit(a, m) + Unhit(b, m)
    decreases |a|
  {
    if |a| > 0 {
      var n := a[0];
      var h := if Hits(m, n) then [] else [n];
      assert (a + b)[0] == n && (a + b)[1..] == a[1..] + b;
      assert Unhit(a + b, m) == h + Unhit(a[1..] + b, m);
      UnhitAppend(a[1..], b, m);
      assert Unhit(a, m) == h + Unhit(a[1..], m);
      AppendAssoc(h, Unhit(a[1..], m), Unhit(b, m));
    } else {
      assert a + b == b;
    }
  }

  lemma {:induction false} HitAppend(a: seq<Node>, b: seq<Node>, m: Matcher)
    ensures Hit(a + b, m) == Hit(a, m) + Hit(b, m)
    decreases |a|
  {
    if |a| > 0 {
      var n := a[0];
      var h := if Hits(m, n) then [n] else [];
      assert (a + b)[0] == n && (a + b)[1..] == a[1..] + b;
      assert Hit(a + b, m) == h + Hit(a[1..] + b, m);
      HitAppend(a[1..], b, m);
      assert Hit(a, m) == h + Hit(a[1..], m);
      AppendAssoc(h, Hit(a[1..], m), Hit(b, m));
    } else {
      assert a + b == b;
    }
  }

  /** A walk that hits nothing removes nothing. */
  lemma {:induction false} PruneMissesNothing(ns: seq<Node>, m: Matcher)
    requires Matches(ns, m) == []
    ensures Prune(ns, m) == ns
    decreases ns
  {
    if |ns| > 0 {
      var n := ns[0];
      PruneMissesNothing(ns[1..], m);
      if IsParent(n) {
        PruneMissesNothing(n.nodes, m);
      }
      assert ns == [n] + ns[1..];
    }
  }

  /** After a walk with a local test, no node of the tree passes that test any more. */
  lemma {:induction false} PruneRemovesHits(ns: seq<Node>, m: Matcher)
    requires Local(m)
    ensures Matches(Prune(ns, m), m) == []
    decreases ns
  {
    if |ns| > 0 {
      var n := ns[0];
      var kept := if IsParent(n) then WithChildren(n, Prune(n.nodes, m)) else n;
      var head := if Hits(m, n) then [] else [kept];
      PruneRemovesHits(ns[1..], m);
      MatchesAppend(head, Prune(ns[1..], m), m);
      if !Hits(m, n) {
        if IsParent(n) {
          PruneRemovesHits(n.nodes, m);
          assert kept.nodes == Prune(n.nodes, m);
        }
        assert head[1..] == [];
        assert Matches(head, m) == Matches([kept], m);
      }
    }
  }

  /** A walk with a local test cannot create a hit for another local test. */
  lemma {:induction false} PruneKeepsAbsence(ns: seq<Node>, m: Matcher, other: Matcher)
    requires Local(m) && Matches(ns, m) == []
    ensures Matches(Prune(ns, other), m) == []
    decreases ns
  {
    if |ns| > 0 {
      var n := ns[0];
      var kept := if IsParent(n) then WithChildren(n, Prune(n.nodes, other)) else n;
      var head := if Hits(other, n) then [] else [kept];
      MatchesAppend([n], ns[1..], m);
      assert ns == [n] + ns[1..];
      PruneKeepsAbsence(ns[1..], m, other);
      MatchesAppend(head, Prune(ns[1..], other), m);
      if !Hits(other, n) {
        if IsParent(n) {
          PruneKeepsAbsence(n.nodes, m, other);
          assert kept.nodes == Prune(n.nodes, other);
        }
        assert head[1..] == [];
      }
    }
  }

  /** Walking twice with the same local test removes nothing the second time. */
  lemma PruneIdempotent(ns: seq<Node>, m: Matcher)
    requires Local(m)
    ensures Prune(Prune(ns, m), m) == Prune(ns, m)
  {
    PruneRemovesHits(ns, m);
    PruneMissesNothing(Prune(ns, m), m);
  }

  /** A rule test hits only rules, so the callback sees exactly the hit rules in rule order. */
  lemma {:induction false} MatchesAreHitRules(ns: seq<Node>, m: Matcher)
    requires RuleTest(m)
    ensures Matches(ns, m) == Hit(RuleList(ns), m)
    decreases ns
  {
    if |ns| > 0 {
      var n := ns[0];
      var own := if n.Rule? then [n] else [];
      var sub := if IsParent(n) then RuleList(n.nodes) else [];
      MatchesAreHitRules(ns[1..], m);
      if IsParent(n) {
        MatchesAreHitRules(n.nodes, m);
      }
      HitAppend(own + sub, RuleList(ns[1..]), m);
      HitAppend(own, sub, m);
      if n.Rule? {
        assert own[1..] == [];
      }
    }
  }

  /** Inside a flat rule there is nothing a walk can remove. */
  lemma LeavesUntouched(cs: seq<Node>, m: Matcher)
    requires forall i :: 0 <= i < |cs| ==> !IsParent(cs[i])
    ensures Prune(cs, m) == cs
  {
    assert Matches(cs, m) == [] by {
      LeavesMatchNothing(cs, m);
    }
    PruneMissesNothing(cs, m);
  }

  lemma {:induction false} LeavesMatchNothing(cs: seq<Node>, m: Matcher)
    requires forall i :: 0 <= i < |cs| ==> !IsParent(cs[i])
    ensures Matches(cs, m) == []
    decreases |cs|
  {
    if |cs| > 0 {
      LeavesMatchNothing(cs[1..], m);
    }
  }

  /**
   * On a flat sheet, a walk with a rule test deletes exactly the rules it
   * hits: the rules left are the others, unchanged and in their order.
   */
  lemma {:induction false} PruneKeepsUnhitRules(ns: seq<Node>, m: Matcher)
    requires RuleTest(m) && Flat(ns)
    ensures RuleList(Prune(ns, m)) == Unhit(RuleList(ns), m)
    decreases ns
  {
    if |ns| > 0 {
      var n := ns[0];
      var kept := if IsParent(n) then WithChildren(n, Prune(n.nodes, m)) else n;
      var head := if Hits(m, n) then [] else [kept];
      var own := if n.Rule? then [n] else [];
      var sub := if IsParent(n) then RuleList(n.nodes) else [];
      PruneKeepsUnhitRules(ns[1..], m);
      RuleListAppend(head, Prune(ns[1..], m));
      UnhitAppend(own + sub, RuleList(ns[1..]), m);
      UnhitAppend(own, sub, m);
      if n.Rule? {
        LeavesUntouched(n.nodes, m);
        assert kept == n;
        if n.nodes != [] {
          assert !n.nodes[0].Rule?;
        }
        assert RuleList(n.nodes) == [] by {
          LeavesHaveNoRules(n.nodes);
        }
        assert own[1..] == [];
        assert RuleList([n]) == [n] by {
          assert [n][1..] == [];
        }
        assert Unhit(own + sub, m) == Unhit([n], m) by {
          assert own + sub == [n];
        }
        if !Hits(m, n) {
          assert head == [n];
        }
      } else if n.AtRule? {
        PruneKeepsUnhitRules(n.nodes, m);
        assert !Hits(m, n);
        assert head[1..] == [];
        assert kept.nodes == Prune(n.nodes, m);
      } else {
        assert head[1..] == [];
      }
    }
  }

  lemma {:induction false} LeavesHaveNoRules(cs: seq<Node>)
    requires forall i :: 0 <= i < |cs| ==> !IsParent(cs[i])
    ensures RuleList(cs) == []
    decreases |cs|
  {
    if |cs| > 0 {
      LeavesHaveNoRules(cs[1..]);
    }
  }

  lemma {:induction false} UnhitEmptyRules(rs: seq<Node>)
    ensures Hit(Unhit(rs, EmptyRule), EmptyRule) == []
    decreases |rs|
  {
    if |rs| > 0 {
      UnhitEmptyRules(rs[1..]);
      var head := if Hits(EmptyRule, rs[0]) then [] else [rs[0]];
      HitAppend(head, Unhit(rs[1..], EmptyRule), EmptyRule);
      if !Hits(EmptyRule, rs[0]) {
        assert head[1..] == [];
      }
    }
  }

  /** On a flat sheet, one empty-rule walk leaves no rule without children anywhere. */
  lemma FlatEmptyRulesGone(ns: seq<Node>)
    requires Flat(ns)
    ensures Matches(Prune(ns, EmptyRule), EmptyRule) == []
  {
    MatchesAreHitRules(Prune(ns, EmptyRule), EmptyRule);
    PruneKeepsUnhitRules(ns, EmptyRule);
    UnhitEmptyRules(RuleList(ns));
  }

  /**
   * With nesting the empty-rule walk is not exhaustive: a rule whose only
   * child is an empty rule is checked while it still has that child, so it
   * survives the walk empty.
   */
  lemma NestedEmptyRuleSurvives()
    ensures var sheet := [Rule("a", ["a"], [Rule("b", ["b"], [])])];
            Prune(sheet, EmptyRule) == [Rule("a", ["a"], [])]
            && Matches(Prune(sheet, EmptyRule), EmptyRule) == [Rule("a", ["a"], [])]
  {
    var inner := [Rule("b", ["b"], [])];
    assert Prune(inner, EmptyRule) == [];
    assert Prune([Rule("a", ["a"], [])], EmptyRule) == [];
  }

  /** Every node a walk's callback records passes the walk's test. */
  lemma {:induction false} MatchesAllHit(ns: seq<Node>, m: Matcher)
    ensures forall x :: x in Matches(ns, m) ==> Hits(m, x)
    decreases ns
  {
    if |ns| > 0 {
      MatchesAllHit(ns[1..], m);
      if IsParent(ns[0]) {
        MatchesAllHit(ns[0].nodes, m);
      }
    }
  }

  /** A test that hits only nodes another test hits finds nothing where the other finds nothing. */
  lemma {:induction false} MatchesNarrower(ns: seq<Node>, m: Matcher, q: Matcher)
    requires forall x :: Hits(q, x) ==> Hits(m, x)
    requires Matches(ns, m) == []
    ensures Matches(ns, q) == []
    decreases ns
  {
    if |ns| > 0 {
      MatchesAppend([ns[0]], ns[1..], m);
      assert ns == [ns[0]] + ns[1..];
      MatchesNarrower(ns[1..], m, q);
      if IsParent(ns[0]) {
        MatchesNarrower(ns[0].nodes, m, q);
      }
    }
  }

  /** A walk keeps a flat sheet flat. */
  lemma {:induction false} PruneKeepsFlat(ns: seq<Node>, m: Matcher)
    requires Flat(ns)
    ensures Flat(Prune(ns, m))
    decreases ns
  {
    if |ns| > 0 {
      var n := ns[0];
      var kept := if IsParent(n) then WithChildren(n, Prune(n.nodes, m)) else n;
      var head := if Hits(m, n) then [] else [kept];
      PruneKeepsFlat(ns[1..], m);
      if IsParent(n) {
        PruneKeepsFlat(n.nodes, m);
      }
      if n.Rule? {
        LeavesUntouched(n.nodes, m);
      }
      assert Flat(head) by {
        if !Hits(m, n) {
          assert head[1..] == [];
        }
      }
      FlatAppend(head, Prune(ns[1..], m));
    }
  }

  lemma {:induction false} FlatAppend(a: seq<Node>, b: seq<Node>)
    requires Flat(a) && Flat(b)
    ensures Flat(a + b)
    decreases |a|
  {
    if |a| > 0 {
      assert (a + b)[0] == a[0] && (a + b)[1..] == a[1..] + b;
      FlatAppend(a[1..], b);
    } else {
      assert a + b == b;
    }
  }

  /** The rules of a list whose selector is not among `dead`, in order. */
  function KeepRules(rs: seq<Node>, dead: set<string>): seq<Node>
    decreases |rs|
  {
    if |rs| == 0 then []
    else (if rs[0].Rule? && rs[0].selector in dead then [] else [rs[0]]) + KeepRules(rs[1..], dead)
  }

  lemma {:induction false} KeepNothing(rs: seq<Node>)
    ensures KeepRules(rs, {}) == rs
    decreases |rs|
  {
    if |rs| > 0 {
      KeepNothing(rs[1..]);
      assert rs == [rs[0]] + rs[1..];
    }
  }

  /** Dropping the rules with selector `t` and then those in `dead` drops those in `dead + {t}`. */
  lemma {:induction false} KeepUnhit(rs: seq<Node>, dead: set<string>, t: string)
    ensures KeepRules(Unhit(rs, SelectorIs(t)), dead) == KeepRules(rs, dead + {t})
    decreases |rs|
  {
    if |rs| > 0 {
      KeepUnhit(rs[1..], dead, t);
      var head := if Hits(SelectorIs(t), rs[0]) then [] else [rs[0]];
      KeepAppend(head, Unhit(rs[1..], SelectorIs(t)), dead);
      if head != [] {
        assert head[1..] == [];
      }
    }
  }

  lemma {:induction false} KeepAppend(a: seq<Node>, b: seq<Node>, dead: set<string>)
    ensures KeepRules(a + b, dead) == KeepRules(a, dead) + KeepRules(b, dead)
    decreases |a|
  {
    if |a| > 0 {
      assert (a + b)[0] == a[0] && (a + b)[1..] == a[1..] + b;
      KeepAppend(a[1..], b, dead);
    } else {
      assert a + b == b;
    }
  }

  /** No `@keyframes` block anywhere in the nodes. */
  predicate NoKeyframesIn(ns: seq<Node>)
    decreases ns
  {
    |ns| == 0 ||
    (!(ns[0].AtRule? && ns[0].name == "keyframes")
     && (IsParent(ns[0]) ==> NoKeyframesIn(ns[0].nodes))
     && NoKeyframesIn(ns[1..]))
  }

  /** No `@keyframes` block lies inside another one (as in every valid style sheet). */
  predicate NoNestedKeyframes(ns: seq<Node>)
    decreases ns
  {
    |ns| == 0 ||
    ((ns[0].AtRule? && ns[0].name == "keyframes" ==> NoKeyframesIn(ns[0].nodes))
     && (IsParent(ns[0]) ==> NoNestedKeyframes(ns[0].nodes))
     && NoNestedKeyframes(ns[1..]))
  }

  lemma {:induction false} NoKeyframesNoMatches(ns: seq<Node>, names: seq<string>)
    requires NoKeyframesIn(ns)
    ensures Matches(ns, KeyframesNamed(names)) == []
    decreases ns
  {
    if |ns| > 0 {
      NoKeyframesNoMatches(ns[1..], names);
      if IsParent(ns[0]) {
        NoKeyframesNoMatches(ns[0].nodes, names);
      }
    }
  }

  /**
   * Removing the `@keyframes` blocks named in `names` leaves every block of
   * another name where it was: the same blocks, by name, in the same order.
   */
  lemma {:induction false} KeyframesSurvive(ns: seq<Node>, names: seq<string>, other: string)
    requires other !in names && NoNestedKeyframes(ns)
    ensures Labels(Matches(Prune(ns, KeyframesNamed(names)), KeyframesNamed([other])))
            == Labels(Matches(ns, KeyframesNamed([other])))
    decreases ns
  {
    if |ns| > 0 {
      var m := KeyframesNamed(names);
      var q := KeyframesNamed([other]);
      var n := ns[0];
      var kept := if IsParent(n) then WithChildren(n, Prune(n.nodes, m)) else n;
      var head := if Hits(m, n) then [] else [kept];
      KeyframesSurvive(ns[1..], names, other);
      MatchesAppend(head, Prune(ns[1..], m), q);
      var own := (if Hits(q, n) then [n] else []);
      var sub := (if IsParent(n) then Matches(n.nodes, q) else []);
      LabelsAppend(own + sub, Matches(ns[1..], q));
      LabelsAppend(own, sub);
      if Hits(m, n) {
        assert !Hits(q, n);
        NoKeyframesNoMatches(n.nodes, [other]);
      } else {
        assert head[1..] == [];
        var kown := (if Hits(q, kept) then [kept] else []);
        var ksub := (if IsParent(kept) then Matches(kept.nodes, q) else []);
        assert Matches(head, q) == kown + ksub + Matches([], q);
        LabelsAppend(kown, ksub);
        LabelsAppend(kown + ksub, Matches(Prune(ns[1..], m), q));
        if IsParent(n) {
          KeyframesSurvive(n.nodes, names, other);
        }
        assert Labels(kown) == Labels(own);
      }
    }
  }

  lemma LabelsAppend(a: seq<Node>, b: seq<Node>)
    ensures Labels(a + b) == Labels(a) + Labels(b)
  {
  }

  /** The children `walkRules` hands to a per-rule callback, rule after rule. */
  function Bodies(rs: seq<Node>): seq<Node>
    decreases |rs|
  {
    if |rs| == 0 then [] else Children(rs[0]) + Bodies(rs[1..])
  }

  function ScannedChildren(ns: seq<Node>): seq<Node> {
    Bodies(RuleList(ns))
  }

  /**
   * The outcome of `ruleNode.value.includes(name)` over the scanned children
   * in order: whether a declaration value contained `name` before the scan
   * stopped, and whether it stopped on a node without a `value` (a comment, a
   * nested rule or at-rule), where the call throws a TypeError.
   */
  datatype Scan = Scan(found: bool, crashed: bool)

  function ScanFor(cs: seq<Node>, name: string): Scan
    decreases |cs|
  {
    if |cs| == 0 then Scan(false, false)
    else if cs[0].Decl? then
      var rest := ScanFor(cs[1..], name);
      Scan(Contains(cs[0].value, name) || rest.found, rest.crashed)
    else Scan(false, true)
  }

  /** Some declaration value inside some rule contains `name`. */
  predicate Referenced(ns: seq<Node>, name: string) {
    exists i :: 0 <= i < |ScannedChildren(ns)| && ScannedChildren(ns)[i].Decl?
                && Contains(ScannedChildren(ns)[i].value, name)
  }

  /** Only declarations are scanned, so a scan that did not crash finds exactly the references. */
  lemma {:induction false} ScanFinds(cs: seq<Node>, name: string)
    ensures ScanFor(cs, name).found ==>
              exists i :: 0 <= i < |cs| && cs[i].Decl? && Contains(cs[i].value, name)
    ensures !ScanFor(cs, name).crashed ==>
              (ScanFor(cs, name).found <==>
               exists i :: 0 <= i < |cs| && cs[i].Decl? && Contains(cs[i].value, name))
    ensures ScanFor(cs, name).crashed <==> exists i :: 0 <= i < |cs| && !cs[i].Decl?
    decreases |cs|
  {
    if |cs| > 0 {
      ScanFinds(cs[1..], name);
      if cs[0].Decl? {
        if exists i :: 0 <= i < |cs[1..]| && cs[1..][i].Decl? && Contains(cs[1..][i].value, name) {
          var i :| 0 <= i < |cs[1..]| && cs[1..][i].Decl? && Contains(cs[1..][i].value, name);
          assert cs[i + 1] == cs[1..][i];
        }
        if exists i :: 0 <= i < |cs[1..]| && !cs[1..][i].Decl? {
          var i :| 0 <= i < |cs[1..]| && !cs[1..][i].Decl?;
          assert cs[i + 1] == cs[1..][i];
        }
        if exists i :: 0 <= i < |cs| && cs[i].Decl? && Contains(cs[i].value, name) {
          var i :| 0 <= i < |cs| && cs[i].Decl? && Contains(cs[i].value, name);
          if i > 0 {
            assert cs[1..][i - 1] == cs[i];
          }
        }
        if exists i :: 0 <= i < |cs| && !cs[i].Decl? {
          var i :| 0 <= i < |cs| && !cs[i].Decl?;
          assert i > 0 && cs[1..][i - 1] == cs[i];
        }
      }
    }
  }

  lemma {:induction false} BodiesAppend(a: seq<Node>, b: seq<Node>)
    ensures Bodies(a + b) == Bodies(a) + Bodies(b)
    decreases |a|
  {
    if |a| == 0 {
      assert a + b == b;
    } else {
      assert (a + b)[0] == a[0] && (a + b)[1..] == a[1..] + b;
      BodiesAppend(a[1..], b);
      AppendAssoc(Children(a[0]), Bodies(a[1..]), Bodies(b));
    }
  }

  lemma ScannedAppend(a: seq<Node>, b: seq<Node>)
    ensures ScannedChildren(a + b) == ScannedChildren(a) + ScannedChildren(b)
  {
    RuleListAppend(a, b);
    BodiesAppend(RuleList(a), RuleList(b));
  }

  /** What one node hands to the scan: its own children if it is a rule, then those of the rules below it. */
  lemma ScannedOne(n: Node)
    ensures ScannedChildren([n]) == (if n.Rule? then n.nodes else [])
                                    + (if IsParent(n) then ScannedChildren(n.nodes) else [])
  {
    var own := if n.Rule? then [n] else [];
    var sub := if IsParent(n) then RuleList(n.nodes) else [];
    assert [n][1..] == [];
    assert RuleList([n]) == own + sub + RuleList([]);
    assert own + sub + [] == own + sub;
    BodiesAppend(own, sub);
    if n.Rule? {
      assert own[1..] == [];
      assert Bodies(own) == n.nodes + Bodies([]);
      assert n.nodes + [] == n.nodes;
    }
  }

  /** A scan of `cs` meets the same declaration, or (for any other node) some node that is not a declaration. */
  predicate Covered(x: Node, cs: seq<Node>) {
    if x.Decl? then x in cs else exists y :: y in cs && !y.Decl?
  }

  lemma CoveredWider(x: Node, a: seq<Node>, b: seq<Node>)
    requires forall y :: y in a ==> y in b
    requires Covered(x, a)
    ensures Covered(x, b)
  {
    if !x.Decl? {
      var y :| y in a && !y.Decl?;
      assert y in b;
    }
  }

  lemma {:induction false} PruneCovered(cs: seq<Node>, m: Matcher)
    ensures forall x :: x in Prune(cs, m) ==> Covered(x, cs)
    decreases cs
  {
    if |cs| > 0 {
      var n := cs[0];
      var kept := if IsParent(n) then WithChildren(n, Prune(n.nodes, m)) else n;
      PruneCovered(cs[1..], m);
      assert Prune(cs, m) == (if Hits(m, n) then [] else [kept]) + Prune(cs[1..], m);
      assert n in cs;
      forall x | x in Prune(cs, m)
        ensures Covered(x, cs)
      {
        if x in Prune(cs[1..], m) {
          CoveredWider(x, cs[1..], cs);
        } else {
          assert x == kept;
        }
      }
    }
  }

  /** Every node a scan meets after a removing walk is covered by the scan of the tree before it. */
  lemma {:induction false} ScannedCoveredAfterPrune(ns: seq<Node>, m: Matcher)
    ensures forall x :: x in ScannedChildren(Prune(ns, m)) ==> Covered(x, ScannedChildren(ns))
    decreases ns
  {
    if |ns| > 0 {
      var n := ns[0];
      var rest := ns[1..];
      var kept := if IsParent(n) then WithChildren(n, Prune(n.nodes, m)) else n;
      var head := if Hits(m, n) then [] else [kept];
      var all := ScannedChildren(ns);
      assert ns == [n] + rest;
      ScannedAppend([n], rest);
      assert Prune(ns, m) == head + Prune(rest, m);
      ScannedAppend(head, Prune(rest, m));
      ScannedCoveredAfterPrune(rest, m);
      forall x | x in ScannedChildren(Prune(rest, m))
        ensures Covered(x, all)
      {
        CoveredWider(x, ScannedChildren(rest), all);
      }
      if !Hits(m, n) {
        ScannedOne(n);
        ScannedOne(kept);
        if IsParent(n) {
          PruneCovered(n.nodes, m);
          ScannedCoveredAfterPrune(n.nodes, m);
          forall x | x in ScannedChildren(head)
            ensures Covered(x, all)
          {
            if n.Rule? && x in Prune(n.nodes, m) {
              CoveredWider(x, n.nodes, all);
            } else {
              assert x in ScannedChildren(Prune(n.nodes, m));
              CoveredWider(x, ScannedChildren(n.nodes), all);
            }
          }
        } else {
          assert ScannedChildren(head) == [];
        }
      }
    }
  }

  /** A removing walk only takes nodes away from the scan: it creates no reference and no crash. */
  lemma ScanAfterPrune(ns: seq<Node>, m: Matcher, name: string)
    ensures Referenced(Prune(ns, m), name) ==> Referenced(ns, name)
    ensures (exists i :: 0 <= i < |ScannedChildren(Prune(ns, m))| && !ScannedChildren(Prune(ns, m))[i].Decl?) ==>
            (exists i :: 0 <= i < |ScannedChildren(ns)| && !ScannedChildren(ns)[i].Decl?)
  {
    ScannedCoveredAfterPrune(ns, m);
    var a := ScannedChildren(Prune(ns, m));
    var b := ScannedChildren(ns);
    if Referenced(Prune(ns, m), name) {
      var i :| 0 <= i < |a| && a[i].Decl? && Contains(a[i].value, name);
      assert a[i] in a;
      var j :| 0 <= j < |b| && b[j] == a[i];
    }
    if exists i :: 0 <= i < |a| && !a[i].Decl? {
      var i :| 0 <= i < |a| && !a[i].Decl?;
      assert a[i] in a;
      var y :| y in b && !y.Decl?;
      var j :| 0 <= j < |b| && b[j] == y;
    }
  }
}
