/**
 * The `UnCss` entry point (`UnCss.js`): the constructor's option handling,
 * which merges into a fresh object, and `_optimize`, which splits the
 * prepared files into the static and the dynamic group.
 */
module UnCssRuns {

  import opened Wrappers
  import Strings
  import opened AmpFiles
  import opened RunOptions

  class UnCss {
    var inputFilePaths: seq<Source>
    var options: Options

    /** Past the checks: keeps the inputs and a fresh merge of defaults and user options. */
    constructor(inputs: seq<Source>, user: Options, defaults: Options)
      ensures inputFilePaths == inputs && options == Merged(defaults, user)
    {
      inputFilePaths := inputs;
      options := Merged(defaults, user);
    }
  }

  /** `new UnCss(files, options, callback)`: the checks, then the instance (the callback is not kept). */
  method New(inputs: Option<seq<Source>>, options: Arg, defaults: Options)
    returns (r: Result<UnCss>)
    ensures r.Err? <==> OptionsAsWritten(inputs, options).Err?
    ensures r.Ok? ==> fresh(r.value) && r.value.inputFilePaths == inputs.value
                      && r.value.options == Merged(defaults, OptionsAsWritten(inputs, options).value)
  {
    var user := OptionsAsWritten(inputs, options);
    if user.Err? {
      return Err(user.message);
    }
    var u := new UnCss(inputs.value, user.value, defaults);
    return Ok(u);
  }

  // ---------------------------------------------------------------------------
  // _optimize

  /** The files at the given optimization level, in input order (the `reduce`). */
  function Group<F>(fs: seq<F>, level: F -> Option<int>, l: int): seq<F>
    decreases |fs|
  {
    if |fs| == 0 then []
    else (if level(fs[0]) == Some(l) then [fs[0]] else []) + Group(fs[1..], level, l)
  }

  /**
   * The group keeps input order: grouping a concatenation is grouping each
   * part; and it holds exactly the files at that level.
   */
  lemma {:induction false} GroupAppend<F>(a: seq<F>, b: seq<F>, level: F -> Option<int>, l: int)
    ensures Group(a + b, level, l) == Group(a, level, l) + Group(b, level, l)
    decreases |a|
  {
    if |a| == 0 {
      assert a + b == b;
    } else {
      var h := if level(a[0]) == Some(l) then [a[0]] else [];
      assert (a + b)[0] == a[0] && (a + b)[1..] == a[1..] + b;
      assert Group(a + b, level, l) == h + Group(a[1..] + b, level, l);
      GroupAppend(a[1..], b, level, l);
      assert Group(a, level, l) == h + Group(a[1..], level, l);
      Strings.AppendAssoc(h, Group(a[1..], level, l), Group(b, level, l));
    }
  }

  lemma {:induction false} GroupMembers<F>(fs: seq<F>, level: F -> Option<int>, l: int)
    ensures forall x :: x in Group(fs, level, l) <==> x in fs && level(x) == Some(l)
    ensures |Group(fs, level, l)| <= |fs|
    decreases |fs|
  {
    if |fs| > 0 {
      GroupMembers(fs[1..], level, l);
      assert fs == [fs[0]] + fs[1..];
    }
  }

  /** A file is in at most one group, so the two groups together are never more files than the input. */
  lemma {:induction false} GroupsDisjoint<F>(fs: seq<F>, level: F -> Option<int>)
    ensures |Group(fs, level, 0)| + |Group(fs, level, 1)| <= |fs|
    decreases |fs|
  {
    if |fs| > 0 {
      GroupsDisjoint(fs[1..], level);
    }
  }

  /**
   * One group through its optimizer: a failed file yields `undefined`
   * (`None`), any other the optimizer's result; `None` overall where the
   * optimizer throws for some file.
   */
  function RunGroup<F>(g: seq<F>, failed: F -> bool, opt: F -> Option<F>): Option<seq<Option<F>>>
    decreases |g|
  {
    if |g| == 0 then Some([])
    else
      var head := if failed(g[0]) then Some(None) else if opt(g[0]).Some? then Some(Some(opt(g[0]).value)) else None;
      match head
      case None => None
      case Some(h) =>
        match RunGroup(g[1..], failed, opt)
        case None => None
        case Some(t) => Some([h] + t)
  }

  /**
   * A group run throws exactly when the optimizer throws for a file that
   * has not failed; otherwise it gives one entry per file, in order.
   */
  lemma {:induction false} RunGroupSpec<F>(g: seq<F>, failed: F -> bool, opt: F -> Option<F>)
    ensures RunGroup(g, failed, opt).Some? <==> forall i :: 0 <= i < |g| && !failed(g[i]) ==> opt(g[i]).Some?
    ensures RunGroup(g, failed, opt).Some? ==>
              var r := RunGroup(g, failed, opt).value;
              |r| == |g|
              && forall i :: 0 <= i < |g| ==> r[i] == (if failed(g[i]) then None else opt(g[i]))
    decreases |g|
  {
    if |g| > 0 {
      RunGroupSpec(g[1..], failed, opt);
      assert forall i :: 1 <= i < |g| ==> g[i] == g[1..][i - 1];
    }
  }

  /** `_optimize`: the level-0 files through the static optimizer, then the level-1 files through the dynamic one. */
  function Optimize<F>(fs: seq<F>, level: F -> Option<int>, failed: F -> bool,
                       zero: F -> Option<F>, one: F -> Option<F>): Option<seq<Option<F>>>
  {
    match RunGroup(Group(fs, level, 0), failed, zero)
    case None => None
    case Some(a) =>
      match RunGroup(Group(fs, level, 1), failed, one)
      case None => None
      case Some(b) => Some(a + b)
  }

  /**
   * What `_optimize` promises: it throws exactly when an optimizer throws
   * for a file of its group that has not failed; otherwise the level-0
   * results come first and the level-1 results after them, each in input
   * order, with `None` for a failed file.
   */
  lemma OptimizeSpec<F>(fs: seq<F>, level: F -> Option<int>, failed: F -> bool,
                        zero: F -> Option<F>, one: F -> Option<F>)
    ensures var g0 := Group(fs, level, 0);
            var g1 := Group(fs, level, 1);
            Optimize(fs, level, failed, zero, one).Some? <==>
              (forall i :: 0 <= i < |g0| && !failed(g0[i]) ==> zero(g0[i]).Some?)
              && (forall i :: 0 <= i < |g1| && !failed(g1[i]) ==> one(g1[i]).Some?)
    ensures var g0 := Group(fs, level, 0);
            var g1 := Group(fs, level, 1);
            Optimize(fs, level, failed, zero, one).Some? ==>
              var r := Optimize(fs, level, failed, zero, one).value;
              |r| == |g0| + |g1|
              && (forall i :: 0 <= i < |g0| ==> r[i] == (if failed(g0[i]) then None else zero(g0[i])))
              && (forall j :: 0 <= j < |g1| ==> r[|g0| + j] == (if failed(g1[j]) then None else one(g1[j])))
  {
    RunGroupSpec(Group(fs, level, 0), failed, zero);
    RunGroupSpec(Group(fs, level, 1), failed, one);
  }

  /** The placeholder dynamic optimizer: its `optimize` gives no promise, so every call fails. */
  function Placeholder<F>(f: F): Option<F> {
    None
  }

  /**
   * The dynamic optimizer `UnCss.js` imports is a placeholder whose
   * `optimize` returns no promise, so calling `.catch` on its result throws:
   * `_optimize` then succeeds exactly when no level-1 file is left that has
   * not failed, and the static results are what it returns.
   */
  lemma PlaceholderDynamicOptimizer<F>(fs: seq<F>, level: F -> Option<int>, failed: F -> bool, zero: F -> Option<F>)
    ensures Optimize(fs, level, failed, zero, Placeholder).Some? <==>
              RunGroup(Group(fs, level, 0), failed, zero).Some? && forall f :: f in Group(fs, level, 1) ==> failed(f)
    ensures Optimize(fs, level, failed, zero, Placeholder).Some? ==>
              Optimize(fs, level, failed, zero, Placeholder).value
              == RunGroup(Group(fs, level, 0), failed, zero).value + seq(|Group(fs, level, 1)|, j => None)
  {
    var g0 := Group(fs, level, 0);
    var g1 := Group(fs, level, 1);
    RunGroupSpec(g1, failed, Placeholder);
    var r0 := RunGroup(g0, failed, zero);
    var r1 := RunGroup(g1, failed, Placeholder);
    assert r1.Some? <==> forall f :: f in g1 ==> failed(f) by {
      forall j | 0 <= j < |g1| && !failed(g1[j]) ensures Placeholder(g1[j]).None? { }
    }
    assert Optimize(fs, level, failed, zero, Placeholder)
        == if r0.Some? && r1.Some? then Some(r0.value + r1.value) else None;
    if r1.Some? {
      assert r1.value == seq(|g1|, j => None);
    }
  }
}
