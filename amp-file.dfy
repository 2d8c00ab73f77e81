/**
 * The record kept for one input file: where it came from, what the
 * classifier found in it, its live rule tree, the rewritten HTML, and the
 * statistics reported at the end (status timestamps, sizes, and the
 * selectors removed per category).
 */
module AmpFiles {

  import opened Wrappers
  import opened Strings
  import opened Css
  import opened Dom
  import opened Buckets
  import DomParser

  // ---------------------------------------------------------------------------
  // Removal statistics

  /** The selectors removed in one category, and how many. */
  datatype Removal = Removal(selectors: seq<string>, count: nat)

  /** In every category the count is the number of selectors listed. */
  predicate CountsConsistent(m: map<string, Removal>) {
    forall k :: k in m ==> m[k].count == |m[k].selectors|
  }

  /** The selectors recorded so far in a category (none for a category not yet seen). */
  function Recorded(m: map<string, Removal>, kind: string): seq<string> {
    if kind in m then m[kind].selectors else []
  }

  /** `incrementSelectorsRemoved` on the statistics map. */
  function Increment(m: map<string, Removal>, kind: string, sel: string): map<string, Removal> {
    if kind !in m then m[kind := Removal([sel], 1)]
    else m[kind := Removal(m[kind].selectors + [sel], m[kind].count + 1)]
  }

  /**
   * One increment appends the selector to its category, creating the
   * category if needed, leaves every other category alone and keeps every
   * count equal to its list's length.
   */
  lemma IncrementSpec(m: map<string, Removal>, kind: string, sel: string)
    ensures var r := Increment(m, kind, sel);
            r.Keys == m.Keys + {kind}
            && Recorded(r, kind) == Recorded(m, kind) + [sel]
            && (forall k :: k in m && k != kind ==> r[k] == m[k])
            && (CountsConsistent(m) ==> CountsConsistent(r))
  {
  }

  /** The statistics after one increment per selector, in order. */
  function RecordAll(m: map<string, Removal>, kind: string, sels: seq<string>): map<string, Removal>
    decreases |sels|
  {
    if |sels| == 0 then m else RecordAll(Increment(m, kind, sels[0]), kind, sels[1..])
  }

  /** A sequence of increments appends the selectors in call order and touches nothing else. */
  lemma {:induction false} RecordAllSpec(m: map<string, Removal>, kind: string, sels: seq<string>)
    ensures var r := RecordAll(m, kind, sels);
            Recorded(r, kind) == Recorded(m, kind) + sels
            && (|sels| > 0 ==> r.Keys == m.Keys + {kind})
            && (|sels| == 0 ==> r == m)
            && (forall k :: k in m && k != kind ==> r[k] == m[k])
            && (CountsConsistent(m) ==> CountsConsistent(r))
    decreases |sels|
  {
    if |sels| > 0 {
      IncrementSpec(m, kind, sels[0]);
      RecordAllSpec(Increment(m, kind, sels[0]), kind, sels[1..]);
      assert [sels[0]] + sels[1..] == sels;
    }
  }

  /** The rule tree of a file together with its removal statistics: what the pruning steps change. */
  datatype Sheet = Sheet(css: seq<Node>, removed: map<string, Removal>)

  // ---------------------------------------------------------------------------
  // File names and paths

  /** `fileName`, `fileDir` and `fileExt` of a path string. */
  datatype PathParts = PathParts(fileName: string, fileDir: string, fileExt: Option<string>)

  /** The second '.'-separated piece of a file name, if it has one. */
  function FileExt(fileName: string): Option<string> {
    var ps := SplitOn(fileName, ".");
    if |ps| > 1 then Some(ps[1]) else None
  }

  function SplitPath(p: string): PathParts {
    var parts := SplitOn(p, "/");
    var fileName := parts[|parts| - 1];
    PathParts(fileName, Join(parts[..|parts| - 1], "/"), FileExt(fileName))
  }

  lemma {:induction false} JoinSnoc(ps: seq<string>, sep: string)
    requires |ps| >= 2
    ensures Join(ps, sep) == Join(ps[..|ps| - 1], sep) + sep + ps[|ps| - 1]
    decreases |ps|
  {
    if |ps| > 2 {
      JoinSnoc(ps[1..], sep);
      assert ps[1..][..|ps[1..]| - 1] == ps[..|ps| - 1][1..];
      assert ps[..|ps| - 1][0] == ps[0];
    } else {
      assert ps[..1] == [ps[0]];
    }
  }

  /** A string without the separator splits into one piece; one with it into two or more. */
  lemma SplitCount(s: string, c: char)
    ensures c !in s <==> |SplitOn(s, [c])| == 1
  {
    JoinSplit(s, [c]);
    SplitPiecesFree(s, c);
    if c !in s {
      SplitWithout(s, [c]);
    }
  }

  /**
   * The file name is the last '/'-segment and has no '/'; the directory is
   * everything before the last '/', so directory + "/" + name is the path
   * again; a path without '/' is all name and no directory.
   */
  lemma SplitPathRoundTrip(p: string)
    ensures '/' !in SplitPath(p).fileName
    ensures '/' in p ==> SplitPath(p).fileDir + "/" + SplitPath(p).fileName == p
    ensures '/' !in p ==> SplitPath(p).fileDir == "" && SplitPath(p).fileName == p
  {
    var parts := SplitOn(p, "/");
    SplitPiecesFree(p, '/');
    JoinSplit(p, "/");
    SplitCount(p, '/');
    if '/' in p {
      JoinSnoc(parts, "/");
    }
  }

  /** A name `stem.ext` with one dot splits into exactly those two pieces. */
  lemma DotSplit(stem: string, ext: string)
    requires '.' !in stem && '.' !in ext
    ensures SplitOn(stem + "." + ext, ".") == [stem, ext]
  {
    SplitAfter(stem, ext, ".");
    SplitWithout(ext, ".");
  }

  /** The extension of `stem.ext` is `ext`; a name without a dot has none. */
  lemma FileExtSpec(stem: string, ext: string, plain: string)
    requires '.' !in stem && '.' !in ext && '.' !in plain
    ensures FileExt(stem + "." + ext) == Some(ext)
    ensures FileExt(plain) == None
  {
    DotSplit(stem, ext);
    SplitWithout(plain, ".");
  }

  /** The file `saveHtmlToDisc` writes: `./dir/stem<decorator>.ext`. */
  function OutputPath(targetDirectory: string, fileName: string, decorator: Option<string>): string {
    var ps := SplitOn(fileName, ".");
    var ext := if |ps| > 1 then ps[1] else "undefined";
    var dec := if decorator.Some? then decorator.value else "";
    "./" + targetDirectory + "/" + ps[0] + dec + "." + ext
  }

  /**
   * For a name with one dot the decorator goes between stem and extension,
   * and without a decorator the file keeps its name; a name without a dot
   * gets the extension "undefined".
   */
  lemma OutputPathSpec(dir: string, stem: string, ext: string, dec: string, plain: string)
    requires '.' !in stem && '.' !in ext && '.' !in plain
    ensures OutputPath(dir, stem + "." + ext, Some(dec)) == "./" + dir + "/" + stem + dec + "." + ext
    ensures OutputPath(dir, stem + "." + ext, None) == "./" + dir + "/" + (stem + "." + ext)
    ensures OutputPath(dir, plain, None) == "./" + dir + "/" + plain + ".undefined"
  {
    DotSplit(stem, ext);
    var pre := "./" + dir + "/";
    assert OutputPath(dir, stem + "." + ext, Some(dec)) == pre + stem + dec + "." + ext;
    assert OutputPath(dir, stem + "." + ext, None) == pre + stem + "" + "." + ext;
    assert pre + stem + "" + "." + ext == pre + (stem + "." + ext) by {
      assert stem + "" == stem;
    }
    SplitWithout(plain, ".");
    assert OutputPath(dir, plain, None) == pre + plain + "" + "." + "undefined";
    assert plain + "" == plain;
  }

  // ---------------------------------------------------------------------------
  // The record

  datatype InputType = FileInput | StringInput

  /** A Gulp Vinyl file, or a path string. */
  datatype Source =
    | Vinyl(path: string, basename: string, base: string, extname: string, contents: string)
    | PathString(p: string)

  /** The object `getCompletionStats` returns. */
  datatype Stats = Stats(
    fileName: string,
    status: map<string, int>,
    inputSize: nat,
    outputSize: nat,
    selectorsRemoved: map<string, Removal>,
    hasExceptionTags: Option<bool>)

  /** A status entry is set to a truthy (non-zero) timestamp. */
  predicate StatusSet(status: map<string, int>, key: string) {
    key in status && status[key] != 0
  }

  /** The optimization tier `prep` chooses. */
  function Tier(optimizationTarget: int, exceptionTags: set<string>): (level: int)
    ensures level == 0 || level == 1
    ensures level == 1 <==> optimizationTarget > 0 && |exceptionTags| > 0
  {
    if optimizationTarget > 0 && |exceptionTags| > 0 then 1 else 0
  }

  class AmpFile {
    var optimizationTarget: int
    var inputType: InputType
    var filePath: string
    var fileName: string
    var fileDir: string
    var fileExt: Option<string>
    var rawHtml: string

    // the statistics object
    var status: map<string, int>
    var inputSize: nat
    var outputSize: nat
    var selectorsRemoved: map<string, Removal>
    var statsHasExceptionTags: Option<bool>

    // set by prep
    var staticDom: Option<StaticDom>
    var dynamicDom: Option<DynamicDom>
    var rawCss: string
    var escapedPseudos: seq<string>
    var pseudos: seq<PseudoEntry>
    var general: seq<string>
    var commaSeparatedSelectors: seq<CommaEntry>
    var ampElementSelectors: seq<string>
    var keyFrames: seq<KeyframeEntry>
    var exceptionElementTags: set<string>
    var optimizationLevel: Option<int>
    var parsedCss: seq<Node>

    // set by rewriteHtmlWithNewCss and saveHtmlToDisc
    var optimizedHtml: Option<string>
    var outputFilePath: Option<string>

    /**
     * A Vinyl file is taken as it comes (streamable mode); a path string is
     * split into name, directory and extension and its contents are read
     * (`diskContents`). The statistics start with only the 'instantiated'
     * status, zero sizes and nothing removed.
     */
    constructor(source: Source, optimizationLevelOption: int, streamable: bool,
                diskContents: string, now: int)
      requires streamable ==> source.Vinyl?
      requires !streamable ==> source.PathString?
      ensures optimizationTarget == optimizationLevelOption
      ensures streamable ==> (inputType == FileInput && filePath == source.path
                              && fileName == source.basename && fileDir == source.base
                              && fileExt == Some(source.extname) && rawHtml == source.contents)
      ensures !streamable ==> (inputType == StringInput && filePath == source.p
                               && fileName == SplitPath(source.p).fileName
                               && fileDir == SplitPath(source.p).fileDir
                               && fileExt == SplitPath(source.p).fileExt && rawHtml == diskContents)
      ensures status == map["instantiated" := now]
      ensures inputSize == 0 && outputSize == 0 && selectorsRemoved == map[]
      ensures statsHasExceptionTags == None && optimizationLevel == None
      ensures staticDom == None && dynamicDom == None
      ensures optimizedHtml == None && outputFilePath == None
    {
      optimizationTarget := optimizationLevelOption;
      if streamable {
        inputType := FileInput;
        filePath := source.path;
        fileName := source.basename;
        fileDir := source.base;
        fileExt := Some(source.extname);
        rawHtml := source.contents;
      } else {
        inputType := StringInput;
        var parts := SplitPath(source.p);
        filePath := source.p;
        fileName := parts.fileName;
        fileExt := parts.fileExt;
        fileDir := parts.fileDir;
        rawHtml := diskContents;
      }
      status := map["instantiated" := now];
      inputSize, outputSize := 0, 0;
      selectorsRemoved := map[];
      statsHasExceptionTags := None;
      staticDom, dynamicDom := None, None;
      rawCss := "";
      escapedPseudos, pseudos, general := [], [], [];
      commaSeparatedSelectors, ampElementSelectors, keyFrames := [], [], [];
      exceptionElementTags := {};
      optimizationLevel := None;
      parsedCss := [];
      optimizedHtml, outputFilePath := None, None;
    }

    /** The rule tree and the removal statistics. */
    function Styles(): Sheet
      reads this`parsedCss, this`selectorsRemoved
    {
      Sheet(parsedCss, selectorsRemoved)
    }

    /** `hasExceptionTags`: the page contains a tag that needs the browser. */
    predicate HasExceptionTags()
      reads this`exceptionElementTags
    {
      |exceptionElementTags| > 0
    }

    /** Writes exactly one status entry. */
    method SetStatus(kind: string, time: int)
      modifies this`status
      ensures status == old(status)[kind := time]
    {
      status := status[kind := time];
    }

    /** `incrementSelectorsRemoved`. */
    method IncrementSelectorsRemoved(kind: string, sel: string)
      modifies this`selectorsRemoved
      ensures selectorsRemoved == Increment(old(selectorsRemoved), kind, sel)
      ensures Recorded(selectorsRemoved, kind) == Recorded(old(selectorsRemoved), kind) + [sel]
      ensures CountsConsistent(old(selectorsRemoved)) ==> CountsConsistent(selectorsRemoved)
    {
      IncrementSpec(selectorsRemoved, kind, sel);
      if kind !in selectorsRemoved {
        selectorsRemoved := selectorsRemoved[kind := Removal([sel], 1)];
      } else {
        var r := selectorsRemoved[kind];
        selectorsRemoved := selectorsRemoved[kind := Removal(r.selectors + [sel], r.count + 1)];
      }
    }

    /** The buckets held on the record (the poly-fill bucket is not copied). */
    function Fields(): Selectors
      reads this`escapedPseudos, this`pseudos, this`general, this`commaSeparatedSelectors,
            this`ampElementSelectors, this`rawCss, this`keyFrames
    {
      Selectors([], escapedPseudos, pseudos, general, commaSeparatedSelectors,
                ampElementSelectors, rawCss, keyFrames)
    }

    /** `_extractFileData`: copies the classifier's results onto the record. */
    method ExtractFileData(data: DomParser.DomData)
      modifies this`rawCss, this`escapedPseudos, this`pseudos, this`general,
               this`commaSeparatedSelectors, this`ampElementSelectors, this`keyFrames,
               this`exceptionElementTags
      ensures Fields() == data.selectors.(polyFills := [])
      ensures exceptionElementTags == data.exceptionElementTags
    {
      var s := data.selectors;
      rawCss := s.joinedRawCss;
      escapedPseudos := s.escapedPseudos;
      pseudos := s.pseudos;
      general := s.general;
      commaSeparatedSelectors := s.commaSeparatedSelectors;
      ampElementSelectors := s.ampElementSelectors;
      keyFrames := s.keyFrames;
      exceptionElementTags := data.exceptionElementTags;
    }

    /**
     * `prep`: loads the static page, classifies its style text, chooses the
     * tier, opens the dynamic page for tier 1 (`dynamic`, `None` where the
     * browser fails) and parses the collected CSS. `false` exactly where a
     * step throws. `dom` is the static page as the Cheerio interface gives
     * it after `stubAmpImg`, which appends an empty `<img>` to every
     * `amp-img`; its counts and element list already include those stubs.
     */
    method Prep(dom: StaticDom, parse: string -> Option<seq<Node>>, ampTags: set<string>,
                dynamic: Option<DynamicDom>, now: int) returns (ok: bool)
      modifies this`status, this`staticDom, this`dynamicDom, this`optimizationLevel, this`parsedCss
      modifies this`rawCss, this`escapedPseudos, this`pseudos, this`general,
               this`commaSeparatedSelectors, this`ampElementSelectors, this`keyFrames,
               this`exceptionElementTags
      ensures status == old(status)["started" := now]
      ensures staticDom == Some(dom)
      ensures ok <==> DomParser.Harvest(NoSelectors, DomParser.Chunks(dom.customStyles), parse, ampTags).Some?
                      && (Tier(optimizationTarget, dom.exceptionTags) == 1 ==> dynamic.Some?)
                      && parse(DomParser.Concat(DomParser.Chunks(dom.customStyles))).Some?
      ensures ok ==> optimizationLevel == Some(Tier(optimizationTarget, dom.exceptionTags))
      ensures ok ==> exceptionElementTags == dom.exceptionTags
      ensures ok ==> var h := DomParser.Harvest(NoSelectors, DomParser.Chunks(dom.customStyles), parse, ampTags);
                     h.Some? && DomParser.WellFormed(h.value) && Fields() == h.value.(polyFills := [])
      ensures ok ==> rawCss == DomParser.Concat(DomParser.Chunks(dom.customStyles))
      ensures ok ==> parse(rawCss).Some? && parsedCss == parse(rawCss).value
      ensures ok && optimizationLevel == Some(1) ==> dynamicDom == dynamic
    {
      SetStatus("started", now);
      staticDom := Some(dom);
      ok := LoadSelectors(dom, parse, ampTags);
      if !ok {
        return;
      }
      ok := ChooseTier(parse, dynamic);
    }

    /**
     * The rest of `prep`: the tier from the exception tags, the dynamic page
     * for tier 1, then the parse of the collected CSS text.
     */
    method ChooseTier(parse: string -> Option<seq<Node>>, dynamic: Option<DynamicDom>) returns (ok: bool)
      modifies this`optimizationLevel, this`dynamicDom, this`parsedCss
      ensures optimizationLevel == Some(Tier(optimizationTarget, exceptionElementTags))
      ensures ok <==> (Tier(optimizationTarget, exceptionElementTags) == 1 ==> dynamic.Some?) && parse(rawCss).Some?
      ensures ok && optimizationLevel == Some(1) ==> dynamicDom == dynamic
      ensures ok ==> parsedCss == parse(rawCss).value
    {
      optimizationLevel := Some(Tier(optimizationTarget, exceptionElementTags));
      if optimizationLevel == Some(1) {
        if dynamic.None? {
          return false;
        }
        dynamicDom := dynamic;
      }
      ok := ParseCss(parse);
    }

    /** The last step of `prep`: the collected CSS text becomes the rule tree; `false` where postcss throws. */
    method ParseCss(parse: string -> Option<seq<Node>>) returns (ok: bool)
      modifies this`parsedCss
      ensures ok == parse(rawCss).Some?
      ensures ok ==> parsedCss == parse(rawCss).value
    {
      var css := parse(rawCss);
      if css.None? {
        return false;
      }
      parsedCss := css.value;
      return true;
    }

    /** The classification half of `prep`: the buckets, CSS text and exception tags of the page. */
    method LoadSelectors(dom: StaticDom, parse: string -> Option<seq<Node>>, ampTags: set<string>) returns (ok: bool)
      modifies this`rawCss, this`escapedPseudos, this`pseudos, this`general,
               this`commaSeparatedSelectors, this`ampElementSelectors, this`keyFrames,
               this`exceptionElementTags
      ensures ok <==> DomParser.Harvest(NoSelectors, DomParser.Chunks(dom.customStyles), parse, ampTags).Some?
      ensures ok ==> exceptionElementTags == dom.exceptionTags
      ensures ok ==> var h := DomParser.Harvest(NoSelectors, DomParser.Chunks(dom.customStyles), parse, ampTags);
                     h.Some? && DomParser.WellFormed(h.value) && Fields() == h.value.(polyFills := [])
      ensures ok ==> rawCss == DomParser.Concat(DomParser.Chunks(dom.customStyles))
    {
      DomParser.HarvestText(NoSelectors, DomParser.Chunks(dom.customStyles), parse, ampTags);
      var data := DomParser.ExtractDomData(dom, parse, ampTags);
      if data.None? {
        return false;
      }
      ExtractFileData(data.value);
      return true;
    }

    /**
     * `rewriteHtmlWithNewCss`, given the serialised rule tree: tier 0 takes the
     * static page's HTML; tier 1 the browser's, setting 'failed' when either
     * step rejects. 'complete' is set exactly when 'failed' is not. The
     * clean-up of the HTML computes a new string and drops it, so the stored
     * HTML is the serializer's output. `false` where that clean-up is applied
     * to a missing HTML and throws.
     */
    method RewriteHtmlWithNewCss(css: string, now: int) returns (ok: bool)
      requires now > 0  // a timestamp of the running process
      requires optimizationLevel == Some(0) ==> staticDom.Some?
      requires optimizationLevel == Some(1) ==> dynamicDom.Some?
      modifies this`optimizedHtml, this`status
      ensures optimizationLevel == Some(0) ==> optimizedHtml == Some(staticDom.value.htmlWith(css))
      ensures optimizationLevel == Some(1) ==>
                optimizedHtml == dynamicDom.value.htmlAfter(
                  if dynamicDom.value.replaceSucceeds(css) then Some(css) else None)
      ensures optimizationLevel != Some(0) && optimizationLevel != Some(1) ==>
                optimizedHtml == old(optimizedHtml)
      ensures var failedNow := optimizationLevel == Some(1)
                && (!dynamicDom.value.replaceSucceeds(css) || optimizedHtml.None?);
              var failed := failedNow || StatusSet(old(status), "failed");
              (ok <==> failed || optimizedHtml.Some?)
              && (failedNow ==> status == old(status)["failed" := now])
              && (!failedNow && failed ==> status == old(status))
              && (!failed && ok ==> status == old(status)["complete" := now])
              && (!ok ==> status == old(status))
    {
      if optimizationLevel == Some(0) {
        optimizedHtml := Some(staticDom.value.htmlWith(css));
      } else if optimizationLevel == Some(1) {
        var dyn := dynamicDom.value;
        var replaced := dyn.replaceSucceeds(css);
        if !replaced {
          SetStatus("failed", now);
        }
        optimizedHtml := dyn.htmlAfter(if replaced then Some(css) else None);
        if optimizedHtml.None? {
          SetStatus("failed", now);
        }
      }
      if !StatusSet(status, "failed") {
        if optimizedHtml.None? {
          return false;
        }
        SetStatus("complete", now);
      }
      return true;
    }

    /** `saveHtmlToDisc`: the path the HTML goes to (the write itself is not modelled). */
    method SaveHtmlToDisc(targetDirectory: string, decorator: Option<string>)
      modifies this`outputFilePath
      ensures outputFilePath == Some(OutputPath(targetDirectory, fileName, decorator))
    {
      outputFilePath := Some(OutputPath(targetDirectory, fileName, decorator));
    }

    /** `returnOptimizedHtml`. */
    function ReturnOptimizedHtml(): Option<string>
      reads this
    {
      optimizedHtml
    }

    /**
     * `getCompletionStats`: the input size is the raw HTML's length for a
     * Vinyl file and the size on disk (`diskSize`) otherwise; once 'complete'
     * is set, the output size is the HTML's length and the exception-tag flag
     * is recorded. `None` where 'complete' is set without HTML (the length
     * lookup throws).
     */
    method GetCompletionStats(diskSize: nat) returns (r: Option<Stats>)
      modifies this`inputSize, this`outputSize, this`statsHasExceptionTags
      ensures inputSize == if inputType == FileInput then |rawHtml| else diskSize
      ensures StatusSet(status, "complete") && optimizedHtml.Some? ==>
                outputSize == |optimizedHtml.value| && statsHasExceptionTags == Some(HasExceptionTags())
      ensures !StatusSet(status, "complete") ==>
                outputSize == old(outputSize) && statsHasExceptionTags == old(statsHasExceptionTags)
      ensures r.None? <==> StatusSet(status, "complete") && optimizedHtml.None?
      ensures r.Some? ==> r.value == Stats(fileName, status, inputSize, outputSize,
                                           selectorsRemoved, statsHasExceptionTags)
    {
      inputSize := if inputType == FileInput then |rawHtml| else diskSize;
      if StatusSet(status, "complete") {
        if optimizedHtml.None? {
          return None;
        }
        outputSize := |optimizedHtml.value|;
        statsHasExceptionTags := Some(HasExceptionTags());
      }
      return Some(Stats(fileName, status, inputSize, outputSize, selectorsRemoved, statsHasExceptionTags));
    }
  }
}
