/**
 * The at-rule dispatch table of the classifier: for each at-rule name,
 * whether the classifier walks into the block, skips it, or hands it to a
 * handler. Names not in the table are passed over.
 */
module AtRuleHelpers {

  import opened Css
  import opened Buckets

  datatype Entry =
    | Recurse   // `true`: walk the block's contents with the classifier
    | Skip      // `false`: leave the block alone
    | Handler   // a function: call it with the node and the buckets

  const Table: map<string, Entry> := map[
    "charset" := Skip,
    "import" := Skip,
    "namespace" := Skip,
    "media" := Recurse,
    "supports" := Skip,
    "document" := Skip,
    "page" := Skip,
    "font-face" := Skip,
    "keyframes" := Handler,
    "viewport" := Skip,
    "counter-style" := Skip,
    "font-feature-values" := Skip,
    "swash" := Skip,
    "ornaments" := Skip,
    "annotation" := Skip
  ]

  /** Only `media` is walked into, and only `keyframes` has a handler. */
  lemma TableShape(name: string)
    ensures name in Table && Table[name] == Recurse <==> name == "media"
    ensures name in Table && Table[name] == Handler <==> name == "keyframes"
    ensures name in Table && name != "media" && name != "keyframes" ==> Table[name] == Skip
  {
    if name in Table {
      assert name in {"charset", "import", "namespace", "media", "supports", "document",
                      "page", "font-face", "keyframes", "viewport", "counter-style",
                      "font-feature-values", "swash", "ornaments", "annotation"};
    }
  }

  /** Vendor-prefixed and unknown at-rules are not in the table, so the classifier ignores them. */
  lemma PrefixedKeyframesUnlisted()
    ensures "-webkit-keyframes" !in Table && "-moz-keyframes" !in Table
    ensures "container" !in Table && "layer" !in Table
  {
  }

  /** The buckets after the `keyframes` handler: one entry appended, nothing else touched. */
  function Stash(s: Selectors, params: string): (r: Selectors)
    ensures r.keyFrames == s.keyFrames + [KeyframeEntry(params, false)]
    ensures r.(keyFrames := s.keyFrames) == s
  {
    s.(keyFrames := s.keyFrames + [KeyframeEntry(params, false)])
  }

  /** The `keyframes` handler: records the block's name, not yet marked used. */
  method StashKeyframe(node: Node, cs: CssSelectors)
    requires node.AtRule?
    modifies cs`keyFrames
    ensures cs.keyFrames == old(cs.keyFrames) + [KeyframeEntry(node.params, false)]
    ensures cs.Snapshot() == Stash(old(cs.Snapshot()), node.params)
  {
    cs.keyFrames := cs.keyFrames + [KeyframeEntry(node.params, false)];
  }
}
