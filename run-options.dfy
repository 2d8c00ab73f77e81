/**
 * The option handling the two run-level entry points share
 * (`amp-uncss.js` and `UnCss.js`): the input list must be an array, a
 * function in the options place is the callback, a string names a config
 * file, a missing options object is an empty one, a report name gets its
 * '.json' suffix, and an all-Vinyl input list makes the run streamable.
 * The config file is handed to an `async` reader, so as written its
 * contents never become the options; `UserOptions` reads it on the spot.
 */
module RunOptions {

  import opened Wrappers
  import opened Strings
  import opened AmpFiles

  /** The option values that occur: strings, booleans, numbers, `null` and functions (by identity). */
  datatype Value = Str(s: string) | Flag(b: bool) | Number(n: int) | Null | Func(id: nat)

  /** An options object: its own enumerable keys and their values. */
  type Options = map<string, Value>

  /** JavaScript truthiness of an option value. */
  predicate Truthy(v: Value) {
    match v
    case Str(s) => s != ""
    case Flag(b) => b
    case Number(n) => n != 0
    case Null => false
    case Func(_) => true
  }

  /**
   * What is passed in the options place: nothing, `null`, a function, a
   * config file path, an object, or a boolean or number.
   */
  datatype Arg = Undefined | NullArg | Callback(id: nat) | ConfigPath(path: string) | Object(o: Options)
               | BoolArg(b: bool) | NumberArg(n: int)

  /** The callback the run keeps: a function in the options place wins over the third argument. */
  function CallbackOf(options: Arg, callback: Option<nat>): Option<nat> {
    if options.Callback? then Some(options.id) else callback
  }

  /**
   * What `options` holds once the argument has been read: an object with
   * its own keys, a boolean or number primitive, or `null`.
   */
  datatype Held = Obj(keys: Options) | Primitive | NullValue

  /**
   * The value `options` holds as written: `_ingestConfigFile` is `async`, so
   * a config path yields a pending promise, an object with no own keys; a
   * function or `undefined` becomes `{}`.
   */
  function IngestAsWritten(options: Arg): Held {
    match options
    case NullArg => NullValue
    case BoolArg(_) => Primitive
    case NumberArg(_) => Primitive
    case Object(o) => Obj(o)
    case _ => Obj(map[])
  }

  /**
   * The value `options` holds when the config file is read and parsed on
   * the spot (`read`, `None` where reading or parsing throws).
   */
  function Ingest(options: Arg, read: string -> Option<Options>): Result<Held> {
    match options
    case ConfigPath(p) => if read(p).Some? then Ok(Obj(read(p).value)) else Err("config file could not be read")
    case _ => Ok(IngestAsWritten(options))
  }

  /**
   * As written, the contents of a config file never reach the options,
   * whatever the file holds; read on the spot they are exactly the options.
   */
  lemma ConfigFileIgnored(p: string, read: string -> Option<Options>)
    ensures IngestAsWritten(ConfigPath(p)) == Obj(map[])
    ensures read(p).Some? <==> Ingest(ConfigPath(p), read).Ok?
    ensures read(p).Some? ==> Ingest(ConfigPath(p), read).value == Obj(read(p).value)
  {
  }

  /**
   * A truthy report name without '.json' gets it appended; a truthy value
   * that is not a string has no `includes` and throws.
   */
  function WithReportSuffix(o: Options): Result<Options> {
    if "reportName" !in o || !Truthy(o["reportName"]) then Ok(o)
    else match o["reportName"]
      case Str(s) => if Contains(s, ".json") then Ok(o) else Ok(o["reportName" := Str(s + ".json")])
      case _ => Err("reportName.includes is not a function")
  }

  /**
   * The suffix step throws exactly on a truthy non-string report name;
   * otherwise it leaves every other key as it was, leaves a report name
   * that has '.json' unchanged, and leaves a truthy one containing '.json'.
   */
  lemma ReportSuffixSpec(o: Options)
    ensures WithReportSuffix(o).Err? <==> "reportName" in o && Truthy(o["reportName"]) && !o["reportName"].Str?
    ensures WithReportSuffix(o).Ok? ==>
              var r := WithReportSuffix(o).value;
              (forall k :: k != "reportName" ==> (k in r <==> k in o) && (k in o ==> r[k] == o[k]))
              && ("reportName" in r <==> "reportName" in o)
              && ("reportName" in o && o["reportName"].Str? && Contains(o["reportName"].s, ".json") ==>
                    r["reportName"] == o["reportName"])
              && ("reportName" in o && Truthy(o["reportName"]) ==>
                    r["reportName"].Str? && Contains(r["reportName"].s, ".json")
                    && StartsWith(r["reportName"].s, o["reportName"].s))
  {
    if "reportName" in o && Truthy(o["reportName"]) && o["reportName"].Str? {
      var s := o["reportName"].s;
      if !Contains(s, ".json") {
        ContainsAppended(s, ".json");
        assert (s + ".json")[..|s|] == s;
      }
    }
  }

  /** Adding the suffix twice is adding it once. */
  lemma ReportSuffixIdempotent(o: Options)
    requires WithReportSuffix(o).Ok?
    ensures WithReportSuffix(WithReportSuffix(o).value) == WithReportSuffix(o)
  {
    ReportSuffixSpec(o);
  }

  /** Every input is a Vinyl file (`constructor.name === 'File'`). */
  predicate AllVinyl(inputs: seq<Source>) {
    forall i :: 0 <= i < |inputs| ==> inputs[i].Vinyl?
  }

  /** An all-Vinyl input list forces `streamable` to true. */
  function WithStreamable(o: Options, inputs: seq<Source>): (r: Options)
    ensures AllVinyl(inputs) ==> "streamable" in r && r["streamable"] == Flag(true)
    ensures !AllVinyl(inputs) ==> r == o
    ensures forall k :: k != "streamable" ==> (k in r <==> k in o) && (k in o ==> r[k] == o[k])
  {
    if AllVinyl(inputs) then o["streamable" := Flag(true)] else o
  }

  /** An empty input list counts as all Vinyl, so it is streamable. */
  lemma EmptyInputStreamable(o: Options)
    ensures WithStreamable(o, [])["streamable"] == Flag(true)
  {
  }

  /**
   * The two assignments on what `options` holds, and the keys the merge
   * then copies: `null` has no `reportName` and throws; a primitive has no
   * report name, but in the class's strict-mode code setting `streamable`
   * on it throws, and it has no keys to copy; an object gets the report
   * suffix and the streamable flag.
   */
  function Adjust(h: Held, inputs: seq<Source>): Result<Options> {
    match h
    case NullValue => Err("Cannot read properties of null (reading 'reportName')")
    case Primitive => if AllVinyl(inputs) then Err("Cannot create property 'streamable' on a primitive") else Ok(map[])
    case Obj(o) =>
      match WithReportSuffix(o)
      case Err(m) => Err(m)
      case Ok(o2) => Ok(WithStreamable(o2, inputs))
  }

  /**
   * The adjustments throw exactly on `null`, on a primitive with an
   * all-Vinyl input list, and on an object whose report name is truthy and
   * not a string; otherwise a key other than the report name and the
   * streamable flag has the object's value, a primitive contributes no
   * other key, and an all-Vinyl list sets the flag.
   */
  lemma AdjustSpec(h: Held, inputs: seq<Source>)
    ensures Adjust(h, inputs).Err? <==>
              h.NullValue? || (h.Primitive? && AllVinyl(inputs)) || (h.Obj? && WithReportSuffix(h.keys).Err?)
    ensures Adjust(h, inputs).Ok? ==>
              var r := Adjust(h, inputs).value;
              (h.Obj? ==> forall k :: k != "reportName" && k != "streamable" ==>
                            (k in r <==> k in h.keys) && (k in h.keys ==> r[k] == h.keys[k]))
              && (h.Primitive? ==> r == map[])
              && (AllVinyl(inputs) ==> "streamable" in r && r["streamable"] == Flag(true))
  {
    if h.Obj? {
      ReportSuffixSpec(h.keys);
    }
  }

  /**
   * The user's options as written: an input that is not an array (`None`)
   * throws, then the options argument is read, then adjusted.
   */
  function OptionsAsWritten(inputs: Option<seq<Source>>, options: Arg): Result<Options> {
    if inputs.None? then Err("UnCSS requires a list of filePaths")
    else Adjust(IngestAsWritten(options), inputs.value)
  }

  /**
   * What the constructor's checks promise as written: they throw exactly
   * when the input is not an array, the options are `null`, a boolean or
   * number meets an all-Vinyl list, or an object's report name is truthy
   * and not a string. A config path never throws and contributes at most
   * the streamable flag; an object's other keys keep the caller's values.
   */
  lemma OptionsAsWrittenSpec(inputs: Option<seq<Source>>, options: Arg)
    ensures OptionsAsWritten(inputs, options).Err? <==>
              inputs.None? || options.NullArg?
              || ((options.BoolArg? || options.NumberArg?) && AllVinyl(inputs.value))
              || (options.Object? && WithReportSuffix(options.o).Err?)
    ensures options.ConfigPath? && inputs.Some? ==>
              OptionsAsWritten(inputs, options) == Ok(WithStreamable(map[], inputs.value))
    ensures OptionsAsWritten(inputs, options).Ok? && options.Object? ==>
              var r := OptionsAsWritten(inputs, options).value;
              (forall k :: k != "reportName" && k != "streamable" ==>
                 (k in r <==> k in options.o) && (k in options.o ==> r[k] == options.o[k]))
              && (AllVinyl(inputs.value) ==> r["streamable"] == Flag(true))
  {
    if inputs.Some? {
      AdjustSpec(IngestAsWritten(options), inputs.value);
    }
  }

  /** The user's options with the config file read on the spot. */
  function UserOptions(inputs: Option<seq<Source>>, options: Arg, read: string -> Option<Options>): Result<Options> {
    if inputs.None? then Err("UnCSS requires a list of filePaths")
    else match Ingest(options, read)
      case Err(m) => Err(m)
      case Ok(h) => Adjust(h, inputs.value)
  }

  /**
   * Read on the spot, a config path throws exactly when the file cannot be
   * read or its report name is truthy and not a string, and otherwise the
   * file's keys other than the report name and the streamable flag are the
   * options; every other argument is handled as written.
   */
  lemma UserOptionsSpec(inputs: Option<seq<Source>>, options: Arg, read: string -> Option<Options>)
    ensures !options.ConfigPath? ==> UserOptions(inputs, options, read) == OptionsAsWritten(inputs, options)
    ensures options.ConfigPath? && inputs.Some? ==>
              (UserOptions(inputs, options, read).Err? <==>
                 read(options.path).None? || WithReportSuffix(read(options.path).value).Err?)
    ensures options.ConfigPath? && UserOptions(inputs, options, read).Ok? ==>
              var o := read(options.path).value;
              var r := UserOptions(inputs, options, read).value;
              (forall k :: k != "reportName" && k != "streamable" ==> (k in r <==> k in o) && (k in o ==> r[k] == o[k]))
              && (AllVinyl(inputs.value) ==> r["streamable"] == Flag(true))
  {
    if inputs.Some? && Ingest(options, read).Ok? {
      AdjustSpec(Ingest(options, read).value, inputs.value);
    }
  }

  /** A fresh object with the defaults, then the user's keys over them (`{...defaults, ...options}`). */
  function Merged(defaults: Options, user: Options): (r: Options)
    ensures forall k :: k in r <==> k in defaults || k in user
    ensures forall k :: k in user ==> r[k] == user[k]
    ensures forall k :: k !in user && k in defaults ==> r[k] == defaults[k]
  {
    defaults + user
  }

  /** Merging the same user options again changes nothing. */
  lemma MergedIdempotent(defaults: Options, user: Options)
    ensures Merged(Merged(defaults, user), user) == Merged(defaults, user)
  {
  }
}
