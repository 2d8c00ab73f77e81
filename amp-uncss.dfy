/**
 * The `AmpUncss` entry point (`amp-uncss.js`): the constructor's option
 * handling. The defaults are one object shared by every instance, and the
 * user's options are assigned into it, so `options` of every instance is
 * that same object.
 */
module AmpUncssRuns {

  import opened Wrappers
  import opened AmpFiles
  import opened RunOptions

  /** The module-level defaults object. */
  class SharedDefaults {
    var values: Options

    constructor(values: Options)
      ensures this.values == values
    {
      this.values := values;
    }
  }

  class AmpUncss {
    var inputFilePaths: seq<Source>
    var cb: Option<nat>
    var options: SharedDefaults

    /**
     * Past the checks: keeps the inputs and the callback, and assigns the
     * user's options into the shared defaults, which become `options`.
     */
    constructor(inputs: seq<Source>, user: Options, cb: Option<nat>, defaults: SharedDefaults)
      modifies defaults
      ensures inputFilePaths == inputs && this.cb == cb
      ensures options == defaults
      ensures defaults.values == old(defaults.values) + user
    {
      inputFilePaths := inputs;
      this.cb := cb;
      options := defaults;
      defaults.values := defaults.values + user;
    }
  }

  /**
   * `new AmpUncss(files, options, callback)`: the checks, then the
   * instance. A throwing check leaves the defaults as they were.
   */
  method New(inputs: Option<seq<Source>>, options: Arg, callback: Option<nat>,
             defaults: SharedDefaults) returns (r: Result<AmpUncss>)
    modifies defaults
    ensures r.Err? <==> OptionsAsWritten(inputs, options).Err?
    ensures r.Err? ==> defaults.values == old(defaults.values)
    ensures r.Ok? ==> fresh(r.value) && r.value.options == defaults
                      && r.value.inputFilePaths == inputs.value
                      && r.value.cb == CallbackOf(options, callback)
                      && defaults.values == Merged(old(defaults.values), OptionsAsWritten(inputs, options).value)
  {
    var user := OptionsAsWritten(inputs, options);
    if user.Err? {
      return Err(user.message);
    }
    var a := new AmpUncss(inputs.value, user.value, CallbackOf(options, callback), defaults);
    return Ok(a);
  }

  /**
   * Two instances one after the other: both hold the same options object,
   * and a key the first run set and the second did not keeps the first
   * run's value in the second, where a fresh merge would not have it.
   */
  method DefaultsLeakAcrossRuns(defaults: SharedDefaults, inputs: seq<Source>, first: Options, second: Options)
    returns (a: AmpUncss, b: AmpUncss)
    modifies defaults
    ensures a.options == b.options == defaults
    ensures defaults.values == old(defaults.values) + first + second
    ensures forall k :: k in first && k !in second ==> k in b.options.values && b.options.values[k] == first[k]
    ensures forall k :: k in first && k !in second && k !in old(defaults.values) ==> k !in Merged(old(defaults.values), second)
  {
    a := new AmpUncss(inputs, first, None, defaults);
    b := new AmpUncss(inputs, second, None, defaults);
  }
}
