/** lib/config.js: a module-level cell that keeps the first configuration object it is
    given and returns the stored value on every call. */
module ConfigStore {
  import opened Wrappers

  /** A configuration object, abstracted to its string-valued entries. */
  datatype Config = Config(entries: map<string, string>)

  /** The argument of a call: omitted (`undefined`), `null`, or an object. */
  datatype ConfigArg = Undefined | Null | Given(config: Config)

  /** The empty object `{}` that an omitted argument stands for. */
  const EmptyConfig := Config(map[])

  /** The argument after `if (typeof config == 'undefined') config = {}`; `None` is `null`. */
  function Normalized(arg: ConfigArg): Option<Config>
  {
    match arg
    case Undefined => Some(EmptyConfig)
    case Null => None
    case Given(c) => Some(c)
  }

  /** The stored value after one call, given the stored value before it. */
  function Stored(before: Option<Config>, arg: ConfigArg): Option<Config>
  {
    if before.None? && Normalized(arg).Some? then Normalized(arg) else before
  }

  /** The stored value after a sequence of calls. */
  function StoredAfter(before: Option<Config>, args: seq<ConfigArg>): Option<Config>
    decreases |args|
  {
    if |args| == 0 then before else StoredAfter(Stored(before, args[0]), args[1..])
  }

  /** Reference description: the first argument that is not `null` (an omitted one counting as `{}`). */
  function FirstNonNull(args: seq<ConfigArg>): Option<Config>
    decreases |args|
  {
    if |args| == 0 then None
    else if args[0].Null? then FirstNonNull(args[1..])
    else Normalized(args[0])
  }

  /** Once a configuration is stored, no later call changes it. */
  lemma {:induction false} StoredNeverChanges(c: Config, args: seq<ConfigArg>)
    ensures StoredAfter(Some(c), args) == Some(c)
    decreases |args|
  {
    if |args| > 0 {
      StoredNeverChanges(c, args[1..]);
    }
  }

  /** Starting from the empty cell, a run of calls stores exactly the first non-null argument. */
  lemma {:induction false} StoredIsFirstNonNull(args: seq<ConfigArg>)
    ensures StoredAfter(None, args) == FirstNonNull(args)
    decreases |args|
  {
    if |args| > 0 {
      if args[0].Null? {
        StoredIsFirstNonNull(args[1..]);
      } else {
        StoredNeverChanges(Normalized(args[0]).value, args[1..]);
      }
    }
  }

  /** The module-level `storedConfig` variable. */
  class ConfigCell {
    var stored: Option<Config>

    /** `var storedConfig = null` when the module is first loaded. */
    constructor ()
      ensures stored.None?
    {
      stored := None;
    }

    /** `module.exports = (config) => { ... }`. */
    method Configure(arg: ConfigArg) returns (r: Option<Config>)
      modifies this
      ensures old(stored).Some? ==> stored == old(stored)
      ensures old(stored).None? && !arg.Null? ==> stored == Normalized(arg)
      ensures arg.Null? ==> stored == old(stored)
      ensures stored == Stored(old(stored), arg)
      ensures r == stored
    {
      var config := Normalized(arg);
      if config.Some? && stored.None? {
        stored := config;
      }
      r := stored;
    }
  }
}
