/**
 * Configuration loading: the parsed command line, merged over the stored
 * configuration when one exists.
 */
module Config {
  import opened Wrappers

  /** The scalar values a configuration holds. */
  datatype Value = VStr(s: string) | VBool(b: bool)

  /**
   * What the command line gave: each of --app_id, --app_key, --vocab and
   * --lang when present, and whether the --clear and --skip switches were set.
   */
  datatype CommandLine = CommandLine(
    appId: Option<string>, appKey: Option<string>, vocab: Option<string>,
    clear: bool, lang: Option<string>, skip: bool)

  /** The value --lang takes when it is not given. */
  const DefaultLang: string := "en-us"

  const ArgumentKeys: set<string> := {"app_id", "app_key", "vocab", "clear", "lang", "skip"}

  function StrArg(a: Option<string>): Option<Value> {
    match a
    case None => None
    case Some(s) => Some(VStr(s))
  }

  /**
   * `vars(parser.parse_args())`: an absent string flag is None, an absent
   * switch is False and an absent --lang is its default, so only app_id,
   * app_key and vocab can ever be None.
   */
  function Arguments(cl: CommandLine): (args: map<string, Option<Value>>)
    ensures args.Keys == ArgumentKeys
    ensures args["clear"] == Some(VBool(cl.clear)) && args["skip"] == Some(VBool(cl.skip))
    ensures args["lang"] == Some(VStr(cl.lang.GetOr(DefaultLang)))
    ensures args["app_id"].None? <==> cl.appId.None?
    ensures args["app_key"].None? <==> cl.appKey.None?
    ensures args["vocab"].None? <==> cl.vocab.None?
    ensures cl.appId.Some? ==> args["app_id"] == Some(VStr(cl.appId.value))
    ensures cl.appKey.Some? ==> args["app_key"] == Some(VStr(cl.appKey.value))
    ensures cl.vocab.Some? ==> args["vocab"] == Some(VStr(cl.vocab.value))
  {
    map[
      "app_id" := StrArg(cl.appId),
      "app_key" := StrArg(cl.appKey),
      "vocab" := StrArg(cl.vocab),
      "clear" := Some(VBool(cl.clear)),
      "lang" := Some(VStr(cl.lang.GetOr(DefaultLang))),
      "skip" := Some(VBool(cl.skip))]
  }

  /**
   * The update loop of `get_config`: every argument that is not None
   * replaces the stored value under its key; every other stored key keeps
   * its value.
   */
  method MergeOverrides<V>(disk: map<string, V>, args: map<string, Option<V>>) returns (merged: map<string, V>)
    ensures merged.Keys == disk.Keys + (set k | k in args && args[k].Some?)
    ensures forall k :: k in args && args[k].Some? ==> merged[k] == args[k].value
    ensures forall k :: k in disk && (k !in args || args[k].None?) ==> merged[k] == disk[k]
  {
    merged := disk;
    var todo := args.Keys;
    while todo != {}
      invariant todo <= args.Keys
      invariant merged.Keys == disk.Keys + (set k | k in args && k !in todo && args[k].Some?)
      invariant forall k :: k in args && k !in todo && args[k].Some? ==> merged[k] == args[k].value
      invariant forall k :: k in disk && (k !in args || k in todo || args[k].None?) ==> merged[k] == disk[k]
      decreases todo
    {
      var k :| k in todo;
      if args[k].Some? {
        merged := merged[k := args[k].value];
      }
      todo := todo - {k};
    }
  }

  /** The parser rejects a first run that lacks --app_id, --app_key or --vocab. */
  datatype ConfigError = MissingRequiredArgument

  /**
   * `get_config`, with the stored configuration given (None on a first run,
   * when no configuration file exists) instead of read from disk.
   */
  method GetConfig(stored: Option<map<string, Value>>, cl: CommandLine)
    returns (r: Result<map<string, Value>, ConfigError>)
    ensures r.Failure? <==> stored.None? && (cl.appId.None? || cl.appKey.None? || cl.vocab.None?)
    ensures r.Success? && stored.None? ==> r.value.Keys == ArgumentKeys
    ensures r.Success? && stored.Some? ==>
      r.value.Keys == stored.value.Keys + (set k | k in Arguments(cl) && Arguments(cl)[k].Some?)
    ensures r.Success? ==> ArgumentKeys - {"app_id", "app_key", "vocab"} <= r.value.Keys
    ensures r.Success? ==>
      r.value["clear"] == VBool(cl.clear) && r.value["skip"] == VBool(cl.skip) &&
      r.value["lang"] == VStr(cl.lang.GetOr(DefaultLang))
    ensures r.Success? && cl.appId.Some? ==> r.value["app_id"] == VStr(cl.appId.value)
    ensures r.Success? && cl.appKey.Some? ==> r.value["app_key"] == VStr(cl.appKey.value)
    ensures r.Success? && cl.vocab.Some? ==> r.value["vocab"] == VStr(cl.vocab.value)
    ensures r.Success? && stored.Some? ==> forall k ::
      k in stored.value && (k !in Arguments(cl) || Arguments(cl)[k].None?) ==> r.value[k] == stored.value[k]
  {
    var args := Arguments(cl);
    if stored.None? {
      if cl.appId.None? || cl.appKey.None? || cl.vocab.None? {
        return Failure(MissingRequiredArgument);
      }
      return Success(map k | k in args :: args[k].value);
    }
    var merged := MergeOverrides(stored.value, args);
    r := Success(merged);
  }
}
