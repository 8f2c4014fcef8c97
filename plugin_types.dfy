/**
 * The plugin descriptor, the configuration values it carries, and the
 * errors the plugin code returns.
 */
module PluginTypes {

  /**
   * A value as Go's `interface{}` holds it after `encoding/json` decoding
   * (strings, numbers, arrays, objects, booleans, null), plus the `[]string`
   * that Go callers may put in a configuration directly.
   *
   * A number is kept as a count of millionths: `Num(1500000)` is 1.5.
   * An object's entries are listed in the order Go's map iteration visits
   * them, which Go leaves unspecified.
   */
  datatype Value =
    | Str(s: string)
    | Num(micros: int)
    | StrList(items: seq<string>)
    | List(elems: seq<Value>)
    | Object(entries: seq<(string, Value)>)
    | Bool(b: bool)
    | Null

  /** A plugin's configuration: its keys and values, in map iteration order. */
  type Config = seq<(string, Value)>

  /**
   * A plugin reference split into its parts (agent/plugin.go's `Plugin`).
   * `location` is the host and path, without the version fragment.
   */
  datatype Plugin = Plugin(
    location: string,
    version: string,
    scheme: string,
    authentication: string,
    configuration: Config)

  /** Why Go's URL parser refuses a reference, for the cases the model covers. */
  datatype ParseFailure =
    | MissingScheme          // a `:` as the very first character
    | ColonInFirstSegment    // a schemeless reference whose first segment holds `:`
    | ControlCharacter       // a character below U+0020, or U+007F

  datatype Error =
    | InvalidReference(reference: string, reason: ParseFailure)
    | TooManyHashes(reference: string)
    | NotAnArray
    | NotAHash(location: string)
    | UnknownType(element: Value)
    | MissingLocation
    | IncompletePath(location: string)
    | IncompleteHostPath(host: string, location: string)
}
