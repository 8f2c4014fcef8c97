# Buildkite agent plugins, modelled in Dafny

This project models `agent/plugin.go` of the Buildkite agent, the code that turns a
pipeline's plugin declarations into plugin values. It covers these steps:

- parsing one plugin reference (`CreatePlugin`), e.g. `github.com/org/thing-buildkite-plugin#v1.2`,
  into a location, a version, a clone scheme and the authentication;
- turning a decoded JSON plugin list into a list of plugins (`CreatePluginsFromJSON`);
- deriving a plugin's name, label and folder identifier (`Name`, `Label`, `Identifier`);
- finding the git repository that holds a plugin and the sub-directory inside it
  (`constructRepositoryHost`, `Repository`, `RepositorySubdirectory`);
- exporting a plugin's configuration as sorted `BUILDKITE_PLUGIN_<NAME>_<KEY>=<value>`
  environment lines (`ConfigurationToEnvironment`).

Modules, one per file:

| module | file | contents |
|---|---|---|
| `Results` | `results.dfy` | `Option` and `Result` |
| `Strings` | `strings.dfy` | the parts of Go's `strings` package and of the regular expressions in plugin.go that the code uses (split/join, cut, trim, runs of a character class, replace-all), with their laws |
| `Numbers` | `numbers.dfy` | decimal rendering of integers and of `%f` numbers (six fraction digits), with parse-back lemmas |
| `Sorting` | `sorting.dfy` | byte-wise string order and the in-place sort used by `sort.Strings` |
| `PluginTypes` | `plugin_types.dfy` | the `Plugin` record, decoded JSON values, parse failures and the errors of plugin.go |
| `Reference` | `reference.dfy` | the subset of `url.Parse` plugin references need, and `CreatePlugin` |
| `RepositoryResolver` | `repository.dfy` | `constructRepositoryHost`, `Repository`, `RepositorySubdirectory` |
| `Naming` | `naming.dfy` | `Name`, `Label`, `Identifier` |
| `Environment` | `environment.dfy` | `ConfigurationToEnvironment` |
| `Batch` | `batch.dfy` | `CreatePluginsFromJSON` |

Modelling choices:

- A Go `map[string]interface{}` is a sequence of `(key, value)` pairs in the order a
  `range` loop visits them. That order is unspecified in Go, so it is a parameter of the
  model. Where the output must not depend on it, a lemma proves that it does not.
- A JSON value is the `Value` datatype, i.e. the result of `json.Unmarshal`.
  `Num(micros)` is a number given in millionths. This makes `%f`, which prints six
  fraction digits, exact.
- The loops of `ConfigurationToEnvironment`, `CreatePluginsFromJSON` and
  `constructRepositoryHost` are methods with `while` loops. Each is proved equal to a
  specification function, and the plugin.go behaviour is proved about that function.
- `sort.Strings` is an in-place sort of an `array<string>`.

## Model

| member | source | states |
|---|---|---|
| `Reference.CreatePlugin` | agent/plugin.go:34-55 | The version is the text after the first `#` of the reference.<br>The configuration is kept unchanged.<br>Neither location nor version contains `#`.<br>A reference with two or more `#` is rejected ("Too many #'s").<br>Authentication is set only when the reference contains `@`.<br>The location never contains `?`: the query is dropped. |
| `Reference.CreatePluginOk` | agent/plugin.go:34-55 | A reference is accepted if and only if `url.Parse` succeeds and the fragment contains no further `#`. |
| `Reference.ParseUrlDropsQuery` | agent/plugin.go:37-43 | The host and path of a parsed URL contain no `?`, so the query never reaches the location. |
| `Reference.CreatePluginSchemelessHashes` | agent/plugin.go:46-48 | A schemeless reference `location#version` whose version contains `#` fails with exactly "Too many #'s" for the whole reference. |
| `Reference.ParseUrl` | agent/plugin.go:37 | The parsed fragment is the text after the first `#`.<br>Host and path are made only of characters of the part before it, and a user exists only if that part has an `@`. |
| `Reference.GetScheme` | agent/plugin.go:37 | Parsing fails exactly when the reference starts with `:`.<br>A non-empty scheme starts with a letter, uses only scheme characters, and is followed by `:` and the rest.<br>With no scheme, the rest is the whole input. |
| `Reference.ParseRest` | agent/plugin.go:37 | The fragment is passed through.<br>Host and path come from characters of the input. |
| `Reference.ParseAuthority` | agent/plugin.go:37 | The scheme and fragment are kept.<br>Host and path come from characters of the authority text. |
| `Reference.HashCount` | agent/plugin.go:46-48 | Two or more `#` in a reference leave one in the version.<br>The source's `strings.Count(version, "#") > 0` test is the same as "the version contains `#`". |
| `Reference.CreatePluginRoundTrip` | agent/plugin.go:34-55 | Formatting `scheme://user@host/path#version` and parsing it with `CreatePlugin` gives back each part unchanged. |
| `Reference.ParseUrlRoundTrip` | agent/plugin.go:37 | `url.Parse` of a formatted URL returns its scheme, user, host, path and fragment. |
| `Reference.AuthorityRoundTrip` | agent/plugin.go:37 | After `scheme:`, a `//`-prefixed rest yields the user, host and path it was built from. |
| `Reference.CreatePluginSchemeless` | agent/plugin.go:34-55 | A reference without a scheme, such as `github.com/org/repo#v1`, gives the location as written, the version after `#`, an empty scheme and no authentication. |
| `Reference.CreatePluginOpaque` | agent/plugin.go:42-44 | `scheme:rest` without a leading `/` is an opaque URL: location and version are empty and the scheme is kept. |
| `Reference.CreatePluginScpStyle` | agent/plugin.go:37-40 | An scp-style `user@host:path` reference is rejected. The colon in the first path segment is a parse error. |
| `Reference.ExampleWithScheme` | agent/plugin.go:34-55 | `scheme://host/org/repo#v1` gives location `host/org/repo`, version `v1` and scheme `scheme`. |
| `Reference.ExampleTwoHashes` | agent/plugin.go:46-48 | `host/path#a#b` fails with the "Too many #'s" error for `host/path#a#b`. |
| `Batch.CreatePluginsFromJSON` | agent/plugin.go:58-104 | The loop's result equals `PluginsFromJson`, which processes the elements in order and stops at the first error. |
| `Batch.AppendElement` | agent/plugin.go:75-100 | One list element adds its plugins to those already collected, or gives that element's error. |
| `Batch.AppendObject` | agent/plugin.go:83-97 | One object adds one plugin per entry in iteration order, or gives the first entry's error. |
| `Batch.AppendEntry` | agent/plugin.go:84-96 | One `location: config` entry adds one plugin, or gives "not a hash" or the reference's error. |
| `Batch.Collect` | agent/plugin.go:73-101 | Definition: the plugins of each element in order, or the first element's error. Proved about it: `CollectOk`, `CollectFirstError`, `CollectErrorOf`, `CollectAppend`. |
| `Batch.EntryPlugin` | agent/plugin.go:84-96 | Definition: an entry whose configuration is an object gives `CreatePlugin` of its location; otherwise "not a hash". |
| `Batch.EntryPlugins` | agent/plugin.go:84-96 | Definition: the same as a list of one plugin or the error. |
| `Batch.ElementPlugins` | agent/plugin.go:75-100 | Definition: a string element gives one plugin with an empty configuration, an object gives its entries' plugins, anything else "Unknown type". Proved about it: `ElementPluginsError`. |
| `Batch.PluginsFromJson` | agent/plugin.go:58-104 | Definition: a non-list document gives "not an array"; a list gives `Collect` of its elements. Proved about it: `NotAnArrayExactly`, `StringsOnly`, `PluginsFromJsonAppend`. |
| `Batch.CollectOk` | agent/plugin.go:73-101 | The batch succeeds if and only if every element succeeds. |
| `Batch.CollectFirstError` | agent/plugin.go:73-101 | The batch's error is the error of the first element that fails. |
| `Batch.CollectErrorOf` | agent/plugin.go:73-101 | A failing batch's error is the error of one of its elements. |
| `Batch.CollectErrSticks` | agent/plugin.go:79-80 | Once a prefix of the elements fails, the rest cannot change the result (early return). |
| `Batch.CollectAppend` | agent/plugin.go:73-101 | Processing `a + b` is processing `a` and then continuing with `b`. |
| `Batch.NotAnArrayExactly` | agent/plugin.go:67-70 | The result is "JSON structure was not an array" exactly when the document is not a list. |
| `Batch.StringsOnly` | agent/plugin.go:75-81 | A list of valid reference strings gives one plugin per string, in order, each with an empty configuration. |
| `Batch.NotAHashAt` | agent/plugin.go:86-88 | The first entry whose configuration is not an object makes the whole call fail with "not a hash" for that location. |
| `Batch.UnknownTypeAt` | agent/plugin.go:98-99 | The first element that is neither a string nor an object makes the call fail with "Unknown type". |
| `Batch.PluginsFromJsonAppend` | agent/plugin.go:73-103 | Concatenating two plugin lists succeeds if and only if both succeed, and the plugins are concatenated. |
| `Batch.ElementPluginsError` | agent/plugin.go:78-99 | An element's error is "not a hash", "Unknown type", an invalid reference or "Too many #'s". It is never "not an array". |
| `Naming.Name` | agent/plugin.go:107-123 | An empty location gives an empty name.<br>A name uses only lower-case letters, digits and `-`. |
| `Naming.LastSegment` | agent/plugin.go:110-111 | The last `/`-separated part contains no `/`. |
| `Naming.Slug` | agent/plugin.go:114-116 | After lower-casing and replacing every non-alphanumeric character by `-`, only `[a-z0-9-]` remain. |
| `Naming.SlugNoSpace` | agent/plugin.go:114-116 | Without whitespace the cleaning works character by character: same length, each letter or digit lower-cased, every other character `-`. |
| `Naming.SegmentName` | agent/plugin.go:114-117 | The cleaned segment without `-buildkite-plugin` still uses only `[a-z0-9-]`. |
| `Naming.NameOfLastSegment` | agent/plugin.go:110-119 | The name depends only on the part after the last `/`. |
| `Naming.NameOfSingleSegment` | agent/plugin.go:110-119 | A location without `/` is cleaned as a whole. |
| `Naming.NameOfTrailingSlash` | agent/plugin.go:110-111 | A location ending in `/` has an empty name. |
| `Naming.SlugOfNameChars` | agent/plugin.go:114-116 | A segment already in `[a-z0-9-]` is unchanged by the cleaning. |
| `Naming.SlugWhitespaceRun` | agent/plugin.go:115-116 | A run of whitespace becomes exactly one `-`. |
| `Naming.SegmentNameDropsSuffix` | agent/plugin.go:117 | `<base>-buildkite-plugin` is named `<base>`. |
| `Naming.SegmentNameDropsInner` | agent/plugin.go:117 | Every occurrence of `-buildkite-plugin` is removed, including ones in the middle, not only a trailing one. |
| `Naming.ExampleDockerCompose` | agent/plugin.go:107-123 | `github.com/buildkite-plugins/docker-compose-buildkite-plugin` is named `docker-compose`. |
| `Naming.Label` | agent/plugin.go:221-227 | The label starts with the location.<br>The label is the location when there is no version. |
| `Naming.LabelSplits` | agent/plugin.go:221-227 | Splitting a label at its first `#` gives the location and the version. |
| `Naming.LabelInjective` | agent/plugin.go:221-227 | Two plugins with equal labels have equal location and version. |
| `Naming.LabelOfSchemeless` | agent/plugin.go:34-55 | For a schemeless reference, the label of the parsed plugin is the reference itself. |
| `Naming.CleanId` | agent/plugin.go:127-133 | The result is an identifier: `[A-Za-z0-9-]`, no `--`, and no `-` at either end.<br>The letters and digits are kept, in order. |
| `Naming.CleanIdWords` | agent/plugin.go:127-133 | The cleaned text is the letter-and-digit words of the input, in order, joined by single `-`. |
| `Naming.CleanIdParts` | agent/plugin.go:127-133 | When the input has a word, the `-`-separated parts of the result are exactly its words, in order. |
| `Naming.WordsOfWordThen` | agent/plugin.go:127-133 | A word followed by a non-alphanumeric character is split off whole: words are maximal runs. |
| `Naming.WordsOfJoin` | agent/plugin.go:127-133 | Words joined by a non-alphanumeric separator are found again, in order. |
| `Naming.CleanIdFixpoint` | agent/plugin.go:127-133 | The cleaning leaves a string unchanged if and only if it already is an identifier. |
| `Naming.CleanIdIdempotent` | agent/plugin.go:127-133 | Cleaning twice is cleaning once. |
| `Naming.Identifier` | agent/plugin.go:126-136 | The identifier never fails and is a well-formed identifier.<br>It keeps exactly the letters and digits of the label. |
| `Naming.IdentifierWords` | agent/plugin.go:126-136 | The identifier is the words of the label joined by `-`. |
| `Naming.IdentifierStable` | agent/plugin.go:126-136 | Cleaning an identifier again changes nothing. |
| `RepositoryResolver.ConstructRepositoryHost` | agent/plugin.go:229-262 | The loop's result equals `RepositoryRoot` of the location. |
| `RepositoryResolver.SegmentsThroughGit` | agent/plugin.go:248-258 | The loop keeps the segments up to and including the first `.git` one, or all segments. |
| `RepositoryResolver.ThroughGit` | agent/plugin.go:248-258 | The count stops right after the first segment ending in `.git`. No earlier segment ends in `.git`. |
| `RepositoryResolver.RepositoryRoot` | agent/plugin.go:229-262 | Definition: the errors for an empty location, a location without `/` and a short known-host path; otherwise the segments counted by `RootSegments`. Proved about it: `RootErrors`, `RootKnownHost`, `RootOtherHost`, `RootIsPrefix`. |
| `RepositoryResolver.RootErrors` | agent/plugin.go:230-237 | Resolution fails exactly for an empty location, one without `/`, or a known host with too few parts. |
| `RepositoryResolver.RootKnownHost` | agent/plugin.go:241-246 | On github.com, bitbucket.org and gitlab.com, the repository is the first three segments. |
| `RepositoryResolver.RootOtherHost` | agent/plugin.go:248-258 | On other hosts, the repository is the leading segments through the first `.git`, or the whole location. |
| `RepositoryResolver.RootIsPrefix` | agent/plugin.go:229-262 | The repository is a `/`-prefix of the location. |
| `RepositoryResolver.Repository` | agent/plugin.go:139-160 | The result fails exactly when resolution fails, with the same error. Otherwise it is the clone URL of the repository. |
| `RepositoryResolver.CloneUrl` | agent/plugin.go:145-159 | The URL ends with the repository, and with `auth@repository` when authenticated.<br>A local `/` path without authentication is returned unchanged.<br>Otherwise the URL starts with the scheme, defaulting to `https://`. |
| `RepositoryResolver.RepositoryReparse` | agent/plugin.go:139-160 | Parsing the clone URL again gives the repository as location, the scheme (`https` by default) and the same authentication. |
| `RepositoryResolver.RepositorySubdirectory` | agent/plugin.go:163-172 | The result fails exactly when resolution fails, with the same error. |
| `RepositoryResolver.SubdirectorySegments` | agent/plugin.go:163-172 | The sub-directory is the location's segments after the repository's, joined by `/`. |
| `RepositoryResolver.RootAndSubdirectory` | agent/plugin.go:139-172 | The location is the repository alone, with an empty sub-directory, or the repository, `/` and the sub-directory. |
| `Environment.ConfigurationToEnvironment` | agent/plugin.go:175-218 | The lines are sorted. They are a permutation of the lines every entry contributes. |
| `Environment.AppendEntry` | agent/plugin.go:187-211 | One entry adds its lines: string, number, string list, list, or none. |
| `Environment.AppendStrList` | agent/plugin.go:192-195 | A string list adds `NAME_<i>=item` for each item. |
| `Environment.AppendList` | agent/plugin.go:196-207 | A mixed list adds one indexed line for each string or number element. |
| `Environment.EnvName` | agent/plugin.go:183-185 | The variable name starts with `BUILDKITE_PLUGIN_`. |
| `Environment.EnvNameOfIdentifiers` | agent/plugin.go:183-185 | For a non-empty plugin name and a key made of words joined by single `-`, the name is exactly `BUILDKITE_PLUGIN_<NAME>_<KEY>`, each part upper-cased with `-` turned into `_`. |
| `Environment.EnvNameOfWords` | agent/plugin.go:183-185 | For a plain-word plugin name and key (or an empty key), the name is `BUILDKITE_PLUGIN_` + upper-cased name + `_` + upper-cased key. |
| `Environment.ExampleDashedKey` | agent/plugin.go:183-185 | The key `my-key` of the plugin `example` is `BUILDKITE_PLUGIN_EXAMPLE_MY_KEY`. |
| `Environment.ExampleEncoding` | agent/plugin.go:175-218 | The plugin `example` with `{"name": "value", "flags": ["a", "b"]}` gets exactly `BUILDKITE_PLUGIN_EXAMPLE_FLAGS_0=a`, `BUILDKITE_PLUGIN_EXAMPLE_FLAGS_1=b`, `BUILDKITE_PLUGIN_EXAMPLE_NAME=value`, in that order. |
| `Environment.EnvNameShape` | agent/plugin.go:183-185 | A variable name starts with `BUILDKITE_PLUGIN_`.<br>It has no `-`, whitespace or lower-case letter, and no two adjacent `_`. |
| `Environment.ElemLines` | agent/plugin.go:196-207 | Definition: a `NAME_<i>=<text>` line for each string or number element at index `i`, others skipped. Proved about it: `ElemLinesMember`, `ElemLinesIndexed`, `ElemLinesGap`. |
| `Environment.EntryLines` | agent/plugin.go:187-211 | Definition: the lines of one value by its type: string, number, string list, mixed list, or none. Proved about it: `EntryLinesNamed`. |
| `Environment.ConfigLines` | agent/plugin.go:181-212 | Definition: the lines of every entry, in iteration order. Proved about it: `ConfigLinesPermutation`, `ConfigLinesNamed`, `ConfigLinesSkipsUnsupported`. |
| `Environment.ConfigLinesPermutation` | agent/plugin.go:181-212 | Reordering the configuration only reorders the lines. |
| `Environment.EnvironmentOrderIndependent` | agent/plugin.go:175-218 | The sorted environment does not depend on map iteration order. |
| `Environment.ElemLinesMember` | agent/plugin.go:196-207 | A line comes from a list exactly when some element at index `i` is a string or number with that text under `NAME_<i>`. |
| `Environment.ElemLinesIndexed` | agent/plugin.go:196-207 | Every list line is `NAME_<i>=<text of element i>`. |
| `Environment.ElemLinesGap` | agent/plugin.go:196-207 | A skipped element still uses up its index: `[a, true, c]` gives `_0` and `_2`. |
| `Environment.EntryLinesNamed` | agent/plugin.go:187-211 | Every line of an entry is `NAME=…` or `NAME_…`. |
| `Environment.ConfigLinesNamed` | agent/plugin.go:181-212 | Every line starts with `BUILDKITE_PLUGIN_` and with the variable name of some key. |
| `Environment.ConfigLinesSkipsUnsupported` | agent/plugin.go:208-210 | An object, boolean or null value contributes no line. |
| `Numbers.FormatNum` | agent/plugin.go:190 | `%f` text: a leading `-` exactly for negative numbers, then a point and exactly six fraction digits. |
| `Numbers.NatToString` | agent/plugin.go:193 | `%d` text of an index: at least one digit, only digits, no leading zero. |
| `Numbers.FormatNumRoundTrip` | agent/plugin.go:190-191 | The `%f` text of a number parses back to the same number. |
| `Numbers.FormatWholeNumber` | agent/plugin.go:190-191 | A whole number `n` prints as `n.000000`. |
| `Numbers.ParseNatToString` | agent/plugin.go:193 | The decimal text of an index parses back to it. |
| `Numbers.NatToStringInjective` | agent/plugin.go:193 | Distinct indices have distinct decimal texts. |
| `Sorting.SortStrings` | agent/plugin.go:215 | The array ends sorted and is a permutation of its old contents. |
| `Sorting.SortedUnique` | agent/plugin.go:215 | Two sorted permutations of the same lines are equal. |
| `Sorting.StrLeTotal` | agent/plugin.go:215 | The string order is total. |
| `Sorting.StrLeAntisymmetric` | agent/plugin.go:215 | The string order is antisymmetric. |
| `Sorting.StrLeTransitive` | agent/plugin.go:215 | The string order is transitive. |
| `Sorting.StrLeCommonPrefix` | agent/plugin.go:215 | A common prefix does not change the order of two strings. |
| `Strings.JoinSplit` | agent/plugin.go:110 | Joining the parts of `strings.Split` gives back the string. |
| `Strings.SplitLength` | agent/plugin.go:110 | `strings.Split` gives one more part than there are separators. |
| `Strings.SquashRunsFixpoint` | agent/plugin.go:115 | Collapsing runs changes nothing exactly when no run is left. |
| `Strings.ReplaceAllPrefix` | agent/plugin.go:117 | `strings.Replace(…, -1)` leaves a prefix without occurrences untouched. |

## Left out

- `url.Parse` is modelled only in the parts a plugin reference reaches. Not modelled: percent-decoding, host and port validation, IPv6 literals, userinfo validation and escaping, and the errors for bad percent-escapes, hosts and ports. The modelled failures are a leading `:`, control characters and a colon in the first path segment.
- `Reference.CreatePlugin`: the authentication is the raw user text before the last `@`. Go's `User.String()` re-escapes that text, and the model does not.
- `json.Unmarshal` is not modelled. `CreatePluginsFromJSON` takes the decoded `Value`, so the JSON syntax error path is not part of the model.
- `%f` formatting of a float64 is modelled on numbers given in millionths. Rounding of binary floating point is not modelled.
- `shell.EnvironmentFromSlice` is not modelled. `ConfigurationToEnvironment` returns the sorted line sequence that would be handed to it.
- The `fmt.Printf` diagnostics in `ConfigurationToEnvironment` are side output and are not modelled.
- `strings.ToLower`, `strings.ToUpper` and the `\s` class are modelled on ASCII only. Unicode case mapping and Unicode spaces are not modelled.
- Go map iteration order is a parameter (the order of the entry sequence), not chosen by a random source.
- `locationSchemeRegex` is declared but never used, so it is not modelled.
- `Environment.EnvNameShape`: "no two adjacent `_`" is proved for the base variable name only. `NAME_<i>` after a key ending in `-` or whitespace gives `__`, because the index is appended after the runs are squashed.
- `Sorting.SortStrings` is an insertion sort. Only what `sort.Strings` promises is stated: sorted output that is a permutation of the input.
- The command-line packages that call these functions are not part of this model.
