# clickhouse-migration configuration bootstrap, in Dafny

This project models how the migration tool gets its configuration. It covers:

- the built-in defaults of `config/default.go`, read from the environment;
- the configuration record of `config/config.go`;
- the extended flag set of `config/flagset.go`. It holds three composite flag values with
  their text grammars, and `ParseFlags`, which fills every flag the command line left
  alone from the environment, and then from a properties document;
- the bootstrap of `config/load.go`. It finds `-cfg`, stops on `-v`, picks the properties
  loader, registers the seventeen flags, filters `-test.` arguments and resolves them;
- the JSONB column adapter of `database/jsonb.go`.

Modules, one per file:

- `GoStrings` (`go_strings.dfy`): the Go standard string functions the core uses. These
  are `Split`, `SplitN(…, 2)`, `Join`, `TrimSpace`, `Trim`, `ToUpper`, `Replace` and the
  order of `sort.Strings`.
- `GoNumbers` (`numbers.dfy`): `strconv.Atoi` on a 64-bit platform and `strconv.Itoa`.
  `Atoi` includes the value it returns with an error: 0 for a syntax error, and the nearest
  64-bit bound for an out-of-range number.
- `Defaults` (`defaults.dfy`): `config` and `Database`, the five numeric getters, and the
  `Default` record.
- `FlagValues` (`flag_values.dfy`): `kvParse` and `kvString`, and the classes `kvValue`,
  `kvSliceValue` and `stringSliceValue`.
- `Flags` (`flag_set.dfy`): the `FlagSet` class and `ParseFlags`. `ParseFlags` is proved
  against the specification function `Decide`, which says where each flag's value comes
  from.
- `Load` (`load.dfy`): `parseCfg`, the argument scan of `Load`, `loadProperties`, the
  registrations and the `-test.` filter of `load`, and the whole bootstrap as one method.
- `Jsonb` (`jsonb.dfy`): `JSONB` as a byte sequence, and a `Json` class for the
  pointer-receiver methods.

What is proved, in brief:

- `kvString` is read back by `kvParse` for every map `kvParse` can produce: keys trimmed and
  free of `=` and `;`, values free of `;`. The same holds for the KV-slice and string-slice
  text of every value their `Set` can produce. Normalising a text through `String` is
  idempotent. Other maps need not survive a round trip: the empty map comes back as
  `{"": ""}`, a value holding `;` is cut at it, and an untrimmed key comes back trimmed.
- `ParseFlags` leaves a flag named on the command line, or already marked, as it is.
  Any other flag takes the variable of the first prefix that exists in the
  case-insensitive environment. Failing that, it takes the document's value. A flag is
  marked set exactly when one of these applies.
- The argument scan stops at the first `-v`, the first `parseCfg` error or the first
  non-empty path, and looks at nothing after it.
- `Atoi` reads every optionally signed digit string in the 64-bit range, with a `+` or
  leading zeros as well, and `Atoi(Itoa(n))` gives back `n`. Text with a non-digit reads as
  0, unless the digits before it already pass 2^64 - 1. A number out of range reads as the
  64-bit bound on its side.
- So a numeric default falls back to its built-in constant exactly when the variable is
  empty, spells zero in any form, or is malformed and its leading digits do not already
  pass 2^64 - 1. Any other value is used as `Atoi` reads
  it, so a number too large for 64 bits is clamped rather than replaced by the default.
- JSONB: `MarshalJSON` is idempotent, `Scan` of a value's `String` gives the value back, and
  a NULL column leaves empty content.

What the program takes from the outside is given as parameters:

- `os.Args` as `osArgs`, and `os.Environ()` as `environ`;
- the environment that `os.Getenv` read when `Default` was built, as `initEnv`;
- the properties loaders `properties.LoadURL` and `properties.LoadFile`, as `fetch`;
- the flag library's `Parse` on the filtered arguments, as `parse`. It returns a `CmdLine`:
  the flags it assigned, with their raw text, and the error it stopped with.

Every flag value is kept as its raw text, and the flag library's `Set` is a map update.

Four behaviours of the code are easy to miss:

- **`-v` after the path.** The loop at `config/load.go:17-28` stops at the first non-empty
  path, so a `-v` after the config path is never seen (`Load.FirstPathWins`).
  `Load.VersionShortCircuits` states when `-v` does stop the bootstrap.
- **Unterminated quotes.** `strings.Trim` strips a leading quote even when no quote closes
  the value, so `-cfg='abc` gives the path `abc` rather than an error (`Load.CfgExamples`).
- **The `-cfg` argument.** `load` passes `-cfg` and its value on to `ParseFlags` and
  registers `cfg` as a dummy flag. The `-test.` arguments are the only ones removed
  (`Load.FilterArgs`).
- **Prefixes.** The prefix list is `["", ""]`. `Load.LoadPrefixesLikeEmpty` proves it
  decides every flag as `[""]` does.

## Model

| member | source | states |
|---|---|---|
| `GoStrings.Trim` | config/load.go:61-63 | the result neither starts nor ends with the quote, and is empty exactly when the text is made only of that quote |
| `GoStrings.TrimLeftSlice` | config/load.go:61-63 | stripping the leading quotes keeps a suffix of the text, and every character dropped is the quote |
| `GoStrings.TrimRightSlice` | config/load.go:61-63 | stripping the trailing quotes keeps a prefix of the text, and every character dropped is the quote |
| `GoStrings.TrimSlice` | config/load.go:61-63 | the result is the slice of the text that starts where the leading quotes end: its characters are the text's from that offset on, and every character before and after it is the quote |
| `GoNumbers.AtoiItoa` | config/default.go:16 | `strconv.Atoi` reads back the text `strconv.Itoa` writes, with no error, for every 64-bit integer |
| `GoNumbers.AtoiDecimal` | config/default.go:16 | every optionally signed digit string whose value fits in 64 signed bits, with `+` or leading zeros, is read as that value with no error |
| `GoNumbers.AtoiMalformed` | config/default.go:16 | text that is not an optionally signed digit string gives Atoi's value 0, whatever its length, unless its leading digits pass 2^64 - 1 |
| `GoNumbers.AtoiOutOfRange` | config/default.go:16 | a number outside the 64-bit range, with or without text after digits that pass 2^64 - 1, gives the bound on its sign's side and an error |
| `GoNumbers.ScanSyntax` | config/default.go:16 | parsing stops with a syntax error at the first non-digit when the digits before it fit in 64 bits |
| `GoNumbers.ScanOverflow` | config/default.go:16 | once the digits read pass 2^64 - 1, parsing reports a range error whatever follows them |
| `GoNumbers.ScanFits` | config/default.go:16 | a digit string whose value fits in 64 bits is read as exactly that value |
| `Defaults.Getenv` | config/default.go:95 | `os.Getenv` gives the variable's value, or "" when it is unset |
| `Defaults.EnvInt` | config/default.go:13-20 | an empty variable gives the default; a nonzero value from Atoi, error ignored, is taken; a zero one gives the default; a nonzero default never yields 0 |
| `Defaults.EnvIntTakesNonzero` | config/default.go:15-20 | a variable spelling a nonzero 64-bit integer is taken as is: negative ones, a leading `+` and leading zeros included |
| `Defaults.EnvIntZero` | config/default.go:17-19 | a variable spelling zero in any form (`0`, `00`, `-0`, `+0`) gives the default |
| `Defaults.EnvIntMalformed` | config/default.go:16-19 | a malformed variable of any length gives the default, unless its leading digits pass 2^64 - 1 |
| `Defaults.EnvIntOutOfRange` | config/default.go:16-20 | a number outside the 64-bit range, even with text after it, gives the 64-bit bound of its sign, not the default |
| `Defaults.EnvIntCasesComplete` | config/default.go:13-20 | every text falls under one of the four cases above, so together they decide the getter for every input |
| `Defaults.DatabasePort` | config/default.go:8-23 | `POSTGRES_PORT` unset or empty gives 25060; a nonzero Atoi value is taken; a zero one gives 25060; never 0 and always a 64-bit integer |
| `Defaults.ClickHousePort` | config/default.go:25-40 | the same rule for `CLICKHOUSE_PORT` with 9000 |
| `Defaults.MaxIdleConn` | config/default.go:42-57 | the same rule for `POSTGRES_MAX_IDLE_CONN` with 32 |
| `Defaults.MaxOpenConn` | config/default.go:59-74 | the same rule for `POSTGRES_MAX_OPEN_CONN` with 32 |
| `Defaults.MaxLifetime` | config/default.go:76-91 | the same rule for `POSTGRES_MAX_LIFETIME` with 30 |
| `Defaults.DefaultConfig` | config/default.go:93-113 | the database has driver `postgres` and debug off, and the ClickHouse record an empty driver, zero pool fields and debug off; each text field is the named environment variable; each numeric field comes from its own getter |
| `Defaults.DefaultsOfEmptyEnvironment` | config/default.go:93-113 | with an empty environment the ports are 25060 and 9000, the pool sizes 32 and 32, and the lifetime 30 |
| `FlagValues.TokenParts` | config/flagset.go:49-55 | a token splits at its first `=` into a key, trimmed and free of `=`, and the untrimmed rest; without `=` the whole trimmed token is the key and the value is "" |
| `FlagValues.ParseTokens` | config/flagset.go:48-56 | entering the tokens in order always leaves the last token's key in the map |
| `FlagValues.KvParse` | config/flagset.go:46-58 | the parsed map is never empty, since every text has at least one token |
| `FlagValues.ParseTokensHas` | config/flagset.go:48-56 | every `;`-separated token contributes its key |
| `FlagValues.ParseTokensOnly` | config/flagset.go:48-56 | every key comes from some token |
| `FlagValues.ParseTokensLastWins` | config/flagset.go:48-56 | a key's value is that of the last token with that key |
| `FlagValues.KvParseEntry` | config/flagset.go:46-58 | the key is the trimmed text before the first `=`; the value is the untrimmed rest, or "" without `=` |
| `FlagValues.KvParseWellFormed` | config/flagset.go:46-58 | keys come out trimmed and free of `=` and `;`, values free of `;`, and no character absent from the input appears |
| `FlagValues.KvString` | config/flagset.go:60-72 | the text is empty exactly for the empty map |
| `FlagValues.KvStringEntries` | config/flagset.go:60-72 | splitting the text on `;` gives the `k=v` entries in strictly ascending key order |
| `FlagValues.ParseEntries` | config/flagset.go:46-72 | parsing rendered entries rebuilds the map on exactly the rendered keys |
| `FlagValues.KvRoundTrip` | config/flagset.go:46-72 | `kvParse(kvString(m)) == m` for every map `kvParse` can produce |
| `FlagValues.EmptyMapDoesNotRoundTrip` | config/flagset.go:46-72 | `kvParse("")` is `{"": ""}`, so the empty map does not survive a round trip |
| `FlagValues.KvNormalizeIdempotent` | config/flagset.go:46-80 | re-parsing the canonical text of a parsed text gives the same map |
| `FlagValues.KvValue.constructor` | config/flagset.go:40-43 | the destination starts as the default map |
| `FlagValues.KvValue.Set` | config/flagset.go:74-77 | the map becomes `kvParse(s)` and is well formed |
| `FlagValues.KvValue.String` | config/flagset.go:80 | the text is empty exactly for the empty map, and `Set` reads it back to the same map |
| `FlagValues.KvSliceParse` | config/flagset.go:90-96 | one map per `,`-separated segment: one more than there are commas |
| `FlagValues.KvSliceParseSegments` | config/flagset.go:90-96 | the i-th map is `kvParse` of the i-th segment, and each is well formed |
| `FlagValues.KvSliceString` | config/flagset.go:99-105 | for a list of well-formed maps, splitting the text at `,` gives each map's `kvString` in order |
| `FlagValues.KvSliceRoundTrip` | config/flagset.go:90-105 | `Set(String(v))` restores every list of well-formed maps |
| `FlagValues.KvSliceNormalizeIdempotent` | config/flagset.go:90-105 | normalising a KV-slice text is idempotent |
| `FlagValues.KvSliceValue.constructor` | config/flagset.go:85-88 | the destination starts as the default list |
| `FlagValues.KvSliceValue.Set` | config/flagset.go:90-96 | the loop leaves exactly `kvParse` of each segment, in order |
| `FlagValues.KvSliceValue.String` | config/flagset.go:99-105 | `Set` reads the text back to the same list when every map is well formed |
| `FlagValues.KeepNonEmpty` | config/flagset.go:117-124 | at most one item is kept per segment |
| `FlagValues.StringSliceParse` | config/flagset.go:115-125 | at most one item per `,`-separated segment, so at most one more than there are commas |
| `FlagValues.StringSliceParseClean` | config/flagset.go:115-125 | every item kept is trimmed, non-empty and free of `,` |
| `FlagValues.StringSliceRoundTrip` | config/flagset.go:115-128 | `Set(String(v))` restores every list `Set` can produce, the empty list included |
| `FlagValues.StringSliceExample` | config/flagset.go:115-125 | `" a , ,b"` gives `["a", "b"]`: blank segments are dropped |
| `FlagValues.StringSliceValue.constructor` | config/flagset.go:110-113 | the destination starts as the default list |
| `FlagValues.StringSliceValue.Set` | config/flagset.go:115-125 | the loop keeps the trimmed non-blank segments in order, and they are clean items |
| `FlagValues.StringSliceValue.String` | config/flagset.go:128 | `Set` reads the joined text back to the same list when the items are clean |
| `Flags.EnvMap` | config/flagset.go:173-177 | every key of the environment lookup is upper-case |
| `Flags.EnvMapLastWins` | config/flagset.go:173-177 | a later entry with the same upper-cased name overrides an earlier one; the value is the untouched text after the first `=` |
| `Flags.EnvMapOnly` | config/flagset.go:173-177 | a name is in the lookup exactly when some environ entry's upper-cased name spells it, and its value is the text after the first `=` of such an entry |
| `Flags.EnvMapSingle` | config/flagset.go:173-177 | one entry `k=v` gives the lookup `{ToUpper(k): v}` |
| `Flags.BuildEnv` | config/flagset.go:172-177 | the loop builds exactly the lookup `EnvMap` describes |
| `Flags.EnvName` | config/flagset.go:193 | the variable name is as long as prefix and flag name together, and holds no `.` after the prefix |
| `Flags.HostVariable` | config/flagset.go:193 | `postgres.host` under the prefix `app_` is looked up as `APP_POSTGRES_HOST` |
| `Flags.Prefixes` | config/flagset.go:168-170 | an empty prefix list stands for `[""]`; a non-empty one is kept |
| `Flags.FlagSet.constructor` | config/flagset.go:136-140 | a new flag set has no flags and nothing marked |
| `Flags.FlagSet.Register` | config/load.go:87-107 | a registration appends the flag with its default text and marks nothing |
| `Flags.FlagSet.IsSet` | config/flagset.go:143-145 | true exactly for a flag marked set, which is always a registered one |
| `Flags.FlagSet.ParseFlags` | config/flagset.go:163-212 | a failed `Parse` is returned with nothing marked; otherwise every flag ends as `Decide` says and is marked exactly when `Decide` finds a source |
| `Flags.FlagSet.MarkCommandLine` | config/flagset.go:180-182 | the flags the command line assigned are marked, and nothing else changes |
| `Flags.FlagSet.ResolveAll` | config/flagset.go:185-210 | every registered flag is decided from the marks it had before the walk |
| `Flags.FlagSet.Lookup` | config/flagset.go:186-209 | one flag is decided and every other flag is unchanged |
| `Flags.FlagSet.Take` | config/flagset.go:194-197 | the flag is marked and takes the value; the other flags are unchanged |
| `Flags.FindVariable` | config/flagset.go:191-199 | the loop returns the value under the first prefix whose variable exists, or nothing |
| `Flags.FromEnv` | config/flagset.go:191-199 | a value found in the environment is the variable under one of the prefixes |
| `Flags.Decide` | config/flagset.go:185-209 | a marked flag is skipped, and only a marked one; an environment value is the variable under one of the prefixes; a document value is the document's entry under the flag's own name |
| `Flags.FromEnvFirstMatch` | config/flagset.go:192-198 | the first prefix whose variable exists supplies the value |
| `Flags.FromEnvNone` | config/flagset.go:192-199 | the environment supplies nothing exactly when no prefix names an existing variable |
| `Flags.FromEnvAppend` | config/flagset.go:192-199 | trying prefixes `p` then `q` tries `q` only when `p` finds nothing |
| `Flags.FromEnvRedundant` | config/flagset.go:192-199 | repeated prefixes change nothing; `["", ""]` behaves as `[""]` |
| `Flags.UntouchedIff` | config/flagset.go:185-210 | a flag is left alone exactly when it is unmarked, no variable matches, and the document lacks it |
| `Flags.EnvironmentFirstPrefix` | config/flagset.go:191-199 | an unmarked flag takes the variable of the first prefix that has one |
| `Flags.PropertiesOnlyWithoutEnvironment` | config/flagset.go:201-209 | the document is used only for an unmarked flag with no matching variable, under the flag's own name |
| `Flags.SingleVariable` | config/flagset.go:173-198 | one entry whose upper-cased name is the prefix's variable decides the flag |
| `Flags.CaseInsensitiveExample` | config/flagset.go:172-198 | `app_postgres_host=db1` and `APP_POSTGRES_HOST=db1` both decide `postgres.host` under `app_` |
| `Load.ParseCfg` | config/load.go:40-69 | an argument not starting with `-cfg` says nothing; a separate `-cfg` takes the next argument and is an error as the last one; any other spelling than `-cfg` or `-cfg=v` is an error; `-cfg=v` is an error exactly when `v` is empty or made only of the quote it starts with; otherwise it gives `v`, with its leading quote trimmed from both ends |
| `Load.CfgSeparate` | config/load.go:45-50 | a separate `-cfg` takes the next argument verbatim, and is an error as the last argument |
| `Load.CfgUnquoted` | config/load.go:52-68 | `-cfg=p` gives `p` when `p` starts with no quote |
| `Load.CfgQuoted` | config/load.go:56-68 | `-cfg='p'` and `-cfg="p"` give `p` |
| `Load.CfgExamples` | config/load.go:41-67 | an unterminated quote is stripped; an empty value, a value of quotes only and `-cfgx` are errors |
| `Load.ScanFrom` | config/load.go:16-28 | the scan ends with `-v` only when some argument is `-v`, fails only at an argument `parseCfg` rejects, and finds a non-empty path only when `parseCfg` gives it at some argument |
| `Load.ScanArgs` | config/load.go:16-28 | the loop ends as the scan `ScanFrom` says |
| `Load.ScanSkipsQuiet` | config/load.go:17-28 | arguments with no `-v` and nothing about the config file are skipped |
| `Load.VersionShortCircuits` | config/load.go:18-20 | a `-v` before any path or error ends the bootstrap with no configuration and no error |
| `Load.FirstErrorWins` | config/load.go:21-24 | the first `parseCfg` error is returned |
| `Load.FirstPathWins` | config/load.go:25-27 | the first non-empty path ends the scan; nothing after it, a `-v` included, changes the result |
| `Load.SameCfgArg` | config/load.go:40-50 | `parseCfg` at `j` depends on `args[j]`, and on `args[j + 1]` only after a separate `-cfg` |
| `Load.NothingFound` | config/load.go:16-28 | with no `-v` and no `-cfg`, the path is empty |
| `Load.ClassifyPath` | config/load.go:71-79 | empty path: no loader; `http://` or `https://`: the URL loader; anything else: the file loader, each with the path unchanged |
| `Load.LoadProperties` | config/load.go:71-79 | the empty path gives an empty document without a loader call; any other path gives the chosen loader's result or error |
| `Load.WithoutTestFlags` | config/load.go:110-116 | the filter never adds arguments |
| `Load.WithoutTestFlagsDrops` | config/load.go:110-116 | what the filter keeps are given arguments not starting with `-test.` |
| `Load.WithoutTestFlagsAppend` | config/load.go:110-116 | the filter works argument by argument |
| `Load.WithoutTestFlagsKeeps` | config/load.go:110-116 | arguments without a `-test.` one pass unchanged |
| `Load.FilterArgs` | config/load.go:110-116 | the loop over `os.Args[1:]` keeps exactly what the filter describes |
| `Load.DefaultTexts` | config/load.go:87-107 | one default text per registered flag name |
| `Load.FlagNamesDistinct` | config/load.go:87-107 | the seventeen flag names are distinct, so no registration panics |
| `Load.RegisterFlags` | config/load.go:84-107 | after the registrations the flag set holds exactly the seventeen flags, in order, each with the default of the `Default` record as text |
| `Load.RegisterAll` | config/load.go:87-107 | registering a table of distinct names gives each its text and marks nothing |
| `Load.DefaultTextsReadBack` | config/load.go:93-104 | the text of every numeric default reads back as the number in the `Default` record |
| `Load.LoadPrefixesLikeEmpty` | config/load.go:119-120 | the prefixes `["", ""]` decide every flag as `[""]` does |
| `Load.Load` | config/load.go:15-36 | `-v`: no configuration; a bad `-cfg`: `errInvalidConfig`; a loader error is returned; a failed `Parse` exits; otherwise each flag holds its command-line text, or the value `Decide` picks from the environment and the document, or its default |
| `Load.ParseRegistered` | config/load.go:118-124 | `ParseFlags` with the two empty prefixes on the registered set; a failure exits, and otherwise every flag is resolved |
| `Jsonb.IsEmptyJson` | database/jsonb.go:20-22 | true exactly for the two bytes `{}` |
| `Jsonb.MarshalJson` | database/jsonb.go:25-30 | the encoding is never empty, and is the content itself when that is not empty |
| `Jsonb.MarshalIdempotent` | database/jsonb.go:20-30 | encoding is idempotent; it gives `{}` exactly for empty content or `{}` |
| `Jsonb.String` | database/jsonb.go:82-84 | the text is the content, byte for byte |
| `Jsonb.ScanResult` | database/jsonb.go:53-71 | `Scan` fails exactly for a source that is not a string, a byte slice or nil |
| `Jsonb.Json.Scan` | database/jsonb.go:53-71 | a string is copied in; an empty byte slice becomes `{}`; nil leaves empty content; any other type is an error that changes nothing |
| `Jsonb.Json.Unmarshal` | database/jsonb.go:74-79 | empty content is replaced by `{}` before decoding, and what is decoded is the content |
| `Jsonb.UnmarshalJson` | database/jsonb.go:33-39 | a nil pointer is an error; otherwise the content becomes a copy of the data |
| `Jsonb.ScanStringRoundTrip` | database/jsonb.go:53-84 | scanning a value's text gives the value back, and so does scanning the encoding of a non-empty value |
| `Jsonb.ScanEmptySources` | database/jsonb.go:53-71 | a NULL column leaves empty content, which `IsEmptyJSON` does not recognise but which encodes as `{}` |
| `Jsonb.ScanPreservesEncoding` | database/jsonb.go:53-71 | what `Scan` stores from a string or byte slice encodes the same as the source |

## Left out

- Flags.FlagSet.ParseFlags: flag values are kept as raw text. The flag library's typed
  `int` and `bool` setters, and the error `f.Set` returns, are not modelled. The source
  ignores that error.
- Load.Load: the result is the raw text of each flag, not the typed `config` record the
  flags point into. The conversion is the flag library's.
- Load.Load: a failed `Parse` under `flag.ExitOnError` ends the process; the model returns
  `Exited`. The grammar of the flag library's `Parse` is an input, `parse`.
- `properties.NewProperties`, `LoadURL`, `LoadFile` and the properties parser are not part
  of this model. The two loaders are the parameter `fetch`. The empty document stands for
  the empty provider.
- `os.Args`, `os.Environ` and `os.Getenv` are parameters. The package-level `Config`
  variable, which `Load` assigns, is left out.
- Flags.EnvMap: an environ entry without `=` makes the source index past the end of what
  `SplitN` returns and panic. The model requires every entry to hold `=`.
- Flags.FlagSet.Register: registering a name twice panics in the flag library. The model
  requires a fresh name; `Load.FlagNamesDistinct` shows `load` meets that requirement.
- Flags.FlagSet.ResolveAll: `VisitAll` walks the flags in lexicographic order; the model
  walks them in registration order. Each flag is decided from the marks it had before the
  walk, and a decision changes only that flag, so the order does not affect the result.
- Load.RegisterFlags: the seventeen straight-line registration calls are modelled as one
  loop over a table of names and defaults.
- Load.FilterArgs and Load.Load: both require at least one process argument. Go's `os.Args`
  always holds the program name, and with an empty `os.Args` the source would panic at
  `os.Args[0]` and `os.Args[1:]`.
- Flags.FlagSet.MarkCommandLine: it marks the flags this call's `Parse` assigned. Go's
  `Visit` marks every flag the flag library has recorded as set, which includes flags
  assigned by an earlier `Parse` on the same flag set. The two differ only when
  `ParseFlags` runs twice on one flag set, and `load` runs it once.
- GoStrings: Go strings are byte strings; the model's strings are sequences of characters,
  so text that is not valid UTF-8 cannot be represented. Every string the core inspects by
  position (`-cfg`, `-cfg=`, `-test.`, `http://`, quotes, `=`, `;`, `,`) is ASCII.
- GoNumbers.Atoi: models a 64-bit platform. On a 32-bit target `strconv.IntSize` is 32 and
  `Atoi` clamps at -2^31 and 2^31 - 1 instead. That platform is not modelled.
- GoStrings.ToUpper: `strings.ToUpper` is modelled on the ASCII letters only, with no
  Unicode case mapping.
- Jsonb: `JSONB.Value`, and the JSON decoding `json.Unmarshal` does after `Unmarshal`,
  are not modelled.
- Jsonb: slices that share a backing array are not modelled. Content is a value, so a
  `JSONB` that shares its bytes with `emptyJSON` after `Scan(nil)` or `Unmarshal` is not
  tracked.
- `database/init.go`, `database/jobs.go`, `database/audit.go` and `main.go` are not part
  of this model.
