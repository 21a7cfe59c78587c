/** The bootstrap of config/load.go: find the config-file path among the process
    arguments, classify it, register every configuration flag with its default, and
    resolve the flags from the command line, the environment and the properties
    document.

    The process arguments, the environment and the properties loaders are inputs:
    `osArgs` and `environ` are the two lists, `initEnv` is the environment the
    defaults were read from, `fetch` stands for `properties.LoadURL` and
    `properties.LoadFile`, and `parse` for the flag library's `Parse` on the
    filtered arguments. */
module Load {
  import opened GoStrings
  import opened GoNumbers
  import opened Defaults
  import opened Flags
  import opened Wrappers

  datatype Result<T> = Ok(value: T) | Err(error: string)

  const ErrInvalidConfig: string := "invalid or missing path to config file"

  // ----- parseCfg -----

  /** What `parseCfg` returns: a path, "" when the argument says nothing about the
      config file, or `errInvalidConfig`. */
  datatype CfgArg = Path(path: string) | InvalidConfig

  /** `parseCfg(args, i)`: nothing unless `args[i]` starts with `-cfg`; a separate `-cfg`
      takes the next argument verbatim; `-cfg=v` gives `v` with the quote it starts with
      trimmed from both ends; every other spelling, a missing or empty value and a value
      of quotes only are errors. */
  function ParseCfg(args: seq<string>, i: nat): (r: CfgArg)
    ensures i >= |args| || !HasPrefix(args[i], "-cfg") ==> r == Path("")
    ensures r == InvalidConfig ==> i < |args| && HasPrefix(args[i], "-cfg")
    ensures i < |args| && args[i] == "-cfg" ==>
      (r == InvalidConfig <==> i == |args| - 1) && (i < |args| - 1 ==> r == Path(args[i + 1]))
    ensures i < |args| && HasPrefix(args[i], "-cfg") && args[i] != "-cfg" && !HasPrefix(args[i], "-cfg=") ==>
      r == InvalidConfig
    ensures i < |args| && HasPrefix(args[i], "-cfg=") ==>
      var v := args[i][5..];
      (r == InvalidConfig <==> v == "" || ((v[0] == '\'' || v[0] == '"') && forall k :: 0 <= k < |v| ==> v[k] == v[0]))
      && (v != "" && v[0] != '\'' && v[0] != '"' ==> r == Path(v))
      && (v != "" && (v[0] == '\'' || v[0] == '"') && r.Path? ==> r.path == Trim(v, v[0]))
    ensures r.Path? && i < |args| && HasPrefix(args[i], "-cfg=") ==> r.path != ""
  {
    if |args| == 0 || i >= |args| || !HasPrefix(args[i], "-cfg") then Path("")
    else if args[i] == "-cfg" then
      if i >= |args| - 1 then InvalidConfig else Path(args[i + 1])
    else if !HasPrefix(args[i], "-cfg=") then InvalidConfig
    else
      var v := args[i][5..];
      var p :=
        if v == "" then v
        else if v[0] == '\'' then Trim(v, '\'')
        else if v[0] == '"' then Trim(v, '"')
        else v;
      if p == "" then InvalidConfig else Path(p)
  }

  /** A separate `-cfg` takes the next argument verbatim, and is an error as the last one. */
  lemma CfgSeparate(args: seq<string>, i: nat)
    requires i < |args| && args[i] == "-cfg"
    ensures i == |args| - 1 ==> ParseCfg(args, i) == InvalidConfig
    ensures i < |args| - 1 ==> ParseCfg(args, i) == Path(args[i + 1])
  {
    assert HasPrefix(args[i], "-cfg");
  }

  /** `-cfg=p` gives back `p` when `p` does not start with a quote. */
  lemma CfgUnquoted(p: string)
    requires p != "" && p[0] != '\'' && p[0] != '"'
    ensures ParseCfg(["-cfg=" + p], 0) == Path(p)
  {
    var a := "-cfg=" + p;
    assert a[..4] == "-cfg" && a[..5] == "-cfg=" && a[5..] == p;
  }

  /** `-cfg='p'` and `-cfg="p"` give back `p` when `p` neither starts nor ends with that quote. */
  lemma CfgQuoted(p: string, q: char)
    requires q == '\'' || q == '"'
    requires p != "" && p[0] != q && p[|p| - 1] != q
    ensures ParseCfg(["-cfg=" + [q] + p + [q]], 0) == Path(p)
  {
    var a := "-cfg=" + [q] + p + [q];
    assert a[..4] == "-cfg" && a[..5] == "-cfg=" && a[5..] == [q] + p + [q];
    TrimWrapped(p, q);
  }

  /** Quotes are stripped even when unterminated; an empty value or one of quotes only is an
      error, and so is an argument that starts with `-cfg` but is neither `-cfg` nor `-cfg=...`. */
  lemma CfgExamples()
    ensures ParseCfg(["-cfg='abc"], 0) == Path("abc")
    ensures ParseCfg(["-cfg=''"], 0) == InvalidConfig
    ensures ParseCfg(["-cfgx"], 0) == InvalidConfig
    ensures ParseCfg(["-cfg="], 0) == InvalidConfig
  {
    var a := "-cfg='abc";
    assert a[..4] == "-cfg" && a[..5] == "-cfg=" && a[5..] == "'abc";
    assert TrimLeftChar("'abc", '\'') == "abc";
    var b := "-cfg=''";
    assert b[..4] == "-cfg" && b[..5] == "-cfg=" && b[5..] == "''";
    assert TrimLeftChar("''", '\'') == "";
    var c := "-cfgx";
    assert c[..4] == "-cfg" && c[..5] == c && c[4] != '=';
    var d := "-cfg=";
    assert d[..4] == "-cfg" && d[..5] == d && d[5..] == "";
  }

  // ----- the argument scan of Load -----

  /** How the scan over the process arguments ends. */
  datatype Scan = Version | ScanFailed | Found(path: string)

  /** The scan from position `i`: `-v` stops it, the first `parseCfg` error stops it, and so
      does the first non-empty path; running off the end finds the empty path. */
  function ScanFrom(args: seq<string>, i: nat): (r: Scan)
    ensures r == Version ==> exists j :: i <= j < |args| && args[j] == "-v"
    ensures r == ScanFailed ==> exists j :: i <= j < |args| && ParseCfg(args, j) == InvalidConfig
    ensures r.Found? && r.path != "" ==> exists j :: i <= j < |args| && ParseCfg(args, j) == Path(r.path)
    decreases |args| - i
  {
    if i >= |args| then Found("")
    else if args[i] == "-v" then Version
    else match ParseCfg(args, i)
      case InvalidConfig => ScanFailed
      case Path(p) => if p != "" then Found(p) else ScanFrom(args, i + 1)
  }

  /** The argument loop of `Load`, from the first argument (the program name) on. */
  method ScanArgs(args: seq<string>) returns (r: Scan)
    ensures r == ScanFrom(args, 0)
  {
    var i := 0;
    while i < |args|
      invariant 0 <= i <= |args|
      invariant ScanFrom(args, 0) == ScanFrom(args, i)
    {
      if args[i] == "-v" {
        return Version;
      }
      var c := ParseCfg(args, i);
      if c.InvalidConfig? {
        return ScanFailed;
      }
      if c.path != "" {
        return Found(c.path);
      }
      i := i + 1;
    }
    return Found("");
  }

  /** No argument before `k` is `-v` or says anything about the config file. */
  predicate Quiet(args: seq<string>, k: nat)
    requires k <= |args|
  {
    forall j :: 0 <= j < k ==> args[j] != "-v" && ParseCfg(args, j) == Path("")
  }

  lemma {:induction false} ScanSkipsQuiet(args: seq<string>, k: nat)
    requires k <= |args| && Quiet(args, k)
    ensures ScanFrom(args, 0) == ScanFrom(args, k)
  {
    if k > 0 {
      ScanSkipsQuiet(args, k - 1);
    }
  }

  /** A `-v` before any path or error ends the bootstrap with no configuration and no error. */
  lemma VersionShortCircuits(args: seq<string>, k: nat)
    requires k < |args| && Quiet(args, k) && args[k] == "-v"
    ensures ScanFrom(args, 0) == Version
  {
    ScanSkipsQuiet(args, k);
  }

  /** The first `parseCfg` error is the result. */
  lemma FirstErrorWins(args: seq<string>, k: nat)
    requires k < |args| && Quiet(args, k) && args[k] != "-v" && ParseCfg(args, k) == InvalidConfig
    ensures ScanFrom(args, 0) == ScanFailed
  {
    ScanSkipsQuiet(args, k);
  }

  /** The first non-empty path ends the scan: nothing after it, a `-v` included, is looked
      at, so replacing what follows the path by any `rest` gives the same path. */
  lemma FirstPathWins(args: seq<string>, k: nat, p: string, rest: seq<string>)
    requires k < |args| && Quiet(args, k) && args[k] != "-v" && ParseCfg(args, k) == Path(p) && p != ""
    ensures ScanFrom(args, 0) == Found(p)
    ensures args[k] != "-cfg" ==> ScanFrom(args[..k + 1] + rest, 0) == Found(p)
    ensures args[k] == "-cfg" ==> k + 1 < |args| && ScanFrom(args[..k + 2] + rest, 0) == Found(p)
  {
    ScanSkipsQuiet(args, k);
    var m := if args[k] == "-cfg" then k + 2 else k + 1;
    assert m <= |args|;
    var a := args[..m] + rest;
    forall j | 0 <= j < k ensures a[j] != "-v" && ParseCfg(a, j) == Path("") {
      SameCfgArg(args, a, j);
    }
    SameCfgArg(args, a, k);
    ScanSkipsQuiet(a, k);
  }

  /** `parseCfg` at `j` looks at `args[j]`, and at `args[j + 1]` only after a separate `-cfg`. */
  lemma SameCfgArg(args: seq<string>, a: seq<string>, j: nat)
    requires j < |args| && j < |a| && a[j] == args[j]
    requires a[j] == "-cfg" ==> (j + 1 < |args| <==> j + 1 < |a|)
    requires a[j] == "-cfg" && j + 1 < |args| ==> a[j + 1] == args[j + 1]
    ensures ParseCfg(a, j) == ParseCfg(args, j)
  {
  }

  /** With no `-v` and nothing about the config file, the path is empty. */
  lemma NothingFound(args: seq<string>)
    requires Quiet(args, |args|)
    ensures ScanFrom(args, 0) == Found("")
  {
    ScanSkipsQuiet(args, |args|);
  }

  // ----- loadProperties -----

  /** Which loader `loadProperties` uses. */
  datatype Provider = EmptyProvider | UrlProvider(url: string) | FileProvider(file: string)

  function ClassifyPath(path: string): (r: Provider)
    ensures r == EmptyProvider <==> path == ""
    ensures r.UrlProvider? <==> path != "" && (HasPrefix(path, "http://") || HasPrefix(path, "https://"))
    ensures r.UrlProvider? ==> r.url == path
    ensures r.FileProvider? ==> r.file == path
  {
    if path == "" then EmptyProvider
    else if HasPrefix(path, "http://") || HasPrefix(path, "https://") then UrlProvider(path)
    else FileProvider(path)
  }

  /** `loadProperties`: the empty path gives an empty document without calling a loader. */
  function LoadProperties(path: string, fetch: Provider -> Result<map<string, string>>): (r: Result<map<string, string>>)
    ensures path == "" ==> r == Ok(map[])
    ensures path != "" ==> r == fetch(ClassifyPath(path))
  {
    var provider := ClassifyPath(path);
    if provider == EmptyProvider then Ok(map[]) else fetch(provider)
  }

  // ----- the -test. filter of load -----

  /** The arguments that do not start with `-test.`, in order. */
  function WithoutTestFlags(args: seq<string>): (r: seq<string>)
    ensures |r| <= |args|
  {
    if args == [] then []
    else (if HasPrefix(args[0], "-test.") then [] else [args[0]]) + WithoutTestFlags(args[1..])
  }

  /** What the filter keeps are arguments it was given that do not start with `-test.`. */
  lemma {:induction false} WithoutTestFlagsDrops(args: seq<string>)
    ensures forall a :: a in WithoutTestFlags(args) ==> a in args && !HasPrefix(a, "-test.")
    decreases |args|
  {
    if args != [] {
      WithoutTestFlagsDrops(args[1..]);
      assert forall a :: a in args[1..] ==> a in args;
    }
  }

  /** The filter works element by element. */
  lemma {:induction false} WithoutTestFlagsAppend(a: seq<string>, b: seq<string>)
    ensures WithoutTestFlags(a + b) == WithoutTestFlags(a) + WithoutTestFlags(b)
    decreases |a|
  {
    if a == [] {
      assert a + b == b;
    } else {
      var keep := if HasPrefix(a[0], "-test.") then [] else [a[0]];
      assert (a + b)[0] == a[0] && (a + b)[1..] == a[1..] + b;
      assert WithoutTestFlags(a + b) == keep + WithoutTestFlags(a[1..] + b);
      WithoutTestFlagsAppend(a[1..], b);
      assert WithoutTestFlags(a) == keep + WithoutTestFlags(a[1..]);
    }
  }

  /** Arguments without a `-test.` one are passed on unchanged. */
  lemma {:induction false} WithoutTestFlagsKeeps(args: seq<string>)
    requires forall i :: 0 <= i < |args| ==> !HasPrefix(args[i], "-test.")
    ensures WithoutTestFlags(args) == args
    decreases |args|
  {
    if args != [] {
      WithoutTestFlagsKeeps(args[1..]);
    }
  }

  /** The filter loop of `load` over `os.Args[1:]`. */
  method FilterArgs(osArgs: seq<string>) returns (args: seq<string>)
    requires |osArgs| >= 1
    ensures args == WithoutTestFlags(osArgs[1..])
  {
    var rest := osArgs[1..];
    args := [];
    var i := 0;
    while i < |rest|
      invariant 0 <= i <= |rest|
      invariant args == WithoutTestFlags(rest[..i])
    {
      var a := rest[i];
      WithoutTestFlagsAppend(rest[..i], [a]);
      assert rest[..i + 1] == rest[..i] + [a];
      if !HasPrefix(a, "-test.") {
        args := args + [a];
      }
      i := i + 1;
    }
    assert rest[..i] == rest;
  }

  // ----- load -----

  /** The prefixes `load` passes to `ParseFlags`. */
  const LoadPrefixes: seq<string> := ["", ""]

  /** The flags `load` registers, in registration order. */
  const FlagNames: seq<string> := [
    "cfg", "v",
    "postgres.driver", "postgres.host", "postgres.port", "postgres.user", "postgres.password",
    "postgres.db", "postgres.debug", "postgres.connmaxidle", "postgres.connmaxopen",
    "postgres.connmaxlifetime",
    "clickhouse.ip", "clickhouse.port", "clickhouse.username", "clickhouse.password",
    "clickhouse.name"]

  function BoolText(b: bool): string {
    if b then "true" else "false"
  }

  /** The default text of each flag, in registration order, taken from the `Default` record. */
  function DefaultTexts(d: Config): (t: seq<string>)
    ensures |t| == |FlagNames|
  {
    [ "", BoolText(false),
      d.database.driver, d.database.ip, Itoa(d.database.port), d.database.user, d.database.password,
      d.database.name, BoolText(d.database.debug), Itoa(d.database.connMaxIdle), Itoa(d.database.connMaxOpen),
      Itoa(d.database.connMaxLifetime),
      d.clickHouse.ip, Itoa(d.clickHouse.port), d.clickHouse.user, d.clickHouse.password,
      d.clickHouse.name]
  }

  /** A short fingerprint that tells the flag names apart. */
  function Fingerprint(s: string): (int, char, char) {
    (|s|, if |s| > 0 then s[|s| - 1] else ' ', if |s| > 9 then s[9] else ' ')
  }

  /** No flag is registered twice, so none of the registrations panics. */
  lemma FlagNamesDistinct()
    ensures forall i, j :: 0 <= i < j < |FlagNames| ==> FlagNames[i] != FlagNames[j]
  {
    var prints := seq(|FlagNames|, i requires 0 <= i < |FlagNames| => Fingerprint(FlagNames[i]));
    assert prints == [
      (3, 'g', ' '), (1, 'v', ' '),
      (15, 'r', 'd'), (13, 't', 'h'), (13, 't', 'p'), (13, 'r', 'u'), (17, 'd', 'p'),
      (11, 'b', 'd'), (14, 'g', 'd'), (20, 'e', 'c'), (20, 'n', 'c'), (24, 'e', 'c'),
      (13, 'p', 'e'), (15, 't', 'e'), (19, 'e', 'e'), (19, 'd', 'e'), (15, 'e', 'e')];
    forall i, j | 0 <= i < j < |FlagNames| ensures FlagNames[i] != FlagNames[j] {
      assert prints[i] != prints[j];
    }
  }

  /** The seventeen registration calls of `load`, on a fresh flag set. */
  method RegisterFlags(fs: FlagSet, d: Config)
    requires fs.Valid() && fs.names == [] && fs.values == map[]
    modifies fs
    ensures fs.Valid() && fs.names == FlagNames && fs.setMap == old(fs.setMap)
    ensures forall i :: 0 <= i < |FlagNames| ==> FlagNames[i] in fs.values && fs.values[FlagNames[i]] == DefaultTexts(d)[i]
  {
    FlagNamesDistinct();
    RegisterAll(fs, FlagNames, DefaultTexts(d));
  }

  /** Registers `names[i]` with default `texts[i]`, in order; the calls of `load` are taken
      from the table this way. */
  method RegisterAll(fs: FlagSet, names: seq<string>, texts: seq<string>)
    requires fs.Valid() && fs.names == [] && fs.values == map[]
    requires |texts| == |names|
    requires forall i, j :: 0 <= i < j < |names| ==> names[i] != names[j]
    modifies fs
    ensures fs.Valid() && fs.names == names && fs.setMap == old(fs.setMap)
    ensures forall i :: 0 <= i < |names| ==> names[i] in fs.values && fs.values[names[i]] == texts[i]
  {
    var k := 0;
    while k < |names|
      invariant 0 <= k <= |names|
      invariant fs.Valid() && fs.names == names[..k] && fs.setMap == old(fs.setMap)
      invariant forall i :: 0 <= i < k ==> names[i] in fs.values && fs.values[names[i]] == texts[i]
    {
      assert names[k] !in names[..k];
      fs.Register(names[k], texts[k]);
      assert names[..k + 1] == names[..k] + [names[k]];
      k := k + 1;
    }
  }

  /** The default text of every numeric flag reads back, through Atoi, as the number in the
      `Default` record: every default the getters produce is a 64-bit integer. */
  lemma DefaultTextsReadBack(env: map<string, string>)
    ensures var d := DefaultConfig(env);
      && Atoi(Itoa(d.database.port)) == (d.database.port, true)
      && Atoi(Itoa(d.database.connMaxIdle)) == (d.database.connMaxIdle, true)
      && Atoi(Itoa(d.database.connMaxOpen)) == (d.database.connMaxOpen, true)
      && Atoi(Itoa(d.database.connMaxLifetime)) == (d.database.connMaxLifetime, true)
      && Atoi(Itoa(d.clickHouse.port)) == (d.clickHouse.port, true)
  {
    var d := DefaultConfig(env);
    AtoiItoa(d.database.port);
    AtoiItoa(d.database.connMaxIdle);
    AtoiItoa(d.database.connMaxOpen);
    AtoiItoa(d.database.connMaxLifetime);
    AtoiItoa(d.clickHouse.port);
  }

  /** The two empty prefixes `load` passes decide every flag as the single empty prefix does. */
  lemma LoadPrefixesLikeEmpty(marked: bool, env: map<string, string>, props: Option<map<string, string>>, name: string)
    ensures Decide(marked, env, LoadPrefixes, props, name) == Decide(marked, env, Prefixes([]), props, name)
  {
    FromEnvRedundant(env, [""], [""], name);
  }

  /** How `Load` ends. */
  datatype Outcome =
    | VersionRequested                    // `-v`: no configuration and no error
    | Failed(error: string)               // errInvalidConfig, or the properties loader's error
    | Exited(error: string)               // `Parse` failed; with ExitOnError the process ends
    | Loaded(values: map<string, string>) // the resolved raw text of every flag

  /** `Load` followed by `load`: scan the arguments, load the properties document, register
      the flags with their defaults, and resolve them. On success a flag named on the
      command line has its command-line text, any other the text `Decide` picks from the
      environment and the document, or its default. */
  method Load(osArgs: seq<string>, environ: seq<string>, initEnv: map<string, string>,
              fetch: Provider -> Result<map<string, string>>, parse: seq<string> -> CmdLine)
      returns (r: Outcome)
    requires |osArgs| >= 1
    requires EnvironOk(environ)
    requires forall a, n :: n in parse(a).given ==> n in FlagNames
    ensures ScanFrom(osArgs, 0) == Version ==> r == VersionRequested
    ensures ScanFrom(osArgs, 0) == ScanFailed ==> r == Failed(ErrInvalidConfig)
    ensures ScanFrom(osArgs, 0).Found? && LoadProperties(ScanFrom(osArgs, 0).path, fetch).Err? ==>
      r == Failed(LoadProperties(ScanFrom(osArgs, 0).path, fetch).error)
    ensures ScanFrom(osArgs, 0).Found? && LoadProperties(ScanFrom(osArgs, 0).path, fetch).Ok? ==>
      var props := LoadProperties(ScanFrom(osArgs, 0).path, fetch).value;
      var cmd := parse(WithoutTestFlags(osArgs[1..]));
      && (cmd.failure.Some? ==> r == Exited(cmd.failure.value))
      && (cmd.failure.None? ==>
        && r.Loaded?
        && (forall n :: n in r.values ==> n in FlagNames)
        && forall i :: 0 <= i < |FlagNames| ==>
          var n := FlagNames[i];
          && n in r.values
          && r.values[n] == Resolved(if n in cmd.given then cmd.given[n] else DefaultTexts(DefaultConfig(initEnv))[i],
                                     Decide(n in cmd.given, EnvMap(environ), LoadPrefixes, Some(props), n)))
  {
    var scan := ScanArgs(osArgs);
    if scan == Version {
      return VersionRequested;
    }
    if scan == ScanFailed {
      return Failed(ErrInvalidConfig);
    }
    var loaded := LoadProperties(scan.path, fetch);
    if loaded.Err? {
      return Failed(loaded.error);
    }
    var fs := new FlagSet();
    RegisterFlags(fs, DefaultConfig(initEnv));
    var args := FilterArgs(osArgs);
    var cmd := parse(args);
    r := ParseRegistered(fs, FlagNames, DefaultTexts(DefaultConfig(initEnv)), cmd, environ, loaded.value);
  }

  /** The end of `load`: `ParseFlags` on a flag set holding exactly `names`, registered with
      the defaults `texts` and nothing marked set, with the two empty prefixes. */
  method ParseRegistered(fs: FlagSet, names: seq<string>, texts: seq<string>, cmd: CmdLine,
                         environ: seq<string>, props: map<string, string>)
      returns (r: Outcome)
    requires fs.Valid() && fs.names == names && fs.setMap == map[] && |texts| == |names|
    requires forall i :: 0 <= i < |names| ==> names[i] in fs.values && fs.values[names[i]] == texts[i]
    requires forall n :: n in cmd.given ==> n in names
    requires EnvironOk(environ)
    modifies fs
    ensures cmd.failure.Some? ==> r == Exited(cmd.failure.value)
    ensures cmd.failure.None? ==>
      && r.Loaded?
      && (forall n :: n in r.values ==> n in names)
      && forall i :: 0 <= i < |names| ==>
        var n := names[i];
        && n in r.values
        && r.values[n] == Resolved(if n in cmd.given then cmd.given[n] else texts[i],
                                   Decide(n in cmd.given, EnvMap(environ), LoadPrefixes, Some(props), n))
  {
    ghost var v0 := fs.values;
    var err := fs.ParseFlags(cmd, environ, LoadPrefixes, Some(props));
    if err.Some? {
      return Exited(err.value);
    }
    r := Loaded(fs.values);
    forall i | 0 <= i < |names|
      ensures var n := names[i];
        && n in r.values
        && r.values[n] == Resolved(if n in cmd.given then cmd.given[n] else texts[i],
                                   Decide(n in cmd.given, EnvMap(environ), LoadPrefixes, Some(props), n))
    {
      var n := names[i];
      assert n in v0 && v0[n] == texts[i];
      assert !Marked(map[], n);
    }
  }
}
