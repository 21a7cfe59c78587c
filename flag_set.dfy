/** `FlagSet` of config/flagset.go: the flag library's flag set extended with a
    `set` map, and `ParseFlags`, which fills every flag the command line left
    alone from the environment and then from a properties document.

    The flag library itself is outside the model. Its `Parse` is an input
    (`CmdLine`: the flags it assigned and the error it stopped with), every flag
    value is kept as its raw text, and the flag library's `Set` is a map update. */
module Flags {
  import opened GoStrings
  import opened Wrappers

  /** What the flag library's `Parse` did: the registered flags it assigned, with their
      raw text, and the error it stopped with, if any. */
  datatype CmdLine = CmdLine(given: map<string, string>, failure: Option<string>)

  // ----- the environment -----

  /** Every environ entry has the `KEY=VALUE` shape; on an entry without `=` the source
      indexes past the end of what `SplitN` returned and panics. */
  predicate EnvironOk(environ: seq<string>) {
    forall i :: 0 <= i < |environ| ==> '=' in environ[i]
  }

  /** The case-insensitive lookup: each key upper-cased, the value the untouched text after
      the first `=`, a later entry overriding an earlier one. */
  function EnvMap(environ: seq<string>): (env: map<string, string>)
    requires EnvironOk(environ)
    ensures forall k :: k in env ==> ToUpper(k) == k
  {
    if environ == [] then map[]
    else
      var e := environ[|environ| - 1];
      ToUpperIdempotent(Before(e, '='));
      EnvMap(environ[..|environ| - 1])[ToUpper(Before(e, '=')) := After(e, '=')]
  }

  lemma ToUpperIdempotent(s: string)
    ensures ToUpper(ToUpper(s)) == ToUpper(s)
  {
  }

  /** The variable name tried for flag `name` under prefix `pfx`. */
  function EnvName(pfx: string, name: string): (r: string)
    ensures |r| == |pfx| + |name|
    ensures '.' !in r[|pfx|..]
  {
    var r := ToUpper(pfx + ReplaceAll(name, '.', '_'));
    assert forall i :: |pfx| <= i < |r| ==> r[i] == UpperChar(ReplaceAll(name, '.', '_')[i - |pfx|]);
    r
  }

  /** An empty prefix list stands for the single empty prefix. */
  function Prefixes(prefixes: seq<string>): (r: seq<string>)
    ensures |r| > 0
    ensures prefixes != [] ==> r == prefixes
  {
    if prefixes == [] then [""] else prefixes
  }

  /** The value under the first prefix whose variable exists. */
  function FromEnv(env: map<string, string>, pfxs: seq<string>, name: string): (r: Option<string>)
    ensures r.Some? ==> exists j :: 0 <= j < |pfxs| && EnvName(pfxs[j], name) in env && r.value == env[EnvName(pfxs[j], name)]
  {
    if pfxs == [] then None
    else if EnvName(pfxs[0], name) in env then Some(env[EnvName(pfxs[0], name)])
    else FromEnv(env, pfxs[1..], name)
  }

  // ----- where a flag's value comes from -----

  /** The source that decides a flag in `ParseFlags`. */
  datatype Origin =
    | AlreadySet              // marked set: named on this command line or resolved earlier
    | Environment(v: string)  // the variable of the first matching prefix
    | Properties(v: string)   // the properties document
    | Untouched               // nothing matched; the flag keeps its value

  /** The precedence of `ParseFlags` for one flag: marked flags are skipped, then the
      environment under each prefix in order, then the properties document when there is one. */
  function Decide(marked: bool, env: map<string, string>, pfxs: seq<string>, props: Option<map<string, string>>, name: string): (o: Origin)
    ensures o.AlreadySet? <==> marked
    ensures o.Environment? ==> exists j :: 0 <= j < |pfxs| && EnvName(pfxs[j], name) in env && o.v == env[EnvName(pfxs[j], name)]
    ensures o.Properties? ==> props.Some? && name in props.value && o.v == props.value[name]
  {
    if marked then AlreadySet
    else match FromEnv(env, pfxs, name)
      case Some(v) => Environment(v)
      case None => if props.Some? && name in props.value then Properties(props.value[name]) else Untouched
  }

  /** The value a flag holds once its origin is known. */
  function Resolved(current: string, o: Origin): string {
    match o
    case Environment(v) => v
    case Properties(v) => v
    case _ => current
  }

  /** `IsSet` over a snapshot of the `set` map: a missing name reads as false. */
  predicate Marked(m: map<string, bool>, name: string) {
    name in m && m[name]
  }

  /** Flag `n` moved from (v0, s0) to (v, s) as `Decide` says. */
  ghost predicate Decided(n: string, v: map<string, string>, s: map<string, bool>, v0: map<string, string>, s0: map<string, bool>,
                          env: map<string, string>, pfxs: seq<string>, props: Option<map<string, string>>)
  {
    && n in v && n in v0
    && var o := Decide(Marked(s0, n), env, pfxs, props, n);
    && v[n] == Resolved(v0[n], o)
    && (Marked(s, n) <==> o != Untouched)
  }

  /** Flag `n` has the same value and mark in (v, s) as in (v0, s0). */
  ghost predicate Unchanged(n: string, v: map<string, string>, s: map<string, bool>, v0: map<string, string>, s0: map<string, bool>) {
    n in v && n in v0 && v[n] == v0[n] && Marked(s, n) == Marked(s0, n)
  }

  /** A decided flag stays decided while its value and mark stay put. */
  lemma DecidedStable(n: string, v: map<string, string>, s: map<string, bool>, v1: map<string, string>, s1: map<string, bool>,
                      v0: map<string, string>, s0: map<string, bool>,
                      env: map<string, string>, pfxs: seq<string>, props: Option<map<string, string>>)
    requires Decided(n, v, s, v0, s0, env, pfxs, props)
    requires Unchanged(n, v1, s1, v, s)
    ensures Decided(n, v1, s1, v0, s0, env, pfxs, props)
  {
  }

  /** Deciding a flag from a state where it is as it started is deciding it from the start. */
  lemma DecidedFrom(n: string, v: map<string, string>, s: map<string, bool>, v1: map<string, string>, s1: map<string, bool>,
                    v0: map<string, string>, s0: map<string, bool>,
                    env: map<string, string>, pfxs: seq<string>, props: Option<map<string, string>>)
    requires Decided(n, v, s, v1, s1, env, pfxs, props)
    requires Unchanged(n, v1, s1, v0, s0)
    ensures Decided(n, v, s, v0, s0, env, pfxs, props)
  {
  }

  // ----- the FlagSet -----

  class FlagSet {
    /** The registered flags, in registration order. */
    var names: seq<string>
    /** The current raw text of every registered flag. */
    var values: map<string, string>
    /** The source's `set` map: flags set by any mechanism. */
    var setMap: map<string, bool>

    ghost predicate Valid()
      reads this
    {
      && (forall i, j :: 0 <= i < j < |names| ==> names[i] != names[j])
      && (forall n :: n in values <==> n in names)
      && (forall n :: n in setMap ==> n in values)
    }

    /** `NewFlagSet`: no flags, nothing set. */
    constructor ()
      ensures Valid()
      ensures names == [] && values == map[] && setMap == map[]
    {
      names := [];
      values := map[];
      setMap := map[];
    }

    /** Registers a flag with its default text (the flag library panics on a redefinition). */
    method Register(name: string, dflt: string)
      requires Valid()
      requires name !in values
      modifies this
      ensures Valid()
      ensures names == old(names) + [name]
      ensures values == old(values)[name := dflt]
      ensures setMap == old(setMap)
    {
      names := names + [name];
      values := values[name := dflt];
    }

    /** `IsSet`: true only for a registered flag that some mechanism set. */
    function IsSet(name: string): (r: bool)
      requires Valid()
      reads this
      ensures r <==> Marked(setMap, name)
      ensures r ==> name in values
    {
      name in setMap && setMap[name]
    }

    /** `ParseFlags`. A failed `Parse` is reported as is, with no flag marked. Otherwise
        every registered flag is decided by `Decide`: a flag already marked, or named on the
        command line, keeps its value; any other takes the first source that has it and is
        marked set exactly then. */
    method ParseFlags(cmd: CmdLine, environ: seq<string>, prefixes: seq<string>, props: Option<map<string, string>>)
        returns (err: Option<string>)
      requires Valid()
      requires forall n :: n in cmd.given ==> n in values
      requires EnvironOk(environ)
      modifies this
      ensures Valid()
      ensures names == old(names) && values.Keys == old(values).Keys
      ensures cmd.failure.Some? ==> err == cmd.failure && values == old(values) + cmd.given && setMap == old(setMap)
      ensures cmd.failure.None? ==> err.None?
      ensures cmd.failure.None? ==> forall n :: n in old(values) ==>
        var o := Decide(Marked(old(setMap), n) || n in cmd.given, EnvMap(environ), Prefixes(prefixes), props, n);
        && values[n] == Resolved((old(values) + cmd.given)[n], o)
        && (IsSet(n) <==> o != Untouched)
    {
      // what Parse assigned
      values := values + cmd.given;
      if cmd.failure.Some? {
        return cmd.failure;
      }
      err := None;
      var pfxs := if |prefixes| == 0 then [""] else prefixes;
      var env := BuildEnv(environ);
      MarkCommandLine(cmd.given);
      ghost var v1, s1 := values, setMap;
      ResolveAll(env, pfxs, props);
      forall n | n in old(values)
        ensures var o := Decide(Marked(old(setMap), n) || n in cmd.given, EnvMap(environ), Prefixes(prefixes), props, n);
          && values[n] == Resolved((old(values) + cmd.given)[n], o)
          && (IsSet(n) <==> o != Untouched)
      {
        assert n in v1 && v1[n] == (old(values) + cmd.given)[n];
        assert Marked(s1, n) <==> Marked(old(setMap), n) || n in cmd.given;
        assert Decided(n, values, setMap, v1, s1, env, pfxs, props);
      }
    }

    /** `VisitAll`: decides every registered flag on its own, from the marks it starts with. */
    method ResolveAll(env: map<string, string>, pfxs: seq<string>, props: Option<map<string, string>>)
      requires Valid()
      modifies this
      ensures Valid()
      ensures names == old(names) && values.Keys == old(values).Keys
      ensures forall n :: n in values ==> Decided(n, values, setMap, old(values), old(setMap), env, pfxs, props)
    {
      var i := 0;
      while i < |names|
        invariant 0 <= i <= |names|
        invariant Valid() && names == old(names) && values.Keys == old(values).Keys
        invariant forall k :: 0 <= k < i ==> Decided(names[k], values, setMap, old(values), old(setMap), env, pfxs, props)
        invariant forall k :: i <= k < |names| ==> Unchanged(names[k], values, setMap, old(values), old(setMap))
      {
        ghost var before, beforeSet := values, setMap;
        Lookup(names[i], env, pfxs, props);
        DecidedFrom(names[i], values, setMap, before, beforeSet, old(values), old(setMap), env, pfxs, props);
        forall k | 0 <= k < |names| && k != i
          ensures k < i ==> Decided(names[k], values, setMap, old(values), old(setMap), env, pfxs, props)
          ensures k > i ==> Unchanged(names[k], values, setMap, old(values), old(setMap))
        {
          assert names[k] != names[i];
          if k < i {
            DecidedStable(names[k], before, beforeSet, values, setMap, old(values), old(setMap), env, pfxs, props);
          }
        }
        i := i + 1;
      }
      forall n | n in values
        ensures Decided(n, values, setMap, old(values), old(setMap), env, pfxs, props)
      {
        var k :| 0 <= k < |names| && names[k] == n;
      }
    }

    /** `Visit`: marks every flag the command line assigned; values are untouched. */
    method MarkCommandLine(given: map<string, string>)
      requires Valid()
      requires forall n :: n in given ==> n in values
      modifies this
      ensures Valid()
      ensures names == old(names) && values == old(values)
      ensures forall n :: Marked(setMap, n) <==> Marked(old(setMap), n) || n in given
    {
      var i := 0;
      while i < |names|
        invariant 0 <= i <= |names|
        invariant Valid() && names == old(names) && values == old(values)
        invariant forall n :: Marked(setMap, n) <==> Marked(old(setMap), n) || (n in given && n in names[..i])
      {
        if names[i] in given {
          setMap := setMap[names[i] := true];
        }
        i := i + 1;
      }
      assert names[..i] == names;
    }

    /** The `VisitAll` callback for one flag: a marked flag is skipped; otherwise the first
        prefix with an existing variable, then the properties document, supplies the value
        and marks the flag. */
    method Lookup(n: string, env: map<string, string>, pfxs: seq<string>, props: Option<map<string, string>>)
      requires Valid() && n in values
      modifies this
      ensures Valid()
      ensures names == old(names) && values.Keys == old(values).Keys
      ensures Decided(n, values, setMap, old(values), old(setMap), env, pfxs, props)
      ensures forall m :: m in old(values) && m != n ==> Unchanged(m, values, setMap, old(values), old(setMap))
    {
      if n in setMap && setMap[n] {
        return;
      }
      var found := FindVariable(env, pfxs, n);
      if found.Some? {
        Take(n, found.value);
      } else if props.Some? && n in props.value {
        Take(n, props.value[n]);
      }
    }

    /** `Set(name, value)` on the flag set: the flag takes `v` and is marked set. */
    method Take(n: string, v: string)
      requires Valid() && n in values
      modifies this
      ensures Valid() && names == old(names)
      ensures values == old(values)[n := v] && setMap == old(setMap)[n := true]
      ensures forall m :: m in old(values) && m != n ==> Unchanged(m, values, setMap, old(values), old(setMap))
    {
      setMap := setMap[n := true];
      values := values[n := v];
    }
  }

  /** The prefix loop of the `VisitAll` callback: the variable of the first prefix that
      exists in the environment, if any. */
  method FindVariable(env: map<string, string>, pfxs: seq<string>, n: string) returns (found: Option<string>)
    ensures found == FromEnv(env, pfxs, n)
  {
    var j := 0;
    while j < |pfxs|
      invariant 0 <= j <= |pfxs|
      invariant forall jj :: 0 <= jj < j ==> EnvName(pfxs[jj], n) !in env
    {
      var candidate := ToUpper(pfxs[j] + ReplaceAll(n, '.', '_'));
      if candidate in env {
        FromEnvFirstMatch(env, pfxs, n, j);
        return Some(env[candidate]);
      }
      j := j + 1;
    }
    FromEnvNone(env, pfxs, n);
    return None;
  }

  /** The case-insensitive environment lookup, entry by entry. */
  method BuildEnv(environ: seq<string>) returns (env: map<string, string>)
    requires EnvironOk(environ)
    ensures env == EnvMap(environ)
  {
    env := map[];
    var i := 0;
    while i < |environ|
      invariant 0 <= i <= |environ|
      invariant env == EnvMap(environ[..i])
    {
      assert environ[..i + 1][..i] == environ[..i];
      var e := environ[i];
      env := env[ToUpper(Before(e, '=')) := After(e, '=')];
      i := i + 1;
    }
    assert environ[..i] == environ;
  }

  // ----- properties of the precedence -----

  /** The first prefix whose variable exists supplies the value. */
  lemma {:induction false} FromEnvFirstMatch(env: map<string, string>, pfxs: seq<string>, name: string, i: nat)
    requires i < |pfxs| && EnvName(pfxs[i], name) in env
    requires forall j :: 0 <= j < i ==> EnvName(pfxs[j], name) !in env
    ensures FromEnv(env, pfxs, name) == Some(env[EnvName(pfxs[i], name)])
    decreases i
  {
    if i > 0 {
      FromEnvFirstMatch(env, pfxs[1..], name, i - 1);
    }
  }

  /** The environment supplies nothing exactly when no prefix names an existing variable. */
  lemma {:induction false} FromEnvNone(env: map<string, string>, pfxs: seq<string>, name: string)
    ensures FromEnv(env, pfxs, name) == None <==> forall j :: 0 <= j < |pfxs| ==> EnvName(pfxs[j], name) !in env
    decreases |pfxs|
  {
    if pfxs != [] {
      FromEnvNone(env, pfxs[1..], name);
      assert forall j :: 1 <= j < |pfxs| ==> pfxs[j] == pfxs[1..][j - 1];
    }
  }

  /** A flag is left untouched exactly when it is unmarked, no prefix names an existing
      variable, and the properties document is absent or lacks the flag. */
  lemma UntouchedIff(marked: bool, env: map<string, string>, pfxs: seq<string>, props: Option<map<string, string>>, name: string)
    ensures Decide(marked, env, pfxs, props, name) == Untouched <==>
      && !marked
      && (forall j :: 0 <= j < |pfxs| ==> EnvName(pfxs[j], name) !in env)
      && !(props.Some? && name in props.value)
  {
    FromEnvNone(env, pfxs, name);
  }

  /** An unmarked flag takes the variable of the first prefix that has one. */
  lemma EnvironmentFirstPrefix(env: map<string, string>, pfxs: seq<string>, props: Option<map<string, string>>, name: string, i: nat)
    requires i < |pfxs| && EnvName(pfxs[i], name) in env
    requires forall j :: 0 <= j < i ==> EnvName(pfxs[j], name) !in env
    ensures Decide(false, env, pfxs, props, name) == Environment(env[EnvName(pfxs[i], name)])
  {
    FromEnvFirstMatch(env, pfxs, name, i);
  }

  /** The properties document is consulted only when no prefix matches, and its value is
      looked up under the flag's own name. */
  lemma PropertiesOnlyWithoutEnvironment(marked: bool, env: map<string, string>, pfxs: seq<string>, props: Option<map<string, string>>, name: string)
    requires Decide(marked, env, pfxs, props, name).Properties?
    ensures !marked
    ensures forall j :: 0 <= j < |pfxs| ==> EnvName(pfxs[j], name) !in env
    ensures props.Some? && name in props.value
    ensures Decide(marked, env, pfxs, props, name).v == props.value[name]
  {
    FromEnvNone(env, pfxs, name);
  }

  /** Trying the prefixes `p` and then `q` is trying `q` only if `p` finds nothing. */
  lemma {:induction false} FromEnvAppend(env: map<string, string>, p: seq<string>, q: seq<string>, name: string)
    ensures FromEnv(env, p + q, name) == if FromEnv(env, p, name).Some? then FromEnv(env, p, name) else FromEnv(env, q, name)
    decreases |p|
  {
    if p != [] {
      assert (p + q)[0] == p[0] && (p + q)[1..] == p[1..] + q;
      FromEnvAppend(env, p[1..], q, name);
    } else {
      assert p + q == q;
    }
  }

  /** Prefixes that repeat earlier ones change nothing; in particular the list `["", ""]`
      that `load` passes behaves like the single empty prefix an empty list stands for. */
  lemma FromEnvRedundant(env: map<string, string>, p: seq<string>, q: seq<string>, name: string)
    requires forall x :: x in q ==> x in p
    ensures FromEnv(env, p + q, name) == FromEnv(env, p, name)
    ensures FromEnv(env, ["", ""], name) == FromEnv(env, Prefixes([]), name)
  {
    FromEnvAppend(env, p, q, name);
    FromEnvNone(env, p, name);
    FromEnvNone(env, q, name);
    if FromEnv(env, p, name).None? {
      forall j | 0 <= j < |q| ensures EnvName(q[j], name) !in env {
        var x := q[j];
        assert x in p;
        var i :| 0 <= i < |p| && p[i] == x;
      }
    }
    FromEnvAppend(env, [""], [""], name);
    assert [""] + [""] == ["", ""];
  }

  /** A later environ entry for the same (upper-cased) name overrides an earlier one. */
  lemma {:induction false} EnvMapLastWins(environ: seq<string>, i: nat)
    requires EnvironOk(environ) && i < |environ|
    requires forall j :: i < j < |environ| ==> ToUpper(Before(environ[j], '=')) != ToUpper(Before(environ[i], '='))
    ensures ToUpper(Before(environ[i], '=')) in EnvMap(environ)
    ensures EnvMap(environ)[ToUpper(Before(environ[i], '='))] == After(environ[i], '=')
    decreases |environ|
  {
    if i < |environ| - 1 {
      var init := environ[..|environ| - 1];
      assert forall j :: 0 <= j < |init| ==> init[j] == environ[j];
      EnvMapLastWins(init, i);
    }
  }

  /** The lookup holds nothing but the environ's own entries: a key is present exactly
      when some entry's upper-cased name spells it, and its value is the text after the
      first `=` of such an entry. */
  lemma {:induction false} EnvMapOnly(environ: seq<string>, k: string)
    requires EnvironOk(environ)
    ensures k in EnvMap(environ) <==>
      exists i :: 0 <= i < |environ| && ToUpper(Before(environ[i], '=')) == k
    ensures k in EnvMap(environ) ==>
      exists i :: 0 <= i < |environ| && ToUpper(Before(environ[i], '=')) == k
        && EnvMap(environ)[k] == After(environ[i], '=')
    decreases |environ|
  {
    if environ != [] {
      var n := |environ| - 1;
      var init := environ[..n];
      EnvMapOnly(init, k);
      OnlyStep(environ, init, EnvMap(init), EnvMap(environ), k);
    }
  }

  /** The step of `EnvMapOnly`: adding the last entry to the lookup of the others keeps
      every key witnessed by an entry. */
  lemma OnlyStep(environ: seq<string>, init: seq<string>, mi: map<string, string>,
                 m: map<string, string>, k: string)
    requires |environ| > 0 && init == environ[..|environ| - 1]
    requires m == mi[ToUpper(Before(environ[|environ| - 1], '=')) := After(environ[|environ| - 1], '=')]
    requires k in mi <==> exists i :: 0 <= i < |init| && ToUpper(Before(init[i], '=')) == k
    requires k in mi ==>
      exists i :: 0 <= i < |init| && ToUpper(Before(init[i], '=')) == k && mi[k] == After(init[i], '=')
    ensures k in m <==> exists i :: 0 <= i < |environ| && ToUpper(Before(environ[i], '=')) == k
    ensures k in m ==>
      exists i :: 0 <= i < |environ| && ToUpper(Before(environ[i], '=')) == k
        && m[k] == After(environ[i], '=')
  {
    var n := |environ| - 1;
    if ToUpper(Before(environ[n], '=')) != k {
      if k in mi {
        var i :| 0 <= i < |init| && ToUpper(Before(init[i], '=')) == k && mi[k] == After(init[i], '=');
        assert environ[i] == init[i];
      }
      if i :| 0 <= i < |environ| && ToUpper(Before(environ[i], '=')) == k {
        assert i < n;
        assert init[i] == environ[i];
      }
    }
  }

  lemma EnvMapSingle(k: string, v: string)
    requires '=' !in k
    ensures EnvMap([k + ['='] + v]) == map[ToUpper(k) := v]
  {
    CutAfter(k, '=', v);
    assert [k + ['='] + v][..0] == [];
  }

  /** One environ entry whose upper-cased name is the variable of the only prefix decides the flag. */
  lemma SingleVariable(k: string, v: string, pfx: string, name: string)
    requires '=' !in k && ToUpper(k) == EnvName(pfx, name)
    ensures Decide(false, EnvMap([k + ['='] + v]), [pfx], None, name) == Environment(v)
  {
    EnvMapSingle(k, v);
  }

  lemma LowerCaseName()
    ensures ToUpper("app_postgres_host") == "APP_POSTGRES_HOST"
  {
  }

  lemma UpperCaseName()
    ensures ToUpper("APP_POSTGRES_HOST") == "APP_POSTGRES_HOST"
  {
  }

  lemma HostVariable()
    ensures EnvName("app_", "postgres.host") == "APP_POSTGRES_HOST"
  {
    assert ReplaceAll("postgres.host", '.', '_') == "postgres_host";
    assert "app_" + "postgres_host" == "app_postgres_host";
    LowerCaseName();
  }

  /** The environment is matched case-insensitively: `app_postgres_host=db1` and
      `APP_POSTGRES_HOST=db1` both decide `postgres.host` under the prefix `app_`. */
  lemma CaseInsensitiveExample()
    ensures Decide(false, EnvMap(["app_postgres_host" + "=" + "db1"]), ["app_"], None, "postgres.host") == Environment("db1")
    ensures Decide(false, EnvMap(["APP_POSTGRES_HOST" + "=" + "db1"]), ["app_"], None, "postgres.host") == Environment("db1")
  {
    LowerCaseVariable();
    UpperCaseVariable();
  }

  lemma LowerCaseVariable()
    ensures Decide(false, EnvMap(["app_postgres_host" + "=" + "db1"]), ["app_"], None, "postgres.host") == Environment("db1")
  {
    HostVariable();
    LowerCaseName();
    SingleVariable("app_postgres_host", "db1", "app_", "postgres.host");
  }

  lemma UpperCaseVariable()
    ensures Decide(false, EnvMap(["APP_POSTGRES_HOST" + "=" + "db1"]), ["app_"], None, "postgres.host") == Environment("db1")
  {
    HostVariable();
    UpperCaseName();
    SingleVariable("APP_POSTGRES_HOST", "db1", "app_", "postgres.host");
  }
}
