/** The configuration record and its built-in defaults (config/config.go and
    config/default.go). The process environment, which the source reads with
    `os.Getenv`, is a parameter: a map from variable name to value, where a
    missing name reads as "". */
module Defaults {
  import opened GoNumbers

  datatype Database = Database(
    driver: string,
    ip: string,
    port: int,
    user: string,
    password: string,
    name: string,
    connMaxIdle: int,
    connMaxOpen: int,
    connMaxLifetime: int,
    debug: bool)

  datatype Config = Config(clickHouse: Database, database: Database)

  const DefaultPostgresPort: int := 25060
  const DefaultClickHousePort: int := 9000
  const DefaultMaxIdleConn: int := 32
  const DefaultMaxOpenConn: int := 32
  const DefaultMaxLifetime: int := 30

  /** `os.Getenv`: the value of `key`, or "" when it is unset. */
  function Getenv(env: map<string, string>, key: string): (v: string)
    ensures key in env ==> v == env[key]
    ensures key !in env ==> v == ""
  {
    if key in env then env[key] else ""
  }

  /** The rule the five numeric getters share: an unset (empty) variable, one that
      Atoi reads as 0, whether by syntax error or because it spells zero, gives the
      default; any other value is Atoi's result with its error ignored. */
  function EnvInt(value: string, dflt: int): (r: int)
    ensures value == "" ==> r == dflt
    ensures dflt != 0 ==> r != 0
    ensures Atoi(value).0 != 0 ==> r == Atoi(value).0
    ensures Atoi(value).0 == 0 ==> r == dflt
  {
    if value == "" then dflt
    else
      var n := Atoi(value).0;
      if n == 0 then dflt else n
  }

  /** A variable that spells a nonzero 64-bit integer is taken as is: negative ones, a
      leading `+` and leading zeros included. */
  lemma EnvIntTakesNonzero(value: string, dflt: int)
    requires IsDecimal(value) && MinInt64 <= Signed(value) <= MaxInt64
    requires Signed(value) != 0
    ensures EnvInt(value, dflt) == Signed(value)
  {
    AtoiDecimal(value);
  }

  /** A variable that spells zero in any form ("0", "00", "-0", "+0") gives the default. */
  lemma EnvIntZero(value: string, dflt: int)
    requires IsDecimal(value) && Signed(value) == 0
    ensures EnvInt(value, dflt) == dflt
  {
    AtoiDecimal(value);
  }

  /** A malformed variable gives the default, unless the digits after its sign pass
      2^64 - 1 before the first non-digit. */
  lemma EnvIntMalformed(value: string, dflt: int)
    requires !IsDecimal(value) && Magnitude(value) <= MaxUint64
    ensures EnvInt(value, dflt) == dflt
  {
    AtoiMalformed(value);
  }

  /** A number outside the 64-bit range is not replaced by the default: Atoi's error is
      ignored and its clamped value is used, even when text follows digits that pass
      2^64 - 1. */
  lemma EnvIntOutOfRange(value: string, dflt: int)
    requires Unsigned(value) != []
    requires Magnitude(value) > MaxUint64 || (IsDecimal(value) && !(MinInt64 <= Signed(value) <= MaxInt64))
    ensures EnvInt(value, dflt) == if value[0] == '-' then MinInt64 else MaxInt64
  {
    AtoiOutOfRange(value);
  }

  /** The four lemmas above cover every text: one that is empty or has nothing after its
      sign is malformed, and one with digits is either decimal or stops at a non-digit. */
  lemma EnvIntCasesComplete(value: string)
    ensures (IsDecimal(value) && MinInt64 <= Signed(value) <= MaxInt64)
      || (!IsDecimal(value) && Magnitude(value) <= MaxUint64)
      || (Unsigned(value) != [] && (Magnitude(value) > MaxUint64 || (IsDecimal(value) && !(MinInt64 <= Signed(value) <= MaxInt64))))
  {
    if Unsigned(value) == [] {
      assert Unsigned(value)[..LeadingDigits(Unsigned(value))] == [];
    }
  }

  function DatabasePort(env: map<string, string>): (r: int)
    ensures r != 0 && MinInt64 <= r <= MaxInt64
    ensures "POSTGRES_PORT" !in env || env["POSTGRES_PORT"] == "" ==> r == DefaultPostgresPort
    ensures Atoi(Getenv(env, "POSTGRES_PORT")).0 != 0 ==> r == Atoi(Getenv(env, "POSTGRES_PORT")).0
    ensures Atoi(Getenv(env, "POSTGRES_PORT")).0 == 0 ==> r == DefaultPostgresPort
  {
    EnvInt(Getenv(env, "POSTGRES_PORT"), DefaultPostgresPort)
  }

  function ClickHousePort(env: map<string, string>): (r: int)
    ensures r != 0 && MinInt64 <= r <= MaxInt64
    ensures "CLICKHOUSE_PORT" !in env || env["CLICKHOUSE_PORT"] == "" ==> r == DefaultClickHousePort
    ensures Atoi(Getenv(env, "CLICKHOUSE_PORT")).0 != 0 ==> r == Atoi(Getenv(env, "CLICKHOUSE_PORT")).0
    ensures Atoi(Getenv(env, "CLICKHOUSE_PORT")).0 == 0 ==> r == DefaultClickHousePort
  {
    EnvInt(Getenv(env, "CLICKHOUSE_PORT"), DefaultClickHousePort)
  }

  function MaxIdleConn(env: map<string, string>): (r: int)
    ensures r != 0 && MinInt64 <= r <= MaxInt64
    ensures "POSTGRES_MAX_IDLE_CONN" !in env || env["POSTGRES_MAX_IDLE_CONN"] == "" ==> r == DefaultMaxIdleConn
    ensures Atoi(Getenv(env, "POSTGRES_MAX_IDLE_CONN")).0 != 0 ==> r == Atoi(Getenv(env, "POSTGRES_MAX_IDLE_CONN")).0
    ensures Atoi(Getenv(env, "POSTGRES_MAX_IDLE_CONN")).0 == 0 ==> r == DefaultMaxIdleConn
  {
    EnvInt(Getenv(env, "POSTGRES_MAX_IDLE_CONN"), DefaultMaxIdleConn)
  }

  function MaxOpenConn(env: map<string, string>): (r: int)
    ensures r != 0 && MinInt64 <= r <= MaxInt64
    ensures "POSTGRES_MAX_OPEN_CONN" !in env || env["POSTGRES_MAX_OPEN_CONN"] == "" ==> r == DefaultMaxOpenConn
    ensures Atoi(Getenv(env, "POSTGRES_MAX_OPEN_CONN")).0 != 0 ==> r == Atoi(Getenv(env, "POSTGRES_MAX_OPEN_CONN")).0
    ensures Atoi(Getenv(env, "POSTGRES_MAX_OPEN_CONN")).0 == 0 ==> r == DefaultMaxOpenConn
  {
    EnvInt(Getenv(env, "POSTGRES_MAX_OPEN_CONN"), DefaultMaxOpenConn)
  }

  function MaxLifetime(env: map<string, string>): (r: int)
    ensures r != 0 && MinInt64 <= r <= MaxInt64
    ensures "POSTGRES_MAX_LIFETIME" !in env || env["POSTGRES_MAX_LIFETIME"] == "" ==> r == DefaultMaxLifetime
    ensures Atoi(Getenv(env, "POSTGRES_MAX_LIFETIME")).0 != 0 ==> r == Atoi(Getenv(env, "POSTGRES_MAX_LIFETIME")).0
    ensures Atoi(Getenv(env, "POSTGRES_MAX_LIFETIME")).0 == 0 ==> r == DefaultMaxLifetime
  {
    EnvInt(Getenv(env, "POSTGRES_MAX_LIFETIME"), DefaultMaxLifetime)
  }

  /** The `Default` record: fixed driver and debug flag, text fields copied from the
      environment, numeric fields through the shared fallback rule. */
  function DefaultConfig(env: map<string, string>): (c: Config)
    ensures c.database.driver == "postgres" && !c.database.debug
    ensures c.database.ip == Getenv(env, "POSTGRES_HOST")
    ensures c.database.user == Getenv(env, "POSTGRES_USER")
    ensures c.database.password == Getenv(env, "POSTGRES_PASSWORD")
    ensures c.database.name == Getenv(env, "POSTGRES_DB")
    ensures c.clickHouse.ip == Getenv(env, "CLICKHOUSE_IP")
    ensures c.clickHouse.user == Getenv(env, "CLICKHOUSE_USERNAME")
    ensures c.clickHouse.password == Getenv(env, "CLICKHOUSE_PASSWORD")
    ensures c.clickHouse.name == Getenv(env, "CLICKHOUSE_NAME")
    ensures c.database.port == DatabasePort(env) && c.clickHouse.port == ClickHousePort(env)
    ensures c.database.connMaxIdle == MaxIdleConn(env) && c.database.connMaxOpen == MaxOpenConn(env)
    ensures c.database.connMaxLifetime == MaxLifetime(env)
    ensures c.clickHouse.driver == "" && !c.clickHouse.debug
    ensures c.clickHouse.connMaxIdle == 0 && c.clickHouse.connMaxOpen == 0 && c.clickHouse.connMaxLifetime == 0
  {
    Config(
      clickHouse := Database(
        driver := "",
        ip := Getenv(env, "CLICKHOUSE_IP"),
        port := ClickHousePort(env),
        user := Getenv(env, "CLICKHOUSE_USERNAME"),
        password := Getenv(env, "CLICKHOUSE_PASSWORD"),
        name := Getenv(env, "CLICKHOUSE_NAME"),
        connMaxIdle := 0,
        connMaxOpen := 0,
        connMaxLifetime := 0,
        debug := false),
      database := Database(
        driver := "postgres",
        ip := Getenv(env, "POSTGRES_HOST"),
        port := DatabasePort(env),
        user := Getenv(env, "POSTGRES_USER"),
        password := Getenv(env, "POSTGRES_PASSWORD"),
        name := Getenv(env, "POSTGRES_DB"),
        connMaxIdle := MaxIdleConn(env),
        connMaxOpen := MaxOpenConn(env),
        connMaxLifetime := MaxLifetime(env),
        debug := false))
  }

  /** With nothing in the environment the numeric defaults are the built-in constants. */
  lemma DefaultsOfEmptyEnvironment()
    ensures DefaultConfig(map[]).database.port == 25060
    ensures DefaultConfig(map[]).clickHouse.port == 9000
    ensures DefaultConfig(map[]).database.connMaxIdle == 32
    ensures DefaultConfig(map[]).database.connMaxOpen == 32
    ensures DefaultConfig(map[]).database.connMaxLifetime == 30
    ensures DefaultConfig(map[]).database.ip == ""
  {
  }
}
