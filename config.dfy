/**
 * Configuration precedence: environment variables over the YAML file over
 * built-in defaults. Reading the file and the environment is outside the
 * model; their values arrive as records. Only equality and emptiness of
 * strings matter here, so they are Dafny strings.
 */
module Config {
  import opened Wrappers
  import opened UnixTime

  /** The YAML file's settings (empty when absent). */
  datatype FileConfig = FileConfig(
    discordToken: string,
    databasePath: string,
    tickInterval: string,
    env: string,
    testGuildId: string,
    dryRun: bool)

  /** BOT_ENV, DISCORD_TOKEN, DISCORD_TOKEN_TEST, DATABASE_PATH, TICK_INTERVAL, DRY_RUN, TEST_GUILD_ID. */
  datatype EnvVals = EnvVals(
    env: string,
    token: string,
    tokenTest: string,
    dbPath: string,
    tick: string,
    dryRun: string,
    testGuildId: string)

  /** The resolved configuration; the tick interval is in nanoseconds. */
  datatype Settings = Settings(
    discordToken: string,
    databasePath: string,
    tickInterval: int,
    env: string,
    testGuildId: string,
    dryRun: bool)

  datatype ConfigError = MissingToken

  /** fallback: the first non-empty value, or "" when every value is empty. */
  function Fallback(values: seq<string>): (r: string)
    ensures r == "" <==> forall i :: 0 <= i < |values| ==> values[i] == ""
    ensures r != "" ==> exists i :: 0 <= i < |values| && values[i] == r && forall j :: 0 <= j < i ==> values[j] == ""
  {
    if |values| == 0 then ""
    else if values[0] != "" then values[0]
    else
      var rest := Fallback(values[1..]);
      assert forall i :: 1 <= i < |values| ==> values[i] == values[1..][i - 1];
      rest
  }

  /**
   * fromValues. `parseDuration` stands for time.ParseDuration (nanoseconds,
   * or None when the text does not parse). A missing token is the only error.
   */
  function FromValues(f: FileConfig, e: EnvVals, parseDuration: string -> Option<int>): (r: Result<Settings, ConfigError>)
    ensures r.Err? <==> e.token == "" && f.discordToken == ""
                        && !(Fallback([e.env, f.env, "prod"]) == "test" && e.tokenTest != "")
    ensures r.Ok? ==> r.value.discordToken != ""
  {
    var env := Fallback([e.env, f.env, "prod"]);
    var token :=
      if e.token != "" then e.token
      else if env == "test" && e.tokenTest != "" then e.tokenTest
      else f.discordToken;
    if token == "" then Err(MissingToken)
    else
      var tickStr := Fallback([e.tick, f.tickInterval, "10s"]);
      var tick := match parseDuration(tickStr) case Some(d) => d case None => 10 * Second;
      var dry := if e.dryRun == "1" || e.dryRun == "true" || e.dryRun == "TRUE" then true else f.dryRun;
      Ok(Settings(token, Fallback([e.dbPath, f.databasePath, "./reminders.db"]), tick, env,
                  Fallback([e.testGuildId, f.testGuildId, ""]), dry))
  }

  /** Each setting with a default is the environment's value, else the file's, else the default. */
  lemma {:induction false} SettingsPrecedence(f: FileConfig, e: EnvVals, parseDuration: string -> Option<int>)
    requires FromValues(f, e, parseDuration).Ok?
    ensures var c := FromValues(f, e, parseDuration).value;
      && c.env == (if e.env != "" then e.env else if f.env != "" then f.env else "prod")
      && c.databasePath == (if e.dbPath != "" then e.dbPath else if f.databasePath != "" then f.databasePath else "./reminders.db")
      && c.testGuildId == (if e.testGuildId != "" then e.testGuildId else f.testGuildId)
  {
    FallbackOfThree(e.env, f.env, "prod");
    FallbackOfThree(e.dbPath, f.databasePath, "./reminders.db");
    FallbackOfThree(e.testGuildId, f.testGuildId, "");
  }

  /** fallback of three values, spelt out. */
  lemma FallbackOfThree(a: string, b: string, c: string)
    ensures Fallback([a, b, c]) == if a != "" then a else if b != "" then b else c
  {
    if a == "" {
      assert [a, b, c][1..] == [b, c];
      assert Fallback([a, b, c]) == Fallback([b, c]);
      if b == "" {
        assert [b, c][1..] == [c];
        assert Fallback([b, c]) == Fallback([c]);
        assert [c][1..] == [];
        assert Fallback([c]) == if c != "" then c else Fallback([]);
      }
    }
  }

  /**
   * The token is DISCORD_TOKEN, else DISCORD_TOKEN_TEST in the test
   * environment, else the file's token; an empty result is refused.
   */
  lemma TokenPrecedence(f: FileConfig, e: EnvVals, parseDuration: string -> Option<int>)
    ensures var env := if e.env != "" then e.env else if f.env != "" then f.env else "prod";
      var token := if e.token != "" then e.token
                   else if env == "test" && e.tokenTest != "" then e.tokenTest
                   else f.discordToken;
      && (token == "" ==> FromValues(f, e, parseDuration) == Err(MissingToken))
      && (token != "" ==> FromValues(f, e, parseDuration).Ok? && FromValues(f, e, parseDuration).value.discordToken == token)
  {
    FallbackOfThree(e.env, f.env, "prod");
  }

  /**
   * The tick interval is the parsed duration of TICK_INTERVAL, else the
   * file's, else "10s"; text that does not parse gives exactly 10s.
   */
  lemma TickInterval(f: FileConfig, e: EnvVals, parseDuration: string -> Option<int>)
    requires FromValues(f, e, parseDuration).Ok?
    ensures var text := if e.tick != "" then e.tick else if f.tickInterval != "" then f.tickInterval else "10s";
      FromValues(f, e, parseDuration).value.tickInterval
        == match parseDuration(text) case Some(d) => d case None => 10 * Second
  {
    FallbackOfThree(e.tick, f.tickInterval, "10s");
  }

  /** DRY_RUN of "1", "true" or "TRUE" turns dry run on; it can never turn the file's setting off. */
  lemma DryRunOnlyTurnsOn(f: FileConfig, e: EnvVals, parseDuration: string -> Option<int>)
    requires FromValues(f, e, parseDuration).Ok?
    ensures var c := FromValues(f, e, parseDuration).value;
      && (f.dryRun ==> c.dryRun)
      && (c.dryRun <==> f.dryRun || e.dryRun in {"1", "true", "TRUE"})
  {
  }

  /**
   * The file of the configuration test (token "Bot A", env "test", tick
   * "2s") with DISCORD_TOKEN_TEST = "Bot B" and DRY_RUN = "1" resolves to
   * token "Bot B", database "./db.sqlite", env "test", guild "G", dry run and,
   * when time.ParseDuration reads "2s" as two seconds, a 2 s tick.
   */
  lemma FromValuesExample(parseDuration: string -> Option<int>)
    requires parseDuration("2s") == Some(2 * Second)
    ensures var f := FileConfig("Bot A", "./db.sqlite", "2s", "test", "G", false);
      var e := EnvVals("", "", "Bot B", "", "", "1", "");
      var r := FromValues(f, e, parseDuration);
      && r.Ok?
      && r.value.discordToken == "Bot B" && r.value.databasePath == "./db.sqlite"
      && r.value.env == "test" && r.value.testGuildId == "G" && r.value.dryRun
      && r.value.tickInterval == 2 * Second
  {
    FallbackOfThree("", "test", "prod");
    FallbackOfThree("", "2s", "10s");
    FallbackOfThree("", "./db.sqlite", "./reminders.db");
    FallbackOfThree("", "G", "");
  }
}
