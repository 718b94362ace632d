/**
 * The mining proxy's configuration: command-line arguments, the TOML
 * configuration file and environment variables resolved field by field with
 * the precedence command line > file > environment > default, and the
 * read-back helpers that validate log levels and name the environment.
 *
 * Reading the arguments, the file and the environment is I/O: their
 * outcomes are the parameters of `LoadConfig`.
 */
module Config {
  import opened Wrappers
  import opened Text

  newtype u64 = x: int | 0 <= x < 0x1_0000_0000_0000_0000

  /** The command line (`Args`), as `clap` parsed it. */
  datatype Args = Args(
    staging: bool,
    local: bool,
    downstreamHashrate: Option<real>,
    loglevel: Option<string>,
    noiseConnectionLog: Option<string>,
    sv1Loglevel: bool,
    delay: Option<u64>,
    adjustmentInterval: Option<u64>,
    token: Option<string>,
    tpAddress: Option<string>,
    listeningAddr: Option<string>,
    apiServerPort: Option<string>,
    monitor: bool,
    autoUpdate: bool)

  /** The configuration file (`ConfigFile`): every field optional. */
  datatype ConfigFile = ConfigFile(
    token: Option<string>,
    tpAddress: Option<string>,
    interval: Option<u64>,
    delay: Option<u64>,
    downstreamHashrate: Option<string>,
    loglevel: Option<string>,
    ncLoglevel: Option<string>,
    sv1Log: Option<bool>,
    staging: Option<bool>,
    local: Option<bool>,
    listeningAddr: Option<string>,
    apiServerPort: Option<string>,
    monitor: Option<bool>,
    autoUpdate: Option<bool>)

  /** `ConfigFile::default()`: nothing set. */
  const EmptyConfigFile := ConfigFile(None, None, None, None, None, None, None, None, None, None, None, None, None, None)

  /** The environment: variable name to value. */
  type Env = map<string, string>

  /** `std::env::var(name).ok()`. */
  function EnvVar(env: Env, name: string): Option<string> {
    if name in env then Some(env[name]) else None
  }

  /** The float parts of reading a hashrate, which this model does not
      define: the number-and-unit parse at the end of `parse_hashrate`
      (`f32` parse, unit lookup, multiplication, overflow check) and the
      plain `f32` parse of an environment value. */
  datatype HashrateParsers = HashrateParsers(
    numberWithUnit: (string, char) -> Option<real>,
    plain: string -> Option<real>)

  /** The resolved configuration (`Configuration`). */
  datatype Configuration = Configuration(
    token: Option<string>,
    tpAddress: Option<string>,
    interval: u64,
    delay: u64,
    downstreamHashrate: real,
    loglevel: string,
    ncLoglevel: string,
    sv1Log: bool,
    staging: bool,
    local: bool,
    listeningAddr: Option<string>,
    apiServerPort: string,
    monitor: bool,
    autoUpdate: bool)

  const DefaultInterval: u64 := 120_000
  const DefaultDelay: u64 := 0
  const DefaultApiServerPort := "3001"
  const DefaultLogLevel := "info"
  const DefaultNcLogLevel := "off"

  /** `str::parse::<u64>()`: an optional '+', then one or more ASCII digits
      whose value fits in 64 bits; nothing else, not even whitespace. */
  function ParseU64(s: string): (r: Option<u64>)
    ensures r.Some? ==> |s| > 0 && (s[0] == '+' || IsDigit(s[0]))
    ensures r.Some? ==> forall i :: 0 < i < |s| ==> IsDigit(s[i])
  {
    var digits := if |s| > 0 && s[0] == '+' then s[1..] else s;
    if |digits| > 0 && AllDigits(digits) && DigitsValue(digits) < 0x1_0000_0000_0000_0000
    then Some(DigitsValue(digits) as u64)
    else None
  }

  /** The decimal text of a 64-bit value reads back as that value. */
  lemma ParseU64OfText(n: u64)
    ensures ParseU64(NatToString(n as nat)) == Some(n)
  {
    NatToStringRoundTrip(n as nat);
  }

  /** Why `parse_hashrate` refused its input. */
  datatype HashrateError = EmptyHashrate | InvalidHashrate

  /** The first half of `parse_hashrate`, with the text cut by characters:
      surrounding whitespace trimmed, empty text refused, then the last
      character is the unit and everything before it the number. */
  function SplitHashrate(text: string): (r: Result<(string, char), HashrateError>)
    ensures r.Failure? <==> Strip(text, Rust) == []
    ensures r.Success? ==> r.value.0 + [r.value.1] == Strip(text, Rust)
  {
    var t := Strip(text, Rust);
    if t == [] then Failure(EmptyHashrate)
    else Success((t[..|t| - 1], t[|t| - 1]))
  }

  /** `parse_hashrate`: the split above, then the float part. */
  function ParseHashrate(text: string, parsers: HashrateParsers): (r: Result<real, HashrateError>)
    ensures r == Failure(EmptyHashrate) <==> Strip(text, Rust) == []
    ensures r.Success? ==> var t := Strip(text, Rust);
      |t| > 0 && parsers.numberWithUnit(t[..|t| - 1], t[|t| - 1]) == Some(r.value)
  {
    match SplitHashrate(text)
    case Failure(e) => Failure(e)
    case Success((number, unit)) =>
      match parsers.numberWithUnit(number, unit)
      case Some(h) => Success(h)
      case None => Failure(InvalidHashrate)
  }

  /** UTF-8 length of one character. */
  function Utf8Width(c: char): (n: nat)
    ensures 1 <= n <= 4
  {
    if c as int < 0x80 then 1 else if c as int < 0x800 then 2 else if c as int < 0x1_0000 then 3 else 4
  }

  /** UTF-8 length of a string: what Rust's `str::len` counts. */
  function Utf8Len(s: string): (n: nat)
    ensures n >= |s|
  {
    if s == [] then 0 else Utf8Len(s[..|s| - 1]) + Utf8Width(s[|s| - 1])
  }

  /** Whether byte offset `k` of `s` falls on a character boundary, where
      Rust lets a string be sliced. */
  predicate IsCharBoundary(s: string, k: nat) {
    exists i :: 0 <= i <= |s| && Utf8Len(s[..i]) == k
  }

  /** The first half of `parse_hashrate` as written: the number is
      `t[..t.len() - 1]` where `len` counts BYTES, so the slice ends one byte
      before the end of the trimmed text `t`. When the last character takes
      more than one byte that offset is inside it and the slice panics
      (None here); otherwise it drops exactly the last character. */
  function SplitHashrateAsWritten(text: string): (r: Option<Result<(string, char), HashrateError>>)
    ensures var t := Strip(text, Rust);
      r.None? <==> t != [] && !IsCharBoundary(t, Utf8Len(t) - 1)
    ensures r.Some? ==> r.value == SplitHashrate(text)
  {
    var t := Strip(text, Rust);
    if t == [] then Some(Failure(EmptyHashrate))
    else
      LastByteBoundary(t);
      if Utf8Width(t[|t| - 1]) == 1 then Some(Success((t[..|t| - 1], t[|t| - 1]))) else None
  }

  /** Each character takes at least one byte, so a prefix of `i` characters
      is at least `|s| - i` bytes shorter than the whole. */
  lemma {:induction false} Utf8PrefixLen(s: string, i: nat)
    requires i <= |s|
    ensures Utf8Len(s[..i]) + (|s| - i) <= Utf8Len(s)
    decreases |s|
  {
    if i < |s| {
      var p := s[..|s| - 1];
      Utf8PrefixLen(p, i);
      assert p[..i] == s[..i];
    } else {
      assert s[..i] == s;
    }
  }

  /** One byte before the end is a character boundary exactly when the last
      character is ASCII. */
  lemma LastByteBoundary(t: string)
    requires t != []
    ensures IsCharBoundary(t, Utf8Len(t) - 1) <==> Utf8Width(t[|t| - 1]) == 1
  {
    if Utf8Width(t[|t| - 1]) == 1 {
      assert Utf8Len(t[..|t| - 1]) == Utf8Len(t) - 1;
    } else {
      NoBoundaryInLast(t);
    }
  }

  /** A last character of two or more bytes leaves no boundary one byte
      before the end. */
  lemma NoBoundaryInLast(t: string)
    requires t != [] && Utf8Width(t[|t| - 1]) > 1
    ensures forall i :: 0 <= i <= |t| ==> Utf8Len(t[..i]) != Utf8Len(t) - 1
  {
    var p := t[..|t| - 1];
    assert Utf8Len(t) == Utf8Len(p) + Utf8Width(t[|t| - 1]);
    forall i | 0 <= i <= |t|
      ensures Utf8Len(t[..i]) != Utf8Len(t) - 1
    {
      if i == |t| {
        assert t[..i] == t;
      } else {
        Utf8PrefixLen(p, i);
        assert p[..i] == t[..i];
      }
    }
  }

  /** "1µ": the last character takes two bytes, so the source panics where
      the character split yields number "1" and unit 'µ' (which the unit
      lookup then refuses with an error message). */
  lemma NonAsciiUnitPanics()
    ensures SplitHashrateAsWritten("1µ") == None
    ensures SplitHashrate("1µ") == Success(("1", 'µ'))
  {
    var s := "1µ";
    StripKeeps(s, Rust);
    assert s[..|s| - 1] == "1" && s[|s| - 1] == 'µ';
  }

  /** The six level names the tracing filter accepts. */
  predicate IsLevelName(s: string) {
    s == "trace" || s == "debug" || s == "info" || s == "warn" || s == "error" || s == "off"
  }

  /** `Configuration::loglevel`: the configured text, as written, when its
      lower-case form is a level name; otherwise "info". */
  function LogLevel(configured: string): (level: string)
    ensures IsLevelName(AsciiLower(configured)) ==> level == configured
    ensures !IsLevelName(AsciiLower(configured)) ==> level == DefaultLogLevel
  {
    if IsLevelName(AsciiLower(configured)) then configured else DefaultLogLevel
  }

  /** The level returned always names a level in some letter case, and
      asking again returns the same text. */
  lemma LogLevelIsValid(configured: string)
    ensures IsLevelName(AsciiLower(LogLevel(configured)))
    ensures LogLevel(LogLevel(configured)) == LogLevel(configured)
  {
    if !IsLevelName(AsciiLower(configured)) {
      assert AsciiLower(DefaultLogLevel) == DefaultLogLevel;
    }
  }

  /** An upper-case level is accepted and returned upper-case. */
  lemma LogLevelKeepsCase()
    ensures LogLevel("DEBUG") == "DEBUG"
  {
    assert AsciiLower("DEBUG") == "debug";
  }

  /** `Configuration::nc_loglevel`: the configured text when it is exactly a
      level name (letter case matters); otherwise "off". */
  function NcLogLevel(configured: string): (level: string)
    ensures IsLevelName(level)
    ensures IsLevelName(configured) <==> level == configured
  {
    if IsLevelName(configured) then configured else DefaultNcLogLevel
  }

  /** Unlike `LogLevel`, the noise-connection level does not fold case. */
  lemma NcLogLevelIsCaseSensitive()
    ensures NcLogLevel("DEBUG") == "off"
  {
  }

  /** `Configuration::environment`: staging wins over local, and with
      neither set the environment is production. */
  function Environment(staging: bool, local: bool): (env: string)
    ensures env == "staging" <==> staging
    ensures env == "local" <==> !staging && local
    ensures env == "production" <==> !staging && !local
  {
    if staging then "staging" else if local then "local" else "production"
  }

  /** The body of `load_config` once the command line, the file and the
      environment have been read. `file` is None when the file is missing
      or does not parse; it then reads as `ConfigFile::default()`. A text
      given on the command line is taken as it is; the other sources are
      the subject of the precedence lemmas below. */
  function LoadConfig(args: Args, file: Option<ConfigFile>, env: Env,
                      parsers: HashrateParsers, defaultHashpower: real): (c: Configuration)
    ensures args.token.Some? ==> c.token == args.token
    ensures args.tpAddress.Some? ==> c.tpAddress == args.tpAddress
    ensures args.listeningAddr.Some? ==> c.listeningAddr == args.listeningAddr
  {
    var config := file.GetOr(EmptyConfigFile);
    var token := args.token.Or(config.token).Or(EnvVar(env, "TOKEN"));
    var tpAddress := args.tpAddress.Or(config.tpAddress).Or(EnvVar(env, "TP_ADDRESS"));
    var interval := args.adjustmentInterval.Or(config.interval)
      .Or(EnvParsedU64(env, "INTERVAL")).GetOr(DefaultInterval);
    var delay := args.delay.Or(config.delay).Or(EnvParsedU64(env, "DELAY")).GetOr(DefaultDelay);
    var fileHashrate :=
      if config.downstreamHashrate.Some? then ParseHashrate(config.downstreamHashrate.value, parsers).ToOption()
      else None;
    var envHashrate :=
      if "DOWNSTREAM_HASHRATE" in env then parsers.plain(env["DOWNSTREAM_HASHRATE"]) else None;
    var downstreamHashrate := args.downstreamHashrate.Or(fileHashrate).Or(envHashrate).GetOr(defaultHashpower);
    var listeningAddr := args.listeningAddr.Or(config.listeningAddr).Or(EnvVar(env, "DOWNSTREAM_HASHRATE"));
    var apiServerPort := args.apiServerPort.Or(config.apiServerPort)
      .Or(EnvVar(env, "API_SERVER_PORT")).GetOr(DefaultApiServerPort);
    var loglevel := args.loglevel.Or(config.loglevel).Or(EnvVar(env, "LOGLEVEL")).GetOr(DefaultLogLevel);
    var ncLoglevel := args.noiseConnectionLog.Or(config.ncLoglevel)
      .Or(EnvVar(env, "NC_LOGLEVEL")).GetOr(DefaultNcLogLevel);
    var sv1Log := args.sv1Loglevel || config.sv1Log.GetOr(false) || "SV1_LOGLEVEL" in env;
    var staging := args.staging || config.staging.GetOr(false) || "STAGING" in env;
    var local := args.local || config.local.GetOr(false) || "LOCAL" in env;
    var monitor := args.monitor || config.monitor.GetOr(false) || "MONITOR" in env;
    var autoUpdate := args.autoUpdate || config.autoUpdate.GetOr(true) || "AUTO_UPDATE" in env;
    Configuration(token, tpAddress, interval, delay, downstreamHashrate, loglevel, ncLoglevel,
                  sv1Log, staging, local, listeningAddr, apiServerPort, monitor, autoUpdate)
  }

  /** An environment variable read as a `u64`; unset or unparseable is None. */
  function EnvParsedU64(env: Env, name: string): Option<u64> {
    if name in env then ParseU64(env[name]) else None
  }

  /** The first of the three sources that sets a value, else the default. */
  function FirstSet<T>(cli: Option<T>, file: Option<T>, env: Option<T>, default: T): (r: T)
    ensures cli.Some? ==> r == cli.value
    ensures cli.None? && file.Some? ==> r == file.value
    ensures cli.None? && file.None? && env.Some? ==> r == env.value
    ensures cli.None? && file.None? && env.None? ==> r == default
  {
    if cli.Some? then cli.value else if file.Some? then file.value else if env.Some? then env.value else default
  }

  /** The numeric settings and the texts with a default follow command line
      > file > environment > default; an environment value that does not
      parse counts as unset. */
  lemma ValuePrecedence(args: Args, file: ConfigFile, env: Env, parsers: HashrateParsers, dh: real)
    ensures var c := LoadConfig(args, Some(file), env, parsers, dh);
      && c.interval == FirstSet(args.adjustmentInterval, file.interval, EnvParsedU64(env, "INTERVAL"), DefaultInterval)
      && c.delay == FirstSet(args.delay, file.delay, EnvParsedU64(env, "DELAY"), DefaultDelay)
      && c.apiServerPort == FirstSet(args.apiServerPort, file.apiServerPort, EnvVar(env, "API_SERVER_PORT"), DefaultApiServerPort)
      && c.loglevel == FirstSet(args.loglevel, file.loglevel, EnvVar(env, "LOGLEVEL"), DefaultLogLevel)
      && c.ncLoglevel == FirstSet(args.noiseConnectionLog, file.ncLoglevel, EnvVar(env, "NC_LOGLEVEL"), DefaultNcLogLevel)
  {
  }

  /** The optional texts follow command line > file > environment. The
      listening address falls back to the DOWNSTREAM_HASHRATE variable, as
      the source is written. */
  lemma OptionalPrecedence(args: Args, file: ConfigFile, env: Env, parsers: HashrateParsers, dh: real)
    ensures var c := LoadConfig(args, Some(file), env, parsers, dh);
      && (args.token.None? && file.token.Some? ==> c.token == file.token)
      && (args.token.None? && file.token.None? && "TOKEN" in env ==> c.token == Some(env["TOKEN"]))
      && (args.token.None? && file.token.None? && "TOKEN" !in env ==> c.token.None?)
    ensures var c := LoadConfig(args, Some(file), env, parsers, dh);
      && (args.tpAddress.None? && file.tpAddress.Some? ==> c.tpAddress == file.tpAddress)
      && (args.tpAddress.None? && file.tpAddress.None? && "TP_ADDRESS" in env ==> c.tpAddress == Some(env["TP_ADDRESS"]))
      && (args.tpAddress.None? && file.tpAddress.None? && "TP_ADDRESS" !in env ==> c.tpAddress.None?)
    ensures var c := LoadConfig(args, Some(file), env, parsers, dh);
      && (args.listeningAddr.None? && file.listeningAddr.Some? ==> c.listeningAddr == file.listeningAddr)
      && (args.listeningAddr.None? && file.listeningAddr.None? && "DOWNSTREAM_HASHRATE" in env
          ==> c.listeningAddr == Some(env["DOWNSTREAM_HASHRATE"]))
      && (args.listeningAddr.None? && file.listeningAddr.None? && "DOWNSTREAM_HASHRATE" !in env
          ==> c.listeningAddr.None?)
  {
  }

  /** The switches are on exactly when some source turns them on; the
      automatic update is on unless the file turns it off and neither the
      command line nor the AUTO_UPDATE variable turns it on. */
  lemma SwitchResolution(args: Args, file: ConfigFile, env: Env, parsers: HashrateParsers, dh: real)
    ensures var c := LoadConfig(args, Some(file), env, parsers, dh);
      && (c.sv1Log <==> args.sv1Loglevel || file.sv1Log == Some(true) || "SV1_LOGLEVEL" in env)
      && (c.staging <==> args.staging || file.staging == Some(true) || "STAGING" in env)
      && (c.local <==> args.local || file.local == Some(true) || "LOCAL" in env)
      && (c.monitor <==> args.monitor || file.monitor == Some(true) || "MONITOR" in env)
      && (!c.autoUpdate <==> file.autoUpdate == Some(false) && !args.autoUpdate && "AUTO_UPDATE" !in env)
  {
  }

  /** The hashrate comes from the command line, else the file's text through
      `parse_hashrate`, else the environment's number, else the default;
      a source that does not parse is passed over. */
  lemma HashratePrecedence(args: Args, file: ConfigFile, env: Env, parsers: HashrateParsers, dh: real)
    ensures var c := LoadConfig(args, Some(file), env, parsers, dh);
      var fromFile := if file.downstreamHashrate.Some? then ParseHashrate(file.downstreamHashrate.value, parsers).ToOption() else None;
      var fromEnv := if "DOWNSTREAM_HASHRATE" in env then parsers.plain(env["DOWNSTREAM_HASHRATE"]) else None;
      c.downstreamHashrate == FirstSet(args.downstreamHashrate, fromFile, fromEnv, dh)
  {
  }

  /** A file that is missing or does not parse resolves like a file that
      sets nothing. */
  lemma MissingFileIsEmpty(args: Args, env: Env, parsers: HashrateParsers, dh: real)
    ensures LoadConfig(args, None, env, parsers, dh) == LoadConfig(args, Some(EmptyConfigFile), env, parsers, dh)
  {
  }

  /** Nothing on the command line, no file and an empty environment give
      the defaults. */
  lemma Defaults(parsers: HashrateParsers, dh: real)
    ensures LoadConfig(Args(false, false, None, None, None, false, None, None, None, None, None, None, false, false),
                       None, map[], parsers, dh)
      == Configuration(None, None, DefaultInterval, DefaultDelay, dh, DefaultLogLevel, DefaultNcLogLevel,
                       false, false, false, None, DefaultApiServerPort, false, true)
  {
  }
}
