/** Client credentials: `APIKeys` (`minall/utils/parse_config.py`) and
    `parse_env_vars` (`minall/utils.py`). Reading files and the process
    environment is not modelled: what the JSON or YAML parser makes of a
    configuration file, the environment and the `.env` map are parameters. */
module Config {
  import opened Wrappers
  import PyText
  import PyDict

  /** A value of a parsed JSON or YAML document (floats are not modelled). */
  datatype Value =
    | Null
    | Bool(b: bool)
    | Int(i: int)
    | Str(s: string)
    | List(items: seq<Value>)
    | Object(entries: PyDict.Dict<Value>)

  /** Python truthiness of a value: `None`, `False`, `0`, the empty string,
      list and mapping are false. */
  predicate Truthy(v: Value) {
    match v
    case Null => false
    case Bool(b) => b
    case Int(i) => i != 0
    case Str(s) => s != ""
    case List(items) => items != []
    case Object(entries) => entries != []
  }

  datatype ConfigError =
      /** The configuration file's extension is none of `.json`, `.yml`,
          `.yaml`. */
    | OSError
      /** A section or field of the configuration is missing. */
    | KeyError(key: string)
      /** A configuration that is not a mapping is subscripted by name. */
    | TypeError
      /** A YouTube key that is neither a list nor a string has no
          `split`. */
    | AttributeError

  datatype FileFormat = JsonFile | YamlFile

  /** The `config` argument: a path to a file, a dict, or nothing. */
  datatype ConfigArg = PathArg(path: string) | DictArg(d: PyDict.Dict<Value>) | NoArg

  datatype ApiKeys = ApiKeys(
    buzzsumoToken: Value,
    crowdtangleToken: Value,
    crowdtangleRateLimit: Value,
    youtubeKey: seq<Value>)

  // ---------------------------------------------------------------------------
  // load_config_file
  // ---------------------------------------------------------------------------

  /** The text after the last `/`. */
  function BaseName(path: string): (name: string)
    ensures '/' !in name
    ensures |name| <= |path| && name == path[|path| - |name|..]
    decreases |path|
  {
    if |path| == 0 then ""
    else if path[|path| - 1] == '/' then ""
    else BaseName(path[..|path| - 1]) + [path[|path| - 1]]
  }

  /** The position of the last `.` in `s`, if any. */
  function LastDot(s: string): (i: Option<nat>)
    ensures i.Some? ==> i.value < |s| && s[i.value] == '.' && '.' !in s[i.value + 1..]
    ensures i.None? ==> '.' !in s
    decreases |s|
  {
    if |s| == 0 then None
    else if s[|s| - 1] == '.' then Some(|s| - 1)
    else
      var i := LastDot(s[..|s| - 1]);
      assert i.Some? ==> s[i.value + 1..] == s[..|s| - 1][i.value + 1..] + [s[|s| - 1]];
      i
  }

  /** `Path(path).suffix`: from the last dot of the final component, unless
      that dot starts the name or ends it. */
  function Suffix(path: string): (r: string)
    ensures r != "" ==> |r| >= 2 && r[0] == '.' && '.' !in r[1..] && '/' !in r
    ensures r != "" ==> |r| < |path| && path[|path| - |r|..] == r && path[|path| - |r| - 1] != '/'
  {
    var name := BaseName(path);
    match LastDot(name)
    case Some(i) =>
      if 0 < i < |name| - 1 then
        var r := name[i..];
        assert forall j :: 0 <= j < |r| ==> r[j] == name[i + j];
        assert r[1..] == name[i + 1..];
        assert path[|path| - |r|..] == r;
        assert path[|path| - |r| - 1] == name[i - 1];
        r
      else ""
    case None => ""
  }

  /** `load_config_file`: the extension chooses the parser; `parse` gives
      what each parser makes of the file. */
  function LoadConfigFile(path: string, parse: FileFormat -> Value): (r: Result<Value, ConfigError>)
    ensures r.Failure? <==> !(Suffix(path) == ".json" || Suffix(path) == ".yml" || Suffix(path) == ".yaml")
    ensures r.Failure? ==> r.error == OSError
    ensures Suffix(path) == ".json" ==> r == Success(parse(JsonFile))
    ensures Suffix(path) == ".yml" || Suffix(path) == ".yaml" ==> r == Success(parse(YamlFile))
  {
    var extension := Suffix(path);
    if extension == ".json" then Success(parse(JsonFile))
    else if extension == ".yml" || extension == ".yaml" then Success(parse(YamlFile))
    else Failure(OSError)
  }

  lemma BaseNameSnoc(p: string, c: char)
    requires c != '/'
    ensures BaseName(p + [c]) == BaseName(p) + [c]
  {
    assert (p + [c])[..|p|] == p;
  }

  lemma {:induction false} BaseNameAppend(p: string, x: string)
    requires '/' !in x
    ensures BaseName(p + x) == BaseName(p) + x
    decreases |x|
  {
    if |x| == 0 {
      assert p + x == p;
    } else {
      var n := |x| - 1;
      var front := x[..n];
      assert x == front + [x[n]];
      assert x[n] in x;
      assert '/' !in front by {
        forall j | 0 <= j < n ensures front[j] != '/' {
          assert front[j] == x[j];
          assert x[j] in x;
        }
      }
      BaseNameAppend(p, front);
      assert p + x == (p + front) + [x[n]];
      BaseNameSnoc(p + front, x[n]);
    }
  }

  lemma LastDotSnoc(s: string, c: char)
    requires c != '.'
    ensures LastDot(s + [c]) == LastDot(s)
  {
    assert (s + [c])[..|s|] == s;
  }

  lemma {:induction false} LastDotAppend(s: string, e: string)
    requires '.' !in e
    ensures LastDot(s + "." + e) == Some(|s|)
    decreases |e|
  {
    if |e| == 0 {
      assert s + "." + e == s + ".";
    } else {
      var n := |e| - 1;
      var front := e[..n];
      assert e == front + [e[n]];
      assert e[n] in e;
      assert '.' !in front by {
        forall j | 0 <= j < n ensures front[j] != '.' {
          assert front[j] == e[j];
          assert e[j] in e;
        }
      }
      LastDotAppend(s, front);
      assert s + "." + e == (s + "." + front) + [e[n]];
      LastDotSnoc(s + "." + front, e[n]);
    }
  }

  /** A file name ending in a dot and a dot-free, slash-free extension has
      that suffix: the converse of what `Suffix` ensures. */
  lemma SuffixOf(stem: string, e: string)
    requires stem != "" && stem[|stem| - 1] != '/'
    requires e != "" && '.' !in e && '/' !in e
    ensures Suffix(stem + "." + e) == "." + e
  {
    var ext := "." + e;
    assert '/' !in ext by {
      forall j | 0 <= j < |ext| ensures ext[j] != '/' {
        if j > 0 { assert ext[j] == e[j - 1]; assert e[j - 1] in e; }
      }
    }
    assert stem + "." + e == stem + ext;
    BaseNameAppend(stem, ext);
    assert BaseName(stem) != "" by {
      assert stem == stem[..|stem| - 1] + [stem[|stem| - 1]];
    }
    SuffixOfName(stem + "." + e, BaseName(stem), e);
  }

  /** A final component made of a non-empty stem, a dot and a dot-free
      extension has that extension as its suffix. */
  lemma SuffixOfName(path: string, base: string, e: string)
    requires base != "" && e != "" && '.' !in e
    requires BaseName(path) == base + "." + e
    ensures Suffix(path) == "." + e
  {
    LastDotAppend(base, e);
    assert (base + "." + e)[|base|..] == "." + e;
  }

  /** The extension alone decides the parser. */
  lemma LoadConfigFileByExtension(stem: string, e: string, parse: FileFormat -> Value)
    requires stem != "" && stem[|stem| - 1] != '/'
    requires e != "" && '.' !in e && '/' !in e
    ensures LoadConfigFile(stem + "." + e, parse) ==
      if e == "json" then Success(parse(JsonFile))
      else if e == "yml" || e == "yaml" then Success(parse(YamlFile))
      else Failure(OSError)
  {
    SuffixOf(stem, e);
    DotCases(e);
  }

  /** A dot-prefixed extension names a parser exactly when the bare one
      does. */
  lemma DotCases(e: string)
    ensures ("." + e == ".json") == (e == "json")
    ensures ("." + e == ".yml") == (e == "yml")
    ensures ("." + e == ".yaml") == (e == "yaml")
  {
    assert ".json" == "." + "json" && ".yml" == "." + "yml" && ".yaml" == "." + "yaml";
    DotPrefixed(e, "json");
    DotPrefixed(e, "yml");
    DotPrefixed(e, "yaml");
  }

  lemma DotPrefixed(e: string, f: string)
    ensures "." + e == "." + f <==> e == f
  {
    if "." + e == "." + f {
      assert e == ("." + e)[1..] && f == ("." + f)[1..];
    }
  }

  // ---------------------------------------------------------------------------
  // APIKeys.__init__
  // ---------------------------------------------------------------------------

  /** `v[key]` on a parsed document. */
  function Subscript(v: Value, key: string): (r: Result<Value, ConfigError>)
    ensures r.Success? <==> v.Object? && key in PyDict.Keys(v.entries)
    ensures r.Success? ==> PyDict.Get(v.entries, key) == Some(r.value)
    ensures r.Failure? ==> r.error == if v.Object? then KeyError(key) else TypeError
  {
    match v
    case Object(entries) =>
      (match PyDict.Get(entries, key)
       case Some(x) => Success(x)
       case None => Failure(KeyError(key)))
    case _ => Failure(TypeError)
  }

  /** `v[section][field]` */
  function Field(v: Value, section: string, field: string): Result<Value, ConfigError> {
    var s :- Subscript(v, section);
    Subscript(s, field)
  }

  /** The YouTube keys of a configuration: a list as it is, a string split
      on commas. */
  function YoutubeKeys(v: Value): (r: Result<seq<Value>, ConfigError>)
    ensures v.List? ==> r == Success(v.items)
    ensures v.Str? ==> r.Success? && |r.value| >= 1 && (forall i :: 0 <= i < |r.value| ==> r.value[i].Str?)
    ensures v.Str? ==> PyText.Join(Strings(r.value), ',') == v.s
    ensures !v.List? && !v.Str? ==> r == Failure(AttributeError)
  {
    match v
    case List(items) => Success(items)
    case Str(s) =>
      var parts := PyText.Split(s, ',');
      PyText.JoinSplit(s, ',');
      StringsOfStrs(parts);
      Success(StrValues(parts))
    case _ => Failure(AttributeError)
  }

  function StrValues(parts: seq<string>): (r: seq<Value>)
    ensures |r| == |parts| && forall i :: 0 <= i < |parts| ==> r[i] == Str(parts[i])
  {
    seq(|parts|, i requires 0 <= i < |parts| => Str(parts[i]))
  }

  /** The texts of a list of strings. */
  function Strings(vs: seq<Value>): (r: seq<string>)
    requires forall i :: 0 <= i < |vs| ==> vs[i].Str?
    ensures |r| == |vs| && forall i :: 0 <= i < |vs| ==> r[i] == vs[i].s
  {
    seq(|vs|, i requires 0 <= i < |vs| => vs[i].s)
  }

  lemma StringsOfStrs(parts: seq<string>)
    ensures Strings(StrValues(parts)) == parts
  {
  }

  /** Python truthiness of the `config` argument. */
  predicate ArgGiven(arg: ConfigArg) {
    match arg
    case PathArg(path) => path != ""
    case DictArg(d) => d != []
    case NoArg => false
  }

  /** The keys read from a parsed configuration. */
  function FromConfig(parsed: Value): (r: Result<ApiKeys, ConfigError>)
    ensures r.Success? <==>
      && Field(parsed, "buzzsumo", "token").Success?
      && Field(parsed, "crowdtangle", "token").Success?
      && Field(parsed, "crowdtangle", "rate_limit").Success?
      && Field(parsed, "youtube", "key").Success?
      && YoutubeKeys(Field(parsed, "youtube", "key").value).Success?
    ensures r.Success? ==>
      && r.value.buzzsumoToken == Field(parsed, "buzzsumo", "token").value
      && r.value.crowdtangleToken == Field(parsed, "crowdtangle", "token").value
      && r.value.crowdtangleRateLimit == Field(parsed, "crowdtangle", "rate_limit").value
      && r.value.youtubeKey == YoutubeKeys(Field(parsed, "youtube", "key").value).value
  {
    var bz :- Field(parsed, "buzzsumo", "token");
    var ct :- Field(parsed, "crowdtangle", "token");
    var rl :- Field(parsed, "crowdtangle", "rate_limit");
    var yt :- Field(parsed, "youtube", "key");
    var keys :- YoutubeKeys(yt);
    Success(ApiKeys(bz, ct, rl, keys))
  }

  /** An environment variable as `os.environ.get` returns it. */
  function EnvValue(env: map<string, string>, name: string): Value {
    if name in env then Str(env[name]) else Null
  }

  /** The keys read from the environment. */
  function FromEnvironment(env: map<string, string>): (k: ApiKeys)
    ensures k.buzzsumoToken == EnvValue(env, "BUZZSUMO_TOKEN")
    ensures k.crowdtangleToken == EnvValue(env, "CROWDTANGLE_TOKEN")
    ensures k.crowdtangleRateLimit == EnvValue(env, "CROWDTANGLE_RATE_LIMIT")
    ensures "YOUTUBE_KEY" !in env || env["YOUTUBE_KEY"] == "" ==> k.youtubeKey == []
    ensures "YOUTUBE_KEY" in env && env["YOUTUBE_KEY"] != "" ==>
      (forall i :: 0 <= i < |k.youtubeKey| ==> k.youtubeKey[i].Str?) &&
      |k.youtubeKey| >= 1 && PyText.Join(Strings(k.youtubeKey), ',') == env["YOUTUBE_KEY"]
  {
    var yt := if "YOUTUBE_KEY" in env && env["YOUTUBE_KEY"] != "" then YoutubeKeys(Str(env["YOUTUBE_KEY"])).value else [];
    ApiKeys(EnvValue(env, "BUZZSUMO_TOKEN"), EnvValue(env, "CROWDTANGLE_TOKEN"), EnvValue(env, "CROWDTANGLE_RATE_LIMIT"), yt)
  }

  /** `APIKeys(config)`: a file or a dict when one is given, else the
      environment. */
  function NewApiKeys(arg: ConfigArg, parse: FileFormat -> Value, env: map<string, string>): (r: Result<ApiKeys, ConfigError>)
    ensures !ArgGiven(arg) ==> r == Success(FromEnvironment(env))
    ensures arg.DictArg? && ArgGiven(arg) ==> r == FromConfig(Object(arg.d))
    ensures arg.PathArg? && ArgGiven(arg) ==>
      r == if LoadConfigFile(arg.path, parse).Failure? then Failure(OSError) else FromConfig(LoadConfigFile(arg.path, parse).value)
  {
    if ArgGiven(arg) then
      var parsed :- match arg
        case PathArg(path) => LoadConfigFile(path, parse)
        case DictArg(d) => Success(Object(d))
        case NoArg => Success(Null);
      FromConfig(parsed)
    else Success(FromEnvironment(env))
  }

  // ---------------------------------------------------------------------------
  // env_string
  // ---------------------------------------------------------------------------

  /** Python's `repr` of a value. Strings are put between single quotes
      as they are. */
  function Repr(v: Value): string
    decreases v
  {
    match v
    case Null => "None"
    case Bool(b) => if b then "True" else "False"
    case Int(i) => PyText.FormatInt(i)
    case Str(s) => "'" + s + "'"
    case List(items) => "[" + ReprItems(items) + "]"
    case Object(entries) => "{" + ReprEntries(entries) + "}"
  }

  function ReprItems(items: seq<Value>): string
    decreases items
  {
    if |items| == 0 then ""
    else if |items| == 1 then Repr(items[0])
    else Repr(items[0]) + ", " + ReprItems(items[1..])
  }

  function ReprEntries(entries: PyDict.Dict<Value>): string
    decreases entries
  {
    if |entries| == 0 then ""
    else
      var e := entries[0];
      assert e in entries;
      assert e.1 < e;
      var item := "'" + e.0 + "': " + Repr(e.1);
      if |entries| == 1 then item else item + ", " + ReprEntries(entries[1..])
  }

  /** Python's `str` of a value: a string is itself, anything else its
      `repr`. */
  function PyStr(v: Value): string {
    if v.Str? then v.s else Repr(v)
  }

  /** One `NAME=value` line, without its line break. */
  function EnvLine(name: string, value: string): string {
    name + "=" + value
  }

  /** The four lines, in order. */
  function EnvLines(k: ApiKeys): seq<string> {
    [ EnvLine("BUZZSUMO_TOKEN", PyStr(k.buzzsumoToken)),
      EnvLine("CROWDTANGLE_TOKEN", PyStr(k.crowdtangleToken)),
      EnvLine("CROWDTANGLE_RATE_LIMIT", PyStr(k.crowdtangleRateLimit)),
      EnvLine("YOUTUBE_KEY", Repr(List(k.youtubeKey))) ]
  }

  /** `APIKeys.env_string`: the format string with its four fields filled. */
  function EnvString(k: ApiKeys): string {
    EnvLine("BUZZSUMO_TOKEN", PyStr(k.buzzsumoToken)) + "\n" +
    EnvLine("CROWDTANGLE_TOKEN", PyStr(k.crowdtangleToken)) + "\n" +
    EnvLine("CROWDTANGLE_RATE_LIMIT", PyStr(k.crowdtangleRateLimit)) + "\n" +
    EnvLine("YOUTUBE_KEY", Repr(List(k.youtubeKey))) + "\n"
  }

  /** When no value holds a line break, the string splits into exactly the
      four lines and an empty remainder after the final newline. */
  lemma EnvStringLines(k: ApiKeys)
    requires '\n' !in PyStr(k.buzzsumoToken) && '\n' !in PyStr(k.crowdtangleToken)
    requires '\n' !in PyStr(k.crowdtangleRateLimit) && '\n' !in Repr(List(k.youtubeKey))
    ensures PyText.Split(EnvString(k), '\n') == EnvLines(k) + [""]
  {
    var lines := EnvLines(k);
    NoBreak("BUZZSUMO_TOKEN", PyStr(k.buzzsumoToken));
    NoBreak("CROWDTANGLE_TOKEN", PyStr(k.crowdtangleToken));
    NoBreak("CROWDTANGLE_RATE_LIMIT", PyStr(k.crowdtangleRateLimit));
    NoBreak("YOUTUBE_KEY", Repr(List(k.youtubeKey)));
    var parts := [lines[0], lines[1], lines[2], lines[3], ""];
    assert parts == lines + [""];
    JoinLines(lines[0], lines[1], lines[2], lines[3]);
    assert EnvString(k) == lines[0] + "\n" + lines[1] + "\n" + lines[2] + "\n" + lines[3] + "\n";
    PyText.SplitJoin(parts, '\n');
  }

  lemma NoBreak(name: string, value: string)
    requires '\n' !in value
    requires forall i :: 0 <= i < |name| ==> name[i] != '\n'
    ensures '\n' !in EnvLine(name, value)
  {
  }

  lemma JoinLines(a: string, b: string, c: string, d: string)
    ensures PyText.Join([a, b, c, d, ""], '\n') == a + "\n" + b + "\n" + c + "\n" + d + "\n"
  {
    var parts := [a, b, c, d, ""];
    assert parts[1..] == [b, c, d, ""] && parts[2..] == [c, d, ""] && parts[3..] == [d, ""] && parts[4..] == [""];
    assert PyText.Join([d, ""], '\n') == d + "\n";
    assert PyText.Join([c, d, ""], '\n') == c + "\n" + d + "\n";
    assert PyText.Join([b, c, d, ""], '\n') == b + "\n" + c + "\n" + d + "\n";
  }

  // ---------------------------------------------------------------------------
  // parse_env_vars
  // ---------------------------------------------------------------------------

  datatype EnvVars = EnvVars(
    bzOnly: bool,
    bzToken: Option<string>,
    ctToken: Option<string>,
    ctRateLimit: Option<int>,
    ytKeys: seq<string>,
    outdir: Option<string>)

  /** `int()` rejected the rate limit; the source re-raises it as
      `TypeError`. */
  datatype EnvError = RateLimitNotInteger

  /** `config.get(name)` on the map `dotenv_values` returns, where a name
      listed without a value maps to `None`. */
  function DotenvGet(dotenv: map<string, Option<string>>, name: string): Option<string> {
    if name in dotenv then dotenv[name] else None
  }

  /** `parse_env_vars()` on the `.env` map. */
  function ParseEnvVars(dotenv: map<string, Option<string>>): (r: Result<EnvVars, EnvError>)
    ensures var rl := DotenvGet(dotenv, "CROWDTANGLE_RATE_LIMIT");
      r.Success? <==> !PyText.Truthy(rl) || PyText.ParseInt(rl.value).Some?
    ensures r.Success? ==>
      && (r.value.bzOnly <==> DotenvGet(dotenv, "BUZZSUMO_ONLY") == Some("True"))
      && r.value.bzToken == DotenvGet(dotenv, "BUZZSUMO_TOKEN")
      && r.value.ctToken == DotenvGet(dotenv, "CROWDTANGLE_TOKEN")
    ensures r.Success? ==> var rl := DotenvGet(dotenv, "CROWDTANGLE_RATE_LIMIT");
      r.value.ctRateLimit == if PyText.Truthy(rl) then PyText.ParseInt(rl.value) else None
    ensures r.Success? ==> var yt := DotenvGet(dotenv, "YOUTUBE_KEYS");
      if PyText.Truthy(yt) then |r.value.ytKeys| >= 1 && PyText.Join(r.value.ytKeys, ',') == yt.value && (forall i :: 0 <= i < |r.value.ytKeys| ==> ',' !in r.value.ytKeys[i])
      else r.value.ytKeys == []
    ensures r.Success? ==> var out := DotenvGet(dotenv, "OUTPUT_DIR");
      r.value.outdir == if PyText.Truthy(out) then out else None
  {
    var bzOnly := DotenvGet(dotenv, "BUZZSUMO_ONLY") == Some("True");
    var yt := DotenvGet(dotenv, "YOUTUBE_KEYS");
    var ytKeys := if PyText.Truthy(yt) then PyText.Split(yt.value, ',') else [];
    PyText.JoinSplit(yt.GetOr(""), ',');
    var rl := DotenvGet(dotenv, "CROWDTANGLE_RATE_LIMIT");
    var out := DotenvGet(dotenv, "OUTPUT_DIR");
    var outdir := if PyText.Truthy(out) then out else None;
    if PyText.Truthy(rl) && PyText.ParseInt(rl.value).None? then Failure(RateLimitNotInteger)
    else
      var limit := if PyText.Truthy(rl) then PyText.ParseInt(rl.value) else None;
      Success(EnvVars(bzOnly, DotenvGet(dotenv, "BUZZSUMO_TOKEN"), DotenvGet(dotenv, "CROWDTANGLE_TOKEN"), limit, ytKeys, outdir))
  }

  /** A `.env` written with a rate limit as `str(n)` and the keys joined by
      commas reads back as that limit and those keys. */
  lemma EnvVarsRoundTrip(dotenv: map<string, Option<string>>, n: int, keys: seq<string>)
    requires DotenvGet(dotenv, "CROWDTANGLE_RATE_LIMIT") == Some(PyText.FormatInt(n))
    requires |keys| >= 1 && (forall i :: 0 <= i < |keys| ==> ',' !in keys[i])
    requires DotenvGet(dotenv, "YOUTUBE_KEYS") == Some(PyText.Join(keys, ','))
    requires PyText.Join(keys, ',') != ""
    ensures ParseEnvVars(dotenv).Success?
    ensures ParseEnvVars(dotenv).value.ctRateLimit == Some(n)
    ensures ParseEnvVars(dotenv).value.ytKeys == keys
  {
    PyText.ParseFormat(n);
    assert PyText.FormatInt(n) != "";
    PyText.SplitJoin(keys, ',');
  }
}
