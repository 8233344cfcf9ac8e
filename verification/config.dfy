/**
 * Where the checker finds the address of the Tavily MCP server and the test
 * input. The process environment is a map and the local config file is given
 * by what reading it produced.
 */
module Config {
  import opened Wrappers
  import opened Text
  import opened Json

  const DefaultConfigPath := "config.local.json"
  const UrlVariable := "TAVILY_MCP_URL"
  const MissingUrl := "Missing Tavily MCP URL"

  type Env = map<string, string>

  /** The local config file: not there, there but unreadable or not JSON, or decoded. */
  datatype ConfigFile = Absent | Unreadable | Parsed(value: Json)

  datatype AppConfig = AppConfig(mcpUrl: string, testTxtPath: string)

  /** Python truth of an optional string. */
  predicate Given(v: Option<string>) { v.Some? && v.value != [] }

  /** A non-empty value of the variable in the environment. */
  function EnvValue(env: Env, name: string): Option<string> {
    if name in env && env[name] != [] then Some(env[name]) else None
  }

  /** The file's URL entry, when the file decodes to an object whose entry is a string. */
  function FileValue(configPath: string, file: ConfigFile): Option<string> {
    if configPath == [] then None
    else match file
      case Parsed(Obj(members)) =>
        (match Get(members, UrlVariable)
         case Some(Str(url)) => Some(url)
         case _ => None)
      case _ => None
  }

  /** `load_mcp_url`: the command line, else the environment, else the config file. */
  function LoadMcpUrl(cli: Option<string>, env: Env, configPath: string, file: ConfigFile): (r: Option<string>)
    ensures r.Some? ==> IsStripped(r.value)
    ensures Given(cli) ==> r == Some(Strip(cli.value))
    ensures !Given(cli) && EnvValue(env, UrlVariable).Some? ==> r == Some(Strip(env[UrlVariable]))
    ensures !Given(cli) && EnvValue(env, UrlVariable).None? ==> r == if FileValue(configPath, file).Some? then Some(Strip(FileValue(configPath, file).value)) else None
  {
    if Given(cli) then Some(Strip(cli.value))
    else match EnvValue(env, UrlVariable)
      case Some(url) => Some(Strip(url))
      case None =>
        match FileValue(configPath, file)
        case Some(url) => Some(Strip(url))
        case None => None
  }

  /** There is a URL exactly when some source supplies one. */
  lemma LoadMcpUrlNone(cli: Option<string>, env: Env, configPath: string, file: ConfigFile)
    ensures LoadMcpUrl(cli, env, configPath, file).None? <==>
      !Given(cli) && EnvValue(env, UrlVariable).None? && FileValue(configPath, file).None?
  {
  }

  /** A URL that was found, given again on the command line, is found unchanged. */
  lemma LoadMcpUrlStable(cli: Option<string>, env: Env, configPath: string, file: ConfigFile, env2: Env, file2: ConfigFile)
    requires Given(LoadMcpUrl(cli, env, configPath, file))
    ensures LoadMcpUrl(LoadMcpUrl(cli, env, configPath, file), env2, configPath, file2) == LoadMcpUrl(cli, env, configPath, file)
  {
  }

  /** A read or decoding failure of the file is the same as having no file. */
  lemma UnreadableIsAbsent(cli: Option<string>, env: Env, configPath: string)
    ensures LoadMcpUrl(cli, env, configPath, Unreadable) == LoadMcpUrl(cli, env, configPath, Absent)
  {
  }

  /** `build_config`: a URL is required; the test file is the argument, else `TEST_TXT`, else "test.txt". */
  function BuildConfig(cli: Option<string>, env: Env, configPath: string, file: ConfigFile, testTxtPath: Option<string>)
    : (r: Result<AppConfig, string>)
    ensures r.Err? <==> !Given(LoadMcpUrl(cli, env, configPath, file))
    ensures r.Err? ==> r.error == MissingUrl
    ensures r.Ok? ==> r.value.mcpUrl == LoadMcpUrl(cli, env, configPath, file).value && r.value.mcpUrl != []
    ensures r.Ok? && Given(testTxtPath) ==> r.value.testTxtPath == testTxtPath.value
    ensures r.Ok? && !Given(testTxtPath) ==>
      r.value.testTxtPath == if "TEST_TXT" in env then env["TEST_TXT"] else "test.txt"
  {
    var url := LoadMcpUrl(cli, env, configPath, file);
    if !Given(url) then Err(MissingUrl)
    else
      var testTxt := if Given(testTxtPath) then testTxtPath.value
        else if "TEST_TXT" in env then env["TEST_TXT"] else "test.txt";
      Ok(AppConfig(url.value, testTxt))
  }

  /**
   * A command-line value made only of whitespace still takes precedence: the
   * environment and the file are not consulted, it strips to nothing, and the
   * configuration is refused.
   */
  lemma BlankCliRefused(env: Env, configPath: string, file: ConfigFile)
    ensures LoadMcpUrl(Some(" "), env, configPath, file) == Some("")
    ensures BuildConfig(Some(" "), env, configPath, file, None).Err?
  {
    assert Strip(" ") == [] by {
      assert IsSpace(' ');
    }
  }
}
