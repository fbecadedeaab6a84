/**
 * The harness configuration: settings read from the process environment
 * with their defaults, the environment-to-URL table, and the test data that
 * scenario steps refer to. The process environment is an input map.
 */
module Config {
  import opened Wrappers
  import opened Text

  type Environ = map<string, string>

  /** Data set name -> key -> value, like TEST_DATA. */
  type TestTable = map<string, map<string, string>>

  /** `os.environ.get(key, default)` */
  function Get(environ: Environ, key: string, default: string): string
  {
    if key in environ then environ[key] else default
  }

  datatype Environment = Environment(baseUrl: string)

  const ProdUrl: string := "http://the-internet.herokuapp.com"

  /** ENVIRONMENTS */
  const Environments: map<string, Environment> := map[
    "prod" := Environment(ProdUrl),
    "staging" := Environment("http://staging-the-internet.herokuapp.com"),
    "dev" := Environment("http://dev-the-internet.herokuapp.com")
  ]

  /** TEST_DATA */
  const TestData: TestTable := map[
    "valid_user" := map["username" := "tomsmith", "password" := "SuperSecretPassword!"],
    "invalid_user" := map["username" := "invalid_user", "password" := "invalid_password"]
  ]

  /** VALID_USERNAME and VALID_PASSWORD, kept for backward compatibility. */
  const ValidUsername: string := TestData["valid_user"]["username"]
  const ValidPassword: string := TestData["valid_user"]["password"]

  lemma ValidCredentials()
    ensures ValidUsername == "tomsmith" && ValidPassword == "SuperSecretPassword!"
    ensures "error_messages" !in TestData
  {
  }

  /** BROWSER: the variable as given, `chrome` when unset. */
  function Browser(environ: Environ): (browser: string)
    ensures "BROWSER" in environ ==> browser == environ["BROWSER"]
    ensures "BROWSER" !in environ ==> browser == "chrome"
  {
    Get(environ, "BROWSER", "chrome")
  }

  /**
   * HEADLESS: the variable, lower-cased, compared with `true`; the default is
   * `False`. Headless mode is on exactly when the variable is set and reads
   * `true` in any letter case.
   */
  function Headless(environ: Environ): (on: bool)
    ensures on <==> "HEADLESS" in environ && Lower(environ["HEADLESS"]) == "true"
  {
    assert |Lower("False")| != |"true"|;
    Lower(Get(environ, "HEADLESS", "False")) == "true"
  }

  /** ENV: `prod` when unset. */
  function EnvName(environ: Environ): (name: string)
    ensures "ENV" in environ ==> name == environ["ENV"]
    ensures "ENV" !in environ ==> name == "prod"
  {
    Get(environ, "ENV", "prod")
  }

  /** BASE_URL: the named environment's URL, falling back to the `prod` one. */
  function BaseUrl(envName: string): (url: string)
    ensures envName in Environments ==> url == Environments[envName].baseUrl
    ensures envName !in Environments ==> url == ProdUrl
  {
    (if envName in Environments then Environments[envName] else Environments["prod"]).baseUrl
  }

  /** Whatever ENV says, the base URL is one of the three known ones. */
  lemma BaseUrlIsKnown(envName: string)
    ensures BaseUrl(envName) in {ProdUrl, "http://staging-the-internet.herokuapp.com",
                                 "http://dev-the-internet.herokuapp.com"}
    ensures envName == "staging" ==> BaseUrl(envName) == "http://staging-the-internet.herokuapp.com"
    ensures envName == "dev" ==> BaseUrl(envName) == "http://dev-the-internet.herokuapp.com"
  {
  }

  /** LOGIN_URL */
  function LoginUrl(baseUrl: string): (url: string)
    ensures |url| == |baseUrl| + 6 && url[..|baseUrl|] == baseUrl && url[|baseUrl|..] == "/login"
  {
    baseUrl + "/login"
  }

  /** `int(os.environ.get(key, default))`: None stands for the ValueError raised at import. */
  function IntSetting(environ: Environ, key: string, default: int): (r: Option<int>)
    ensures key !in environ ==> r == Some(default)
    ensures key in environ ==> r == ParseInt(environ[key])
  {
    if key in environ then ParseInt(environ[key]) else Some(default)
  }

  predicate BadInteger(environ: Environ, key: string)
  {
    key in environ && ParseInt(environ[key]).None?
  }

  datatype Settings = Settings(
    browser: string,
    headless: bool,
    env: string,
    baseUrl: string,
    loginUrl: string,
    implicitWait: int,
    explicitWait: int,
    maxRetries: int,
    retryDelay: int,
    logLevel: string)

  /** The module-level settings, as importing config/config.py computes them. */
  function Load(environ: Environ): (r: Option<Settings>)
    ensures r.None? <==>
      BadInteger(environ, "IMPLICIT_WAIT") || BadInteger(environ, "EXPLICIT_WAIT")
      || BadInteger(environ, "MAX_RETRIES") || BadInteger(environ, "RETRY_DELAY")
  {
    var implicitWait := IntSetting(environ, "IMPLICIT_WAIT", 10);
    var explicitWait := IntSetting(environ, "EXPLICIT_WAIT", 20);
    var maxRetries := IntSetting(environ, "MAX_RETRIES", 3);
    var retryDelay := IntSetting(environ, "RETRY_DELAY", 2);
    if implicitWait.None? || explicitWait.None? || maxRetries.None? || retryDelay.None? then None
    else
      var baseUrl := BaseUrl(EnvName(environ));
      Some(Settings(
        Browser(environ), Headless(environ), EnvName(environ), baseUrl, LoginUrl(baseUrl),
        implicitWait.value, explicitWait.value, maxRetries.value, retryDelay.value,
        Get(environ, "LOG_LEVEL", "INFO")))
  }

  /** With nothing set, every setting takes its default. */
  lemma LoadDefaults()
    ensures Load(map[]) == Some(Settings("chrome", false, "prod", ProdUrl, ProdUrl + "/login",
                                         10, 20, 3, 2, "INFO"))
  {
  }

  /** A loaded configuration always has a known base URL and the login page under it. */
  lemma LoadedUrls(environ: Environ)
    requires Load(environ).Some?
    ensures var s := Load(environ).value;
      && s.env == EnvName(environ)
      && s.baseUrl == BaseUrl(s.env)
      && s.loginUrl == s.baseUrl + "/login"
      && (s.env !in Environments ==> s.baseUrl == ProdUrl)
  {
  }

  /**
   * A numeric setting written as `str(n)` is taken as written; a load that
   * succeeds had it within the digit limit.
   */
  lemma LoadReadsIntegers(environ: Environ, n: int)
    requires "IMPLICIT_WAIT" in environ && environ["IMPLICIT_WAIT"] == IntToString(n)
    requires Load(environ).Some?
    ensures WithinDigitLimit(n)
    ensures Load(environ).value.implicitWait == n
  {
  }

  /** An integer setting with more digits than `int()` accepts makes loading fail. */
  lemma LoadRejectsLongIntegers(environ: Environ, key: string)
    requires key in {"IMPLICIT_WAIT", "EXPLICIT_WAIT", "MAX_RETRIES", "RETRY_DELAY"}
    requires key in environ && DigitLength(environ[key]) > MaxStrDigits
    ensures Load(environ) == None
  {
  }

  /**
   * Every field of a loaded configuration: a string setting is the variable
   * when set and its default otherwise; an integer setting is the number the
   * variable reads as when set and its default otherwise.
   */
  lemma LoadFields(environ: Environ)
    requires Load(environ).Some?
    ensures var s := Load(environ).value;
      && ("BROWSER" in environ ==> s.browser == environ["BROWSER"])
      && ("BROWSER" !in environ ==> s.browser == "chrome")
      && (s.headless <==> "HEADLESS" in environ && Lower(environ["HEADLESS"]) == "true")
      && ("ENV" in environ ==> s.env == environ["ENV"])
      && ("ENV" !in environ ==> s.env == "prod")
      && ("LOG_LEVEL" in environ ==> s.logLevel == environ["LOG_LEVEL"])
      && ("LOG_LEVEL" !in environ ==> s.logLevel == "INFO")
    ensures var s := Load(environ).value;
      && ("IMPLICIT_WAIT" in environ ==> ParseInt(environ["IMPLICIT_WAIT"]) == Some(s.implicitWait))
      && ("IMPLICIT_WAIT" !in environ ==> s.implicitWait == 10)
      && ("EXPLICIT_WAIT" in environ ==> ParseInt(environ["EXPLICIT_WAIT"]) == Some(s.explicitWait))
      && ("EXPLICIT_WAIT" !in environ ==> s.explicitWait == 20)
      && ("MAX_RETRIES" in environ ==> ParseInt(environ["MAX_RETRIES"]) == Some(s.maxRetries))
      && ("MAX_RETRIES" !in environ ==> s.maxRetries == 3)
      && ("RETRY_DELAY" in environ ==> ParseInt(environ["RETRY_DELAY"]) == Some(s.retryDelay))
      && ("RETRY_DELAY" !in environ ==> s.retryDelay == 2)
  {
  }

  /**
   * get_test_data: the JSON file's contents when a file name is given and the
   * file exists, otherwise TEST_DATA. The existence test and the JSON read are
   * parameters.
   */
  function GetTestData(dataFile: Option<string>, fileExists: string -> bool,
                       readJson: string -> TestTable): (r: TestTable)
    ensures !Truthy(dataFile) ==> r == TestData
    ensures Truthy(dataFile) && !fileExists(dataFile.value) ==> r == TestData
    ensures Truthy(dataFile) && fileExists(dataFile.value) ==> r == readJson(dataFile.value)
  {
    if Truthy(dataFile) && fileExists(dataFile.value) then readJson(dataFile.value) else TestData
  }
}
