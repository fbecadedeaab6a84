/**
 * DriverFactory.get_driver: picks the browser by its case-insensitive name,
 * fills a fresh options object with that browser's ordered argument list,
 * and configures the new driver (implicit wait, window maximised except on
 * Firefox). Starting the real browser is abstracted: a Driver records what
 * it was started with and what was done to it since.
 */
module DriverFactory {
  import opened Wrappers
  import opened Text

  datatype BrowserKind = Chrome | Firefox | Edge

  /** The lower-case name each branch compares with. */
  function Name(kind: BrowserKind): string
  {
    match kind
    case Chrome => "chrome"
    case Firefox => "firefox"
    case Edge => "edge"
  }

  /**
   * The dispatch on `BROWSER.lower()`, in the order the branches test it: a
   * browser is selected exactly when the lowered name is one of the three, and
   * it is the one of that name.
   */
  function ParseBrowser(browser: string): (kind: Option<BrowserKind>)
    ensures kind.Some? <==> Lower(browser) in {"chrome", "firefox", "edge"}
    ensures kind.Some? ==> Name(kind.value) == Lower(browser)
  {
    var name := Lower(browser);
    if name == "chrome" then Some(Chrome)
    else if name == "firefox" then Some(Firefox)
    else if name == "edge" then Some(Edge)
    else None
  }

  /** The browser name is read without regard to letter case. */
  lemma ParseBrowserIgnoresCase(browser: string)
    ensures ParseBrowser(browser) == ParseBrowser(Lower(browser))
  {
    LowerIdempotent(browser);
  }

  /** Mixed-case spellings select the browser; any other name is unsupported. */
  lemma ParseBrowserExamples()
    ensures ParseBrowser("Chrome") == Some(Chrome)
    ensures ParseBrowser("FireFox") == Some(Firefox)
    ensures ParseBrowser("safari") == None
  {
    var c := Lower("Chrome");
    assert c[0] == 'c' && c[1] == 'h' && c[2] == 'r' && c[3] == 'o' && c[4] == 'm' && c[5] == 'e';
    var f := Lower("FireFox");
    assert f[0] == 'f' && f[1] == 'i' && f[2] == 'r' && f[3] == 'e' && f[4] == 'f' && f[5] == 'o' && f[6] == 'x';
    var s := Lower("safari");
    assert |s| == 6 && s[0] == 's';
  }

  /** The headless switch each browser takes. */
  function HeadlessArgument(kind: BrowserKind): string
  {
    if kind == Chrome then "--headless=new" else "--headless"
  }

  /** The arguments added in every run, after the headless switch. */
  function FixedArguments(kind: BrowserKind): seq<string>
  {
    match kind
    case Chrome => ["--no-sandbox", "--disable-dev-shm-usage", "--disable-extensions",
                   "--start-maximized", "--disable-gpu"]
    case Firefox => ["--width=1920", "--height=1080"]
    case Edge => ["--start-maximized"]
  }

  /**
   * The whole argument list of a browser's options object: the headless
   * switch first exactly in headless mode, and the browser's fixed arguments
   * in order after it.
   */
  function ExpectedArguments(kind: BrowserKind, headless: bool): (args: seq<string>)
    ensures |args| == |FixedArguments(kind)| + (if headless then 1 else 0)
    ensures HeadlessArgument(kind) in args <==> headless
    ensures headless ==> args[0] == HeadlessArgument(kind)
    ensures args[|args| - |FixedArguments(kind)|..] == FixedArguments(kind)
  {
    (if headless then [HeadlessArgument(kind)] else []) + FixedArguments(kind)
  }

  /** Chrome alone gets an experimental option, which keeps its driver log quiet. */
  function ExpectedExperimental(kind: BrowserKind): map<string, seq<string>>
  {
    if kind == Chrome then map["excludeSwitches" := ["enable-logging"]] else map[]
  }

  /** Every browser but Firefox has its window maximised once started. */
  predicate Maximizes(kind: BrowserKind)
  {
    kind != Firefox
  }

  /** Headless mode adds exactly its switch, in front, and nothing else. */
  lemma HeadlessOnlyPrependsSwitch(kind: BrowserKind)
    ensures ExpectedArguments(kind, true) == [HeadlessArgument(kind)] + ExpectedArguments(kind, false)
    ensures HeadlessArgument(kind) !in ExpectedArguments(kind, false)
  {
  }

  /** No argument is given twice. */
  lemma ArgumentsDistinct(kind: BrowserKind, headless: bool)
    ensures var a := ExpectedArguments(kind, headless);
      forall i, j :: 0 <= i < j < |a| ==> a[i] != a[j]
  {
    var a := ExpectedArguments(kind, headless);
    if headless {
      assert a == [HeadlessArgument(kind)] + FixedArguments(kind);
    } else {
      assert a == FixedArguments(kind);
    }
  }

  /**
   * The browsers asked to start maximised by an argument are exactly those
   * whose window is maximised afterwards; Firefox is sized by width and height instead.
   */
  lemma MaximisedConsistently(kind: BrowserKind, headless: bool)
    ensures "--start-maximized" in ExpectedArguments(kind, headless) <==> Maximizes(kind)
    ensures "--width=1920" in ExpectedArguments(kind, headless) <==> kind == Firefox
  {
    var a := ExpectedArguments(kind, headless);
    if kind == Firefox {
      assert a == (if headless then ["--headless"] else []) + ["--width=1920", "--height=1080"];
      assert "--start-maximized" !in a;
    } else {
      assert "--start-maximized" in FixedArguments(kind);
      assert a[|a| - |FixedArguments(kind)|..] == FixedArguments(kind);
      assert "--width=1920" !in a;
    }
  }

  /** A browser's options object: the arguments added so far, in order, and the experimental options. */
  class BrowserOptions {
    var arguments: seq<string>
    var experimentalOptions: map<string, seq<string>>

    constructor()
      ensures arguments == [] && experimentalOptions == map[]
    {
      arguments := [];
      experimentalOptions := map[];
    }

    /** `add_argument` */
    method AddArgument(argument: string)
      modifies this
      ensures arguments == old(arguments) + [argument]
      ensures experimentalOptions == old(experimentalOptions)
    {
      arguments := arguments + [argument];
    }

    /** `add_experimental_option` */
    method AddExperimentalOption(name: string, value: seq<string>)
      modifies this
      ensures experimentalOptions == old(experimentalOptions)[name := value]
      ensures arguments == old(arguments)
    {
      experimentalOptions := experimentalOptions[name := value];
    }
  }

  /** A started browser: how it was started, its implicit wait, and whether its window was maximised. */
  class Driver {
    const kind: BrowserKind
    const arguments: seq<string>
    const experimentalOptions: map<string, seq<string>>
    var implicitWait: Option<int>
    var maximized: bool

    constructor(kind: BrowserKind, options: BrowserOptions)
      ensures this.kind == kind
      ensures arguments == options.arguments && experimentalOptions == options.experimentalOptions
      ensures implicitWait.None? && !maximized
    {
      this.kind := kind;
      arguments := options.arguments;
      experimentalOptions := options.experimentalOptions;
      implicitWait := None;
      maximized := false;
    }

    /** `implicitly_wait` */
    method ImplicitlyWait(seconds: int)
      modifies this
      ensures implicitWait == Some(seconds) && maximized == old(maximized)
    {
      implicitWait := Some(seconds);
    }

    /** `maximize_window` */
    method MaximizeWindow()
      modifies this
      ensures maximized && implicitWait == old(implicitWait)
    {
      maximized := true;
    }
  }

  /** What `get_driver` gives back: a configured driver, or the ValueError it raises. */
  datatype Launch = Launched(driver: Driver) | Unsupported(message: string)

  /** The state a supported browser's driver is left in. */
  predicate Configured(d: Driver, kind: BrowserKind, headless: bool, implicitWait: int)
    reads d
  {
    && d.kind == kind
    && d.arguments == ExpectedArguments(kind, headless)
    && d.experimentalOptions == ExpectedExperimental(kind)
    && d.implicitWait == Some(implicitWait)
    && d.maximized == Maximizes(kind)
  }

  /**
   * get_driver, with BROWSER, HEADLESS and IMPLICIT_WAIT as parameters: a new
   * driver for a supported browser, configured as above; for any other name,
   * the error and no driver.
   */
  method GetDriver(browser: string, headless: bool, implicitWait: int) returns (r: Launch)
    ensures ParseBrowser(browser).None? ==> r == Unsupported("Unsupported browser: " + browser)
    ensures ParseBrowser(browser).Some? ==>
      r.Launched? && fresh(r.driver) && Configured(r.driver, ParseBrowser(browser).value, headless, implicitWait)
  {
    var name := Lower(browser);
    var kind: BrowserKind;
    var options: BrowserOptions;
    if name == "chrome" {
      kind := Chrome;
      options := new BrowserOptions();
      if headless {
        options.AddArgument("--headless=new");
      }
      options.AddArgument("--no-sandbox");
      options.AddArgument("--disable-dev-shm-usage");
      options.AddArgument("--disable-extensions");
      options.AddArgument("--start-maximized");
      options.AddArgument("--disable-gpu");
      options.AddExperimentalOption("excludeSwitches", ["enable-logging"]);
      assert options.arguments == ExpectedArguments(Chrome, headless);
    } else if name == "firefox" {
      kind := Firefox;
      options := new BrowserOptions();
      if headless {
        options.AddArgument("--headless");
      }
      options.AddArgument("--width=1920");
      options.AddArgument("--height=1080");
      assert options.arguments == ExpectedArguments(Firefox, headless);
    } else if name == "edge" {
      kind := Edge;
      options := new BrowserOptions();
      if headless {
        options.AddArgument("--headless");
      }
      options.AddArgument("--start-maximized");
      assert options.arguments == ExpectedArguments(Edge, headless);
    } else {
      return Unsupported("Unsupported browser: " + browser);
    }
    assert options.arguments == ExpectedArguments(kind, headless);
    var driver := new Driver(kind, options);
    driver.ImplicitlyWait(implicitWait);
    if name != "firefox" {
      driver.MaximizeWindow();
    }
    return Launched(driver);
  }
}
