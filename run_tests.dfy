/**
 * The test runner's preparation of a pytest run: the argument list it
 * builds from the command-line options and the environment it hands to the
 * child process. The parsed options, the process environment, the working
 * directory, the interpreter path and the report time stamp are inputs;
 * logging set-up, cleaning and creating directories and starting the
 * process are not modelled.
 */
module RunTests {
  import opened Wrappers
  import opened Text
  import Config

  /** The parsed command-line options. */
  datatype Args = Args(
    browser: string,
    headless: bool,
    path: string,
    markers: Option<string>,
    report: bool,
    reportName: Option<string>,
    verbose: bool,
    parallel: int,
    reruns: int,
    logLevel: string,
    tags: Option<string>,
    skipBrowserUpdate: bool,
    clean: bool)

  // ---------------------------------------------------------------------
  // The command

  /** The optional pytest arguments, listed in the order the runner appends them. */
  datatype Flag = Verbose | Markers | Tags | Parallel | Reruns | Html | SelfContained

  function Rank(f: Flag): nat
  {
    match f
    case Verbose => 0
    case Markers => 1
    case Tags => 2
    case Parallel => 3
    case Reruns => 4
    case Html => 5
    case SelfContained => 6
  }

  /** The flag of each rank. */
  function FlagAt(i: nat): (f: Flag)
    requires i < 7
    ensures Rank(f) == i
  {
    [Verbose, Markers, Tags, Parallel, Reruns, Html, SelfContained][i]
  }

  /** Whether the options ask for the flag. */
  predicate Present(args: Args, f: Flag)
  {
    match f
    case Verbose => args.verbose
    case Markers => Truthy(args.markers)
    case Tags => Truthy(args.tags)
    case Parallel => args.parallel > 0
    case Reruns => args.reruns > 0
    case Html => args.report
    case SelfContained => args.report
  }

  /** The report file name: the one given, or one made from the time stamp. */
  function ReportName(args: Args, timestamp: string): string
  {
    if Truthy(args.reportName) then args.reportName.value else "report_" + timestamp + ".html"
  }

  /** `os.path.join("reports", name)` for a relative name: under `reports/`, named as given or after the timestamp. */
  function ReportPath(args: Args, timestamp: string): (path: string)
    ensures |path| >= 8 && path[..8] == "reports/"
    ensures Truthy(args.reportName) ==> path[8..] == args.reportName.value
    ensures !Truthy(args.reportName) ==> path[8..] == "report_" + timestamp + ".html"
  {
    "reports/" + ReportName(args, timestamp)
  }

  /** The arguments a flag contributes: its one argument when asked for, and nothing otherwise. */
  function Segment(args: Args, timestamp: string, f: Flag): seq<string>
  {
    match f
    case Verbose => if args.verbose then ["-v"] else []
    case Markers => if Truthy(args.markers) then ["-m=" + args.markers.value] else []
    case Tags => if Truthy(args.tags) then ["--bdd-tags=" + args.tags.value] else []
    case Parallel => if args.parallel > 0 then ["-n=" + IntToString(args.parallel)] else []
    case Reruns => if args.reruns > 0 then ["--reruns=" + IntToString(args.reruns)] else []
    case Html => if args.report then ["--html=" + ReportPath(args, timestamp)] else []
    case SelfContained => if args.report then ["--self-contained-html"] else []
  }

  /** The arguments of the flags ranked below `n`, in rank order. */
  function OptionsBelow(args: Args, timestamp: string, n: nat): seq<string>
    requires n <= 7
  {
    if n == 0 then [] else OptionsBelow(args, timestamp, n - 1) + Segment(args, timestamp, FlagAt(n - 1))
  }

  /** The optional arguments between `pytest` and the test path. */
  function Options(args: Args, timestamp: string): seq<string>
  {
    Segment(args, timestamp, Verbose) + Segment(args, timestamp, Markers)
    + Segment(args, timestamp, Tags) + Segment(args, timestamp, Parallel)
    + Segment(args, timestamp, Reruns) + Segment(args, timestamp, Html)
    + Segment(args, timestamp, SelfContained)
  }

  /** The whole command: the interpreter running pytest, the options, then the test path. */
  function Command(args: Args, executable: string, timestamp: string): (c: seq<string>)
    ensures |c| == |Options(args, timestamp)| + 4
    ensures c[..3] == [executable, "-m", "pytest"]
    ensures c[3..|c| - 1] == Options(args, timestamp)
    ensures c[|c| - 1] == args.path
  {
    [executable, "-m", "pytest"] + Options(args, timestamp) + [args.path]
  }

  /** The options are the segments of all seven flags in rank order. */
  lemma OptionsInOrder(args: Args, timestamp: string)
    ensures Options(args, timestamp) == OptionsBelow(args, timestamp, 7)
  {
    assert OptionsBelow(args, timestamp, 1) == Segment(args, timestamp, Verbose);
    assert OptionsBelow(args, timestamp, 2) == OptionsBelow(args, timestamp, 1) + Segment(args, timestamp, Markers);
    assert OptionsBelow(args, timestamp, 3) == OptionsBelow(args, timestamp, 2) + Segment(args, timestamp, Tags);
    assert OptionsBelow(args, timestamp, 4) == OptionsBelow(args, timestamp, 3) + Segment(args, timestamp, Parallel);
    assert OptionsBelow(args, timestamp, 5) == OptionsBelow(args, timestamp, 4) + Segment(args, timestamp, Reruns);
    assert OptionsBelow(args, timestamp, 6) == OptionsBelow(args, timestamp, 5) + Segment(args, timestamp, Html);
    assert OptionsBelow(args, timestamp, 7) == OptionsBelow(args, timestamp, 6) + Segment(args, timestamp, SelfContained);
  }

  /** A flag contributes one argument when asked for and none otherwise. */
  lemma SegmentSize(args: Args, timestamp: string, f: Flag)
    ensures |Segment(args, timestamp, f)| == if Present(args, f) then 1 else 0
  {
  }

  /** Which flag an option argument stands for, read from its spelling. */
  function KindOf(arg: string): Option<Flag>
  {
    if arg == "-v" then Some(Verbose)
    else if "-m=" <= arg then Some(Markers)
    else if "--bdd-tags=" <= arg then Some(Tags)
    else if "-n=" <= arg then Some(Parallel)
    else if "--reruns=" <= arg then Some(Reruns)
    else if "--html=" <= arg then Some(Html)
    else if arg == "--self-contained-html" then Some(SelfContained)
    else None
  }

  lemma PrefixOfConcat(p: string, t: string)
    ensures p <= p + t
  {
    assert (p + t)[..|p|] == p;
  }

  /** Every argument a flag contributes is recognisably that flag's. */
  lemma SegmentKind(args: Args, timestamp: string, f: Flag)
    ensures forall arg :: arg in Segment(args, timestamp, f) ==> KindOf(arg) == Some(f)
  {
    SegmentSize(args, timestamp, f);
    if Present(args, f) {
      PresentKind(args, timestamp, f);
    }
  }

  /** Each option spelling, whatever its value, is read back as its flag. */
  lemma KindOfSpellings(v: string)
    ensures KindOf("-m=" + v) == Some(Markers)
    ensures KindOf("--bdd-tags=" + v) == Some(Tags)
    ensures KindOf("-n=" + v) == Some(Parallel)
    ensures KindOf("--reruns=" + v) == Some(Reruns)
    ensures KindOf("--html=" + v) == Some(Html)
  {
    PrefixOfConcat("-m=", v);
    PrefixOfConcat("--bdd-tags=", v);
    PrefixOfConcat("-n=", v);
    PrefixOfConcat("--reruns=", v);
    PrefixOfConcat("--html=", v);
    assert ("--bdd-tags=" + v)[1] == '-';
    assert ("-n=" + v)[1] == 'n';
    assert ("--reruns=" + v)[1] == '-' && ("--reruns=" + v)[2] == 'r';
    assert ("--html=" + v)[1] == '-' && ("--html=" + v)[2] == 'h';
  }

  /** The one argument of a flag that was asked for is read back as that flag. */
  lemma PresentKind(args: Args, timestamp: string, f: Flag)
    requires Present(args, f)
    ensures |Segment(args, timestamp, f)| == 1 && KindOf(Segment(args, timestamp, f)[0]) == Some(f)
  {
    match f
    case Verbose =>
    case Markers => KindOfSpellings(args.markers.value);
    case Tags => KindOfSpellings(args.tags.value);
    case Parallel => KindOfSpellings(IntToString(args.parallel));
    case Reruns => KindOfSpellings(IntToString(args.reruns));
    case Html => KindOfSpellings(ReportPath(args, timestamp));
    case SelfContained =>
      var arg := "--self-contained-html";
      assert arg[1] == '-' && arg[2] == 's';
  }

  /** The segments below `m` are a prefix of those below `n`. */
  lemma {:induction false} OptionsBelowPrefix(args: Args, timestamp: string, m: nat, n: nat)
    requires m <= n <= 7
    ensures OptionsBelow(args, timestamp, m) <= OptionsBelow(args, timestamp, n)
    decreases n
  {
    if m < n {
      OptionsBelowPrefix(args, timestamp, m, n - 1);
      PrefixOfConcatSeq(OptionsBelow(args, timestamp, n - 1), Segment(args, timestamp, FlagAt(n - 1)));
    }
  }

  lemma PrefixOfConcatSeq(p: seq<string>, t: seq<string>)
    ensures p <= p + t
  {
    assert (p + t)[..|p|] == p;
  }

  /** Every argument below rank `n` belongs to a flag of lower rank that the options ask for. */
  lemma {:induction false} OptionsBelowKinds(args: Args, timestamp: string, n: nat)
    requires n <= 7
    ensures forall i :: 0 <= i < |OptionsBelow(args, timestamp, n)| ==>
      var k := KindOf(OptionsBelow(args, timestamp, n)[i]);
      k.Some? && Rank(k.value) < n && Present(args, k.value)
    decreases n
  {
    if n > 0 {
      OptionsBelowKinds(args, timestamp, n - 1);
      SegmentKind(args, timestamp, FlagAt(n - 1));
      SegmentSize(args, timestamp, FlagAt(n - 1));
    }
  }

  /** Where a flag's argument sits among the options: after those of the lower-ranked flags present. */
  function Position(args: Args, timestamp: string, f: Flag): nat
    requires Rank(f) < 7
  {
    |OptionsBelow(args, timestamp, Rank(f))|
  }

  /** A flag that is asked for has its argument at its position. */
  lemma FlagPosition(args: Args, timestamp: string, f: Flag)
    requires Present(args, f)
    ensures Position(args, timestamp, f) < |Options(args, timestamp)|
    ensures Options(args, timestamp)[Position(args, timestamp, f)] == Segment(args, timestamp, f)[0]
  {
    OptionsInOrder(args, timestamp);
    SegmentSize(args, timestamp, f);
    assert FlagAt(Rank(f)) == f;
    OptionsBelowPrefix(args, timestamp, Rank(f) + 1, 7);
  }

  /** The options appear in the fixed order: a lower-ranked flag's argument comes first. */
  lemma FlagOrder(args: Args, timestamp: string, f: Flag, g: Flag)
    requires Present(args, f) && Present(args, g) && Rank(f) < Rank(g)
    ensures Position(args, timestamp, f) < Position(args, timestamp, g)
  {
    SegmentSize(args, timestamp, f);
    assert FlagAt(Rank(f)) == f;
    OptionsBelowPrefix(args, timestamp, Rank(f) + 1, Rank(g));
  }

  /** A flag's argument is among the options exactly when the options ask for the flag. */
  lemma FlagPresence(args: Args, timestamp: string, f: Flag)
    ensures (exists i :: 0 <= i < |Options(args, timestamp)| && KindOf(Options(args, timestamp)[i]) == Some(f))
        <==> Present(args, f)
  {
    OptionsInOrder(args, timestamp);
    OptionsBelowKinds(args, timestamp, 7);
    if Present(args, f) {
      FlagPosition(args, timestamp, f);
      SegmentKind(args, timestamp, f);
      assert KindOf(Options(args, timestamp)[Position(args, timestamp, f)]) == Some(f);
    }
  }

  /** With a report, `--html=<report path>` is immediately followed by `--self-contained-html`. */
  lemma ReportArguments(args: Args, timestamp: string)
    requires args.report
    ensures var o, p := Options(args, timestamp), Position(args, timestamp, Html);
      && p + 1 < |o|
      && o[p] == "--html=" + ReportPath(args, timestamp)
      && o[p + 1] == "--self-contained-html"
  {
    FlagPosition(args, timestamp, Html);
    FlagPosition(args, timestamp, SelfContained);
    assert FlagAt(5) == Html;
    assert Position(args, timestamp, SelfContained) == Position(args, timestamp, Html) + 1;
  }

  /** The worker and rerun counts are written in decimal and, within the digit limit, read back as given. */
  lemma CountsReadBack(args: Args, timestamp: string)
    ensures args.parallel > 0 && WithinDigitLimit(args.parallel) ==> var a := Segment(args, timestamp, Parallel)[0];
      |a| > 3 && a[..3] == "-n=" && ParseInt(a[3..]) == Some(args.parallel)
    ensures args.reruns > 0 && WithinDigitLimit(args.reruns) ==> var a := Segment(args, timestamp, Reruns)[0];
      |a| > 9 && a[..9] == "--reruns=" && ParseInt(a[9..]) == Some(args.reruns)
  {
    if args.parallel > 0 {
      NatToStringDigits(args.parallel);
      var a := Segment(args, timestamp, Parallel)[0];
      assert a[3..] == IntToString(args.parallel);
    }
    if args.reruns > 0 {
      NatToStringDigits(args.reruns);
      var a := Segment(args, timestamp, Reruns)[0];
      assert a[9..] == IntToString(args.reruns);
    }
  }

  // ---------------------------------------------------------------------
  // The environment

  /** `str(args.headless).lower()`: `true` or `false`. */
  function HeadlessText(headless: bool): (text: string)
    ensures text == if headless then "true" else "false"
  {
    var t := Lower(if headless then "True" else "False");
    if headless then
      assert t[0] == 't' && t[1] == 'r' && t[2] == 'u' && t[3] == 'e';
      t
    else
      assert t[0] == 'f' && t[1] == 'a' && t[2] == 'l' && t[3] == 's' && t[4] == 'e';
      t
  }

  /**
   * The child's environment: a copy of the process environment in which the
   * child sees the runner's browser and headless mode, the working directory
   * on PYTHONPATH, the driver-manager switches at "0" only when asked to skip
   * updates, and every other variable as it was.
   */
  function ChildEnvironment(args: Args, environ: Config.Environ, cwd: string): (env: Config.Environ)
    ensures env.Keys == environ.Keys + {"BROWSER", "HEADLESS", "PYTHONPATH"}
                        + (if args.skipBrowserUpdate then {"WDM_PROGRESS_BAR", "WDM_LOG_LEVEL"} else {})
    ensures && env["BROWSER"] == args.browser
            && env["HEADLESS"] == (if args.headless then "true" else "false")
            && env["PYTHONPATH"] == cwd
            && (args.skipBrowserUpdate ==> env["WDM_PROGRESS_BAR"] == "0" && env["WDM_LOG_LEVEL"] == "0")
    ensures forall k :: (k !in {"BROWSER", "HEADLESS", "PYTHONPATH"}
                         && (args.skipBrowserUpdate ==> k !in {"WDM_PROGRESS_BAR", "WDM_LOG_LEVEL"})) ==>
              (k in env <==> k in environ) && (k in env ==> env[k] == environ[k])
  {
    var env := environ["BROWSER" := args.browser]["HEADLESS" := HeadlessText(args.headless)];
    var env := if args.skipBrowserUpdate then env["WDM_PROGRESS_BAR" := "0"]["WDM_LOG_LEVEL" := "0"] else env;
    env["PYTHONPATH" := cwd]
  }

  /** Read back through the configuration rules, the child runs the browser and mode asked for. */
  lemma ChildSeesSettings(args: Args, environ: Config.Environ, cwd: string)
    ensures Config.Browser(ChildEnvironment(args, environ, cwd)) == args.browser
    ensures Config.Headless(ChildEnvironment(args, environ, cwd)) == args.headless
  {
    var h := if args.headless then "true" else "false";
    LowerOfLower(h);
    assert h == "true" <==> args.headless;
  }

  // ---------------------------------------------------------------------
  // run_tests

  /** Regrouping the seven segments after the command's head, stated once so the command build does not rediscover it. */
  lemma Regroup(start: seq<string>, s1: seq<string>, s2: seq<string>, s3: seq<string>, s4: seq<string>,
                s5: seq<string>, s6: seq<string>, s7: seq<string>)
    ensures start + s1 + s2 + s3 + s4 + s5 + s6 + s7 == start + (s1 + s2 + s3 + s4 + s5 + s6 + s7)
  {
  }

  /** The first half of run_tests: a copy of the process environment, updated entry by entry. */
  method BuildEnvironment(args: Args, environ: Config.Environ, cwd: string) returns (env: Config.Environ)
    ensures env == ChildEnvironment(args, environ, cwd)
  {
    env := environ;
    env := env["BROWSER" := args.browser];
    env := env["HEADLESS" := HeadlessText(args.headless)];
    if args.skipBrowserUpdate {
      env := env["WDM_PROGRESS_BAR" := "0"];
      env := env["WDM_LOG_LEVEL" := "0"];
    }
    env := env["PYTHONPATH" := cwd];
  }

  /** The command of run_tests, grown by appends. */
  method BuildCommand(args: Args, executable: string, timestamp: string) returns (cmd: seq<string>)
    ensures cmd == Command(args, executable, timestamp)
  {
    // Each optional argument is appended exactly when its option is set.
    cmd := [executable, "-m", "pytest"];
    ghost var start := cmd;
    cmd := cmd + (if args.verbose then ["-v"] else []);
    assert cmd == start + Segment(args, timestamp, Verbose);
    cmd := cmd + (if Truthy(args.markers) then ["-m=" + args.markers.value] else []);
    assert cmd == start + Segment(args, timestamp, Verbose) + Segment(args, timestamp, Markers);
    cmd := cmd + (if Truthy(args.tags) then ["--bdd-tags=" + args.tags.value] else []);
    cmd := cmd + (if args.parallel > 0 then ["-n=" + IntToString(args.parallel)] else []);
    cmd := cmd + (if args.reruns > 0 then ["--reruns=" + IntToString(args.reruns)] else []);
    assert cmd == start + Segment(args, timestamp, Verbose) + Segment(args, timestamp, Markers)
      + Segment(args, timestamp, Tags) + Segment(args, timestamp, Parallel) + Segment(args, timestamp, Reruns);
    ghost var before := cmd;
    if args.report {
      var reportName := if Truthy(args.reportName) then args.reportName.value else "report_" + timestamp + ".html";
      var reportPath := "reports/" + reportName;
      assert reportPath == ReportPath(args, timestamp);
      cmd := cmd + ["--html=" + reportPath];
      cmd := cmd + ["--self-contained-html"];
    }
    assert cmd == before + Segment(args, timestamp, Html) + Segment(args, timestamp, SelfContained);
    Regroup([executable, "-m", "pytest"],
      Segment(args, timestamp, Verbose), Segment(args, timestamp, Markers), Segment(args, timestamp, Tags),
      Segment(args, timestamp, Parallel), Segment(args, timestamp, Reruns), Segment(args, timestamp, Html),
      Segment(args, timestamp, SelfContained));
    cmd := cmd + [args.path];
  }

  /** run_tests up to the start of the child process: the environment first, then the command. */
  method PrepareRun(args: Args, environ: Config.Environ, cwd: string, executable: string, timestamp: string)
    returns (cmd: seq<string>, env: Config.Environ)
    ensures cmd == Command(args, executable, timestamp)
    ensures env == ChildEnvironment(args, environ, cwd)
  {
    env := BuildEnvironment(args, environ, cwd);
    cmd := BuildCommand(args, executable, timestamp);
  }
}
