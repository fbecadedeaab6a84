# A verified model of the pytest-bdd/Selenium login test harness

The harness drives a browser through a login page under pytest-bdd. This
project models the parts of it that compute something, and proves what they
promise. Nothing of the browser itself is modelled.

- **Helpers** (`utils/helpers.py`):
  - `wait_for` polls a condition until it is truthy or a deadline passes.
  - `retry` re-calls a failing operation with geometric backoff.
  - `is_valid_email` matches an e-mail pattern.
  - `generate_random_string` draws characters from a chosen set.
  - The wall clock, the condition's results, the operation's outcomes and
    `random.choice` are inputs. Every call and every sleep is recorded in a
    trace of `Call` / `Sleep(seconds)` events.
- **Config** (`config/config.py`): settings read from the process
  environment with their defaults, the environment-to-URL table, `TEST_DATA`,
  and the fallback of `get_test_data`. A bad integer setting is `None`,
  standing for the ValueError raised on import.
- **LoginSteps** (`features/steps/login_steps.py`):
  - the `$dataset.key` test-data reference rule shared by the username,
    password and expected-text steps;
  - the lines the username and password steps log, including the password
    mask;
  - when the two checking steps pass or fail, and with which message.
- **RunTests** (`run_tests.py`): the pytest command line and the child
  environment that `run_tests` builds from the parsed arguments.
  `PrepareRun` builds both step by step, as the source does. It is proved
  equal to the functions `Command` and `ChildEnvironment`, about which the
  properties are proved:
  - options in a fixed order;
  - each present exactly when asked for;
  - the report arguments adjacent;
  - the counts read back;
  - the child reads back the browser and the headless mode.
- **DriverFactory** (`utils/driver_factory.py`): the case-insensitive
  dispatch on the browser name. A fresh options object receives ordered
  `add_argument` calls. The new driver then gets its implicit wait and, except
  on Firefox, a maximised window. `BrowserOptions` and `Driver` are classes
  whose methods update their fields.
- **Text** and **Wrappers**: the Python string behaviour the rest relies on
  (`lower()`, `str(int)`, `int(str)`, `split`, `join`, `in`) and `Option`.

`wait_for` checks the deadline before the first call, so with
`timeout <= 0` (and a clock that does not run backwards) the condition is
never called and TimeoutError is raised (`utils/helpers.py:32`).
`Helpers.WaitFor` states that. A negative sleep length makes `time.sleep`
raise ValueError; `wait_for` (negative poll frequency) and `retry` (negative
backoff sleep) let it through, and the model has an outcome for it. The
error `time.sleep` raises for a very long sleep is not modelled (see
"## Left out").

## Model

| member | source | states |
|---|---|---|
| Text.Lower | config/config.py:18 | `lower()` keeps the length and lowers each character |
| Text.LowerIdempotent | utils/driver_factory.py:25 | lowering an already lowered name changes nothing |
| Text.ParseInt | config/config.py:57 | `int(s)` succeeds exactly on one or more decimal digits, optionally after a `+` or `-`, and no more than 4300 of them; it reads them as that signed number |
| Text.IntToString | run_tests.py:96-97 | `str(n)` is one canonical decimal: digits without a leading zero (only `0` itself starts with one), after a `-` for negatives; within 4300 digits `int(str(n)) == n` |
| Text.IntToStringInjective | run_tests.py:96-101 | distinct integers render differently |
| Text.Split | features/steps/login_steps.py:33 | `split('.')` has one more part than there are dots, none containing a dot |
| Text.JoinSplit | features/steps/login_steps.py:33 | joining the parts of a split gives back the string |
| Text.SplitJoin | features/steps/login_steps.py:33-35 | splitting a join of dot-free parts gives back the parts |
| Text.ContainsIffOccurs | features/steps/login_steps.py:129 | `needle in hay` holds exactly when the needle occurs at some position |
| Config.ValidCredentials | config/config.py:41-54 | VALID_USERNAME and VALID_PASSWORD are the valid_user entries; there is no error_messages data set |
| Config.Browser | config/config.py:17 | BROWSER is the variable when set and `chrome` otherwise |
| Config.Headless | config/config.py:18 | HEADLESS is on exactly when the variable is set and lowers to `true`; unset means off |
| Config.EnvName | config/config.py:21 | ENV is the variable when set and `prod` otherwise |
| Config.IntSetting | config/config.py:57-62 | an integer setting is its default when unset and what `int()` makes of the variable when set |
| Config.BaseUrl | config/config.py:37 | a known environment gives its URL, any other name the prod URL |
| Config.BaseUrlIsKnown | config/config.py:24-37 | the base URL is always one of the three listed, staging and dev give theirs |
| Config.LoginUrl | config/config.py:38 | the login URL is the base URL followed by `/login` |
| Config.Load | config/config.py:17-65 | loading fails exactly when one of the four integer settings is present and `int()` rejects it, past 4300 digits included |
| Config.LoadDefaults | config/config.py:17-65 | with an empty environment every setting takes its default |
| Config.LoadedUrls | config/config.py:21-38 | a loaded configuration has the base URL of its ENV and the login URL under it |
| Config.LoadFields | config/config.py:17-65 | every field of a loaded configuration: each string setting is the variable or its default, each integer setting the number its variable reads as or its default, headless as HEADLESS says |
| Config.LoadReadsIntegers | config/config.py:57 | an IMPLICIT_WAIT written as `str(n)` is read back as `n` by a load that succeeds, and then `n` is within the digit limit |
| Config.LoadRejectsLongIntegers | config/config.py:57-62 | an integer setting with more than 4300 digits makes the import fail |
| Config.GetTestData | config/config.py:68-82 | the file's data only when a non-empty name is given and the file exists, TEST_DATA otherwise |
| Helpers.RoundsCounts | utils/helpers.py:32-36 | a trace of rounds holds one call per round and sleeps exactly the given durations |
| Helpers.RoundsThenCall | utils/helpers.py:160-163 | rounds followed by a final call: one more call than sleeps, the sleeps as given |
| Helpers.Poll | utils/helpers.py:30-36 | the polling loop: the deadline is checked before each call; on success the first truthy result is returned and nothing called after it, with a poll sleep between calls; on timeout every result was falsy and the next clock reading was at or past the deadline; a non-positive timeout with a clock that does not run backwards calls nothing; a negative poll frequency raises ValueError after the first falsy result |
| Helpers.WaitFor | utils/helpers.py:14-42 | everything the polling loop states, with the TimeoutError carrying the given message, or the default one when none is given |
| Helpers.TimeoutMessage | utils/helpers.py:38-39 | the given message, or else exactly `Timed out waiting for condition after <str(timeout)> seconds`, whose number reads back as the timeout when within 4300 digits |
| Helpers.DefaultTimeoutMessage | utils/helpers.py:14-39 | with the default timeout of 30 and no message, the text is `Timed out waiting for condition after 30 seconds` |
| Helpers.BackoffAt | utils/helpers.py:170 | the i-th sleep is `delay * backoff ** i` |
| Helpers.BackoffStartsAtDelay | utils/helpers.py:170 | the first sleep is the initial delay |
| Helpers.BackoffIsGeometric | utils/helpers.py:170 | each later sleep is the previous one times the multiplier |
| Helpers.Retry | utils/helpers.py:143-172 | no call and None when max_attempts <= 0; otherwise k calls with k-1 backoff sleeps between, none of them negative; every call but the last raised a caught exception; the last call's value is returned or its exception re-raised; a caught exception ends the loop at max_attempts, or earlier with the ValueError of a negative backoff sleep |
| Helpers.SleepsNonNegativeAt | utils/helpers.py:170-172 | when no sleep is negative, each entry of the backoff sequence is non-negative |
| Helpers.NonNegativeBackoffSleeps | utils/helpers.py:170-172 | with a non-negative delay and multiplier no backoff sleep is negative, so retry never stops on a ValueError |
| Helpers.FirstIndexUnique | utils/helpers.py:89 | the first `@` of the address is the one the pattern's local part stops at |
| Helpers.LastIndexUnique | utils/helpers.py:89 | the last `.` of the domain is the one before the final letters |
| Helpers.AddressMatchesPattern | utils/helpers.py:89-90 | the hand-written matcher accepts exactly the strings the anchored pattern matches, including the one trailing newline `$` allows |
| Helpers.IsValidEmail | utils/helpers.py:79-90 | `is_valid_email` is true exactly for the strings the anchored pattern matches |
| Helpers.Charset | utils/helpers.py:57-61 | the set has 52 letters, plus 10 digits and 32 punctuation marks when asked |
| Helpers.CharsetMembership | utils/helpers.py:57-61 | a character is in the set exactly when it is a letter, or an asked-for digit or punctuation mark |
| Helpers.Draw | utils/helpers.py:63 | n characters, each one from the set |
| Helpers.DrawReachesEveryString | utils/helpers.py:63 | every string over the set is drawn by some sequence of choices |
| Helpers.GenerateRandomString | utils/helpers.py:45-63 | the length asked for (none when negative), every character a letter or an asked-for digit or punctuation mark |
| Helpers.EveryStringIsPossible | utils/helpers.py:45-63 | every string of that length over that set is a possible result |
| LoginSteps.Lookup | features/steps/login_steps.py:31-37 | only a `$` argument whose rest has exactly one dot can resolve, and then only to an entry of the data |
| LoginSteps.Resolve | features/steps/login_steps.py:31-37 | an argument not starting with `$`, or whose rest has no dot or several, is used as written; a `$dataset.key` is replaced by that entry when both keys exist and used as written otherwise |
| LoginSteps.ReferenceShape | features/steps/login_steps.py:33-36 | a `$` argument with exactly one dot is `$dataset.key` for dot-free names, and looks up that entry |
| LoginSteps.ResolveReference | features/steps/login_steps.py:31-37 | `$dataset.key` with dot-free names resolves to the entry when both keys exist, and stays literal otherwise |
| LoginSteps.TestDataKeysHaveNoDot | config/config.py:41-50 | no data set or key of TEST_DATA holds a dot |
| LoginSteps.ResolveTestData | features/steps/login_steps.py:33-37 | a reference to any TEST_DATA entry resolves to that entry |
| LoginSteps.ValidUsernameReference | features/steps/login_steps.py:31-37 | `$valid_user.username` resolves to `tomsmith` |
| LoginSteps.ValidPasswordReference | features/steps/login_steps.py:56-62 | `$valid_user.password` resolves to `SuperSecretPassword!` |
| LoginSteps.UnknownDatasetStaysLiteral | features/steps/login_steps.py:118-124 | a reference into a data set TEST_DATA lacks stays as written |
| LoginSteps.MalformedReferences | features/steps/login_steps.py:33-34 | references with no dot or with two dots stay as written |
| LoginSteps.Mask | features/steps/login_steps.py:53 | the mask is one star per character of the password |
| LoginSteps.MaskRevealsOnlyLength | features/steps/login_steps.py:53 | two masks are equal exactly when the passwords have the same length |
| LoginSteps.EnterUsername | features/steps/login_steps.py:19-41 | logs the argument, then the resolved value exactly when it was a resolvable reference; types the resolved value |
| LoginSteps.EnterPassword | features/steps/login_steps.py:44-66 | logs the mask, then a fixed line exactly when it was a resolvable reference; types the resolved value |
| LoginSteps.PasswordLogHidesPassword | features/steps/login_steps.py:53-63 | passwords of equal length and equal resolvability log the same lines |
| LoginSteps.PasswordReferenceEntry | features/steps/login_steps.py:56-63 | a TEST_DATA reference types the stored password while the log shows only stars and the fixed line |
| LoginSteps.VerifySuccessfulLogin | features/steps/login_steps.py:77-85 | passes exactly when the message is visible and contains the banner; fails with the not-displayed or unexpected-message text |
| LoginSteps.VerifyErrorMessageText | features/steps/login_steps.py:106-130 | passes exactly when the resolved expected text occurs in the error message; otherwise fails with the message naming both |
| LoginSteps.UnknownExpectedTextIsLiteral | features/steps/login_steps.py:118-129 | an unresolvable reference must occur literally in the error message |
| RunTests.FlagAt | run_tests.py:86-114 | the i-th flag in the order the command tests them has rank i |
| RunTests.OptionsInOrder | run_tests.py:86-114 | the options are the contributions of the seven flags in the order the code appends them |
| RunTests.Command | run_tests.py:84-117 | the command starts with the interpreter running pytest and ends with the test path, the options between |
| RunTests.SegmentKind | run_tests.py:86-114 | every argument a flag contributes is spelled as that flag's |
| RunTests.OptionsBelowPrefix | run_tests.py:86-114 | appending only extends the command: earlier options stay put |
| RunTests.OptionsBelowKinds | run_tests.py:86-114 | every option belongs to a flag that was asked for |
| RunTests.FlagPosition | run_tests.py:86-114 | a flag asked for has its argument at its position in the options |
| RunTests.FlagOrder | run_tests.py:86-114 | a flag tested earlier has its argument earlier |
| RunTests.FlagPresence | run_tests.py:86-114 | a flag's argument is among the options exactly when the flag was asked for |
| RunTests.ReportArguments | run_tests.py:104-114 | with a report, `--html=<path>` is immediately followed by `--self-contained-html` |
| RunTests.ReportPath | run_tests.py:106-112 | the report goes under `reports/`, named as given or `report_<timestamp>.html` |
| RunTests.CountsReadBack | run_tests.py:96-101 | the `-n=` and `--reruns=` values are decimal and, within 4300 digits, read back as the counts given |
| RunTests.HeadlessText | run_tests.py:61 | HEADLESS is written `true` or `false` |
| RunTests.ChildEnvironment | run_tests.py:59-67 | BROWSER, HEADLESS and PYTHONPATH set, WDM switches `0` when skipping updates, every other variable kept, and the key set |
| RunTests.ChildSeesSettings | run_tests.py:60-61 | read by the configuration rules, the child runs the browser and headless mode asked for |
| RunTests.BuildEnvironment | run_tests.py:59-67 | the entry-by-entry updates yield exactly `ChildEnvironment` |
| RunTests.BuildCommand | run_tests.py:84-117 | the appends yield exactly `Command` |
| RunTests.PrepareRun | run_tests.py:56-117 | run_tests builds exactly `ChildEnvironment` and `Command` |
| DriverFactory.ParseBrowser | utils/driver_factory.py:25-50 | a browser is selected exactly when the lowered name is chrome, firefox or edge, and it is the one of that name |
| DriverFactory.ParseBrowserIgnoresCase | utils/driver_factory.py:25-50 | the dispatch gives the same answer for a name and its lower-case form |
| DriverFactory.ParseBrowserExamples | utils/driver_factory.py:25-50 | `Chrome` and `FireFox` are accepted, `safari` is not |
| DriverFactory.ExpectedArguments | utils/driver_factory.py:27-47 | the headless switch comes first exactly in headless mode, and the browser's fixed arguments follow in order |
| DriverFactory.HeadlessOnlyPrependsSwitch | utils/driver_factory.py:27-47 | headless mode adds exactly the browser's headless switch, first |
| DriverFactory.ArgumentsDistinct | utils/driver_factory.py:27-47 | no browser argument is given twice |
| DriverFactory.MaximisedConsistently | utils/driver_factory.py:31-56 | the browsers started with `--start-maximized` are exactly those maximised afterwards; only Firefox is sized by width |
| DriverFactory.BrowserOptions.AddArgument | utils/driver_factory.py:28-33 | an argument is appended at the end and nothing else changes |
| DriverFactory.BrowserOptions.AddExperimentalOption | utils/driver_factory.py:34 | the option is set and the arguments are unchanged |
| DriverFactory.Driver.ImplicitlyWait | utils/driver_factory.py:53 | the implicit wait is set and the window state kept |
| DriverFactory.Driver.MaximizeWindow | utils/driver_factory.py:55-56 | the window is maximised and the wait kept |
| DriverFactory.GetDriver | utils/driver_factory.py:16-58 | an unsupported name gives `Unsupported browser: <name>` and no driver; a supported one gives a new driver with that browser's ordered arguments, Chrome's experimental option, the implicit wait, and a maximised window except on Firefox |

## Left out

- Logging: every `logger.*` and `logging.*` call is a no-op. The log lines of the two `when` steps are values in `Entry`; those of the `then` steps (features/steps/login_steps.py:80, 85, 115, 125, 130) are not modelled.
- Default arguments: the model's callers pass every parameter, so the defaults of `wait_for` (timeout 30, poll frequency 0.5), `retry` (3 attempts, delay 1, backoff 2, catching every Exception), `generate_random_string` (length 10, digits, no punctuation) are not modelled; `get_test_data()` with no argument is the `None` case of `Config.GetTestData`.
- Time: `time.time()` readings and the effect of `time.sleep` are inputs and trace events; no real time passes.
- Floating point: timeouts, poll frequency, delay and backoff are exact `int`/`real` numbers. The timeout in the default message is an `int`, so the Python rendering of a float timeout (`30.0`) is not modelled.
- `random.choice` is the parameter `pick` of `Helpers.GenerateRandomString`; no distribution is modelled.
- `generate_timestamp_string`, `load_json_file` and `save_json_file` (clock and file I/O). In `get_test_data` the file test and the JSON read are parameters.
- The `datetime.now()` timestamp of the report name is a parameter of `RunTests.PrepareRun`.
- Work that `run_tests` does outside the command and the environment: argument parsing, logging setup, `clean_directories`, `makedirs`, `subprocess.run` and its return code. Arguments are taken as already parsed, so `--browser` and `--log-level` are not checked against their choices.
- `os.path.join` with an absolute report name: only the relative case, `reports/<name>`.
- The real webdriver construction and `*DriverManager().install()` (network and downloads). A `Driver` only records how it was started.
- The page objects, `conftest.py`, `utils/logger.py` and the test modules are not part of this model. They only delegate to Selenium, pytest and the file system.
- Text.Lower: lowers ASCII letters only, where Python's `lower()` also lowers other Unicode letters.
- Text.ParseInt: rejects surrounding whitespace, `_` digit separators and non-ASCII digits, which Python's `int()` accepts.
- Text.IntToString: Python's `str()` raises ValueError for a number of more than 4300 digits; the model renders every integer, and states the round trip with `int()` only within that limit.
- Config.IntSetting: an integer setting past 4300 digits is the `None` of `Text.ParseInt`; the limit can be changed by `PYTHONINTMAXSTRDIGITS` or `sys.set_int_max_str_digits`, which the model does not read.
- Helpers.Retry: caught exceptions are matched by membership of their class in a set; the subclass matching of `isinstance` is not modelled. It requires at least `max_attempts` prepared outcomes, so that each call has one.
- Helpers.Retry: a backoff sleep of about 9.2e9 seconds or more makes `time.sleep` raise OverflowError or OSError; the model records the sleep and retries. Only the ValueError of a negative sleep is modelled.
- Helpers.Poll: requires a clock that reaches the deadline at some reading, and a condition result for every call that can happen; real time passing is what ends the source's loop.
- Helpers.Poll: a poll frequency of about 9.2e9 seconds or more makes `time.sleep` raise OverflowError or OSError (a platform limit on the sleep length); the model records the sleep and carries on.
- Helpers.WaitFor: requires what Helpers.Poll requires, and shares its missing OverflowError for a sleep of about 9.2e9 seconds or more.
- Helpers.WaitFor: the default message is built with `str(timeout)`, which raises ValueError past 4300 digits; the model renders every integer.
- Helpers.WaitFor: an exception raised by the condition passes straight out of `wait_for` (utils/helpers.py:33); condition results are plain values here, so that case is not represented.
