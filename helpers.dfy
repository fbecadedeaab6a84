/**
 * The general-purpose helpers of the harness: polling a condition until a
 * deadline, retrying a failing operation with geometric backoff, checking an
 * e-mail address against a fixed pattern, and building random strings.
 *
 * The outside world is made explicit: the readings of the wall clock, the
 * results of the polled condition and the outcomes of the retried operation
 * are input sequences, and every call and every sleep is recorded in a trace.
 */
module Helpers {
  import opened Wrappers
  import opened Text

  // ---------------------------------------------------------------------
  // Traces of calls and sleeps

  datatype Event = Call | Sleep(seconds: real)

  /** One round per duration: a call of the operation, then a sleep that long. */
  function Rounds(durations: seq<real>): (t: seq<Event>)
    ensures |t| == 2 * |durations|
  {
    if durations == [] then []
    else Rounds(durations[..|durations| - 1]) + [Call, Sleep(durations[|durations| - 1])]
  }

  lemma RoundsSnoc(ds: seq<real>, d: real)
    ensures Rounds(ds + [d]) == Rounds(ds) + [Call, Sleep(d)]
  {
    assert (ds + [d])[..|ds|] == ds;
  }

  function CallCount(t: seq<Event>): nat
  {
    if t == [] then 0 else CallCount(t[..|t| - 1]) + (if t[|t| - 1] == Call then 1 else 0)
  }

  /** The durations of the sleeps in a trace, in order. */
  function SleepDurations(t: seq<Event>): seq<real>
  {
    if t == [] then []
    else SleepDurations(t[..|t| - 1]) + (if t[|t| - 1].Sleep? then [t[|t| - 1].seconds] else [])
  }

  /** A trace of rounds holds one call per round and sleeps exactly the given durations. */
  lemma {:induction false} RoundsCounts(ds: seq<real>)
    ensures CallCount(Rounds(ds)) == |ds|
    ensures SleepDurations(Rounds(ds)) == ds
  {
    if ds != [] {
      var init := ds[..|ds| - 1];
      RoundsCounts(init);
      var t := Rounds(ds);
      assert t[..|t| - 1] == Rounds(init) + [Call];
      assert (Rounds(init) + [Call])[..|t| - 2] == Rounds(init);
      assert ds == init + [ds[|ds| - 1]];
    }
  }

  /** Rounds of `ds` followed by one final call: |ds| + 1 calls, sleeps exactly `ds`. */
  lemma RoundsThenCall(ds: seq<real>)
    ensures CallCount(Rounds(ds) + [Call]) == |ds| + 1
    ensures SleepDurations(Rounds(ds) + [Call]) == ds
  {
    RoundsCounts(ds);
    assert (Rounds(ds) + [Call])[..|Rounds(ds)|] == Rounds(ds);
  }

  // ---------------------------------------------------------------------
  // wait_for: poll a condition until it is truthy or the deadline passes

  /**
   * What wait_for does: return the first truthy result, raise TimeoutError,
   * or let through the ValueError that `time.sleep` raises for a negative length.
   */
  datatype WaitOutcome<V> = Satisfied(value: V) | TimedOut(message: string) | SleepRejected(message: string)

  /** One more round of polling adds a call and a sleep of the poll frequency. */
  lemma RoundsOfConstant(n: nat, d: real)
    ensures Rounds(Constant(n + 1, d)) == Rounds(Constant(n, d)) + [Call, Sleep(d)]
  {
    assert Constant(n + 1, d) == Constant(n, d) + [d];
    RoundsSnoc(Constant(n, d), d);
  }

  /** The text of the ValueError `time.sleep` raises for a negative length. */
  const NegativeSleepMessage: string := "sleep length must be non-negative"

  function Constant(n: nat, d: real): (ds: seq<real>)
    ensures |ds| == n && forall i :: 0 <= i < n ==> ds[i] == d
  {
    seq(n, _ => d)
  }

  const TimeoutPrefix: string := "Timed out waiting for condition after "
  const TimeoutSuffix: string := " seconds"

  /**
   * The text of the TimeoutError: the caller's message, or else the fixed
   * sentence around `str(timeout)`, whose number reads back as the timeout.
   */
  function TimeoutMessage(timeout: int, errorMessage: Option<string>): (m: string)
    ensures errorMessage.Some? ==> m == errorMessage.value
    ensures errorMessage.None? ==> m == TimeoutPrefix + IntToString(timeout) + TimeoutSuffix
    ensures errorMessage.None? ==>
      && |m| > |TimeoutPrefix| + |TimeoutSuffix|
      && m[..|TimeoutPrefix|] == TimeoutPrefix
      && m[|m| - |TimeoutSuffix|..] == TimeoutSuffix
      && (WithinDigitLimit(timeout) ==> ParseInt(m[|TimeoutPrefix|..|m| - |TimeoutSuffix|]) == Some(timeout))
  {
    match errorMessage
    case Some(m) => m
    case None =>
      var m := TimeoutPrefix + IntToString(timeout) + TimeoutSuffix;
      assert m[|TimeoutPrefix|..|m| - |TimeoutSuffix|] == IntToString(timeout);
      m
  }

  /** The default text for the default timeout of 30 seconds. */
  lemma DefaultTimeoutMessage()
    ensures TimeoutMessage(30, None) == "Timed out waiting for condition after 30 seconds"
  {
    assert NatToString(30) == NatToString(3) + ['0'];
  }

  /** Some clock reading after the start is at or past the deadline. */
  ghost predicate DeadlineReached(clock: seq<real>, timeout: int)
  {
    exists j :: 1 <= j < |clock| && clock[j] - clock[0] >= timeout as real
  }

  /**
   * What a run of wait_for's loop did, apart from the timeout's text.
   * `clock[0]` is the reading taken as the start time; the loop guard takes
   * the next reading each time round. `results[i]` is what the (i+1)-th call
   * of the condition returns, and `truthy` is Python truthiness.
   */
  ghost predicate Polled<V>(clock: seq<real>, results: seq<V>, truthy: V -> bool, timeout: int,
                           pollFrequency: real, r: WaitOutcome<V>, calls: nat, trace: seq<Event>)
  {
    // the deadline was checked, and not yet reached, before every call
    && 1 < |clock| && calls < |clock|
    && (forall j :: 1 <= j <= calls ==> clock[j] - clock[0] < timeout as real)
    // success: the first truthy result is returned, and nothing is called after it
    && (r.Satisfied? ==>
      && 1 <= calls <= |results|
      && r.value == results[calls - 1] && truthy(r.value)
      && (forall i :: 0 <= i < calls - 1 ==> !truthy(results[i]))
      && trace == Rounds(Constant(calls - 1, pollFrequency)) + [Call]
      && (pollFrequency < 0.0 ==> calls == 1))
    // timeout: every result was falsy, and the next reading was at or past the deadline
    && (r.TimedOut? ==>
      && calls + 1 < |clock| && calls <= |results|
      && clock[calls + 1] - clock[0] >= timeout as real
      && (forall i :: 0 <= i < calls ==> !truthy(results[i]))
      && trace == Rounds(Constant(calls, pollFrequency))
      && (pollFrequency < 0.0 ==> calls == 0))
    // a negative poll frequency: the sleep after the first falsy result raises
    && (r.SleepRejected? ==>
      && pollFrequency < 0.0 && calls == 1 && 1 <= |results| && !truthy(results[0])
      && trace == [Call] && r.message == NegativeSleepMessage)
    // a non-positive timeout with a clock that does not run backwards calls nothing
    && (timeout <= 0 && clock[0] <= clock[1] ==> r.TimedOut? && calls == 0 && trace == [])
  }

  /** wait_for's loop, ending in a TimeoutError carrying `expired`. */
  method Poll<V>(clock: seq<real>, results: seq<V>, truthy: V -> bool,
                 timeout: int, pollFrequency: real, expired: string)
    returns (r: WaitOutcome<V>, calls: nat, trace: seq<Event>)
    requires DeadlineReached(clock, timeout)
    requires |clock| <= |results| + 2
    ensures Polled(clock, results, truthy, timeout, pollFrequency, r, calls, trace)
    ensures r.TimedOut? ==> r.message == expired
  {
    // a reading at or past the deadline, which bounds the number of rounds
    ghost var deadline :| 1 <= deadline < |clock| && clock[deadline] - clock[0] >= timeout as real;
    calls := 0;
    trace := [];
    while clock[calls + 1] - clock[0] < timeout as real
      invariant calls + 1 <= deadline
      invariant forall j :: 1 <= j <= calls ==> clock[j] - clock[0] < timeout as real
      invariant forall i :: 0 <= i < calls ==> !truthy(results[i])
      invariant trace == Rounds(Constant(calls, pollFrequency))
      invariant pollFrequency < 0.0 ==> calls == 0
      decreases deadline - calls
    {
      var result := results[calls];
      calls := calls + 1;
      trace := trace + [Call];
      if truthy(result) {
        r := Satisfied(result);
        return;
      }
      if pollFrequency < 0.0 {
        r := SleepRejected(NegativeSleepMessage);
        return;
      }
      RoundsOfConstant(calls - 1, pollFrequency);
      trace := trace + [Sleep(pollFrequency)];
    }
    r := TimedOut(expired);
  }

  /**
   * wait_for: the loop above, whose TimeoutError carries the caller's message
   * or the default one. The clock must reach the deadline at some reading
   * (real time passes).
   */
  method WaitFor<V>(clock: seq<real>, results: seq<V>, truthy: V -> bool,
                    timeout: int, pollFrequency: real, errorMessage: Option<string>)
    returns (r: WaitOutcome<V>, calls: nat, trace: seq<Event>)
    requires DeadlineReached(clock, timeout)
    requires |clock| <= |results| + 2
    ensures Polled(clock, results, truthy, timeout, pollFrequency, r, calls, trace)
    ensures r.TimedOut? ==> r.message == TimeoutMessage(timeout, errorMessage)
  {
    r, calls, trace := Poll(clock, results, truthy, timeout, pollFrequency, TimeoutMessage(timeout, errorMessage));
  }

  // ---------------------------------------------------------------------
  // retry: call an operation until it succeeds, with geometric backoff

  /** An exception: its class (matched against the caught classes) and its text. */
  datatype Failure<K> = Failure(kind: K, message: string)

  /** What one call of the operation does: return a value or raise. */
  datatype Attempt<V, K> = Ok(value: V) | Err(failure: Failure<K>)

  /**
   * What retry does: return a value, raise an exception, return None without
   * calling, or let through the ValueError of a negative backoff sleep.
   */
  datatype RetryOutcome<V, K> =
    Returned(value: V) | Raised(failure: Failure<K>) | NoAttempt | BackoffRejected(message: string)

  /** A failure that retry catches. */
  predicate Caught<V, K>(a: Attempt<V, K>, exceptions: set<K>)
  {
    a.Err? && a.failure.kind in exceptions
  }

  function Pow(b: real, n: nat): real
  {
    if n == 0 then 1.0 else Pow(b, n - 1) * b
  }

  /** `delay * backoff ** i`: the sleep after failed attempt i + 1. */
  function SleepTime(delay: real, backoff: real, i: nat): real
  {
    delay * Pow(backoff, i)
  }

  /** The sleeps of retry, in order, after the first n failed attempts. */
  function Backoff(n: nat, delay: real, backoff: real): (ds: seq<real>)
    ensures |ds| == n
  {
    if n == 0 then [] else Backoff(n - 1, delay, backoff) + [SleepTime(delay, backoff, n - 1)]
  }

  lemma BackoffSnoc(n: nat, delay: real, backoff: real)
    ensures Backoff(n + 1, delay, backoff) == Backoff(n, delay, backoff) + [SleepTime(delay, backoff, n)]
  {
  }

  /** One more failed attempt adds a call and its backoff sleep. */
  lemma BackoffRound(n: nat, delay: real, backoff: real)
    ensures Rounds(Backoff(n + 1, delay, backoff))
      == Rounds(Backoff(n, delay, backoff)) + [Call] + [Sleep(SleepTime(delay, backoff, n))]
  {
    BackoffSnoc(n, delay, backoff);
    RoundsSnoc(Backoff(n, delay, backoff), SleepTime(delay, backoff, n));
  }

  /** The i-th sleep (from 0) is delay * backoff^i. */
  lemma {:induction false} BackoffAt(n: nat, delay: real, backoff: real, i: nat)
    requires i < n
    ensures Backoff(n, delay, backoff)[i] == SleepTime(delay, backoff, i)
  {
    if i < n - 1 {
      BackoffAt(n - 1, delay, backoff, i);
    }
  }

  /** Each sleep time is the one before it times the multiplier. */
  lemma SleepTimeStep(delay: real, backoff: real, i: nat)
    ensures SleepTime(delay, backoff, i + 1) == SleepTime(delay, backoff, i) * backoff
  {
    assert Pow(backoff, i + 1) == Pow(backoff, i) * backoff;
  }

  /** None of the first n sleeps is negative, so `time.sleep` accepts each of them. */
  predicate SleepsNonNegative(n: nat, delay: real, backoff: real)
  {
    n == 0 || (SleepsNonNegative(n - 1, delay, backoff) && SleepTime(delay, backoff, n - 1) >= 0.0)
  }

  lemma {:induction false} SleepsNonNegativeAt(n: nat, delay: real, backoff: real, i: nat)
    requires SleepsNonNegative(n, delay, backoff) && i < n
    ensures Backoff(n, delay, backoff)[i] >= 0.0
  {
    BackoffAt(n, delay, backoff, i);
    if i < n - 1 {
      SleepsNonNegativeAt(n - 1, delay, backoff, i);
      BackoffAt(n - 1, delay, backoff, i);
    }
  }

  /** With a non-negative delay and multiplier every sleep is accepted. */
  lemma {:induction false} NonNegativeBackoffSleeps(n: nat, delay: real, backoff: real)
    requires delay >= 0.0 && backoff >= 0.0
    ensures SleepsNonNegative(n, delay, backoff)
  {
    if n > 0 {
      NonNegativeBackoffSleeps(n - 1, delay, backoff);
      PowNonNegative(backoff, n - 1);
    }
  }

  lemma {:induction false} PowNonNegative(b: real, n: nat)
    requires b >= 0.0
    ensures Pow(b, n) >= 0.0
  {
    if n > 0 {
      PowNonNegative(b, n - 1);
    }
  }

  /** The first sleep is the initial delay. */
  lemma BackoffStartsAtDelay(n: nat, delay: real, backoff: real)
    requires n > 0
    ensures Backoff(n, delay, backoff)[0] == delay
  {
    BackoffAt(n, delay, backoff, 0);
  }

  /** Each later sleep is the previous one times the multiplier. */
  lemma BackoffIsGeometric(n: nat, delay: real, backoff: real, i: nat)
    requires i + 1 < n
    ensures Backoff(n, delay, backoff)[i + 1] == Backoff(n, delay, backoff)[i] * backoff
  {
    BackoffAt(n, delay, backoff, i);
    BackoffAt(n, delay, backoff, i + 1);
    SleepTimeStep(delay, backoff, i);
  }

  /**
   * retry. `outcomes[i]` is what the (i+1)-th call of the operation does;
   * `exceptions` is the set of exception classes it catches (Python matches
   * with isinstance; here membership of the class stands for that).
   */
  method Retry<V, K>(outcomes: seq<Attempt<V, K>>, maxAttempts: int, delay: real, backoff: real,
                     exceptions: set<K>)
    returns (r: RetryOutcome<V, K>, calls: nat, trace: seq<Event>)
    requires maxAttempts <= |outcomes|
    // no attempt allowed: the loop does not run and the function returns None
    ensures maxAttempts <= 0 ==> r == NoAttempt && calls == 0 && trace == []
    // otherwise between 1 and maxAttempts calls, a backoff sleep after each but the last
    ensures maxAttempts > 0 ==> 1 <= calls <= maxAttempts
    ensures maxAttempts > 0 ==> trace == Rounds(Backoff(calls - 1, delay, backoff)) + [Call]
    // every call but the last raised a caught exception
    ensures forall i :: 0 <= i < calls - 1 ==> Caught(outcomes[i], exceptions)
    // the last call decides: its value is returned or its own exception re-raised
    ensures maxAttempts > 0 && outcomes[calls - 1].Ok? ==> r == Returned(outcomes[calls - 1].value)
    ensures maxAttempts > 0 && outcomes[calls - 1].Err? ==>
      r == Raised(outcomes[calls - 1].failure) || r.BackoffRejected?
    // a caught exception ends the loop only when the attempts are used up, or when its sleep is negative
    ensures maxAttempts > 0 && Caught(outcomes[calls - 1], exceptions) ==> calls == maxAttempts || r.BackoffRejected?
    ensures r.BackoffRejected? ==>
      && maxAttempts > 0 && calls < maxAttempts && Caught(outcomes[calls - 1], exceptions)
      && SleepTime(delay, backoff, calls - 1) < 0.0 && r.message == NegativeSleepMessage
    // every sleep taken was of a non-negative length
    ensures maxAttempts > 0 ==> SleepsNonNegative(calls - 1, delay, backoff)
  {
    var attempt := 0;
    calls := 0;
    trace := [];
    r := NoAttempt;
    while attempt < maxAttempts
      invariant calls == attempt
      invariant maxAttempts <= 0 ==> attempt == 0
      invariant maxAttempts > 0 ==> attempt < maxAttempts
      invariant forall i :: 0 <= i < calls ==> Caught(outcomes[i], exceptions)
      invariant trace == Rounds(Backoff(calls, delay, backoff))
      invariant SleepsNonNegative(calls, delay, backoff)
      invariant r == NoAttempt
      decreases maxAttempts - attempt
    {
      var outcome := outcomes[calls];
      calls := calls + 1;
      trace := trace + [Call];
      if outcome.Ok? {
        r := Returned(outcome.value);
        break;
      }
      if outcome.failure.kind !in exceptions {
        r := Raised(outcome.failure);
        break;
      }
      attempt := attempt + 1;
      if attempt == maxAttempts {
        r := Raised(outcome.failure);
        break;
      }
      var sleepTime := SleepTime(delay, backoff, attempt - 1);
      if sleepTime < 0.0 {
        r := BackoffRejected(NegativeSleepMessage);
        break;
      }
      BackoffRound(calls - 1, delay, backoff);
      trace := trace + [Sleep(sleepTime)];
    }
  }

  // ---------------------------------------------------------------------
  // is_valid_email: ^[a-zA-Z0-9._%+-]+@[a-zA-Z0-9.-]+\.[a-zA-Z]{2,}$

  predicate LocalChar(c: char) { IsAsciiLetter(c) || IsDigit(c) || c in "._%+-" }
  predicate DomainChar(c: char) { IsAsciiLetter(c) || IsDigit(c) || c == '.' || c == '-' }

  predicate AllLocal(s: string) { forall i :: 0 <= i < |s| ==> LocalChar(s[i]) }
  predicate AllDomain(s: string) { forall i :: 0 <= i < |s| ==> DomainChar(s[i]) }
  predicate AllLetters(s: string) { forall i :: 0 <= i < |s| ==> IsAsciiLetter(s[i]) }

  /**
   * The pattern read as a regular expression: `t` is a local part `t[..at]`,
   * an `@`, a domain `t[at+1..dot]`, a `.`, and a final run of at least two letters.
   */
  ghost predicate PatternSplit(t: string, at: int, dot: int)
  {
    && 1 <= at && at + 2 <= dot && dot + 3 <= |t|
    && AllLocal(t[..at]) && t[at] == '@'
    && AllDomain(t[at + 1..dot]) && t[dot] == '.'
    && AllLetters(t[dot + 1..])
  }

  ghost predicate MatchesWhole(t: string)
  {
    exists at, dot :: PatternSplit(t, at, dot)
  }

  /** re.match with a final `$`, which matches at the very end or before one final newline. */
  ghost predicate MatchesEmailPattern(s: string)
  {
    MatchesWhole(s) || (|s| > 0 && s[|s| - 1] == '\n' && MatchesWhole(s[..|s| - 1]))
  }

  function FirstIndex(s: string, c: char): (r: Option<nat>)
    ensures r.None? ==> c !in s
    ensures r.Some? ==> r.value < |s| && s[r.value] == c && c !in s[..r.value]
  {
    if s == [] then None
    else if s[0] == c then Some(0)
    else match FirstIndex(s[1..], c)
      case None => None
      case Some(i) => Some(i + 1)
  }

  function LastIndex(s: string, c: char): (r: Option<nat>)
    ensures r.None? ==> c !in s
    ensures r.Some? ==> r.value < |s| && s[r.value] == c && c !in s[r.value + 1..]
  {
    if s == [] then None
    else if s[|s| - 1] == c then Some(|s| - 1)
    else LastIndex(s[..|s| - 1], c)
  }

  /** An occurrence with no earlier occurrence is the one FirstIndex finds. */
  lemma {:induction false} FirstIndexUnique(s: string, c: char, i: nat)
    requires i < |s| && s[i] == c && c !in s[..i]
    ensures FirstIndex(s, c) == Some(i)
  {
    if i > 0 {
      assert s[0] == s[..i][0];
      assert s[1..][..i - 1] == s[..i][1..];
      FirstIndexUnique(s[1..], c, i - 1);
    }
  }

  /** An occurrence with no later occurrence is the one LastIndex finds. */
  lemma {:induction false} LastIndexUnique(s: string, c: char, i: nat)
    requires i < |s| && s[i] == c && c !in s[i + 1..]
    ensures LastIndex(s, c) == Some(i)
  {
    if i < |s| - 1 {
      assert s[|s| - 1] == s[i + 1..][|s| - 2 - i];
      assert s[..|s| - 1][i + 1..] == s[i + 1..|s| - 1];
      LastIndexUnique(s[..|s| - 1], c, i);
    }
  }

  function DropFinalNewline(s: string): string
  {
    if |s| > 0 && s[|s| - 1] == '\n' then s[..|s| - 1] else s
  }

  /** The hand-written matcher: split at the first `@`, then at the last `.` of the domain. */
  function IsValidAddress(t: string): bool
  {
    match FirstIndex(t, '@')
    case None => false
    case Some(at) =>
      var domain := t[at + 1..];
      && at >= 1 && AllLocal(t[..at]) && AllDomain(domain)
      && match LastIndex(domain, '.')
         case None => false
         case Some(p) => p >= 1 && p + 3 <= |domain| && AllLetters(domain[p + 1..])
  }

  /** is_valid_email: true exactly for the strings the anchored pattern matches. */
  function IsValidEmail(email: string): (valid: bool)
    ensures valid <==> MatchesEmailPattern(email)
  {
    AddressMatchesPattern(email);
    IsValidAddress(DropFinalNewline(email))
  }

  lemma ValidAddressHasSplit(t: string)
    requires IsValidAddress(t)
    ensures MatchesWhole(t)
  {
    var at := FirstIndex(t, '@').value;
    var p := LastIndex(t[at + 1..], '.').value;
    PartsMakeSplit(t, at, p);
  }

  /** The pieces the matcher checks, with the last `.` at `p` in the domain, form a pattern split. */
  lemma PartsMakeSplit(t: string, at: int, p: int)
    requires 1 <= at < |t| && t[at] == '@' && AllLocal(t[..at])
    requires AllDomain(t[at + 1..])
    requires 1 <= p && p + 3 <= |t| - at - 1 && t[at + 1..][p] == '.'
    requires AllLetters(t[at + 1..][p + 1..])
    ensures PatternSplit(t, at, at + 1 + p)
  {
    var domain := t[at + 1..];
    var dot := at + 1 + p;
    var middle := t[at + 1..dot];
    forall i | 0 <= i < |middle| ensures DomainChar(middle[i]) {
      assert middle[i] == domain[i];
    }
    assert t[dot + 1..] == domain[p + 1..];
  }

  /** The domain after the `@` of a pattern split, seen from the `@`. */
  lemma SplitDomain(t: string, at: int, dot: int)
    requires PatternSplit(t, at, dot)
    ensures var domain, p := t[at + 1..], dot - at - 1;
      && AllDomain(domain) && domain[p] == '.' && domain[p + 1..] == t[dot + 1..]
  {
    var domain, p := t[at + 1..], dot - at - 1;
    forall i | 0 <= i < |domain| ensures DomainChar(domain[i]) {
      if i < p {
        assert domain[i] == t[at + 1..dot][i];
      } else if i > p {
        assert domain[i] == t[dot + 1..][i - p - 1];
      }
    }
    assert domain[p + 1..] == t[dot + 1..];
  }

  lemma SplitIsValidAddress(t: string, at: int, dot: int)
    requires PatternSplit(t, at, dot)
    ensures IsValidAddress(t)
  {
    assert '@' !in t[..at] by {
      assert !LocalChar('@');
    }
    FirstIndexUnique(t, '@', at);
    var domain := t[at + 1..];
    var p := dot - at - 1;
    SplitDomain(t, at, dot);
    assert '.' !in domain[p + 1..] by {
      assert AllLetters(domain[p + 1..]);
    }
    LastIndexUnique(domain, '.', p);
  }

  /** A string ending in a newline cannot match without the `$` newline allowance. */
  lemma NoMatchEndingInNewline(t: string)
    requires |t| > 0 && t[|t| - 1] == '\n'
    ensures !MatchesWhole(t)
  {
    if exists at, dot :: PatternSplit(t, at, dot) {
      var at, dot :| PatternSplit(t, at, dot);
      assert t[dot + 1..][|t| - dot - 2] == '\n';
    }
  }

  /** The hand-written matcher accepts exactly the strings the regular expression matches. */
  lemma AddressMatchesPattern(email: string)
    ensures IsValidAddress(DropFinalNewline(email)) <==> MatchesEmailPattern(email)
  {
    var t := DropFinalNewline(email);
    if IsValidAddress(t) {
      ValidAddressHasSplit(t);
    }
    if MatchesWhole(t) {
      var at, dot :| PatternSplit(t, at, dot);
      SplitIsValidAddress(t, at, dot);
    }
    if |email| > 0 && email[|email| - 1] == '\n' {
      NoMatchEndingInNewline(email);
    }
  }

  // ---------------------------------------------------------------------
  // generate_random_string

  /** string.ascii_letters, string.digits and string.punctuation. */
  const AsciiLowercase: string := "abcdefghijklmnopqrstuvwxyz"
  const AsciiUppercase: string := "ABCDEFGHIJKLMNOPQRSTUVWXYZ"
  const AsciiLetters: string := AsciiLowercase + AsciiUppercase
  const Digits: string := "0123456789"
  const Punctuation: string := "!\"#$%&'()*+,-./:;<=>?@[\\]^_`{|}~"

  predicate IsPunctuation(c: char)
  {
    '!' <= c <= '/' || ':' <= c <= '@' || '[' <= c <= '`' || '{' <= c <= '~'
  }

  /** The characters drawn from: letters, then digits, then punctuation, as asked. */
  function Charset(includeDigits: bool, includeSpecial: bool): (chars: string)
    ensures |chars| == 52 + (if includeDigits then 10 else 0) + (if includeSpecial then 32 else 0)
  {
    AsciiLetters + (if includeDigits then Digits else "") + (if includeSpecial then Punctuation else "")
  }

  lemma LowercaseMembership(c: char)
    ensures c in AsciiLowercase <==> 'a' <= c <= 'z'
  {
  }

  lemma UppercaseMembership(c: char)
    ensures c in AsciiUppercase <==> 'A' <= c <= 'Z'
  {
  }

  lemma DigitsMembership(c: char)
    ensures c in Digits <==> IsDigit(c)
  {
  }

  lemma PunctuationMembership(c: char)
    ensures c in Punctuation <==> IsPunctuation(c)
  {
  }

  /** A character is in the set exactly when it is a letter, or an asked-for digit or punctuation mark. */
  lemma CharsetMembership(includeDigits: bool, includeSpecial: bool, c: char)
    ensures c in Charset(includeDigits, includeSpecial) <==>
      IsAsciiLetter(c) || (includeDigits && IsDigit(c)) || (includeSpecial && IsPunctuation(c))
  {
    LowercaseMembership(c);
    UppercaseMembership(c);
    DigitsMembership(c);
    PunctuationMembership(c);
  }

  /** The position of a character in a string that holds it. */
  function IndexIn(c: char, chars: string): (k: nat)
    requires c in chars
    ensures k < |chars| && chars[k] == c
  {
    if chars[0] == c then 0 else 1 + IndexIn(c, chars[1..])
  }

  /** `n` choices from `chars`, the i-th one at position `pick(i)` reduced into range. */
  function Draw(n: nat, chars: string, pick: nat -> nat): (s: string)
    requires |chars| > 0
    ensures |s| == n && forall i :: 0 <= i < n ==> s[i] in chars
  {
    seq(n, i requires 0 <= i => chars[pick(i) % |chars|])
  }

  /** Any string over `chars` is drawn by some choice of positions. */
  lemma DrawReachesEveryString(chars: string, t: string)
    requires |chars| > 0
    requires forall i :: 0 <= i < |t| ==> t[i] in chars
    ensures exists pick: nat -> nat :: Draw(|t|, chars, pick) == t
  {
    var ks := seq(|t|, i requires 0 <= i < |t| => IndexIn(t[i], chars));
    var pick := (i: nat) => if i < |ks| then ks[i] else 0;
    var s := Draw(|t|, chars, pick);
    forall i | 0 <= i < |t|
      ensures s[i] == t[i]
    {
      assert pick(i) == ks[i] && ks[i] < |chars|;
      assert pick(i) % |chars| == ks[i];
    }
  }

  /**
   * generate_random_string: `length` characters (none for a negative length,
   * as with `range`). `random.choice` is the parameter `pick`: the i-th choice
   * takes the character at position `pick(i)`, reduced into the set.
   */
  function GenerateRandomString(length: int, includeDigits: bool, includeSpecial: bool,
                                pick: nat -> nat): (s: string)
    ensures |s| == if length < 0 then 0 else length
    ensures forall i :: 0 <= i < |s| ==>
      IsAsciiLetter(s[i]) || (includeDigits && IsDigit(s[i])) || (includeSpecial && IsPunctuation(s[i]))
  {
    var s := Draw(if length < 0 then 0 else length, Charset(includeDigits, includeSpecial), pick);
    forall i | 0 <= i < |s|
      ensures IsAsciiLetter(s[i]) || (includeDigits && IsDigit(s[i])) || (includeSpecial && IsPunctuation(s[i]))
    {
      CharsetMembership(includeDigits, includeSpecial, s[i]);
    }
    s
  }

  /**
   * Every string of the right length over the character set is a possible
   * result: some sequence of choices produces it.
   */
  lemma EveryStringIsPossible(length: int, includeDigits: bool, includeSpecial: bool, t: string)
    requires |t| == if length < 0 then 0 else length
    requires forall i :: 0 <= i < |t| ==>
      IsAsciiLetter(t[i]) || (includeDigits && IsDigit(t[i])) || (includeSpecial && IsPunctuation(t[i]))
    ensures exists pick: nat -> nat :: GenerateRandomString(length, includeDigits, includeSpecial, pick) == t
  {
    var chars := Charset(includeDigits, includeSpecial);
    forall i | 0 <= i < |t|
      ensures t[i] in chars
    {
      CharsetMembership(includeDigits, includeSpecial, t[i]);
    }
    DrawReachesEveryString(chars, t);
    var pick :| Draw(|t|, chars, pick) == t;
    assert GenerateRandomString(length, includeDigits, includeSpecial, pick) == t;
  }
}
