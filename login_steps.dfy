/**
 * The scenario steps of the login feature, without the browser: how a step
 * argument of the form `$dataset.key` is replaced by test data, what the
 * password step writes to the log, and when the two checking steps pass.
 * What the page shows (visibility, message text) is an input.
 */
module LoginSteps {
  import opened Wrappers
  import opened Text
  import Config

  /** `value.startswith('$')` */
  predicate IsReference(value: string)
  {
    |value| > 0 && value[0] == '$'
  }

  /**
   * The test-data reference rule shared by the username, password and
   * expected-text steps: `$dataset.key` names `data[dataset][key]` when the
   * rest splits on `.` into exactly two parts and both keys exist.
   */
  function Lookup(value: string, data: Config.TestTable): (r: Option<string>)
    ensures !IsReference(value) ==> r.None?
    ensures IsReference(value) && Count(value[1..], '.') != 1 ==> r.None?
    ensures r.Some? ==> exists ds, k :: ds in data && k in data[ds] && r.value == data[ds][k]
  {
    if IsReference(value) then
      var parts := Split(value[1..], '.');
      if |parts| == 2 && parts[0] in data && parts[1] in data[parts[0]] then
        Some(data[parts[0]][parts[1]])
      else None
    else None
  }

  /** The value a step goes on with: the referenced entry, or the argument as written. */
  function Resolve(value: string, data: Config.TestTable): (r: string)
    ensures !IsReference(value) ==> r == value
    ensures IsReference(value) && Count(value[1..], '.') != 1 ==> r == value
    ensures IsReference(value) && Count(value[1..], '.') == 1 ==>
      exists dataset, key :: '.' !in dataset && '.' !in key && value == "$" + dataset + "." + key
        && r == if dataset in data && key in data[dataset] then data[dataset][key] else value
  {
    ReferenceShape(value, data);
    match Lookup(value, data)
    case Some(v) => v
    case None => value
  }

  /** A reference with exactly one dot names a data set and a key, and looks up that entry. */
  lemma ReferenceShape(value: string, data: Config.TestTable)
    ensures IsReference(value) && Count(value[1..], '.') == 1 ==>
      exists dataset, key :: '.' !in dataset && '.' !in key && value == "$" + dataset + "." + key
        && Lookup(value, data) == if dataset in data && key in data[dataset] then Some(data[dataset][key]) else None
  {
    if IsReference(value) && Count(value[1..], '.') == 1 {
      var parts := Split(value[1..], '.');
      JoinSplit(value[1..], '.');
      assert Join(parts, '.') == parts[0] + ['.'] + parts[1];
      assert value == [value[0]] + value[1..];
      assert value == "$" + parts[0] + "." + parts[1];
    }
  }

  /** A well-formed reference resolves to the named entry when it exists, and stays literal otherwise. */
  lemma ResolveReference(dataset: string, key: string, data: Config.TestTable)
    requires '.' !in dataset && '.' !in key
    ensures var value := "$" + dataset + "." + key;
      Resolve(value, data) == if dataset in data && key in data[dataset] then data[dataset][key] else value
  {
    var value := "$" + dataset + "." + key;
    assert value[1..] == Join([dataset, key], '.');
    SplitJoin([dataset, key], '.');
    assert Lookup(value, data) == if dataset in data && key in data[dataset] then Some(data[dataset][key]) else None;
  }

  /** Every data set and key of TEST_DATA is a plain word. */
  lemma TestDataKeysHaveNoDot(dataset: string, key: string)
    requires dataset in Config.TestData && key in Config.TestData[dataset]
    ensures '.' !in dataset && '.' !in key
  {
  }

  /** A reference to an entry of TEST_DATA resolves to that entry. */
  lemma ResolveTestData(dataset: string, key: string)
    requires dataset in Config.TestData && key in Config.TestData[dataset]
    ensures Resolve("$" + dataset + "." + key, Config.TestData) == Config.TestData[dataset][key]
  {
    TestDataKeysHaveNoDot(dataset, key);
    ResolveReference(dataset, key, Config.TestData);
  }

  /** The credentials used by the login scenarios. */
  lemma ValidUsernameReference()
    ensures Resolve("$valid_user.username", Config.TestData) == "tomsmith"
  {
    assert "$valid_user.username" == "$" + "valid_user" + "." + "username";
    ResolveTestData("valid_user", "username");
  }

  lemma ValidPasswordReference()
    ensures Resolve("$valid_user.password", Config.TestData) == "SuperSecretPassword!"
  {
    assert "$valid_user.password" == "$" + "valid_user" + "." + "password";
    ResolveTestData("valid_user", "password");
  }

  /**
   * A reference into a data set that TEST_DATA lacks, such as
   * `$error_messages.invalid_username`, is not resolved: the step goes on
   * with the text as written.
   */
  lemma UnknownDatasetStaysLiteral(dataset: string, key: string)
    requires '.' !in dataset && '.' !in key && dataset !in Config.TestData
    ensures Resolve("$" + dataset + "." + key, Config.TestData) == "$" + dataset + "." + key
  {
    ResolveReference(dataset, key, Config.TestData);
  }

  /** A value with no dot, or with two, is not a reference. */
  lemma MalformedReferences()
    ensures Resolve("$a", Config.TestData) == "$a"
    ensures Resolve("$a.b.c", Config.TestData) == "$a.b.c"
  {
    assert Count("$a"[1..], '.') == 0;
    assert Count("$a.b.c"[1..], '.') == 2;
  }

  // ---------------------------------------------------------------------
  // The steps

  /** `'*' * len(password)` */
  function Mask(password: string): (m: string)
    ensures |m| == |password|
    ensures forall i :: 0 <= i < |m| ==> m[i] == '*'
  {
    seq(|password|, _ => '*')
  }

  /** Two masks are equal exactly when the passwords have the same length: nothing else leaks. */
  lemma MaskRevealsOnlyLength(p: string, q: string)
    ensures Mask(p) == Mask(q) <==> |p| == |q|
  {
  }

  /** What a `when` step does apart from the browser: the lines it logs and the text it types. */
  datatype Entry = Entry(log: seq<string>, typed: string)

  /** enter_username: logs the argument, and the resolved value when it was a reference. */
  function EnterUsername(username: string): (e: Entry)
    ensures |e.log| in {1, 2}
    ensures e.typed == Resolve(username, Config.TestData)
    ensures e.log[0] == "Entering username: " + username
    ensures |e.log| == 2 <==> Lookup(username, Config.TestData).Some?
    ensures |e.log| == 2 ==> e.log[1] == "Resolved username from test data: " + e.typed
  {
    var found := Lookup(username, Config.TestData);
    var typed := Resolve(username, Config.TestData);
    Entry(["Entering username: " + username]
          + (if found.Some? then ["Resolved username from test data: " + typed] else []), typed)
  }

  /**
   * enter_password: logs only the mask of the argument as written, and a fixed
   * line when it was a reference; types the resolved password.
   */
  function EnterPassword(password: string): (e: Entry)
    ensures |e.log| in {1, 2}
    ensures e.typed == Resolve(password, Config.TestData)
    ensures e.log[0] == "Entering password: " + Mask(password)
    ensures |e.log| == 2 <==> Lookup(password, Config.TestData).Some?
    ensures |e.log| == 2 ==> e.log[1] == "Resolved password from test data"
  {
    var found := Lookup(password, Config.TestData);
    Entry(["Entering password: " + Mask(password)]
          + (if found.Some? then ["Resolved password from test data"] else []),
          Resolve(password, Config.TestData))
  }

  /**
   * The password log depends on nothing but the length of the argument and on
   * whether it was a reference: two passwords alike in those two respects log
   * the same lines, whatever they are.
   */
  lemma PasswordLogHidesPassword(p: string, q: string)
    requires |p| == |q|
    requires Lookup(p, Config.TestData).Some? <==> Lookup(q, Config.TestData).Some?
    ensures EnterPassword(p).log == EnterPassword(q).log
  {
    MaskRevealsOnlyLength(p, q);
  }

  /**
   * A password given as a reference to TEST_DATA is typed as the stored
   * password, while the log shows only stars for the reference itself.
   */
  lemma PasswordReferenceEntry(dataset: string, key: string)
    requires dataset in Config.TestData && key in Config.TestData[dataset]
    ensures var e := EnterPassword("$" + dataset + "." + key);
      && e.typed == Config.TestData[dataset][key]
      && e.log == ["Entering password: " + Mask("$" + dataset + "." + key), "Resolved password from test data"]
  {
    TestDataKeysHaveNoDot(dataset, key);
    ResolveReference(dataset, key, Config.TestData);
  }

  /** The result of a `then` step: it passes, or its assert fails with a message. */
  datatype Verdict = Pass | AssertionFailed(message: string)

  const SuccessBanner: string := "You logged into a secure area!"

  /**
   * verify_successful_login: the success message must be visible, and must
   * contain the banner text.
   */
  function VerifySuccessfulLogin(visible: bool, successMessage: string): (v: Verdict)
    ensures v.Pass? <==> visible && exists i :: OccursAt(successMessage, SuccessBanner, i)
    ensures !visible ==> v == AssertionFailed("Success message is not displayed")
    ensures visible && v.AssertionFailed? ==> v.message == "Unexpected success message: " + successMessage
  {
    ContainsIffOccurs(successMessage, SuccessBanner);
    if !visible then AssertionFailed("Success message is not displayed")
    else if !Contains(successMessage, SuccessBanner) then
      AssertionFailed("Unexpected success message: " + successMessage)
    else Pass
  }

  /**
   * verify_error_message_text: passes exactly when the resolved expected text
   * occurs in the error message shown.
   */
  function VerifyErrorMessageText(expectedText: string, errorMessage: string): (v: Verdict)
    ensures var expected := Resolve(expectedText, Config.TestData);
      && (v.Pass? <==> exists i :: OccursAt(errorMessage, expected, i))
      && (v.AssertionFailed? ==>
            v.message == "Error message '" + errorMessage + "' does not contain '" + expected + "'")
  {
    var expected := Resolve(expectedText, Config.TestData);
    ContainsIffOccurs(errorMessage, expected);
    if Contains(errorMessage, expected) then Pass
    else AssertionFailed("Error message '" + errorMessage + "' does not contain '" + expected + "'")
  }

  /** An unresolvable reference in the expected text must occur verbatim in the error message. */
  lemma UnknownExpectedTextIsLiteral(dataset: string, key: string, errorMessage: string)
    requires '.' !in dataset && '.' !in key && dataset !in Config.TestData
    ensures var text := "$" + dataset + "." + key;
      VerifyErrorMessageText(text, errorMessage).Pass? <==> exists i :: OccursAt(errorMessage, text, i)
  {
    UnknownDatasetStaysLiteral(dataset, key);
  }
}
