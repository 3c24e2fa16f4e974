/** The client's zod schemas for the register and login forms. A form is the object
    submitted, a map from key to string. zod's own `.email()` check is not modelled:
    it is the parameter `isEmail`. */
module AuthSchema {
  import opened Wrappers

  /** One validation issue: the field it is about ("" for the object itself) and its message. */
  datatype Issue = Issue(path: string, message: string)

  /** `RegisterFormValues`. */
  datatype RegisterFormValues = RegisterFormValues(name: string, email: string, password: string, confirmPassword: string)

  /** `LoginFormValues`. */
  datatype LoginFormValues = LoginFormValues(email: string, password: string)

  const Required := "Required"
  const PasswordsDoNotMatch := "Passwords do not match"
  const UnrecognizedKeys := "Unrecognized key(s) in object"

  /** The keys the register object declares. */
  const RegisterKeys: set<string> := {"name", "email", "password", "confirmPassword"}

  function Field(form: map<string, string>, key: string): Option<string>
  {
    if key in form then Some(form[key]) else None
  }

  // ---- password character classes ----

  predicate IsUpper(c: char) { 'A' <= c <= 'Z' }
  predicate IsLower(c: char) { 'a' <= c <= 'z' }
  predicate IsDigit(c: char) { '0' <= c <= '9' }
  /** `[^A-Za-z0-9]`. */
  predicate IsSpecial(c: char) { !IsUpper(c) && !IsLower(c) && !IsDigit(c) }

  /** `regex.test(s)` for a one-character class: some character of s is in it. */
  predicate HasUpper(s: string)   { exists i :: 0 <= i < |s| && IsUpper(s[i]) }
  predicate HasLower(s: string)   { exists i :: 0 <= i < |s| && IsLower(s[i]) }
  predicate HasDigit(s: string)   { exists i :: 0 <= i < |s| && IsDigit(s[i]) }
  predicate HasSpecial(s: string) { exists i :: 0 <= i < |s| && IsSpecial(s[i]) }

  /** Everything the password rules ask for. */
  predicate StrongPassword(p: string)
  {
    |p| >= 8 && HasUpper(p) && HasLower(p) && HasDigit(p) && HasSpecial(p)
  }

  // ---- register ----

  function NameIssues(v: Option<string>): (r: seq<Issue>)
    ensures forall i :: 0 <= i < |r| ==> r[i].path == "name"
    ensures r == [] <==> v.Some? && 3 <= |v.value| <= 50
  {
    if v.None? then [Issue("name", Required)]
    else
      (if |v.value| < 3 then [Issue("name", "Name must be at least 3 characters")] else []) +
      (if |v.value| > 50 then [Issue("name", "Name cannot be more than 50 characters")] else [])
  }

  function EmailIssues(v: Option<string>, isEmail: string -> bool): (r: seq<Issue>)
    ensures forall i :: 0 <= i < |r| ==> r[i].path == "email"
    ensures r == [] <==> v.Some? && isEmail(v.value)
  {
    if v.None? then [Issue("email", Required)]
    else if !isEmail(v.value) then [Issue("email", "Invalid email address")]
    else []
  }

  /** One password rule: its issue when the rule fails, nothing when it holds. */
  function PasswordRule(holds: bool, message: string): (r: seq<Issue>)
    ensures r == [] <==> holds
    ensures forall i :: 0 <= i < |r| ==> r[i] == Issue("password", message)
  {
    if holds then [] else [Issue("password", message)]
  }

  const SpecialMessage := "Password must contain at least one special character"

  /** Every password check runs, so each rule that fails adds its own issue. */
  function PasswordIssues(v: Option<string>): (r: seq<Issue>)
    ensures forall i :: 0 <= i < |r| ==> r[i].path == "password"
    ensures r == [] <==> v.Some? && StrongPassword(v.value)
    ensures v.Some? ==> (Issue("password", SpecialMessage) in r <==> !HasSpecial(v.value))
  {
    if v.None? then [Issue("password", Required)]
    else
      var p := v.value;
      var special := PasswordRule(HasSpecial(p), SpecialMessage);
      var others :=
        PasswordRule(|p| >= 8, "Password must be at least 8 characters") +
        (PasswordRule(HasUpper(p), "Password must contain at least one uppercase letter") +
        (PasswordRule(HasLower(p), "Password must contain at least one lowercase letter") +
         PasswordRule(HasDigit(p), "Password must contain at least one number")));
      assert Issue("password", SpecialMessage) !in others;
      others + special
  }

  function ConfirmIssues(v: Option<string>): (r: seq<Issue>)
    ensures r == [] <==> v.Some?
    ensures forall i :: 0 <= i < |r| ==> r[i] == Issue("confirmPassword", Required)
  {
    if v.None? then [Issue("confirmPassword", Required)] else []
  }

  /** The refinement runs only when no field aborted the parse, which a missing key does. */
  predicate RefineRuns(form: map<string, string>)
  {
    RegisterKeys <= form.Keys
  }

  /** The issues of a register form, in the order zod reports them: the fields, then the
      keys `.strict()` does not recognise, then the refinement. */
  function RegisterIssues(form: map<string, string>, isEmail: string -> bool): (r: seq<Issue>)
    ensures Issue("", UnrecognizedKeys) in r <==> form.Keys - RegisterKeys != {}
    ensures Issue("confirmPassword", PasswordsDoNotMatch) in r <==>
      RefineRuns(form) && form["password"] != form["confirmPassword"]
    ensures forall i, j :: 0 <= i < j < |r| && r[i].path == "" ==>
      r[j] == Issue("confirmPassword", PasswordsDoNotMatch)
  {
    var fields := NameIssues(Field(form, "name")) +
      EmailIssues(Field(form, "email"), isEmail) +
      PasswordIssues(Field(form, "password")) +
      ConfirmIssues(Field(form, "confirmPassword"));
    var strict := if form.Keys - RegisterKeys != {} then [Issue("", UnrecognizedKeys)] else [];
    var refine := if RefineRuns(form) && form["password"] != form["confirmPassword"]
      then [Issue("confirmPassword", PasswordsDoNotMatch)] else [];
    RegisterFieldPaths(form, isEmail, fields);
    IssueOrder(fields, strict, refine);
    fields + strict + refine
  }

  /** A register form has no issue exactly when it has the declared keys and no others,
      every field rule holds and the passwords match. */
  lemma RegisterIssuesEmpty(form: map<string, string>, isEmail: string -> bool)
    ensures RegisterIssues(form, isEmail) == [] <==>
      form.Keys == RegisterKeys &&
      3 <= |form["name"]| <= 50 && isEmail(form["email"]) && StrongPassword(form["password"]) &&
      form["password"] == form["confirmPassword"]
  {
    var fields := NameIssues(Field(form, "name")) +
      EmailIssues(Field(form, "email"), isEmail) +
      PasswordIssues(Field(form, "password")) +
      ConfirmIssues(Field(form, "confirmPassword"));
    var strict := if form.Keys - RegisterKeys != {} then [Issue("", UnrecognizedKeys)] else [];
    var refine := if RefineRuns(form) && form["password"] != form["confirmPassword"]
      then [Issue("confirmPassword", PasswordsDoNotMatch)] else [];
    RegisterFieldPaths(form, isEmail, fields);
    assert RegisterIssues(form, isEmail) == fields + strict + refine;
    assert strict == [] <==> form.Keys <= RegisterKeys;
  }

  /** Field issues, then at most the strict-keys issue, then at most the mismatch: after an
      issue on the object only the mismatch can follow. */
  lemma IssueOrder(fields: seq<Issue>, strict: seq<Issue>, refine: seq<Issue>)
    requires forall i :: 0 <= i < |fields| ==>
      fields[i].path != "" && fields[i] != Issue("confirmPassword", PasswordsDoNotMatch)
    requires strict == [] || strict == [Issue("", UnrecognizedKeys)]
    requires refine == [] || refine == [Issue("confirmPassword", PasswordsDoNotMatch)]
    ensures var r := fields + strict + refine;
      (Issue("", UnrecognizedKeys) in r <==> strict != []) &&
      (Issue("confirmPassword", PasswordsDoNotMatch) in r <==> refine != []) &&
      (forall i, j :: 0 <= i < j < |r| && r[i].path == "" ==>
        r[j] == Issue("confirmPassword", PasswordsDoNotMatch))
  {
    var r := fields + strict + refine;
    forall i, j | 0 <= i < j < |r| && r[i].path == ""
      ensures r[j] == Issue("confirmPassword", PasswordsDoNotMatch)
    {
      assert i >= |fields| by {
        if i < |fields| { assert false; }
      }
    }
    if Issue("", UnrecognizedKeys) in r {
      var k :| 0 <= k < |r| && r[k] == Issue("", UnrecognizedKeys);
      if k < |fields| { assert r[k] == fields[k]; }
    }
    if Issue("confirmPassword", PasswordsDoNotMatch) in r {
      var k :| 0 <= k < |r| && r[k] == Issue("confirmPassword", PasswordsDoNotMatch);
      if k < |fields| { assert r[k] == fields[k]; }
    }
  }

  /** The field issues of a register form are about the fields, not the object, and none
      of them is the mismatch. */
  lemma RegisterFieldPaths(form: map<string, string>, isEmail: string -> bool, fields: seq<Issue>)
    requires fields == NameIssues(Field(form, "name")) +
      EmailIssues(Field(form, "email"), isEmail) +
      PasswordIssues(Field(form, "password")) +
      ConfirmIssues(Field(form, "confirmPassword"))
    ensures forall i :: 0 <= i < |fields| ==>
      fields[i].path != "" && fields[i] != Issue("confirmPassword", PasswordsDoNotMatch)
    ensures fields == [] <==>
      RegisterKeys <= form.Keys &&
      3 <= |form["name"]| <= 50 && isEmail(form["email"]) && StrongPassword(form["password"])
  {
    var n := NameIssues(Field(form, "name"));
    var e := EmailIssues(Field(form, "email"), isEmail);
    var p := PasswordIssues(Field(form, "password"));
    var c := ConfirmIssues(Field(form, "confirmPassword"));
    assert fields == n + e + p + c;
    forall i | 0 <= i < |fields|
      ensures fields[i].path != "" && fields[i] != Issue("confirmPassword", PasswordsDoNotMatch)
    {
      if i < |n| { assert fields[i] == n[i]; }
      else if i < |n| + |e| { assert fields[i] == e[i - |n|]; }
      else if i < |n| + |e| + |p| { assert fields[i] == p[i - |n| - |e|]; }
      else { assert fields[i] == c[i - |n| - |e| - |p|]; }
    }
  }

  /** `registerFormSchema.safeParse(form)`. */
  function ParseRegister(form: map<string, string>, isEmail: string -> bool): (r: Result<RegisterFormValues, seq<Issue>>)
    ensures r.Ok? <==>
      form.Keys == RegisterKeys &&
      3 <= |form["name"]| <= 50 && isEmail(form["email"]) && StrongPassword(form["password"]) &&
      form["password"] == form["confirmPassword"]
    ensures r.Ok? ==> r.value == RegisterFormValues(form["name"], form["email"], form["password"], form["confirmPassword"])
    ensures r.Err? ==> r.error == RegisterIssues(form, isEmail) && r.error != []
  {
    RegisterIssuesEmpty(form, isEmail);
    var issues := RegisterIssues(form, isEmail);
    if issues != [] then Err(issues)
    else Ok(RegisterFormValues(form["name"], form["email"], form["password"], form["confirmPassword"]))
  }

  /** A confirmation that differs from a present password is reported on `confirmPassword`,
      whatever else is wrong with the form. */
  lemma MismatchReportedOnConfirm(form: map<string, string>, isEmail: string -> bool)
    requires RegisterKeys <= form.Keys && form["password"] != form["confirmPassword"]
    ensures Issue("confirmPassword", PasswordsDoNotMatch) in RegisterIssues(form, isEmail)
    ensures ParseRegister(form, isEmail).Err?
  {
    var issues := RegisterIssues(form, isEmail);
    assert issues[|issues| - 1] == Issue("confirmPassword", PasswordsDoNotMatch);
  }

  /** With a key missing the refinement does not run, so there is no mismatch issue, only
      the missing field's own. */
  lemma MissingKeySkipsRefine(form: map<string, string>, isEmail: string -> bool)
    requires "password" !in form
    ensures Issue("confirmPassword", PasswordsDoNotMatch) !in RegisterIssues(form, isEmail)
    ensures Issue("password", Required) in RegisterIssues(form, isEmail)
  {
    assert !RefineRuns(form) && Field(form, "password").None?;
    var cut := NameIssues(Field(form, "name")) + EmailIssues(Field(form, "email"), isEmail);
    var issues := RegisterIssues(form, isEmail);
    assert issues[|cut|] == Issue("password", Required);
  }

  /** A form with a key the schema does not declare is rejected, with an issue on the object. */
  lemma UnknownKeyRejected(form: map<string, string>, isEmail: string -> bool, k: string)
    requires k in form && k !in RegisterKeys
    ensures Issue("", UnrecognizedKeys) in RegisterIssues(form, isEmail)
    ensures ParseRegister(form, isEmail).Err?
  {
    var cut := NameIssues(Field(form, "name")) + EmailIssues(Field(form, "email"), isEmail) +
      PasswordIssues(Field(form, "password")) + ConfirmIssues(Field(form, "confirmPassword"));
    assert k in form.Keys - RegisterKeys;
    var issues := RegisterIssues(form, isEmail);
    assert issues[|cut|] == Issue("", UnrecognizedKeys);
  }

  // ---- login ----

  function LoginIssues(form: map<string, string>, isEmail: string -> bool): (r: seq<Issue>)
    ensures r == [] <==> "email" in form && isEmail(form["email"]) && "password" in form && form["password"] != ""
  {
    EmailIssues(Field(form, "email"), isEmail) +
    (if "password" !in form then [Issue("password", Required)]
     else if form["password"] == "" then [Issue("password", "Password is required")]
     else [])
  }

  /** `loginFormSchema.safeParse(form)`: keys other than `email` and `password` are dropped. */
  function ParseLogin(form: map<string, string>, isEmail: string -> bool): (r: Result<LoginFormValues, seq<Issue>>)
    ensures r.Ok? <==> "email" in form && isEmail(form["email"]) && "password" in form && form["password"] != ""
    ensures r.Ok? ==> r.value == LoginFormValues(form["email"], form["password"])
  {
    var issues := LoginIssues(form, isEmail);
    if issues != [] then Err(issues) else Ok(LoginFormValues(form["email"], form["password"]))
  }

  /** Extra keys make no difference to a login form. */
  lemma LoginIgnoresExtraKeys(form: map<string, string>, isEmail: string -> bool, k: string, v: string)
    requires k != "email" && k != "password"
    ensures ParseLogin(form[k := v], isEmail) == ParseLogin(form, isEmail)
  {
    assert Field(form[k := v], "email") == Field(form, "email");
  }
}
