/**
 * The sign-in / sign-up page: the form, its validation with per-field
 * error flags and messages, and what a submit sets off.
 */
module AuthPage {
  import opened JsText

  datatype Mode = SignIn | SignUp

  /** An error flag with the message shown under the field. */
  datatype FieldError = FieldError(error: bool, message: string)

  datatype Errors = Errors(name: FieldError, email: FieldError, password: FieldError)

  datatype Form = Form(
    mode: Mode,
    name: string,
    username: string,
    password: string,
    gender: string,
    errors: Errors)

  datatype Verdict = Verdict(valid: bool, errors: Errors)

  /** What a submit asks of the rest of the application, in order. */
  datatype Effect =
    | SetTheme(theme: string)
    | OnAuth
    | NavigateHome   // go to the home path, replacing the current history entry, after a short delay

  datatype Submission = Submission(form: Form, effects: seq<Effect>)

  const NoError := FieldError(false, "")
  const NameRequired := "Name is required."
  const EmailInvalid := "Please enter a valid email address."
  const PasswordTooShort := "Password must be at least 3 characters."
  const MinPasswordLength := 3

  /** The page as first rendered: sign-in mode, empty fields, gender "boy", no errors. */
  function InitialForm(): Form {
    Form(SignIn, "", "", "", "boy", Errors(NoError, NoError, NoError))
  }

  /** The "Create account" link. */
  function ShowSignUp(f: Form): Form {
    f.(mode := SignUp)
  }

  /** The "Sign in" link. */
  function ShowSignIn(f: Form): Form {
    f.(mode := SignIn)
  }

  // ---------------------------------------------------------------------
  // The email pattern `\S+@\S+\.\S+`, searched anywhere in the string

  /** `s[a..e]` matches the pattern with its `@` at `p` and its `.` at `q`. */
  ghost predicate PatternMatchAt(s: string, a: int, p: int, q: int, e: int) {
    && 0 <= a < p && p + 1 < q && q + 1 < e <= |s|
    && s[p] == '@' && s[q] == '.'
    && NoWhitespace(s[a..p]) && NoWhitespace(s[p + 1..q]) && NoWhitespace(s[q + 1..e])
  }

  /** `/\S+@\S+\.\S+/.test(s)`: some substring matches. */
  ghost predicate PatternTest(s: string) {
    exists a, p, q, e :: PatternMatchAt(s, a, p, q, e)
  }

  /** An `@` at `p` and a `.` at `q` with a non-blank character before, between and after. */
  predicate AtAndDot(s: string, p: int, q: int) {
    && 0 < p && p + 1 < q && q + 1 < |s|
    && s[p] == '@' && s[q] == '.'
    && !IsWhitespace(s[p - 1]) && NoWhitespace(s[p + 1..q]) && !IsWhitespace(s[q + 1])
  }

  /** The executable form of the pattern test. */
  predicate EmailPattern(s: string) {
    exists q, p | 0 <= q < |s| && 0 <= p < q :: AtAndDot(s, p, q)
  }

  /** The executable test agrees with the pattern's meaning: it suffices to look one character around `@` and `.`. */
  lemma EmailPatternIff(s: string)
    ensures EmailPattern(s) <==> PatternTest(s)
  {
    if EmailPattern(s) {
      var q, p :| 0 <= q < |s| && 0 <= p < q && AtAndDot(s, p, q);
      assert s[p - 1..p] == [s[p - 1]];
      assert s[q + 1..q + 2] == [s[q + 1]];
      assert PatternMatchAt(s, p - 1, p, q, q + 2);
    }
    if PatternTest(s) {
      var a, p, q, e :| PatternMatchAt(s, a, p, q, e);
      assert s[p - 1] == s[a..p][p - 1 - a];
      assert s[q + 1] == s[q + 1..e][0];
      assert AtAndDot(s, p, q);
    }
  }

  /** Without a `.` nothing matches. */
  lemma NoDotNoEmail(s: string)
    requires '.' !in s
    ensures !PatternTest(s)
  {
    EmailPatternIff(s);
  }

  /** A concrete address that matches. */
  lemma SampleEmailMatches()
    ensures PatternTest("mom@example.com")
  {
    var s := "mom@example.com";
    forall i | 0 <= i < |s|
      ensures !IsWhitespace(s[i])
    {
      assert 'a' <= s[i] <= 'z' || s[i] == '@' || s[i] == '.';
    }
    assert AtAndDot(s, 3, 11);
    EmailPatternIff(s);
  }

  // ---------------------------------------------------------------------
  // Validation

  /** The name passes when it is non-empty and not all white space. */
  predicate NameOk(name: string) {
    name != "" && Trim(name) != ""
  }

  /** The email passes when it is non-empty and matches the address pattern. */
  predicate EmailOk(username: string) {
    username != "" && EmailPattern(username)
  }

  /** The password passes when it is non-empty and at least three characters long. */
  predicate PasswordOk(password: string) {
    password != "" && |password| >= MinPasswordLength
  }

  /** The flag and message a check leaves on its field. */
  function Check(ok: bool, message: string): FieldError {
    if ok then NoError else FieldError(true, message)
  }

  /** The name check: fails exactly when the name is blank. */
  function NameCheck(name: string): (e: FieldError)
    ensures e == if AllWhitespace(name) then FieldError(true, "Name is required.") else FieldError(false, "")
  {
    TrimEmptyIff(name);
    Check(NameOk(name), NameRequired)
  }

  /** The email check: fails exactly when no substring matches the pattern. */
  function EmailCheck(username: string): (e: FieldError)
    ensures e == if PatternTest(username) then FieldError(false, "")
                 else FieldError(true, "Please enter a valid email address.")
  {
    EmailPatternIff(username);
    EmptyEmailFails();
    Check(EmailOk(username), EmailInvalid)
  }

  /** The password check: fails exactly when it is shorter than three characters. */
  function PasswordCheck(password: string): (e: FieldError)
    ensures e == if |password| < 3 then FieldError(true, "Password must be at least 3 characters.")
                 else FieldError(false, "")
  {
    Check(PasswordOk(password), PasswordTooShort)
  }

  /**
   * `validateSignUp`: the name is checked in sign-up mode only; the email and
   * the password always. Each checked field gets its flag and message; the
   * name's are left alone in sign-in mode. The form is valid when every
   * check made passes.
   */
  function Validate(f: Form): (v: Verdict)
    ensures v.valid <==>
      && (f.mode == SignUp ==> !AllWhitespace(f.name))
      && PatternTest(f.username)
      && |f.password| >= 3
    ensures f.mode == SignIn ==> v.errors.name == f.errors.name
    ensures f.mode == SignUp ==> v.errors.name == NameCheck(f.name)
    ensures v.errors.email == EmailCheck(f.username)
    ensures v.errors.password == PasswordCheck(f.password)
  {
    var name := if f.mode == SignUp then NameCheck(f.name) else f.errors.name;
    var email := EmailCheck(f.username);
    var password := PasswordCheck(f.password);
    var nameOk := f.mode == SignUp ==> !name.error;
    Verdict(nameOk && !email.error && !password.error, Errors(name, email, password))
  }

  /** The empty string fails the pattern, so the `!username` guard adds nothing. */
  lemma EmptyEmailFails()
    ensures !EmailPattern("") && !PatternTest("")
  {
    EmailPatternIff("");
  }

  /**
   * `handleSubmit`: an invalid form only shows its errors; a valid one
   * applies the chosen gender as theme, reports the sign-in, then goes home.
   * Each callback is called only when the page was given it.
   */
  function Submit(f: Form, hasSetTheme: bool, hasOnAuth: bool): (r: Submission)
    ensures r.form == f.(errors := Validate(f).errors)
    ensures !Validate(f).valid ==> r.effects == []
    ensures Validate(f).valid ==> |r.effects| >= 1 && r.effects[|r.effects| - 1] == NavigateHome
    ensures Validate(f).valid && hasSetTheme && hasOnAuth ==>
      r.effects == [SetTheme(f.gender), OnAuth, NavigateHome]
  {
    var v := Validate(f);
    var f' := f.(errors := v.errors);
    if !v.valid then Submission(f', [])
    else Submission(f', Callbacks(f.gender, hasSetTheme, hasOnAuth) + [NavigateHome])
  }

  /** The callbacks a valid submit calls, in order, among those the page was given. */
  function Callbacks(gender: string, hasSetTheme: bool, hasOnAuth: bool): (r: seq<Effect>)
    ensures hasSetTheme && hasOnAuth ==> r == [SetTheme(gender), OnAuth]
  {
    (if hasSetTheme then [SetTheme(gender)] else []) + (if hasOnAuth then [OnAuth] else [])
  }

  // ---------------------------------------------------------------------
  // Properties

  /** In sign-in mode the name neither affects the verdict nor has its error state touched. */
  lemma SignInIgnoresName(f: Form, otherName: string)
    requires f.mode == SignIn
    ensures Validate(f.(name := otherName)).valid == Validate(f).valid
    ensures Validate(f.(name := otherName)).errors == Validate(f).errors
  {
  }

  /**
   * Each evaluated field's flag is raised exactly when its message is
   * non-empty. The email and password are evaluated in both modes; the name
   * only in sign-up mode, and in sign-in mode it keeps the state it had.
   */
  lemma FlagIffMessage(f: Form)
    ensures var e := Validate(f).errors;
      && (e.email.error <==> e.email.message != "")
      && (e.password.error <==> e.password.message != "")
      && (f.mode == SignUp ==> (e.name.error <==> e.name.message != ""))
      && (f.mode == SignIn && (f.errors.name.error <==> f.errors.name.message != "") ==>
            (e.name.error <==> e.name.message != ""))
  {
  }

  /** The page starts in sign-in mode; the links switch to sign-up and back, and nothing else changes. */
  lemma ModeLinks(f: Form)
    ensures InitialForm().mode == SignIn
    ensures ShowSignUp(f).mode == SignUp && ShowSignIn(f).mode == SignIn
    ensures ShowSignUp(f) == f.(mode := SignUp) && ShowSignIn(f) == f.(mode := SignIn)
    ensures ShowSignIn(ShowSignUp(f)) == f.(mode := SignIn)
  {
  }
}
