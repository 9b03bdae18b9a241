/** The login form: e-mail, password and role, with the demo buttons that fill it in.
    Any non-blank e-mail and password are accepted. */
module LoginScreen {
  import opened Types
  import opened Text

  const EMAIL_REQUIRED: string := "Please enter your email"
  const PASSWORD_REQUIRED: string := "Please enter your password"
  const DEMO_PASSWORD: string := "demo123"
  const DEMO_EMPLOYEE_EMAIL: string := "john.doe@contoso.com"
  const DEMO_MANAGER_EMAIL: string := "sarah.manager@contoso.com"

  datatype LoginForm = LoginForm(email: string, password: string, role: Role, error: Option<string>)

  const INITIAL_FORM: LoginForm := LoginForm("", "", Employee, None)

  /** A login handed to the application: the e-mail as typed, untrimmed, and the role. */
  datatype Login = Login(email: string, role: Role)

  /** `handleSubmit`: the error is cleared, a blank e-mail and then a blank password are
      refused with a message, and anything else logs in. */
  function HandleSubmit(f: LoginForm): (res: (LoginForm, Option<Login>))
    ensures res.0.email == f.email && res.0.password == f.password && res.0.role == f.role
    ensures IsBlank(f.email) ==> res == (f.(error := Some(EMAIL_REQUIRED)), None)
    ensures !IsBlank(f.email) && IsBlank(f.password) ==> res == (f.(error := Some(PASSWORD_REQUIRED)), None)
    ensures res.1.Some? <==> !IsBlank(f.email) && !IsBlank(f.password)
    ensures res.1.Some? ==> res.1.value == Login(f.email, f.role) && res.0.error.None?
  {
    TrimEmptyIffBlank(f.email);
    TrimEmptyIffBlank(f.password);
    var cleared := f.(error := None);
    if Trim(f.email) == "" then (cleared.(error := Some(EMAIL_REQUIRED)), None)
    else if Trim(f.password) == "" then (cleared.(error := Some(PASSWORD_REQUIRED)), None)
    else (cleared, Some(Login(f.email, f.role)))
  }

  /** `handleDemoLogin(role)`: fills in the demo account of that role; the error stays. */
  function HandleDemoLogin(f: LoginForm, role: Role): (f': LoginForm)
    ensures f'.role == role && f'.password == DEMO_PASSWORD && f'.error == f.error
    ensures role == Employee ==> f'.email == DEMO_EMPLOYEE_EMAIL
    ensures role == Manager ==> f'.email == DEMO_MANAGER_EMAIL
  {
    var email := if role == Employee then DEMO_EMPLOYEE_EMAIL else DEMO_MANAGER_EMAIL;
    f.(email := email, role := role, password := DEMO_PASSWORD)
  }

  /** A demo button followed by "Sign In" always logs in, as the chosen demo account. */
  lemma DemoLoginSucceeds(f: LoginForm, role: Role)
    ensures var login := HandleSubmit(HandleDemoLogin(f, role)).1;
      login == Some(Login(if role == Employee then DEMO_EMPLOYEE_EMAIL else DEMO_MANAGER_EMAIL, role))
  {
    var g := HandleDemoLogin(f, role);
    assert !IsWhitespace(g.email[0]) && !IsWhitespace(DEMO_PASSWORD[0]);
    assert !IsBlank(g.email) && !IsBlank(g.password);
  }

  /** The outcome of a submit does not depend on the message left by the previous one. */
  lemma SubmitIgnoresPreviousError(f: LoginForm, e: Option<string>)
    ensures HandleSubmit(f.(error := e)) == HandleSubmit(f)
  {
  }
}
