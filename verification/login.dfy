/** The decision logic of `login_to_redbeam`: which fields and controls the two-step login form
    search settles on, what is done with them, and how the final address is judged. Waits,
    sleeps and diagnostics are left out; the two form states are given as pages. */
module Login {
  import opened Options
  import opened Text
  import opened Locators

  /** Username selectors, in the order they are tried. */
  const UsernameSelectors: seq<string> := [
    "input[name='username']", "input[name='email']", "input[id='username']", "input[id='email']",
    "input[type='email']", "input[autocomplete='username']", "input[autocomplete='email']",
    "input[name='user']", "input[type='text']", "input[id*='user']", "input[id*='email']",
    "input[id*='login']", "input[class*='user']", "input[class*='email']",
    "//input[@name='username']", "//input[@name='email']", "//input[@id='username']",
    "//input[@id='email']", "//input[@type='email']", "//input[@autocomplete='username']",
    "//input[@autocomplete='email']", "//input[contains(@id, 'user')]",
    "//input[contains(@id, 'email')]", "//input[contains(@id, 'login')]",
    "//input[contains(@class, 'user')]", "//input[contains(@class, 'email')]",
    "//input[contains(@placeholder, 'user')]", "//input[contains(@placeholder, 'email')]",
    "//input[contains(@placeholder, 'Email')]", "//input[contains(@placeholder, 'Username')]",
    "//input[@type='text' and not @type='password']"
  ]

  /** "Continue" button selectors after the username step. */
  const ContinueSelectors: seq<string> := [
    "button[type='submit']", "button[data-action-button-primary='true']",
    "button[class*='continue']", "button[class*='submit']", "//button[@type='submit']",
    "//button[@data-action-button-primary='true']", "//button[contains(text(), 'Continue')]",
    "//button[contains(text(), 'CONTINUE')]", "//button[contains(@class, 'continue')]",
    "//button[contains(@class, 'submit')]", "//*[@type='submit']"
  ]

  /** Password field selectors. */
  const PasswordSelectors: seq<string> := [
    "input[name='password']", "input[type='password']", "input[id*='pass']",
    "input[autocomplete='current-password']", "//input[@type='password']",
    "//input[@name='password']", "//input[@autocomplete='current-password']",
    "//input[contains(@id, 'pass')]", "//input[contains(@name, 'pass')]"
  ]

  /** Final login button selectors. */
  const LoginSelectors: seq<string> := [
    "button[type='submit']", "button[data-action-button-primary='true']",
    "button[class*='continue']", "button[class*='submit']", "input[type='submit']",
    "//button[@type='submit']", "//button[@data-action-button-primary='true']",
    "//input[@type='submit']", "//button[contains(text(), 'Continue')]",
    "//button[contains(text(), 'CONTINUE')]", "//button[contains(text(), 'Login')]",
    "//button[contains(text(), 'Sign in')]", "//button[contains(text(), 'Log in')]",
    "//button[contains(text(), 'Sign In')]", "//input[@value='Login']",
    "//input[@value='Sign in']", "//input[@value='Continue']",
    "//button[contains(@class, 'login')]", "//button[contains(@class, 'submit')]",
    "//button[contains(@class, 'continue')]", "//*[@type='submit']"
  ]

  /** Every input element of the page, for the exhaustive fallback scans. */
  const AllInputs: Query := TagName("input")

  /** Any element with a submit type, the last resort for the login button. */
  const AnySubmit: Query := XPath("//*[@type='submit']")

  /** The username field: the selector search, then the scan of all inputs. */
  function UsernameField(page: Page): (r: Option<Element>)
    ensures r.Some? ==> r.value.displayed && r.value.enabled && r.value.inputType != "password"
    ensures r.None? <==> FirstMatch(page, DispatchAll(UsernameSelectors), UsernameCandidate).None?
                         && forall e :: e in Find(page, AllInputs) ==> !Accepts(UsernameFallback, e)
    ensures FirstMatch(page, DispatchAll(UsernameSelectors), UsernameCandidate).Some? ==>
              r == Some(FirstMatch(page, DispatchAll(UsernameSelectors), UsernameCandidate).value.element)
    ensures FirstMatch(page, DispatchAll(UsernameSelectors), UsernameCandidate).None? ==>
              r == FirstAccepted(Find(page, AllInputs), UsernameFallback)
    ensures FirstMatch(page, DispatchAll(UsernameSelectors), UsernameCandidate).None? && r.Some? ==>
              r.value in Find(page, AllInputs) && r.value.inputType !in {"password", "hidden", "submit", "button"}
  {
    var hit := FirstMatch(page, DispatchAll(UsernameSelectors), UsernameCandidate);
    if hit.Some? then Found(hit) else FirstAccepted(Find(page, AllInputs), UsernameFallback)
  }

  /** The password field: the selector search, then the scan for a displayed password input. */
  function PasswordField(page: Page): (r: Option<Element>)
    ensures r.Some? ==> r.value.displayed
    ensures r.Some? && FirstMatch(page, DispatchAll(PasswordSelectors), Interactive).None? ==>
              r.value.inputType == "password"
    ensures r.None? <==> FirstMatch(page, DispatchAll(PasswordSelectors), Interactive).None?
                         && forall e :: e in Find(page, AllInputs) ==> !Accepts(PasswordFallback, e)
    ensures FirstMatch(page, DispatchAll(PasswordSelectors), Interactive).Some? ==>
              r == Some(FirstMatch(page, DispatchAll(PasswordSelectors), Interactive).value.element)
    ensures FirstMatch(page, DispatchAll(PasswordSelectors), Interactive).None? ==>
              r == FirstAccepted(Find(page, AllInputs), PasswordFallback)
  {
    var hit := FirstMatch(page, DispatchAll(PasswordSelectors), Interactive);
    if hit.Some? then Found(hit) else FirstAccepted(Find(page, AllInputs), PasswordFallback)
  }

  /** The control that completes the username step, if any. */
  function ContinueControl(page: Page): (r: Option<Element>)
    ensures r.Some? ==> r.value.displayed && r.value.enabled
    ensures r.None? <==> forall i :: 0 <= i < |ContinueSelectors| ==>
                           FirstAccepted(Find(page, Dispatch(ContinueSelectors[i])), Interactive).None?
    ensures r.Some? ==> exists i :: 0 <= i < |ContinueSelectors|
                          && FirstAccepted(Find(page, Dispatch(ContinueSelectors[i])), Interactive) == r
                          && forall j :: 0 <= j < i ==>
                               FirstAccepted(Find(page, Dispatch(ContinueSelectors[j])), Interactive).None?
  {
    var qs := DispatchAll(ContinueSelectors);
    var hit := FirstMatch(page, qs, Interactive);
    assert hit.Some? ==> FirstAccepted(Find(page, qs[hit.value.index]), Interactive) == Some(hit.value.element);
    Found(hit)
  }

  /** The final login control: the selector search, then any displayed submit element. */
  function LoginControl(page: Page): (r: Option<Element>)
    ensures r.Some? ==> r.value.displayed
    ensures r.None? <==> FirstMatch(page, DispatchAll(LoginSelectors), Interactive).None?
                         && forall e :: e in Find(page, AnySubmit) ==> !e.displayed
    ensures FirstMatch(page, DispatchAll(LoginSelectors), Interactive).Some? ==>
              r == Some(FirstMatch(page, DispatchAll(LoginSelectors), Interactive).value.element)
    ensures FirstMatch(page, DispatchAll(LoginSelectors), Interactive).None? ==>
              r == FirstAccepted(Find(page, AnySubmit), Visible)
  {
    var hit := FirstMatch(page, DispatchAll(LoginSelectors), Interactive);
    if hit.Some? then Found(hit) else FirstAccepted(Find(page, AnySubmit), Visible)
  }

  /** What the script does to the page. */
  datatype Action = Fill(field: Element, text: string) | Click(control: Element) | PressEnter(field: Element)

  /** The exceptions the login raises. */
  datatype LoginError = UsernameFieldNotFound | PasswordFieldNotFound | StillOnLoginPage

  /** How the 45-second wait for the application address ended. */
  datatype Redirect = Redirected | TimedOut(url: string)

  /** Which test ends the redirect wait: the one in the script, or the one it evidently means. */
  datatype WaitTest = AsWritten | Intended

  /** The application host, the login host under it, the login path, and the address of the
      login page built from them. */
  const AppHost := "app.redbeam.com"
  const LoginHost := "login." + AppHost
  const LoginPath := "/u/login"
  const LoginPageAddress := "https://" + LoginHost + LoginPath

  /** Whether an observed address ends the wait. As written, any address mentioning the
      application host does, including the login host `login.app.redbeam.com` itself. */
  predicate ReachedApp(test: WaitTest, url: string) {
    match test
    case AsWritten => Contains(url, AppHost)
    case Intended => Contains(url, AppHost) && !StillOnLogin(url)
  }

  /** The wait, given the addresses seen at each poll and the address read once it gives up. */
  function AwaitApp(test: WaitTest, observed: seq<string>, final: string): (r: Redirect)
    ensures r.Redirected? <==> exists i :: 0 <= i < |observed| && ReachedApp(test, observed[i])
    ensures r.TimedOut? ==> r.url == final
  {
    if observed == [] then TimedOut(final)
    else if ReachedApp(test, observed[0]) then Redirected
    else
      var rest := AwaitApp(test, observed[1..], final);
      assert forall i :: 1 <= i < |observed| ==> observed[i] == observed[1..][i - 1];
      rest
  }

  /** The actions taken and how the login ended (`None` is success). */
  datatype LoginRun = LoginRun(actions: seq<Action>, failure: Option<LoginError>)

  /** The address checks made after the redirect wait times out, as written. */
  predicate StillOnLogin(url: string) {
    Contains(url, LoginHost) || Contains(url, LoginPath) || Contains(Lower(url), "login")
  }

  /** Submitting a step: click the control if one was found, else press Enter in the field. */
  function Submit(control: Option<Element>, field: Element): (a: Action)
    ensures a.Click? <==> control.Some?
    ensures a.PressEnter? <==> control.None?
    ensures a.PressEnter? ==> a.field == field
    ensures a.Click? ==> a.control == control.value
  {
    if control.Some? then Click(control.value) else PressEnter(field)
  }

  /** The login flow over the identifier page and the password page. */
  function RunLogin(identifierPage: Page, passwordPage: Page, redirect: Redirect,
                    username: string, password: string): (r: LoginRun)
    ensures r.failure == Some(UsernameFieldNotFound) <==> UsernameField(identifierPage).None?
    ensures r.failure == Some(UsernameFieldNotFound) ==> r.actions == []
    ensures r.failure == Some(PasswordFieldNotFound) <==>
              UsernameField(identifierPage).Some? && PasswordField(passwordPage).None?
    ensures r.failure == Some(PasswordFieldNotFound) ==> |r.actions| == 2
    ensures r.failure == Some(StillOnLoginPage) <==>
              UsernameField(identifierPage).Some? && PasswordField(passwordPage).Some?
              && redirect.TimedOut? && Contains(Lower(redirect.url), "login")
    ensures UsernameField(identifierPage).Some? ==>
              |r.actions| >= 2 && r.actions[0] == Fill(UsernameField(identifierPage).value, username)
              && r.actions[1] == Submit(ContinueControl(identifierPage), UsernameField(identifierPage).value)
    ensures PasswordField(passwordPage).Some? && UsernameField(identifierPage).Some? ==>
              |r.actions| == 4 && r.actions[2] == Fill(PasswordField(passwordPage).value, password)
              && r.actions[3] == Submit(LoginControl(passwordPage), PasswordField(passwordPage).value)
  {
    LoginSteps(UsernameField(identifierPage), PasswordField(passwordPage),
               ContinueControl(identifierPage), LoginControl(passwordPage), redirect, username, password)
  }

  /** The login flow once the two fields and the two controls have been looked up. */
  function LoginSteps(user: Option<Element>, pass: Option<Element>, next: Option<Element>, login: Option<Element>,
                      redirect: Redirect, username: string, password: string): (r: LoginRun)
    ensures r.failure == Some(UsernameFieldNotFound) <==> user.None?
    ensures r.failure == Some(UsernameFieldNotFound) ==> r.actions == []
    ensures r.failure == Some(PasswordFieldNotFound) <==> user.Some? && pass.None?
    ensures r.failure == Some(PasswordFieldNotFound) ==> |r.actions| == 2
    ensures r.failure == Some(StillOnLoginPage) <==>
              user.Some? && pass.Some? && redirect.TimedOut? && Contains(Lower(redirect.url), "login")
    ensures user.Some? ==>
              |r.actions| >= 2 && r.actions[0] == Fill(user.value, username)
              && r.actions[1] == Submit(next, user.value)
    ensures pass.Some? && user.Some? ==>
              |r.actions| == 4 && r.actions[2] == Fill(pass.value, password)
              && r.actions[3] == Submit(login, pass.value)
  {
    match user
    case None => LoginRun([], Some(UsernameFieldNotFound))
    case Some(u) =>
      var first := [Fill(u, username), Submit(next, u)];
      match pass
      case None => LoginRun(first, Some(PasswordFieldNotFound))
      case Some(p) =>
        var actions := first + [Fill(p, password), Submit(login, p)];
        StillOnLoginIsLoginWord(if redirect.TimedOut? then redirect.url else "");
        if redirect.TimedOut? && StillOnLogin(redirect.url) then LoginRun(actions, Some(StillOnLoginPage))
        else LoginRun(actions, None)
  }

  /** The whole login, with the redirect wait as intended: `observed` are the addresses seen
      while waiting and `final` the one read when the wait gives up. */
  function Authenticate(identifierPage: Page, passwordPage: Page, observed: seq<string>, final: string,
                        username: string, password: string): (r: LoginRun)
    ensures r.failure.None? ==>
              UsernameField(identifierPage).Some? && PasswordField(passwordPage).Some?
              && ((exists i :: 0 <= i < |observed| && ReachedApp(Intended, observed[i])) || !StillOnLogin(final))
  {
    var redirect := AwaitApp(Intended, observed, final);
    StillOnLoginIsLoginWord(final);
    RunLogin(identifierPage, passwordPage, redirect, username, password)
  }

  /** With the intended wait, a login whose addresses all stay on a login page fails. */
  lemma {:induction false} LoginPageFailsWhenIntended(identifierPage: Page, passwordPage: Page,
      observed: seq<string>, final: string, username: string, password: string)
    requires UsernameField(identifierPage).Some? && PasswordField(passwordPage).Some?
    requires forall i :: 0 <= i < |observed| ==> StillOnLogin(observed[i])
    requires StillOnLogin(final)
    ensures Authenticate(identifierPage, passwordPage, observed, final, username, password).failure
            == Some(StillOnLoginPage)
  {
    var r := AwaitApp(Intended, observed, final);
    forall i | 0 <= i < |observed| ensures !ReachedApp(Intended, observed[i]) { }
    assert r == TimedOut(final);
    StillOnLoginIsLoginWord(final);
  }

  /** As written, the login host's own address ends the wait, so a login that never leaves
      the login page is reported as a success. */
  lemma LoginHostPassesAsWritten(identifierPage: Page, passwordPage: Page, username: string,
      password: string)
    requires UsernameField(identifierPage).Some? && PasswordField(passwordPage).Some?
    ensures StillOnLogin(LoginPageAddress)
    ensures RunLogin(identifierPage, passwordPage, AwaitApp(AsWritten, [LoginPageAddress], LoginPageAddress),
                     username, password).failure
            == None
    ensures Authenticate(identifierPage, passwordPage, [LoginPageAddress], LoginPageAddress, username, password).failure
            == Some(StillOnLoginPage)
  {
    var url := LoginPageAddress;
    LoginHostAddress();
    LoginHostIsLogin();
    assert AwaitApp(AsWritten, [url], url) == Redirected;
    LoginPageFailsWhenIntended(identifierPage, passwordPage, [url], url, username, password);
  }

  /** The login page's address mentions the application host... */
  lemma LoginHostAddress()
    ensures Contains(LoginPageAddress, AppHost)
  {
    InfixContained(LoginPageAddress, "https://", LoginHost, LoginPath);
    assert OccursAt(LoginHost, AppHost, 6);
    ContainsTransitive(LoginPageAddress, LoginHost, AppHost);
  }

  /** ...and is still the login page. */
  lemma LoginHostIsLogin()
    ensures StillOnLogin(LoginPageAddress)
  {
    InfixContained(LoginPageAddress, "https://", LoginHost, LoginPath);
  }

  /** The three address checks amount to one: the lower-cased address mentions "login". */
  lemma StillOnLoginIsLoginWord(url: string)
    ensures StillOnLogin(url) <==> Contains(Lower(url), "login")
  {
    LoginIsLower();
    if Contains(url, LoginHost) {
      HostMentionsLogin();
      ContainsTransitive(url, LoginHost, "login");
      LowerContains(url, "login");
    }
    if Contains(url, LoginPath) {
      PathMentionsLogin();
      ContainsTransitive(url, LoginPath, "login");
      LowerContains(url, "login");
    }
  }

  lemma LoginIsLower()
    ensures Lower("login") == "login"
  {
    LowerPointwise("login", "login");
  }

  lemma HostMentionsLogin()
    ensures Contains(LoginHost, "login")
  {
    assert OccursAt(LoginHost, "login", 0);
  }

  lemma PathMentionsLogin()
    ensures Contains(LoginPath, "login")
  {
    assert OccursAt(LoginPath, "login", 3);
  }
}
