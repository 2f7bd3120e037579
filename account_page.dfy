/**
 * The navigation of the account page (pages/3_Account.py). Streamlit runs the
 * whole script again on every interaction; what survives between runs is the
 * session state, here the three keys `account_page`, `user` and
 * `remember_me`. One run is modelled as a step on that state driven by an
 * `Event`: the button pressed in this run (at most one), the text typed in
 * the page's fields, the "Remember Me" box, and the outcome of the call to
 * Firebase Authentication, which is outside the model and so an input.
 *
 * `Step` and its parts are the specification; the class `AccountSession`
 * keeps the three keys in fields and performs the same run in place.
 */
module AccountPage {
  import opened Wrappers
  import opened AccountValidators

  /** The four values `account_page` takes. */
  datatype Page = Login | SignUp | PasswordReset | Profile

  /** The button pressed during a run; a button of another page cannot be pressed. */
  datatype Button =
    | NoButton
    | LoginButton      // "Login"
    | ForgotPassword   // "Forgot Password?"
    | GoToSignUp       // "Go to Sign Up"
    | SignUpButton     // "Sign Up"
    | BackToLogin      // "Back to Login", on the sign-up and the reset page
    | SendResetLink    // "Send Reset Link"
    | Logout           // "Logout"

  /** The call made to Firebase Authentication during a run, if any. */
  datatype AuthRequest =
    | NoRequest
    | GetUserByEmail(email: string)
    | CreateUser(email: string, password: string)
    | GeneratePasswordResetLink(email: string)

  /** What the user did in one run and how the authentication call, if made, went. */
  datatype Event = Event(button: Button, email: string, password: string, rememberBox: bool, authOk: bool)

  /**
   * The session keys: `None` for a key not yet set. An unset
   * `remember_me` and `False` are alike to the script, so it is a `bool`.
   */
  datatype State = State(accountPage: Option<Page>, user: Option<string>, rememberMe: bool)

  /** The state after a run, and the authentication call the run made. */
  datatype Outcome = Outcome(state: State, request: AuthRequest)

  /** A new browser session: no key is set. */
  const Fresh: State := State(None, None, false)

  /** `"user" in st.session_state and st.session_state["user"]` */
  predicate LoggedIn(s: State) {
    s.user.Some? && s.user.value != ""
  }

  /** The profile page is shown only to a signed-in user, whose address passed `is_valid_email`. */
  predicate Valid(s: State) {
    (s.accountPage == Some(Profile) ==> LoggedIn(s))
    && (s.user.Some? ==> IsValidEmail(s.user.value))
  }

  /** Lines 73-74: an unset page becomes the login page; nothing else changes. */
  function WithPage(s: State): (r: State)
    ensures s.accountPage == None ==> r.accountPage == Some(Login)
    ensures s.accountPage.Some? ==> r == s
    ensures r.user == s.user && r.rememberMe == s.rememberMe
  {
    if s.accountPage == None then s.(accountPage := Some(Login)) else s
  }

  /**
   * `check_remember_me`: a remembered, signed-in user is sent to the
   * profile page; otherwise nothing changes.
   */
  function AfterRememberMe(s: State): (r: State)
    ensures r.user == s.user && r.rememberMe == s.rememberMe
    ensures s.rememberMe && LoggedIn(s) ==> r.accountPage == Some(Profile)
    ensures !(s.rememberMe && LoggedIn(s)) ==> r == s
  {
    if s.rememberMe && LoggedIn(s) then s.(accountPage := Some(Profile)) else s
  }

  /**
   * The login form: the box is stored in `remember_me` on every run; "Login"
   * looks the address up only when it is valid and a password was typed,
   * and signs in only when the lookup succeeds; the two other buttons move
   * to their pages.
   */
  function OnLogin(s: State, e: Event): (r: Outcome)
    requires s.accountPage == Some(Login)
    ensures r.state.rememberMe == e.rememberBox
    ensures r.request != NoRequest ==>
      e.button == LoginButton && r.request == GetUserByEmail(e.email) && IsValidEmail(e.email) && e.password != ""
    ensures r.state.accountPage == Some(Profile) <==> r.request.GetUserByEmail? && e.authOk
    ensures r.state.user != s.user ==> r.state.accountPage == Some(Profile) && r.state.user == Some(e.email)
    ensures r.request.GetUserByEmail? && e.authOk ==> r.state.user == Some(e.email)
    ensures e.button == LoginButton && IsValidEmail(e.email) && e.password != "" ==>
      r.request == GetUserByEmail(e.email)
    ensures e.button == ForgotPassword ==> r.state.accountPage == Some(PasswordReset)
    ensures e.button == GoToSignUp ==> r.state.accountPage == Some(SignUp)
    ensures e.button != ForgotPassword && e.button != GoToSignUp && !(r.request.GetUserByEmail? && e.authOk) ==>
      r.state == s.(rememberMe := e.rememberBox)
  {
    var s1 := s.(rememberMe := e.rememberBox);
    match e.button
    case LoginButton =>
      if !IsValidEmail(e.email) || e.password == "" then Outcome(s1, NoRequest)
      else if e.authOk then Outcome(s1.(user := Some(e.email), accountPage := Some(Profile)), GetUserByEmail(e.email))
      else Outcome(s1, GetUserByEmail(e.email))
    case ForgotPassword => Outcome(s1.(accountPage := Some(PasswordReset)), NoRequest)
    case GoToSignUp => Outcome(s1.(accountPage := Some(SignUp)), NoRequest)
    case _ => Outcome(s1, NoRequest)
  }

  /**
   * The sign-up form: an account is created only for a valid address and
   * password, and success goes back to the login page without signing in.
   */
  function OnSignUp(s: State, e: Event): (r: Outcome)
    requires s.accountPage == Some(SignUp)
    ensures r.state.user == s.user && r.state.rememberMe == s.rememberMe
    ensures r.request != NoRequest ==>
      e.button == SignUpButton && r.request == CreateUser(e.email, e.password)
      && IsValidEmail(e.email) && IsValidPassword(e.password)
    ensures r.state.accountPage == Some(Login) <==>
      e.button == BackToLogin || (r.request.CreateUser? && e.authOk)
    ensures r.state.accountPage != Some(Login) ==> r.state == s
    ensures e.button == SignUpButton && IsValidEmail(e.email) && IsValidPassword(e.password) ==>
      r.request == CreateUser(e.email, e.password)
  {
    match e.button
    case SignUpButton =>
      if !IsValidEmail(e.email) || !IsValidPassword(e.password) then Outcome(s, NoRequest)
      else if e.authOk then Outcome(s.(accountPage := Some(Login)), CreateUser(e.email, e.password))
      else Outcome(s, CreateUser(e.email, e.password))
    case BackToLogin => Outcome(s.(accountPage := Some(Login)), NoRequest)
    case _ => Outcome(s, NoRequest)
  }

  /**
   * The reset form: a reset link is asked for only for a valid address;
   * whether it was sent changes only the message shown.
   */
  function OnPasswordReset(s: State, e: Event): (r: Outcome)
    requires s.accountPage == Some(PasswordReset)
    ensures r.state.user == s.user && r.state.rememberMe == s.rememberMe
    ensures r.request != NoRequest ==>
      e.button == SendResetLink && r.request == GeneratePasswordResetLink(e.email) && IsValidEmail(e.email)
    ensures r.state.accountPage == Some(Login) <==> e.button == BackToLogin
    ensures e.button != BackToLogin ==> r.state == s
    ensures e.button == SendResetLink && IsValidEmail(e.email) ==> r.request == GeneratePasswordResetLink(e.email)
  {
    match e.button
    case SendResetLink =>
      if IsValidEmail(e.email) then Outcome(s, GeneratePasswordResetLink(e.email)) else Outcome(s, NoRequest)
    case BackToLogin => Outcome(s.(accountPage := Some(Login)), NoRequest)
    case _ => Outcome(s, NoRequest)
  }

  /** The profile page: "Logout" forgets the user and the box and goes back to login. */
  function OnProfile(s: State, e: Event): (r: Outcome)
    requires s.accountPage == Some(Profile)
    ensures r.request == NoRequest
    ensures e.button == Logout <==> r.state.user == None && r.state.accountPage == Some(Login) && !r.state.rememberMe
    ensures e.button != Logout ==> r.state == s
  {
    if e.button == Logout then Outcome(State(Some(Login), None, false), NoRequest)
    else Outcome(s, NoRequest)
  }

  /** The page a run shows: after the initialisation and the remember-me check. */
  function Shown(s: State): (p: Page)
    ensures s.rememberMe && LoggedIn(s) ==> p == Profile
    ensures s.accountPage == None && !(s.rememberMe && LoggedIn(s)) ==> p == Login
    ensures s.accountPage.Some? && !(s.rememberMe && LoggedIn(s)) ==> p == s.accountPage.value
  {
    AfterRememberMe(WithPage(s)).accountPage.value
  }

  /**
   * One run of the script. Every authentication call is guarded by the
   * validators, the user changes only by a successful lookup of the typed
   * address or by logging out, and a session never reaches the profile page
   * without a user.
   */
  function Step(s: State, e: Event): (r: Outcome)
    ensures r.request.GetUserByEmail? ==>
      Shown(s) == Login && e.button == LoginButton && r.request.email == e.email
      && IsValidEmail(e.email) && e.password != ""
    ensures r.request.CreateUser? ==>
      Shown(s) == SignUp && e.button == SignUpButton && r.request == CreateUser(e.email, e.password)
      && IsValidEmail(e.email) && IsValidPassword(e.password)
    ensures r.request.GeneratePasswordResetLink? ==>
      Shown(s) == PasswordReset && e.button == SendResetLink && r.request.email == e.email
      && IsValidEmail(e.email)
    ensures r.state.user != s.user ==>
      (r.request == GetUserByEmail(e.email) && e.authOk && r.state.user == Some(e.email))
      || (Shown(s) == Profile && e.button == Logout && r.state.user == None)
    ensures Shown(s) == Login && r.state.accountPage == Some(Profile) ==>
      r.request == GetUserByEmail(e.email) && e.authOk
    ensures r.state.accountPage.Some?
  {
    var s1 := AfterRememberMe(WithPage(s));
    match s1.accountPage.value
    case Login => OnLogin(s1, e)
    case SignUp => OnSignUp(s1, e)
    case PasswordReset => OnPasswordReset(s1, e)
    case Profile => OnProfile(s1, e)
  }

  /** `Valid` holds for a fresh session and every run keeps it. */
  lemma StepKeepsValid(s: State, e: Event)
    requires Valid(s)
    ensures Valid(Step(s, e).state)
  {
    var s1 := AfterRememberMe(WithPage(s));
    assert Valid(s1);
    match s1.accountPage.value
    case Login => LoginKeepsValid(s1, e);
    case SignUp => assert Step(s, e) == OnSignUp(s1, e);
    case PasswordReset => assert Step(s, e) == OnPasswordReset(s1, e);
    case Profile => assert Step(s, e) == OnProfile(s1, e);
  }

  /** Signing in sets the user only to an address that passed `is_valid_email`. */
  lemma LoginKeepsValid(s: State, e: Event)
    requires s.accountPage == Some(Login) && Valid(s)
    ensures Valid(OnLogin(s, e).state)
  {
  }

  /** A new session keeps the invariant. */
  lemma FreshIsValid()
    ensures Valid(Fresh)
  {
  }

  /** The first run of a session shows the login page and leaves it there unless a button moves it. */
  lemma FreshSessionStartsAtLogin(e: Event)
    requires e.button == NoButton
    ensures Shown(Fresh) == Login
    ensures Step(Fresh, e).state == State(Some(Login), None, e.rememberBox)
  {
  }

  /** A remembered, signed-in user stays on the profile page until logging out. */
  lemma RememberedUserStaysOnProfile(s: State, e: Event)
    requires s.rememberMe && LoggedIn(s) && e.button != Logout
    ensures Step(s, e).state == s.(accountPage := Some(Profile))
    ensures Step(s, e).request == NoRequest
  {
  }

  /**
   * On the login page, a valid address, a non-empty password and a
   * successful lookup sign the user in and open the profile page.
   */
  lemma LoginSucceeds(s: State, e: Event)
    requires Shown(s) == Login && e.button == LoginButton && e.authOk
    requires IsValidEmail(e.email) && e.password != ""
    ensures Step(s, e) == Outcome(State(Some(Profile), Some(e.email), e.rememberBox), GetUserByEmail(e.email))
  {
  }

  /**
   * On the login page, a lookup that fails leaves the user as it was and
   * the login page shown; only the box is stored.
   */
  lemma LoginFails(s: State, e: Event)
    requires Shown(s) == Login && e.button == LoginButton && !e.authOk
    requires IsValidEmail(e.email) && e.password != ""
    ensures Step(s, e) == Outcome(s.(accountPage := Some(Login), rememberMe := e.rememberBox), GetUserByEmail(e.email))
  {
  }

  /** Logging out clears the user and the box and returns to the login page. */
  lemma LogoutClears(s: State, e: Event)
    requires Shown(s) == Profile && e.button == Logout
    ensures Step(s, e) == Outcome(State(Some(Login), None, false), NoRequest)
  {
  }

  /** Signing up never signs anyone in. */
  lemma SignUpKeepsUser(s: State, e: Event)
    requires Shown(s) == SignUp
    ensures Step(s, e).state.user == s.user
  {
  }

  /**
   * Signing in asks Firebase only whether the address has an account: the
   * password is required to be non-empty but is never compared with anything.
   */
  lemma LoginIgnoresPassword(s: State, e: Event, other: string)
    requires Shown(s) == Login && e.password != "" && other != ""
    ensures Step(s, e) == Step(s, e.(password := other))
  {
  }

  /** The moves of the navigation buttons. */
  lemma NavigationButtons(s: State, e: Event)
    ensures Shown(s) == Login && e.button == ForgotPassword ==>
      Step(s, e).state.accountPage == Some(PasswordReset)
    ensures Shown(s) == Login && e.button == GoToSignUp ==>
      Step(s, e).state.accountPage == Some(SignUp)
    ensures (Shown(s) == SignUp || Shown(s) == PasswordReset) && e.button == BackToLogin ==>
      Step(s, e).state.accountPage == Some(Login)
  {
  }

  /** A successful sign-up returns to the login page; a failed one stays. */
  lemma SignUpOutcome(s: State, e: Event)
    requires Shown(s) == SignUp && e.button == SignUpButton
    requires IsValidEmail(e.email) && IsValidPassword(e.password)
    ensures Step(s, e).request == CreateUser(e.email, e.password)
    ensures Step(s, e).state.accountPage == Some(if e.authOk then Login else SignUp)
  {
  }

  /**
   * The session keys of one browser session, updated in place by the runs
   * of the script.
   */
  class AccountSession {
    var accountPage: Option<Page>
    var user: Option<string>
    var rememberMe: bool

    function Current(): State
      reads this
    {
      State(accountPage, user, rememberMe)
    }

    /** A new session: no key is set. */
    constructor ()
      ensures Current() == Fresh && Valid(Current())
    {
      accountPage := None;
      user := None;
      rememberMe := false;
      FreshIsValid();
    }

    /** Lines 73-74. */
    method InitPage()
      modifies this
      ensures Current() == WithPage(old(Current()))
    {
      if accountPage == None {
        accountPage := Some(Login);
      }
    }

    /** `check_remember_me`. */
    method CheckRememberMe()
      modifies this
      ensures Current() == AfterRememberMe(old(Current()))
    {
      if rememberMe && user.Some? && user.value != "" {
        accountPage := Some(Profile);
      }
    }

    /** The login form, run when the login page is shown. */
    method LoginForm(e: Event) returns (request: AuthRequest)
      requires accountPage == Some(Login)
      modifies this
      ensures Outcome(Current(), request) == OnLogin(old(Current()), e)
    {
      rememberMe := e.rememberBox;
      request := NoRequest;
      if e.button == LoginButton {
        if !IsValidEmail(e.email) {
        } else if e.password == "" {
        } else {
          request := GetUserByEmail(e.email);
          if e.authOk {
            user := Some(e.email);
            accountPage := Some(Profile);
            return;
          }
        }
      }
      if e.button == ForgotPassword {
        accountPage := Some(PasswordReset);
        return;
      }
      if e.button == GoToSignUp {
        accountPage := Some(SignUp);
        return;
      }
    }

    /** The sign-up form, run when the sign-up page is shown. */
    method SignUpForm(e: Event) returns (request: AuthRequest)
      requires accountPage == Some(SignUp)
      modifies this
      ensures Outcome(Current(), request) == OnSignUp(old(Current()), e)
    {
      request := NoRequest;
      if e.button == SignUpButton {
        if !IsValidEmail(e.email) {
        } else if !IsValidPassword(e.password) {
        } else {
          request := CreateUser(e.email, e.password);
          if e.authOk {
            accountPage := Some(Login);
            return;
          }
        }
      }
      if e.button == BackToLogin {
        accountPage := Some(Login);
        return;
      }
    }

    /** The password reset form, run when the reset page is shown. */
    method PasswordResetForm(e: Event) returns (request: AuthRequest)
      requires accountPage == Some(PasswordReset)
      modifies this
      ensures Outcome(Current(), request) == OnPasswordReset(old(Current()), e)
    {
      request := NoRequest;
      if e.button == SendResetLink {
        if IsValidEmail(e.email) {
          request := GeneratePasswordResetLink(e.email);
        }
      }
      if e.button == BackToLogin {
        accountPage := Some(Login);
        return;
      }
    }

    /** The profile page, run when it is shown. */
    method ProfilePage(e: Event) returns (request: AuthRequest)
      requires accountPage == Some(Profile)
      modifies this
      ensures Outcome(Current(), request) == OnProfile(old(Current()), e)
    {
      request := NoRequest;
      if e.button == Logout {
        user := None;
        rememberMe := false;
        accountPage := Some(Login);
        return;
      }
    }

    /** One run of the script on this session. */
    method Run(e: Event) returns (request: AuthRequest)
      modifies this
      ensures Outcome(Current(), request) == Step(old(Current()), e)
      ensures Valid(old(Current())) ==> Valid(Current())
    {
      if Valid(Current()) {
        StepKeepsValid(Current(), e);
      }
      InitPage();
      CheckRememberMe();
      match accountPage.value
      case Login => request := LoginForm(e);
      case SignUp => request := SignUpForm(e);
      case PasswordReset => request := PasswordResetForm(e);
      case Profile => request := ProfilePage(e);
    }
  }

  /**
   * A session in which a user signs up, signs in with the box ticked and is
   * then sent straight to the profile page by the next run.
   */
  method SignUpThenSignIn(email: string, password: string) returns (session: AccountSession)
    requires IsValidEmail(email) && IsValidPassword(password)
    ensures session.Current() == State(Some(Profile), Some(email), true)
    ensures Valid(session.Current())
  {
    session := new AccountSession();
    var toSignUp := Event(GoToSignUp, "", "", false, false);
    NavigationButtons(Fresh, toSignUp);
    var r := session.Run(toSignUp);
    var signUp := Event(SignUpButton, email, password, false, true);
    SignUpOutcome(session.Current(), signUp);
    r := session.Run(signUp);
    var login := Event(LoginButton, email, password, true, true);
    assert password != "" by {
      assert !PasswordRules(Body(""));
    }
    LoginSucceeds(session.Current(), login);
    r := session.Run(login);
    var idle := Event(NoButton, "", "", false, false);
    RememberedUserStaysOnProfile(session.Current(), idle);
    r := session.Run(idle);
  }
}
