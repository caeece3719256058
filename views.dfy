/**
 * The request handlers of the site's `Home` app as functions from the
 * server's state and a request to the new state and a response.
 *
 * The state is the user table, the request's authenticated user, the
 * session's `username` entry and the queue of flash messages. Passwords are
 * kept abstractly: `authenticate` is "the user exists and its stored
 * password equals the one given".
 */
module Views {
  import opened Wrappers
  import Text
  import Email

  /** A row of the user table: what signup stores besides the username. */
  datatype Account = Account(email: string, password: string)

  /** The user table, keyed by username. */
  type Users = map<string, Account>

  datatype Level = Success | Error

  /** A flash message queued for the next page shown. */
  datatype Msg = Msg(level: Level, text: string)

  /**
   * `user` is the authenticated user's username (`request.user`), `None` for
   * an anonymous request; `sessionUsername` is the session's `username` entry.
   */
  datatype State = State(users: Users, user: Option<string>, sessionUsername: Option<string>, messages: seq<Msg>)

  /** The request method; the handlers only ask whether it is `POST`. */
  datatype Verb = Get | Post | OtherVerb

  /** The POST fields the handlers read: `username`, `email`, `password`, `confirm_password`. */
  datatype Key = UsernameKey | EmailKey | PasswordKey | ConfirmPasswordKey

  /** An HTTP request: its method and the POST form fields it carries. */
  datatype Request = Request(verb: Verb, form: map<Key, string>)

  /** The route names of the URL table: `home`, `about`, `contact`, `login`, `signup`, `logout`. */
  datatype Name = HomeName | AboutName | ContactName | LoginName | SignupName | LogoutName

  /** The templates the handlers render. */
  datatype Template = HomeTemplate | AboutTemplate | ContactTemplate | LoginTemplate | SignupTemplate

  /** The file each template is read from. */
  function TemplateFile(t: Template): string
  {
    match t
    case HomeTemplate => "home.html"
    case AboutTemplate => "about.html"
    case ContactTemplate => "contact.html"
    case LoginTemplate => "login.html"
    case SignupTemplate => "Signup.html"
  }

  /** Distinct templates are read from distinct files. */
  lemma TemplateFilesDistinct(t1: Template, t2: Template)
    requires t1 != t2
    ensures TemplateFile(t1) != TemplateFile(t2)
  {
  }

  /** A redirect to a named route, a rendered template, or no route for the path. */
  datatype Response = Redirect(to: Name) | Render(template: Template) | NotFound

  const MIN_PASSWORD_LENGTH := 6

  const ALL_FIELDS_REQUIRED := "All fields are required."
  const INVALID_EMAIL := "Enter a valid email address."
  const USERNAME_TAKEN := "Username already taken."
  const EMAIL_TAKEN := "Email already registered."
  const PASSWORD_TOO_SHORT := "Password must be at least 6 characters."
  const PASSWORD_MISMATCH := "Passwords do not match."
  const SIGNUP_SUCCESS := "Signup successful! Please login."
  const BOTH_REQUIRED := "Both username and password are required."
  const INVALID_CREDENTIALS := "Invalid credentials."
  const LOGGED_OUT := "You have successfully logged out."

  /** The state of a fresh server: no users, an anonymous request, nothing queued. */
  const INITIAL: State := State(map[], None, None, [])

  /** `request.POST.get(key, '')`. */
  function Field(form: map<Key, string>, key: Key): string
  {
    if key in form then form[key] else ""
  }

  function AddMessage(st: State, level: Level, text: string): State
  {
    st.(messages := st.messages + [Msg(level, text)])
  }

  // ---------------------------------------------------------------------------
  // Signup

  /** The four signup fields after reading the form. */
  datatype SignupForm = SignupForm(username: string, email: string, password: string, confirm: string)

  /** Username and email are stripped; password and confirmation are taken as sent. */
  function ReadSignupForm(form: map<Key, string>): SignupForm
  {
    SignupForm(Text.Strip(Field(form, UsernameKey)), Text.Strip(Field(form, EmailKey)),
               Field(form, PasswordKey), Field(form, ConfirmPasswordKey))
  }

  /** The signup checks, each named by the rejection it produces. */
  datatype SignupError =
    | FieldsRequired
    | InvalidEmail
    | UsernameTaken
    | EmailTaken
    | PasswordTooShort
    | PasswordMismatch

  /** Position of a check in the handler's chain. */
  function Rank(e: SignupError): nat
  {
    match e
    case FieldsRequired => 0
    case InvalidEmail => 1
    case UsernameTaken => 2
    case EmailTaken => 3
    case PasswordTooShort => 4
    case PasswordMismatch => 5
  }

  /** Some user is registered with this email. */
  predicate EmailInUse(users: Users, email: string)
  {
    exists u | u in users :: users[u].email == email
  }

  /** When each check, taken on its own, rejects the form. */
  ghost predicate Fails(e: SignupError, users: Users, f: SignupForm)
  {
    match e
    case FieldsRequired => f.username == [] || f.email == [] || f.password == [] || f.confirm == []
    case InvalidEmail => !Email.PatternMatches(f.email)
    case UsernameTaken => f.username in users
    case EmailTaken => EmailInUse(users, f.email)
    case PasswordTooShort => |f.password| < MIN_PASSWORD_LENGTH
    case PasswordMismatch => f.password != f.confirm
  }

  /**
   * The signup check chain. The result is the failing check that comes
   * first in the chain, and `None` exactly when no check fails.
   */
  function ValidateSignup(users: Users, f: SignupForm): (r: Option<SignupError>)
    ensures r.None? <==> forall e :: !Fails(e, users, f)
    ensures r.Some? ==> Fails(r.value, users, f)
    ensures r.Some? ==> forall e :: Rank(e) < Rank(r.value) ==> !Fails(e, users, f)
  {
    var r :=
      if f.username == [] || f.email == [] || f.password == [] || f.confirm == [] then Some(FieldsRequired)
      else if !Email.MatchEmail(f.email) then Some(InvalidEmail)
      else if f.username in users then Some(UsernameTaken)
      else if EmailInUse(users, f.email) then Some(EmailTaken)
      else if |f.password| < MIN_PASSWORD_LENGTH then Some(PasswordTooShort)
      else if f.password != f.confirm then Some(PasswordMismatch)
      else None;
    assert r.Some? ==> Fails(r.value, users, f);
    r
  }

  /** The flash text of each rejection. */
  function ErrorText(e: SignupError): string
  {
    match e
    case FieldsRequired => ALL_FIELDS_REQUIRED
    case InvalidEmail => INVALID_EMAIL
    case UsernameTaken => USERNAME_TAKEN
    case EmailTaken => EMAIL_TAKEN
    case PasswordTooShort => PASSWORD_TOO_SHORT
    case PasswordMismatch => PASSWORD_MISMATCH
  }

  /**
   * `signup_page`: an authenticated request goes home, a GET renders the
   * form, a POST runs the check chain and either queues the first failure's
   * message or adds the user.
   */
  function SignupStep(st: State, req: Request): (State, Response)
  {
    if st.user.Some? then (st, Redirect(HomeName))
    else if req.verb == Post then
      var f := ReadSignupForm(req.form);
      match ValidateSignup(st.users, f)
      case Some(e) => (AddMessage(st, Error, ErrorText(e)), Redirect(SignupName))
      case None =>
        (AddMessage(st.(users := st.users[f.username := Account(f.email, f.password)]), Success, SIGNUP_SUCCESS),
         Redirect(LoginName))
    else (st, Render(SignupTemplate))
  }

  // ---------------------------------------------------------------------------
  // Login and logout

  /** `authenticate`: the username of the matching user, if the credentials match one. */
  function Authenticate(users: Users, username: string, password: string): Option<string>
  {
    if username in users && users[username].password == password then Some(username) else None
  }

  /**
   * `login_page`: an authenticated request goes home, a GET renders the
   * form, a POST checks the fields and the credentials.
   */
  function LoginStep(st: State, req: Request): (State, Response)
  {
    if st.user.Some? then (st, Redirect(HomeName))
    else if req.verb == Post then
      var username := Text.Strip(Field(req.form, UsernameKey));
      var password := Field(req.form, PasswordKey);
      if username == [] || password == [] then
        (AddMessage(st, Error, BOTH_REQUIRED), Redirect(LoginName))
      else
        match Authenticate(st.users, username, password)
        case Some(u) => (st.(user := Some(u), sessionUsername := Some(username)), Redirect(HomeName))
        case None => (AddMessage(st, Error, INVALID_CREDENTIALS), Redirect(LoginName))
    else (st, Render(LoginTemplate))
  }

  /**
   * `logout_user`: from any state, no authenticated user and an empty
   * session afterwards, one success message queued, a redirect to `signup`.
   */
  function LogoutStep(st: State): (State, Response)
  {
    (AddMessage(st.(user := None, sessionUsername := None), Success, LOGGED_OUT), Redirect(SignupName))
  }

  // ---------------------------------------------------------------------------
  // Pages behind `login_required`

  /** A view under `login_required(login_url='login')` that renders `template`. */
  function Protected(st: State, template: Template): (State, Response)
  {
    if st.user.None? then (st, Redirect(LoginName)) else (st, Render(template))
  }

  function HomePage(st: State): (State, Response) { Protected(st, HomeTemplate) }

  function AboutPage(st: State): (State, Response) { Protected(st, AboutTemplate) }

  function ContactPage(st: State): (State, Response) { Protected(st, ContactTemplate) }

  /**
   * Signup never touches the session, and the user table changes only on
   * success: a response other than the redirect to `login` leaves it as it was.
   */
  lemma SignupKeepsSession(st: State, req: Request)
    ensures var r := SignupStep(st, req);
            && r.0.user == st.user && r.0.sessionUsername == st.sessionUsername
            && (r.1 != Redirect(LoginName) ==> r.0.users == st.users)
  {
  }

  /**
   * Signup succeeds exactly when the request is an anonymous POST whose form
   * passes every check; then it adds exactly the new user, keeps every other
   * user, queues one success message and redirects to `login`.
   */
  lemma SignupSucceeds(st: State, req: Request)
    ensures var r := SignupStep(st, req);
            r.1 == Redirect(LoginName) <==>
              st.user.None? && req.verb == Post && ValidateSignup(st.users, ReadSignupForm(req.form)).None?
    ensures var r := SignupStep(st, req);
            var f := ReadSignupForm(req.form);
            r.1 == Redirect(LoginName) ==>
              && f.username !in st.users
              && r.0.users == st.users[f.username := Account(f.email, f.password)]
              && r.0.messages == st.messages + [Msg(Success, SIGNUP_SUCCESS)]
              && r.0.user == st.user && r.0.sessionUsername == st.sessionUsername
  {
    var f := ReadSignupForm(req.form);
    if SignupStep(st, req).1 == Redirect(LoginName) {
      assert ValidateSignup(st.users, f).None?;
      assert !Fails(UsernameTaken, st.users, f);
    }
  }

  /**
   * Login never changes the user table; the session changes only on a
   * redirect home; every redirect back to `login` queues exactly one of the
   * two error messages and changes nothing else.
   */
  lemma LoginOutcome(st: State, req: Request)
    ensures var r := LoginStep(st, req);
            && r.0.users == st.users
            && (r.0.user != st.user ==> r.1 == Redirect(HomeName) && r.0.user.Some?)
            && (r.1 == Redirect(LoginName) ==>
                  r.0 == AddMessage(st, Error, BOTH_REQUIRED) || r.0 == AddMessage(st, Error, INVALID_CREDENTIALS))
  {
  }

  // ---------------------------------------------------------------------------
  // The invariant every handler keeps

  /** No two users share an email. */
  ghost predicate UniqueEmails(users: Users)
  {
    forall u, v | u in users && v in users && users[u].email == users[v].email :: u == v
  }

  /**
   * Emails are unique, an authenticated user is in the table, and the
   * session's `username` entry names the authenticated user.
   */
  ghost predicate Valid(st: State)
  {
    && UniqueEmails(st.users)
    && (st.user.Some? ==> st.user.value in st.users)
    && st.sessionUsername == st.user
  }

  lemma InitialValid()
    ensures Valid(INITIAL)
  {
  }

  lemma SignupPreservesValid(st: State, req: Request)
    requires Valid(st)
    ensures Valid(SignupStep(st, req).0)
  {
    var r := SignupStep(st, req);
    SignupKeepsSession(st, req);
    SignupSucceeds(st, req);
    if r.1 == Redirect(LoginName) {
      var f := ReadSignupForm(req.form);
      assert !Fails(EmailTaken, st.users, f);
      forall u, v | u in r.0.users && v in r.0.users && r.0.users[u].email == r.0.users[v].email
        ensures u == v
      {
        if u != f.username && v != f.username {
          assert st.users[u].email == st.users[v].email;
        }
      }
    }
  }

  lemma LoginPreservesValid(st: State, req: Request)
    requires Valid(st)
    ensures Valid(LoginStep(st, req).0)
  {
  }

  lemma LogoutPreservesValid(st: State)
    requires Valid(st)
    ensures Valid(LogoutStep(st).0)
  {
  }

  // ---------------------------------------------------------------------------
  // Signup properties

  /** An authenticated request to signup is sent home and changes nothing. */
  lemma SignupWhileAuthenticated(st: State, req: Request)
    requires st.user.Some?
    ensures SignupStep(st, req) == (st, Redirect(HomeName))
  {
  }

  /** A rejected signup queues exactly the first failing check's message and redirects to `signup`. */
  lemma SignupRejected(st: State, req: Request, e: SignupError)
    requires st.user.None? && req.verb == Post
    requires ValidateSignup(st.users, ReadSignupForm(req.form)) == Some(e)
    ensures SignupStep(st, req) == (st.(messages := st.messages + [Msg(Error, ErrorText(e))]), Redirect(SignupName))
  {
  }

  /** Every signup check has its own message, so the message tells which check failed. */
  lemma ErrorTextsDistinct(e1: SignupError, e2: SignupError)
    requires e1 != e2
    ensures ErrorText(e1) != ErrorText(e2)
  {
  }

  /** A username field of only whitespace is empty once stripped, so signup says all fields are required. */
  lemma BlankUsernameRejected(users: Users, form: map<Key, string>)
    requires Text.AllSpace(Field(form, UsernameKey))
    ensures ValidateSignup(users, ReadSignupForm(form)) == Some(FieldsRequired)
  {
  }

  /**
   * Surrounding whitespace in the username and email fields makes no
   * difference to signup: they are stripped before any check.
   */
  lemma SignupIgnoresPadding(form: map<Key, string>, username: string, email: string)
    requires Text.Strip(username) == Text.Strip(Field(form, UsernameKey))
    requires Text.Strip(email) == Text.Strip(Field(form, EmailKey))
    ensures ReadSignupForm(form[UsernameKey := username][EmailKey := email]) == ReadSignupForm(form)
  {
    var form' := form[UsernameKey := username][EmailKey := email];
    assert Field(form', UsernameKey) == username;
    assert Field(form', PasswordKey) == Field(form, PasswordKey);
    assert Field(form', ConfirmPasswordKey) == Field(form, ConfirmPasswordKey);
  }

  /**
   * Password and confirmation are read as sent, so a password of only
   * whitespace passes the emptiness check whenever the other fields are filled.
   */
  lemma WhitespacePasswordPassesEmptiness(users: Users, form: map<Key, string>)
    requires Text.Strip(Field(form, UsernameKey)) != [] && Text.Strip(Field(form, EmailKey)) != []
    requires Field(form, PasswordKey) != [] && Field(form, ConfirmPasswordKey) != []
    ensures ValidateSignup(users, ReadSignupForm(form)) != Some(FieldsRequired)
    ensures ReadSignupForm(form).password == Field(form, PasswordKey)
    ensures ReadSignupForm(form).confirm == Field(form, ConfirmPasswordKey)
  {
  }

  /** A form passes every check when its fields are filled, its email splits as the pattern demands, it names a new user and a new email, and its password is long enough and confirmed. */
  lemma SignupAccepted(users: Users, f: SignupForm, i: int, j: int)
    requires f.username != [] && f.password != []
    requires Email.SplitAt(f.email, i, j)
    requires f.username !in users && !EmailInUse(users, f.email)
    requires |f.password| >= MIN_PASSWORD_LENGTH && f.confirm == f.password
    ensures ValidateSignup(users, f).None?
  {
  }

  /**
   * The email is stripped before the pattern is tried, so it never ends in a
   * newline and the pattern's `$` accepts exactly the `L@D.T` language.
   */
  lemma StrippedEmailPattern(email: string)
    ensures Email.MatchEmail(Text.Strip(email)) <==> Email.EmailLanguage(Text.Strip(email))
  {
    var e := Text.Strip(email);
    if e != [] {
      assert Text.IsSpace('\n');
    }
    Email.NoTrailingNewline(e);
  }

  /** A whitespace-only password passes the emptiness check, and as it is six long, every check. */
  lemma WhitespacePasswordAccepted()
    ensures ValidateSignup(map[], SignupForm("bob", "bob@x.io", "      ", "      ")).None?
  {
    SignupAccepted(map[], SignupForm("bob", "bob@x.io", "      ", "      "), 3, 5);
  }

  /** ` bob ` strips to `bob`. */
  lemma StripPaddedName()
    ensures Text.Strip(" bob ") == "bob"
  {
    Text.StripIsSlice(" bob ", 1, 4);
  }

  /** A short password is reported as too short even when the confirmation differs too. */
  lemma ShortPasswordBeforeMismatch(users: Users, f: SignupForm)
    requires !Fails(FieldsRequired, users, f) && !Fails(InvalidEmail, users, f)
    requires !Fails(UsernameTaken, users, f) && !Fails(EmailTaken, users, f)
    requires |f.password| < MIN_PASSWORD_LENGTH && f.password != f.confirm
    ensures ValidateSignup(users, f) == Some(PasswordTooShort)
  {
  }

  /** After a successful signup the store has exactly one more user. */
  lemma SignupAddsOneUser(st: State, req: Request)
    requires SignupStep(st, req).1 == Redirect(LoginName)
    ensures |SignupStep(st, req).0.users| == |st.users| + 1
    ensures SignupStep(st, req).0.users.Keys == st.users.Keys + {ReadSignupForm(req.form).username}
  {
  }

  /**
   * Once a username is registered, a second signup with it adds nobody;
   * when its fields are filled and its email well formed the rejection is
   * "username taken".
   */
  lemma SignupSameUsernameAgain(st: State, req: Request, req2: Request)
    requires SignupStep(st, req).1 == Redirect(LoginName)
    requires ReadSignupForm(req2.form).username == ReadSignupForm(req.form).username
    ensures var st' := SignupStep(st, req).0;
            && SignupStep(st', req2).1 != Redirect(LoginName)
            && SignupStep(st', req2).0.users == st'.users
    ensures var st' := SignupStep(st, req).0;
            var f2 := ReadSignupForm(req2.form);
            req2.verb == Post && !Fails(FieldsRequired, st'.users, f2) && !Fails(InvalidEmail, st'.users, f2)
            ==> SignupStep(st', req2).0.messages == st'.messages + [Msg(Error, USERNAME_TAKEN)]
  {
    var st' := SignupStep(st, req).0;
    var f2 := ReadSignupForm(req2.form);
    assert Fails(UsernameTaken, st'.users, f2);
  }

  // ---------------------------------------------------------------------------
  // Login and logout properties

  /** An authenticated request to login is sent home and changes nothing. */
  lemma LoginWhileAuthenticated(st: State, req: Request)
    requires st.user.Some?
    ensures LoginStep(st, req) == (st, Redirect(HomeName))
  {
  }

  /** A blank username or an empty password is rejected before the store is consulted. */
  lemma LoginMissingField(st: State, req: Request)
    requires st.user.None? && req.verb == Post
    requires Text.Strip(Field(req.form, UsernameKey)) == [] || Field(req.form, PasswordKey) == []
    ensures LoginStep(st, req) == (AddMessage(st, Error, BOTH_REQUIRED), Redirect(LoginName))
  {
  }

  /** Matching credentials authenticate the user and record the stripped username in the session. */
  lemma LoginSucceeds(st: State, req: Request)
    requires st.user.None? && req.verb == Post
    requires var u := Text.Strip(Field(req.form, UsernameKey));
             var p := Field(req.form, PasswordKey);
             u != [] && p != [] && u in st.users && st.users[u].password == p
    ensures var u := Text.Strip(Field(req.form, UsernameKey));
            LoginStep(st, req) == (st.(user := Some(u), sessionUsername := Some(u)), Redirect(HomeName))
  {
  }

  /**
   * Unknown username and wrong password are indistinguishable: with filled
   * fields, any store the credentials do not match gives the same message
   * and the same response.
   */
  lemma LoginHidesWhichFieldIsWrong(st: State, req: Request, other: Users)
    requires st.user.None? && req.verb == Post
    requires var u := Text.Strip(Field(req.form, UsernameKey));
             var p := Field(req.form, PasswordKey);
             u != [] && p != [] && Authenticate(st.users, u, p).None? && Authenticate(other, u, p).None?
    ensures LoginStep(st, req) == (AddMessage(st, Error, INVALID_CREDENTIALS), Redirect(LoginName))
    ensures LoginStep(st.(users := other), req) == (AddMessage(st, Error, INVALID_CREDENTIALS).(users := other), Redirect(LoginName))
  {
  }

  /** Signing up and then logging in with the same username and password field values succeeds. */
  lemma SignupThenLogin(st: State, req: Request, login: Request)
    requires SignupStep(st, req).1 == Redirect(LoginName)
    requires login.verb == Post
    requires Field(login.form, UsernameKey) == Field(req.form, UsernameKey)
    requires Field(login.form, PasswordKey) == Field(req.form, PasswordKey)
    ensures var st' := SignupStep(st, req).0;
            var u := ReadSignupForm(req.form).username;
            LoginStep(st', login) == (st'.(user := Some(u), sessionUsername := Some(u)), Redirect(HomeName))
  {
    var f := ReadSignupForm(req.form);
    var st' := SignupStep(st, req).0;
    assert ValidateSignup(st.users, f).None?;
    assert !Fails(FieldsRequired, st.users, f);
    assert st'.users[f.username] == Account(f.email, f.password);
    assert st'.user.None?;
    assert Text.Strip(Field(login.form, UsernameKey)) == f.username;
    assert Field(login.form, PasswordKey) == f.password;
    LoginSucceeds(st', login);
  }

  /** Logout from any state ends anonymous with an empty session and keeps the user table. */
  lemma LogoutClears(st: State)
    ensures var r := LogoutStep(st);
            && r.0.user.None? && r.0.sessionUsername.None? && r.0.users == st.users
            && r.0.messages == st.messages + [Msg(Success, LOGGED_OUT)]
            && r.1 == Redirect(SignupName)
  {
  }

  /** Logging out twice leaves the same users and session as logging out once. */
  lemma LogoutIdempotent(st: State)
    ensures var once := LogoutStep(st).0;
            var twice := LogoutStep(once).0;
            twice.(messages := once.messages) == once
  {
  }

  /** Right after logout a protected page redirects to login. */
  lemma LogoutThenProtected(st: State, template: Template)
    ensures Protected(LogoutStep(st).0, template).1 == Redirect(LoginName)
  {
  }
}
