/**
 * The app's `urlpatterns`: a literal table of (path, view, name) entries,
 * and the dispatch of a request path to the handler of the first entry
 * whose path equals it.
 */
module Urls {
  import opened Wrappers
  import opened Views
  import Text

  /** The view functions the table refers to. */
  datatype View = HomeView | AboutView | ContactView | LoginPageView | SignupPageView | LogoutUserView

  /** One `path(route, view, name=...)` entry. */
  datatype Pattern = Pattern(route: string, view: View, name: Name)

  const URL_PATTERNS: seq<Pattern> := [
    Pattern("", HomeView, HomeName),
    Pattern("about/", AboutView, AboutName),
    Pattern("contact/", ContactView, ContactName),
    Pattern("home/", HomeView, HomeName),
    Pattern("login/", LoginPageView, LoginName),
    Pattern("signup/", SignupPageView, SignupName),
    Pattern("logout/", LogoutUserView, LogoutName)
  ]

  /** The template each guarded view renders. */
  function TemplateOf(v: View): Template
    requires IsProtected(v)
  {
    match v
    case HomeView => HomeTemplate
    case AboutView => AboutTemplate
    case ContactView => ContactTemplate
  }

  /** The views wrapped in `login_required`. */
  predicate IsProtected(v: View)
  {
    v == HomeView || v == AboutView || v == ContactView
  }

  /**
   * Index of the first entry of `patterns` from position `from` on whose
   * route is `path`, or `|patterns|` when no such entry has that route.
   */
  function FirstMatch(patterns: seq<Pattern>, path: string, from: nat): (k: nat)
    requires from <= |patterns|
    ensures from <= k <= |patterns|
    ensures k < |patterns| ==> patterns[k].route == path
    ensures forall m | from <= m < k :: patterns[m].route != path
    decreases |patterns| - from
  {
    if from == |patterns| || patterns[from].route == path then from
    else FirstMatch(patterns, path, from + 1)
  }

  /** Resolves a request path (without its leading `/`) against the table. */
  function Resolve(path: string): (r: Option<Pattern>)
    ensures r.None? <==> forall k | 0 <= k < |URL_PATTERNS| :: URL_PATTERNS[k].route != path
    ensures r.Some? ==> r.value in URL_PATTERNS && r.value.route == path
  {
    var k := FirstMatch(URL_PATTERNS, path, 0);
    if k < |URL_PATTERNS| then Some(URL_PATTERNS[k]) else None
  }

  /** Runs a view on the current state and request. */
  function RunView(v: View, st: State, req: Request): (State, Response)
  {
    match v
    case HomeView => HomePage(st)
    case AboutView => AboutPage(st)
    case ContactView => ContactPage(st)
    case LoginPageView => LoginStep(st, req)
    case SignupPageView => SignupStep(st, req)
    case LogoutUserView => LogoutStep(st)
  }

  /** A request for `path`: the view of the matching entry, or no route at all. */
  function Dispatch(st: State, path: string, req: Request): (State, Response)
  {
    match Resolve(path)
    case None => (st, NotFound)
    case Some(p) => RunView(p.view, st, req)
  }

  /** A path that resolves to entry `p` is handled by `p`'s view. */
  lemma DispatchTo(st: State, path: string, req: Request, p: Pattern)
    requires Resolve(path) == Some(p)
    ensures Dispatch(st, path, req) == RunView(p.view, st, req)
  {
  }

  /** The names the table gives its entries: what `redirect(name)` can resolve. */
  function RouteNames(): set<Name>
  {
    set k | 0 <= k < |URL_PATTERNS| :: URL_PATTERNS[k].name
  }

  // ---------------------------------------------------------------------------
  // The table

  /** Seven entries whose paths are pairwise distinct. */
  lemma RoutesDistinct()
    ensures |URL_PATTERNS| == 7
    ensures forall k, m | 0 <= k < m < |URL_PATTERNS| :: URL_PATTERNS[k].route != URL_PATTERNS[m].route
  {
    var routes := seq(7, k requires 0 <= k < 7 => URL_PATTERNS[k].route);
    assert routes == ["", "about/", "contact/", "home/", "login/", "signup/", "logout/"];
    assert forall k | 1 <= k < 7 :: |routes[k]| > 0;
    assert routes[1][0] == 'a' && routes[2][0] == 'c' && routes[3][0] == 'h';
    assert routes[4][0] == 'l' && routes[5][0] == 's' && routes[6][0] == 'l';
    assert routes[4][3] == 'i' && routes[6][3] == 'o';
  }

  /**
   * Every route name is given to some entry, and every name but `home` to
   * exactly one.
   */
  lemma NamesShape()
    ensures forall n: Name :: n in RouteNames()
    ensures forall k, m | 0 <= k < m < |URL_PATTERNS| && URL_PATTERNS[k].name == URL_PATTERNS[m].name ::
              URL_PATTERNS[k].name == HomeName
  {
    forall n: Name
      ensures n in RouteNames()
    {
      var k := match n
        case HomeName => 0
        case AboutName => 1
        case ContactName => 2
        case LoginName => 4
        case SignupName => 5
        case LogoutName => 6;
      assert URL_PATTERNS[k].name == n;
    }
  }

  /** Paths are distinct, so the path of the entry at position `k` resolves to that entry. */
  lemma ResolveEntry(k: nat, p: Pattern)
    requires k < |URL_PATTERNS| && URL_PATTERNS[k] == p
    ensures Resolve(p.route) == Some(p)
  {
    RoutesDistinct();
  }

  /** Both the empty path and `home/` reach `views.home`, under the name `home`. */
  lemma HomeRoutes()
    ensures Resolve("") == Some(Pattern("", HomeView, HomeName))
    ensures Resolve("home/") == Some(Pattern("home/", HomeView, HomeName))
  {
    ResolveEntry(0, Pattern("", HomeView, HomeName));
    ResolveEntry(3, Pattern("home/", HomeView, HomeName));
  }

  /** `about/` and `contact/` reach the guarded views. */
  lemma GuardedRoutes()
    ensures Resolve("about/").Some? && Resolve("about/").value.view == AboutView
    ensures Resolve("contact/").Some? && Resolve("contact/").value.view == ContactView
  {
    ResolveEntry(1, Pattern("about/", AboutView, AboutName));
    ResolveEntry(2, Pattern("contact/", ContactView, ContactName));
  }

  /** `login/`, `signup/` and `logout/` reach the unguarded handlers. */
  lemma OpenRoutes()
    ensures Resolve("login/") == Some(Pattern("login/", LoginPageView, LoginName))
    ensures Resolve("signup/") == Some(Pattern("signup/", SignupPageView, SignupName))
    ensures Resolve("logout/") == Some(Pattern("logout/", LogoutUserView, LogoutName))
  {
    ResolveEntry(4, Pattern("login/", LoginPageView, LoginName));
    ResolveEntry(5, Pattern("signup/", SignupPageView, SignupName));
    ResolveEntry(6, Pattern("logout/", LogoutUserView, LogoutName));
  }

  // ---------------------------------------------------------------------------
  // End to end

  /** `login/` is served by `login_page`. */
  lemma DispatchLogin(st: State, req: Request)
    ensures Dispatch(st, "login/", req) == LoginStep(st, req)
  {
    ResolveEntry(4, Pattern("login/", LoginPageView, LoginName));
  }

  /** `signup/` is served by `signup_page`. */
  lemma DispatchSignup(st: State, req: Request)
    ensures Dispatch(st, "signup/", req) == SignupStep(st, req)
  {
    ResolveEntry(5, Pattern("signup/", SignupPageView, SignupName));
  }

  /** `logout/` is served by `logout_user`. */
  lemma DispatchLogout(st: State, req: Request)
    ensures Dispatch(st, "logout/", req) == LogoutStep(st)
  {
    ResolveEntry(6, Pattern("logout/", LogoutUserView, LogoutName));
  }

  /** `about/` is served by `about`. */
  lemma DispatchAbout(st: State, req: Request)
    ensures Dispatch(st, "about/", req) == AboutPage(st)
  {
    ResolveEntry(1, Pattern("about/", AboutView, AboutName));
  }

  /** The open routes answer an anonymous GET without sending it to login. */
  lemma OpenRoutesServeAnonymous(st: State)
    requires st.user.None?
    ensures Dispatch(st, "login/", Request(Get, map[])) == (st, Render(LoginTemplate))
    ensures Dispatch(st, "signup/", Request(Get, map[])) == (st, Render(SignupTemplate))
    ensures Dispatch(st, "logout/", Request(Get, map[])).1 == Redirect(SignupName)
  {
    DispatchLogin(st, Request(Get, map[]));
    DispatchSignup(st, Request(Get, map[]));
    DispatchLogout(st, Request(Get, map[]));
  }

  /** Any protected path requested without a session redirects to login and changes nothing. */
  lemma ProtectedPathNeedsSession(st: State, path: string, req: Request)
    requires st.user.None?
    requires Resolve(path).Some? && IsProtected(Resolve(path).value.view)
    ensures Dispatch(st, path, req) == (st, Redirect(LoginName))
  {
  }

  /** With a session, a protected path renders its own view's template and changes nothing. */
  lemma ProtectedPathWithSession(st: State, path: string, req: Request)
    requires st.user.Some?
    requires Resolve(path).Some? && IsProtected(Resolve(path).value.view)
    ensures Dispatch(st, path, req) == (st, Render(TemplateOf(Resolve(path).value.view)))
  {
  }

  /** A redirect names an entry of the table, since every route name is carried by one. */
  lemma RedirectsResolve(st: State, path: string, req: Request)
    ensures Dispatch(st, path, req).1.Redirect? ==> Dispatch(st, path, req).1.to in RouteNames()
  {
    NamesShape();
  }

  /** No request breaks the state invariant. */
  lemma DispatchPreservesValid(st: State, path: string, req: Request)
    requires Valid(st)
    ensures Valid(Dispatch(st, path, req).0)
  {
    match Resolve(path)
    case None =>
    case Some(p) =>
      match p.view
      case SignupPageView => SignupPreservesValid(st, req);
      case LoginPageView => LoginPreservesValid(st, req);
      case LogoutUserView => LogoutPreservesValid(st);
      case _ =>
  }

  /**
   * A new user signs up, logs in with the same username and password, sees
   * `about/`, logs out, and is then sent from `about/` to login.
   */
  lemma SignupLoginBrowseLogout(st: State, signup: Request, login: Request, get: Request)
    requires st.user.None? && signup.verb == Post
    requires ValidateSignup(st.users, ReadSignupForm(signup.form)).None?
    requires login.verb == Post
    requires Field(login.form, UsernameKey) == Field(signup.form, UsernameKey)
    requires Field(login.form, PasswordKey) == Field(signup.form, PasswordKey)
    ensures var s1 := Dispatch(st, "signup/", signup);
            var s2 := Dispatch(s1.0, "login/", login);
            var s3 := Dispatch(s2.0, "logout/", get);
            && s1.1 == Redirect(LoginName) && s1.0.messages == st.messages + [Msg(Success, SIGNUP_SUCCESS)]
            && s2.1 == Redirect(HomeName) && s2.0.user == Some(ReadSignupForm(signup.form).username)
            && Dispatch(s2.0, "about/", get) == (s2.0, Render(AboutTemplate))
            && s3.1 == Redirect(SignupName)
            && Dispatch(s3.0, "about/", get) == (s3.0, Redirect(LoginName))
  {
    DispatchSignup(st, signup);
    SignupSucceeds(st, signup);
    var s1 := SignupStep(st, signup);
    DispatchLogin(s1.0, login);
    SignupThenLogin(st, signup, login);
    var s2 := LoginStep(s1.0, login);
    DispatchAbout(s2.0, get);
    DispatchLogout(s2.0, get);
    var s3 := LogoutStep(s2.0);
    DispatchAbout(s3.0, get);
  }

  /** The signup form of the walkthrough: alice, alice@example.com, secret1 twice. */
  const ALICE_SIGNUP := Request(Post, map[UsernameKey := "alice", EmailKey := "alice@example.com",
                                            PasswordKey := "secret1", ConfirmPasswordKey := "secret1"])

  const ALICE_LOGIN := Request(Post, map[UsernameKey := "alice", PasswordKey := "secret1"])

  lemma AliceFormRead()
    ensures ReadSignupForm(ALICE_SIGNUP.form) == SignupForm("alice", "alice@example.com", "secret1", "secret1")
  {
    var form := ALICE_SIGNUP.form;
    assert Field(form, UsernameKey) == "alice";
    assert Field(form, EmailKey) == "alice@example.com";
    assert Field(form, PasswordKey) == "secret1";
    assert Field(form, ConfirmPasswordKey) == "secret1";
    Text.StripUnpadded("alice");
    Text.StripUnpadded("alice@example.com");
  }

  /** The walkthrough's signup passes every check against an empty user table. */
  lemma AliceSignupValid()
    ensures ValidateSignup(map[], SignupForm("alice", "alice@example.com", "secret1", "secret1")).None?
  {
    SignupAccepted(map[], SignupForm("alice", "alice@example.com", "secret1", "secret1"), 5, 13);
  }

  lemma AliceSignupAccepted()
    ensures ValidateSignup(INITIAL.users, ReadSignupForm(ALICE_SIGNUP.form)).None?
    ensures Field(ALICE_LOGIN.form, UsernameKey) == Field(ALICE_SIGNUP.form, UsernameKey)
    ensures Field(ALICE_LOGIN.form, PasswordKey) == Field(ALICE_SIGNUP.form, PasswordKey)
  {
    AliceFormRead();
    AliceSignupValid();
  }

  /**
   * On a fresh server: signup as alice redirects to login, login as alice
   * to home, `about/` renders, logout redirects to signup, and `about/`
   * then redirects to login.
   */
  lemma AliceWalkthrough()
    ensures var get := Request(Get, map[]);
            var s1 := Dispatch(INITIAL, "signup/", ALICE_SIGNUP);
            var s2 := Dispatch(s1.0, "login/", ALICE_LOGIN);
            var s3 := Dispatch(s2.0, "logout/", get);
            && s1.1 == Redirect(LoginName) && s1.0.messages == [Msg(Success, SIGNUP_SUCCESS)]
            && s2.1 == Redirect(HomeName)
            && Dispatch(s2.0, "about/", get).1 == Render(AboutTemplate)
            && s3.1 == Redirect(SignupName)
            && Dispatch(s3.0, "about/", get).1 == Redirect(LoginName)
  {
    AliceSignupAccepted();
    SignupLoginBrowseLogout(INITIAL, ALICE_SIGNUP, ALICE_LOGIN, Request(Get, map[]));
  }
}
