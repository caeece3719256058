/**
 * The handlers as the server runs them: one object holds the user table,
 * the request's authenticated user, the session's `username` entry and the
 * flash-message queue, and each handler updates them in place. Every method
 * is proved to do exactly what the corresponding step function of `Views`
 * (or `Urls.Dispatch`) says, and to keep the invariant `Views.Valid`.
 */
module Server {
  import opened Wrappers
  import Text
  import opened Views
  import Urls

  class Site {
    var users: Users
    var user: Option<string>
    var sessionUsername: Option<string>
    var messages: seq<Msg>

    /** The current state as a value. */
    function Snapshot(): State
      reads this
    {
      State(users, user, sessionUsername, messages)
    }

    ghost predicate Valid()
      reads this
    {
      Views.Valid(Snapshot())
    }

    /** An empty user table and an anonymous request with nothing queued. */
    constructor ()
      ensures Valid() && Snapshot() == INITIAL
    {
      users := map[];
      user := None;
      sessionUsername := None;
      messages := [];
    }

    /** `login_page`. */
    method LoginPage(req: Request) returns (resp: Response)
      requires Valid()
      modifies this
      ensures Valid()
      ensures (Snapshot(), resp) == LoginStep(old(Snapshot()), req)
    {
      ghost var st := Snapshot();
      LoginPreservesValid(st, req);
      if user.Some? {
        return Redirect(HomeName);
      }
      if req.verb == Post {
        var username := Text.Strip(Field(req.form, UsernameKey));
        var password := Field(req.form, PasswordKey);
        if username == [] || password == [] {
          messages := messages + [Msg(Error, BOTH_REQUIRED)];
          assert Snapshot() == AddMessage(st, Error, BOTH_REQUIRED);
          return Redirect(LoginName);
        }
        var found := Authenticate(users, username, password);
        if found.Some? {
          user := found;
          sessionUsername := Some(username);
          assert Snapshot() == st.(user := Some(username), sessionUsername := Some(username));
          return Redirect(HomeName);
        } else {
          messages := messages + [Msg(Error, INVALID_CREDENTIALS)];
          assert Snapshot() == AddMessage(st, Error, INVALID_CREDENTIALS);
          return Redirect(LoginName);
        }
      }
      return Render(LoginTemplate);
    }

    /** `signup_page`: the check chain, then the insertion of the new user. */
    method SignupPage(req: Request) returns (resp: Response)
      requires Valid()
      modifies this
      ensures Valid()
      ensures (Snapshot(), resp) == SignupStep(old(Snapshot()), req)
    {
      SignupPreservesValid(Snapshot(), req);
      if user.Some? {
        return Redirect(HomeName);
      }
      if req.verb == Post {
        var f := ReadSignupForm(req.form);
        var failure := ValidateSignup(users, f);
        if failure.Some? {
          messages := messages + [Msg(Error, ErrorText(failure.value))];
          return Redirect(SignupName);
        }
        users := users[f.username := Account(f.email, f.password)];
        messages := messages + [Msg(Success, SIGNUP_SUCCESS)];
        return Redirect(LoginName);
      }
      return Render(SignupTemplate);
    }

    /** `logout_user`: `logout`, then `session.flush()`, then the success message. */
    method LogoutUser() returns (resp: Response)
      requires Valid()
      modifies this
      ensures Valid()
      ensures (Snapshot(), resp) == LogoutStep(old(Snapshot()))
    {
      user := None;
      sessionUsername := None;
      messages := messages + [Msg(Success, LOGGED_OUT)];
      return Redirect(SignupName);
    }

    /** A `login_required` view: it changes nothing and renders only for an authenticated user. */
    method Guarded(template: Template) returns (resp: Response)
      ensures resp == Protected(Snapshot(), template).1
      ensures resp == (if user.None? then Redirect(LoginName) else Render(template))
    {
      if user.None? {
        return Redirect(LoginName);
      }
      return Render(template);
    }

    /** `home`. */
    method Home() returns (resp: Response)
      ensures resp == HomePage(Snapshot()).1
      ensures resp == Redirect(LoginName) <==> user.None?
    {
      resp := Guarded(HomeTemplate);
    }

    /** `about`. */
    method About() returns (resp: Response)
      ensures resp == AboutPage(Snapshot()).1
      ensures resp == Redirect(LoginName) <==> user.None?
    {
      resp := Guarded(AboutTemplate);
    }

    /** `contact`. */
    method Contact() returns (resp: Response)
      ensures resp == ContactPage(Snapshot()).1
      ensures resp == Redirect(LoginName) <==> user.None?
    {
      resp := Guarded(ContactTemplate);
    }

    /** A request for `path`, routed through the table to its handler. */
    method Serve(path: string, req: Request) returns (resp: Response)
      requires Valid()
      modifies this
      ensures Valid()
      ensures (Snapshot(), resp) == Urls.Dispatch(old(Snapshot()), path, req)
    {
      var route := Urls.Resolve(path);
      if route.None? {
        return NotFound;
      }
      match route.value.view
      case HomeView => resp := Home();
      case AboutView => resp := About();
      case ContactView => resp := Contact();
      case LoginPageView => resp := LoginPage(req);
      case SignupPageView => resp := SignupPage(req);
      case LogoutUserView => resp := LogoutUser();
    }
  }
}
