# dj-signup authentication core in Dafny

This project models the `Home` app of the dj-signup Django site.

- **Signup** (`signup_page`) runs a fixed chain of checks over four form fields. The first failing check wins, queues its error message and redirects back to `signup`. When every check passes, the handler adds one user, queues a success message and redirects to `login`.
- **Login** (`login_page`) strips the username, checks that both fields are filled and checks the credentials against the user table. On a match it records the user in the session and redirects to `home`.
- **Logout** (`logout_user`) ends the login, empties the session, queues a success message and redirects to `signup`.
- **Guarded pages**: `home`, `about` and `contact` sit behind `login_required(login_url='login')`.
- **Route table**: `urlpatterns` maps request paths to these views and gives each entry a name.

## Files

- `text.dfy` (module `Text`): Python's `str.strip()`. It removes leading and trailing characters that `str.isspace()` accepts, using the full list of Unicode whitespace code points.
- `email.dfy` (module `Email`): the pattern `^[\w\.-]+@[\w\.-]+\.\w+$` used with `re.match`.
  - It is stated declaratively as `EmailLanguage`.
  - It is decided by a scanner that never backtracks (`MatchShape`), which is proved to agree with `EmailLanguage`.
  - `PatternMatches` includes Python's reading of `$`: the end of the string, or just before one final newline.
- `views.dfy` (module `Views`): the handlers as pure step functions from (state, request) to (new state, response).
  - The state holds the user table, the request's authenticated user, the session's `username` entry and the flash-message queue.
  - The file also holds the invariant the handlers keep and the lemmas about them.
- `urls.dfy` (module `Urls`): the `urlpatterns` table as a constant sequence, and the lookup of the first entry whose path equals the request path. Its end-to-end lemmas include the signup → login → `about/` → logout → `about/` walkthrough for user `alice`.
- `server.dfy` (module `Server`): class `Site`. Its four fields are updated in place by one method per handler, and each method is proved to do what the step function of `Views` says.
- `wrappers.dfy`: `Option`.

Requests and responses use enumerations wherever the code uses a fixed set of strings:
- the request method (only `POST` is tested for);
- the four form fields the handlers read;
- the six route names;
- the five templates (`TemplateFile` maps each to its file name, and `TemplateFilesDistinct` shows no two share one).

Paths, usernames, emails, passwords and message texts are strings.

As `Home/views.py` is written:
- emptiness is checked before "username already taken";
- a rejected signup redirects to `signup`; the form is not re-rendered;
- logout redirects to `signup`, not to `login`.

## Model

| member | source | states |
|---|---|---|
| Text.Strip | Home/views.py:14 | The result is empty exactly when the input is all whitespace; otherwise it neither starts nor ends with whitespace and is no longer than the input. |
| Text.StripIsSlice | Home/views.py:40-41 | Stripping a string that has whitespace only before `a` and from `b` on, with non-whitespace at `a` and `b-1`, yields exactly the characters between `a` and `b`. |
| Text.StripUnpadded | Home/views.py:40-41 | Every string that neither starts nor ends with whitespace is unchanged by stripping. |
| Text.StripIdempotent | Home/views.py:40-41 | Stripping twice is stripping once. |
| Email.LocalPrefix | Home/views.py:52 | Length of the longest prefix of word characters, `.` and `-`: every character before it is one, and the character at it is not. |
| Email.WordSuffix | Home/views.py:52 | Length of the longest suffix of word characters, with the same two-sided characterisation. |
| Email.MatchShape | Home/views.py:52-53 | The scanner accepts a string exactly when it splits as `L@D.T`, with `L` and `D` non-empty runs of `[\w.-]` and `T` a non-empty run of `\w`. |
| Email.LocalPrefixAt | Home/views.py:52 | A prefix of allowed characters followed by a disallowed one is the longest such prefix. |
| Email.WordSuffixAt | Home/views.py:52 | A suffix of word characters preceded by a non-word character is the longest such suffix. |
| Email.SplitDetermined | Home/views.py:52 | Any split of an accepted string puts the `@` at the end of the longest `[\w.-]` prefix and the final `.` just before the longest `\w` suffix. |
| Email.MatchEmail | Home/views.py:52-53 | `re.match` of the pattern succeeds exactly when the string, or the string without one final newline, is in the `L@D.T` language. |
| Email.NoTrailingNewline | Home/views.py:52-53 | On a string that does not end in a newline, the match is exactly the `L@D.T` language. |
| Email.AcceptedShape | Home/views.py:52-53 | An address in the `L@D.T` language ends in a word character and contains exactly one `@`, with a `.` after it that is followed only by word characters. |
| Email.AcceptsSimpleAddress | Home/views.py:52-53 | `a@b.c` is accepted. |
| Email.RejectsEmptyDomain | Home/views.py:52-53 | `a@.c` is rejected. |
| Email.RejectsMissingDot | Home/views.py:52-53 | `a@b` is rejected. |
| Views.ValidateSignup | Home/views.py:46-75 | The result is `None` exactly when no check fails; otherwise it names a failing check, and every check earlier in the chain passes. |
| Views.ReadSignupForm | Home/views.py:40-43 | No contract of its own; carried by `SignupIgnoresPadding`, `BlankUsernameRejected` and `WhitespacePasswordPassesEmptiness`: username and email are stripped, password and confirmation read as sent. |
| Views.SignupStep | Home/views.py:34-83 | No contract of its own; carried by `SignupWhileAuthenticated`, `SignupRejected`, `SignupSucceeds`, `SignupKeepsSession`, `SignupAddsOneUser`, `SignupSameUsernameAgain` and `SignupPreservesValid`. |
| Views.LoginStep | Home/views.py:9-31 | No contract of its own; carried by `LoginWhileAuthenticated`, `LoginMissingField`, `LoginSucceeds`, `LoginHidesWhichFieldIsWrong`, `LoginOutcome` and `LoginPreservesValid`. |
| Views.LogoutStep | Home/views.py:102-106 | No contract of its own; carried by `LogoutClears`, `LogoutIdempotent`, `LogoutThenProtected` and `LogoutPreservesValid`. |
| Views.HomePage | Home/views.py:87-90 | No contract of its own: `Protected` with the `home.html` template. |
| Views.AboutPage | Home/views.py:92-95 | No contract of its own: `Protected` with the `about.html` template. |
| Views.ContactPage | Home/views.py:97-100 | No contract of its own: `Protected` with the `contact.html` template. |
| Views.Authenticate | Home/views.py:21 | No contract of its own: the abstraction of `authenticate` as "the user exists and its stored password equals the given one"; carried by `LoginSucceeds`, `LoginHidesWhichFieldIsWrong` and `SignupThenLogin`. |
| Views.Protected | Home/views.py:87-100 | No contract of its own; carried by `ProtectedPathNeedsSession`, `ProtectedPathWithSession`, `LogoutThenProtected` and `Server.Site.Guarded`. |
| Views.TemplateFilesDistinct | Home/views.py:31-100 | The five templates the handlers render are read from five distinct files. |
| Views.SignupKeepsSession | Home/views.py:34-83 | Signup never changes the authenticated user or the session; every outcome other than the redirect to `login` leaves the user table unchanged. |
| Views.SignupSucceeds | Home/views.py:36-81 | Signup redirects to `login` exactly when the request is an anonymous POST that passes every check. It then adds exactly the new username with its email and password, as typed, keeps every other user, and queues exactly the success message. |
| Views.LoginOutcome | Home/views.py:9-31 | Login never changes the user table, and the authenticated user changes only on a redirect to `home`. Every redirect back to `login` queues one of the two error messages and changes nothing else. |
| Views.InitialValid | Home/views.py:24-25 | The empty state of a fresh server satisfies the invariant: unique emails, the authenticated user is in the table, and the session's `username` names it. The cited lines are where login establishes that session clause. |
| Views.SignupPreservesValid | Home/views.py:34-83 | Signup keeps the invariant; in particular no two users share an email, with emails stored as typed (see "Left out" on `create_user`'s normalisation). |
| Views.LoginPreservesValid | Home/views.py:9-31 | Login keeps the invariant: a user set in the session exists, and `session['username']` equals it. |
| Views.LogoutPreservesValid | Home/views.py:102-106 | Logout keeps the invariant. |
| Views.SignupWhileAuthenticated | Home/views.py:36-37 | An authenticated request to signup redirects to `home` and changes nothing, neither users nor messages. |
| Views.SignupRejected | Home/views.py:45-75 | A rejected signup queues exactly the first failing check's message, redirects to `signup` and changes nothing else. |
| Views.ErrorTextsDistinct | Home/views.py:47-75 | Distinct checks have distinct messages. |
| Views.BlankUsernameRejected | Home/views.py:40-48 | A whitespace-only username is rejected as "all fields are required". |
| Views.SignupIgnoresPadding | Home/views.py:40-43 | Changing the username and email fields only in their surrounding whitespace gives the same form as read by signup. |
| Views.WhitespacePasswordPassesEmptiness | Home/views.py:40-48 | For every form and table: password and confirmation are read as sent, so with a non-blank username and email any non-empty password, whitespace-only included, passes the emptiness check. |
| Views.SignupAccepted | Home/views.py:46-75 | A form with filled fields, an email in the `L@D.T` language, a new username, a new email and a confirmed password of at least six characters passes every check. |
| Views.StrippedEmailPattern | Home/views.py:41-53 | The email is stripped before the pattern is tried, so the `$`-before-newline case never arises. |
| Views.WhitespacePasswordAccepted | Home/views.py:42-75 | Example: six spaces as password and confirmation pass every check. |
| Views.StripPaddedName | Home/views.py:40 | Example: ` bob ` strips to `bob`. |
| Views.ShortPasswordBeforeMismatch | Home/views.py:68-75 | When the password is too short and also differs from the confirmation, the failure reported is "too short". |
| Views.SignupAddsOneUser | Home/views.py:78-81 | A successful signup adds exactly one username to the table. |
| Views.SignupSameUsernameAgain | Home/views.py:58-60 | After a successful signup, another signup with the same username adds nobody. If its fields are filled and its email is valid, it queues exactly "Username already taken." |
| Views.LoginWhileAuthenticated | Home/views.py:10-11 | An authenticated request to login redirects to `home` and changes nothing. |
| Views.LoginMissingField | Home/views.py:14-19 | A blank stripped username or an empty password queues "Both username and password are required.", redirects to `login` and leaves the session as it was. |
| Views.LoginSucceeds | Home/views.py:21-26 | Matching credentials authenticate the user, set `session['username']` to the stripped username and redirect to `home`. |
| Views.LoginHidesWhichFieldIsWrong | Home/views.py:21-29 | Whenever the credentials match no user, unknown username or wrong password, the same message and response result, whatever the table holds. |
| Views.SignupThenLogin | Home/views.py:9-81 | After a successful signup, logging in with the same username and password fields authenticates the new user. |
| Views.LogoutClears | Home/views.py:102-106 | From any state, logout ends with no authenticated user and an empty session, keeps the users, queues one success message and redirects to `signup`. |
| Views.LogoutIdempotent | Home/views.py:102-106 | Logging out twice leaves the same users and session as logging out once. |
| Views.LogoutThenProtected | Home/views.py:87-106 | Right after logout every guarded page redirects to `login`. |
| Urls.FirstMatch | Home/urls.py:4-14 | The result is the first position at or after `from` whose route equals the path, or the table's length when there is none. |
| Urls.Resolve | Home/urls.py:4-14 | There is no result exactly when no entry has the path; a result is an entry of the table with that path. |
| Urls.RunView | Home/urls.py:4-14 | No contract of its own: runs the handler a table entry names; carried by `DispatchTo` and the `Dispatch…` lemmas. |
| Urls.Dispatch | Home/urls.py:4-14 | No contract of its own; carried by `DispatchTo`, `ProtectedPathNeedsSession`, `ProtectedPathWithSession`, `RedirectsResolve`, `DispatchPreservesValid` and `OpenRoutesServeAnonymous`. |
| Urls.DispatchTo | Home/urls.py:4-14 | A path that resolves to an entry is handled by that entry's view. |
| Urls.TemplateOf | Home/views.py:87-100 | No contract of its own: the template each guarded view renders; carried by `ProtectedPathWithSession`. |
| Urls.RoutesDistinct | Home/urls.py:4-14 | The table has seven entries with pairwise distinct paths. |
| Urls.NamesShape | Home/urls.py:4-14 | Every route name is carried by some entry, and only `home` is carried by two. |
| Urls.ResolveEntry | Home/urls.py:4-14 | Paths are distinct, so the path of the entry at any position resolves to that entry. |
| Urls.HomeRoutes | Home/urls.py:5-8 | Both `''` and `home/` resolve to `views.home` under the name `home`. |
| Urls.GuardedRoutes | Home/urls.py:6-7 | `about/` and `contact/` resolve to the guarded `about` and `contact` views. |
| Urls.OpenRoutes | Home/urls.py:9-12 | `login/`, `signup/` and `logout/` resolve to `login_page`, `signup_page` and `logout_user`. |
| Urls.DispatchLogin | Home/urls.py:9 | `login/` is handled by `login_page`. |
| Urls.DispatchSignup | Home/urls.py:10 | `signup/` is handled by `signup_page`. |
| Urls.DispatchLogout | Home/urls.py:12 | `logout/` is handled by `logout_user`. |
| Urls.DispatchAbout | Home/urls.py:6 | `about/` is handled by `about`. |
| Urls.OpenRoutesServeAnonymous | Home/urls.py:9-12 | Without a session, a GET of `login/` or `signup/` renders its form and changes nothing, and `logout/` redirects to `signup`. |
| Urls.ProtectedPathNeedsSession | Home/views.py:87-100 | Any path that resolves to a guarded view redirects to `login` without a session and changes nothing. |
| Urls.ProtectedPathWithSession | Home/views.py:87-100 | With a session, any path that resolves to a guarded view renders that view's own template (`home.html`, `about.html` or `contact.html`) and changes nothing. |
| Urls.RedirectsResolve | Home/urls.py:4-14 | A redirect never names a missing route: every route name a response can carry is the name of some entry of the table. |
| Urls.DispatchPreservesValid | Home/urls.py:4-14 | No request, to any path, breaks the state invariant. |
| Urls.SignupLoginBrowseLogout | Home/views.py:9-106 | A valid anonymous signup redirects to `login` and queues the success message. Logging in with the same fields then redirects to `home`, `about/` renders, logout redirects to `signup`, and `about/` then redirects to `login`. |
| Urls.AliceFormRead | Home/views.py:40-43 | The walkthrough's form reads as `alice`, `alice@example.com`, `secret1`, `secret1`. |
| Urls.AliceSignupValid | Home/views.py:46-75 | That form passes every check against an empty table. |
| Urls.AliceSignupAccepted | Home/views.py:40-75 | On a fresh server the walkthrough's signup passes, and its login form carries the same username and password. |
| Urls.AliceWalkthrough | Home/views.py:9-106 | On a fresh server: signup as alice redirects to `login` with only the success message queued, login redirects to `home`, `about/` renders, logout redirects to `signup`, and `about/` then redirects to `login`. |
| Server.Site.constructor | Home/views.py:24-25 | A new site has no users, no authenticated user and nothing queued, and satisfies the invariant; the cited lines are where login establishes its session clause. |
| Server.Site.LoginPage | Home/views.py:9-31 | The in-place handler keeps the invariant and leaves exactly the state and response `login_page`'s step function gives. |
| Server.Site.SignupPage | Home/views.py:34-83 | The in-place handler keeps the invariant and leaves exactly the state and response `signup_page`'s step function gives. |
| Server.Site.LogoutUser | Home/views.py:102-106 | The in-place handler keeps the invariant and leaves exactly the state and response `logout_user`'s step function gives. |
| Server.Site.Guarded | Home/views.py:88 | The `login_required` guard changes nothing and redirects to `login` exactly when no user is authenticated. |
| Server.Site.Home | Home/views.py:87-90 | `home` answers as its step function does, with a redirect to `login` exactly without a session. |
| Server.Site.About | Home/views.py:92-95 | `about` answers as its step function does, with a redirect to `login` exactly without a session. |
| Server.Site.Contact | Home/views.py:97-100 | `contact` answers as its step function does, with a redirect to `login` exactly without a session. |
| Server.Site.Serve | Home/urls.py:4-14 | Serving a path keeps the invariant and leaves exactly the state and response of the table's dispatch. |

## Left out

- Password hashing and `authenticate` internals: a stored password is kept as given, and `authenticate` is "the user exists and its stored password equals the given one". The `is_active` check and authentication backends are not modelled.
- `create_user`'s normalisation of what it stores: Django keeps the username NFKC-normalised and the email with its domain part lower-cased, while the `filter` look-ups and `authenticate` use the strings as typed. The model stores both as typed. So it does not capture these cases: a full-width username that cannot log in after signing up; a second signup with the plain form of a normalised username, which the source rejects as taken; a repeated full-width username, which makes the second `create_user` fail on the unique constraint; and two users whose emails differ only in the case of the domain, which the source stores as the same email.
- Views.SignupPreservesValid: its unique-emails clause holds for emails stored as typed; with Django's lower-cased domains two stored emails can coincide.
- Views.SignupThenLogin: holds for usernames stored as typed; a username that NFKC normalisation changes cannot log in with the signup's fields in the source.
- Views.SignupSucceeds: the new user's username and email are stored as typed, not as `create_user` normalises them.
- Database behaviour of `User.objects`: case sensitivity and collation of the `filter` lookups, the redundant `user.save()` after `create_user`, and races between concurrent signups. Each request is one atomic step on the table.
- Template rendering, the `never_cache` headers, status codes and other HTTP details. A response is only a redirect to a route name, a template, or "no route".
- `login_required` adds a `?next=` query parameter to its redirect; the model's redirect carries only the route name.
- Django's `reverse()` choice between the two entries named `home`, and its path-matching engine. The model resolves a path to the first entry whose route equals it.
- `\w` is approximated as ASCII letters, digits and `_`; Python's Unicode `\w` is not modelled.
- Flash messages are appended to a queue and never consumed; their display and removal by templates are left out. The queue is kept outside the session, as with Django's default message storage, which tries cookies first. So `session.flush()` in logout does not drop queued messages.
- Views.LogoutIdempotent: equates two logouts except for the message queue, which gains one success message per logout.
- `login()` cycling the session key and `flush()` deleting the session row are not modelled; the session is only its `username` entry and the authenticated user.
- Form fields other than `username`, `email`, `password` and `confirm_password` are never read by the handlers and are not modelled. A request method is only `GET`, `POST` or some other method.
