/** The gate `auth(...)` wraps in src/middleware.ts, and its agreement with the
    `authorized` callback. */
module Middleware {
  import opened Optional
  import opened Ascii
  import opened AuthConfig

  datatype Decision = Next | Redirect(location: string)

  const ApiPrefix := "/api"

  /** `!!req.auth`: any session counts, with or without a user. */
  predicate LoggedIn(auth: Option<Session>) {
    auth.Some?
  }

  /** The API and admin prefixes exclude each other. */
  lemma ApiIsNotAdmin(path: string)
    ensures StartsWith(path, ApiPrefix) ==> !StartsWith(path, AdminPrefix)
  {
    if StartsWith(path, ApiPrefix) && |path| >= |AdminPrefix| {
      assert path[2] == path[..|ApiPrefix|][2] == 'p';
      assert path[..|AdminPrefix|][2] == 'p' != AdminPrefix[2];
    }
  }

  function Gate(auth: Option<Session>, path: string): (r: Decision)
    ensures StartsWith(path, ApiPrefix) ==> r == Next
    ensures path == LoginPage ==> (r == Redirect(AdminPrefix) <==> LoggedIn(auth))
    ensures path == LoginPage ==> (r == Next <==> !LoggedIn(auth))
    ensures path != LoginPage && StartsWith(path, AdminPrefix) ==>
              (r == Redirect(LoginPage) <==> !LoggedIn(auth))
    ensures path != LoginPage && StartsWith(path, AdminPrefix) ==>
              (r == Next <==> LoggedIn(auth))
    ensures !StartsWith(path, AdminPrefix) ==> r == Next
    ensures r.Redirect? ==> r.location == AdminPrefix || r.location == LoginPage
  {
    var loggedIn := LoggedIn(auth);
    ApiIsNotAdmin(path);
    if StartsWith(path, ApiPrefix) then Next
    else if StartsWith(path, AdminPrefix) then
      if path == LoginPage then
        if loggedIn then Redirect(AdminPrefix) else Next
      else if !loggedIn then Redirect(LoginPage)
      else Next
    else Next
  }

  /** A redirect sends the same user to a page the gate lets through, so the
      gate never loops. */
  lemma NoRedirectLoop(auth: Option<Session>, path: string)
    requires Gate(auth, path).Redirect?
    ensures Gate(auth, Gate(auth, path).location) == Next
  {
  }

  /** The decision NextAuth turns an `authorized` result into: `false` sends
      the request to the sign-in page. */
  function Enforce(a: Authorization): (d: Decision)
    ensures a == Allow <==> d == Next
    ensures a == Deny ==> d == Redirect(SignInPage)
    ensures a.RedirectTo? ==> d == Redirect(a.location)
  {
    match a
    case Allow => Next
    case Deny => Redirect(SignInPage)
    case RedirectTo(location) => Redirect(location)
  }

  /** When both notions of "logged in" agree, the middleware and the
      `authorized` callback make the same decision on every path. */
  lemma GateAgreesWithAuthorized(auth: Option<Session>, path: string)
    requires LoggedIn(auth) == HasUser(auth)
    ensures Enforce(Authorized(auth, path)) == Gate(auth, path)
  {
    ApiIsNotAdmin(path);
  }

  /** A session object without a user is where the two disagree: the
      middleware sends it from the login page to `/admin`, `authorized` lets it
      stay on the login page. */
  lemma UserlessSessionDisagrees(expires: string)
    ensures var auth := Some(Session(None, expires));
            Gate(auth, LoginPage) == Redirect(AdminPrefix) && Authorized(auth, LoginPage) == Allow
  {
  }
}
