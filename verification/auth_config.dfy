/** The edge-safe NextAuth configuration (src/lib/auth.config.ts): the
    `authorized` gate and the `jwt` / `session` callbacks that carry the user's
    role. */
module AuthConfig {
  import opened Optional
  import opened Ascii

  /** The signed-in user as the provider returns it; `role` may be undefined. */
  datatype User = User(id: string, role: Option<string>)

  /** The session object NextAuth hands to `authorized` (`auth`), whose `user`
      may be missing. */
  datatype Session = Session(user: Option<User>, expires: string)

  /** The JWT: the role claim plus the claims this configuration does not touch. */
  datatype Token = Token(role: Option<string>, claims: map<string, string>)

  datatype Authorization = Allow | Deny | RedirectTo(location: string)

  const AdminPrefix := "/admin"
  const LoginPage := "/admin/login"
  /** `pages.signIn`: where NextAuth sends a request `authorized` denied. */
  const SignInPage := LoginPage

  /** `!!auth?.user`. */
  predicate HasUser(auth: Option<Session>) {
    auth.Some? && auth.value.user.Some?
  }

  /** `callbacks.authorized`. */
  function Authorized(auth: Option<Session>, path: string): (r: Authorization)
    ensures path == LoginPage ==> (r == RedirectTo(AdminPrefix) <==> HasUser(auth))
    ensures path == LoginPage ==> (r == Allow <==> !HasUser(auth))
    ensures path != LoginPage && StartsWith(path, AdminPrefix) ==> (r == Deny <==> !HasUser(auth))
    ensures path != LoginPage && StartsWith(path, AdminPrefix) ==> (r == Allow <==> HasUser(auth))
    ensures !StartsWith(path, AdminPrefix) ==> r == Allow
    ensures r.RedirectTo? ==> r.location == AdminPrefix
  {
    var loggedIn := HasUser(auth);
    if StartsWith(path, AdminPrefix) then
      if path == LoginPage then
        if loggedIn then RedirectTo(AdminPrefix) else Allow
      else if !loggedIn then Deny
      else Allow
    else Allow
  }

  /** `callbacks.jwt`: copies the signing-in user's role into the token. */
  function Jwt(token: Token, user: Option<User>): (r: Token)
    ensures user.None? ==> r == token
    ensures user.Some? ==> r.role == user.value.role && r.claims == token.claims
  {
    match user
    case None => token
    case Some(u) => token.(role := u.role)
  }

  /** `callbacks.session`: exposes the token's role on `session.user`. */
  function SessionCallback(session: Session, token: Token): (r: Session)
    ensures session.user.None? ==> r == session
    ensures session.user.Some? ==> r.user.Some? && r.user.value.role == token.role
    ensures session.user.Some? ==> r.user.value.id == session.user.value.id && r.expires == session.expires
  {
    match session.user
    case None => session
    case Some(u) => session.(user := Some(u.(role := token.role)))
  }

  /** The role of the user who signed in reaches the client session, and
      later token refreshes (no user) keep it there. */
  lemma RoleReachesSession(session: Session, token: Token, user: User, refreshes: nat)
    requires session.user.Some?
    ensures SessionCallback(session, Refresh(Jwt(token, Some(user)), refreshes)).user.value.role == user.role
  {
    RefreshKeepsToken(Jwt(token, Some(user)), refreshes);
  }

  /** `refreshes` further `jwt` calls without a user. */
  function Refresh(token: Token, refreshes: nat): Token
  {
    if refreshes == 0 then token else Jwt(Refresh(token, refreshes - 1), None)
  }

  lemma {:induction false} RefreshKeepsToken(token: Token, refreshes: nat)
    ensures Refresh(token, refreshes) == token
  {
    if refreshes > 0 {
      RefreshKeepsToken(token, refreshes - 1);
    }
  }

  /** Running the session callback twice with the same token is running it once. */
  lemma SessionCallbackIdempotent(session: Session, token: Token)
    ensures SessionCallback(SessionCallback(session, token), token) == SessionCallback(session, token)
  {
  }
}
