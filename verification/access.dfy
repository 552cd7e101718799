/**
 * Access control (server.js): the public projection of a user, the
 * `authMiddleware` that resolves the caller from a bearer token, the
 * `requireRole` / `requireAnyRole` guards, and the login handler.
 */
module Access {
  import opened Common
  import opened Data
  import opened Token

  const BearerPrefix: string := "Bearer "
  const Forbidden: string := "Forbidden"

  /** `toPublicUser`: the user without its password. */
  function ToPublicUser(u: User): PublicUser {
    PublicUser(u.id, u.name, u.email, u.role, u.isActive)
  }

  /** The projection forgets the password and nothing else: two users project
      alike exactly when they differ at most in their passwords. */
  lemma PublicUserForgetsOnlyPassword(u: User, v: User)
    ensures ToPublicUser(u) == ToPublicUser(v) <==> u.(password := v.password) == v
  {
  }

  predicate StartsWith(s: string, prefix: string) {
    |prefix| <= |s| && s[..|prefix|] == prefix
  }

  /** `authMiddleware`: with an `Authorization` header `Bearer <token>` whose
      token resolves to a stored user, passes that user on; otherwise 401. */
  function Authenticate(users: seq<User>, authorization: Option<string>): (g: Gate<User>)
    ensures g.Next? ==> g.value in users
    ensures g.Next? <==> authorization.Some? && StartsWith(authorization.value, BearerPrefix) &&
                         ParseUserFromToken(users, authorization.value[|BearerPrefix|..]).Some?
    ensures g.Next? ==> g.value == ParseUserFromToken(users, authorization.value[|BearerPrefix|..]).value
    ensures g.Stop? ==> g.status == 401
  {
    var header := match authorization case Some(h) => h case None => "";
    if !StartsWith(header, BearerPrefix) then
      Stop(401, "Missing or invalid Authorization header")
    else match ParseUserFromToken(users, header[|BearerPrefix|..])
      case None => Stop(401, "Invalid auth token")
      case Some(u) => Next(u)
  }

  /** A login token, presented as a bearer credential, authenticates the user
      it was issued for as long as that user is stored. */
  lemma BearerTokenAuthenticates(users: seq<User>, u: User)
    requires UserIdsUnique(users) && u in users
    ensures Authenticate(users, Some(BearerPrefix + CreateToken(u))) == Next(u)
  {
    var header := BearerPrefix + CreateToken(u);
    assert header[..|BearerPrefix|] == BearerPrefix;
    assert header[|BearerPrefix|..] == CreateToken(u);
    ParseCreatedToken(users, u);
  }

  /** `requireRole(role)`: passes exactly a caller whose role is `role`; otherwise 403. */
  function RequireRole(user: Option<User>, role: string): (g: Gate<User>)
    ensures g.Next? <==> user.Some? && user.value.role == role
    ensures g.Next? ==> g.value == user.value
    ensures g.Stop? ==> g == Stop(403, Forbidden)
  {
    if user.None? || user.value.role != role then Stop(403, Forbidden) else Next(user.value)
  }

  /** `requireAnyRole(roles)`: passes exactly a caller whose role is listed; otherwise 403. */
  function RequireAnyRole(user: Option<User>, roles: seq<string>): (g: Gate<User>)
    ensures g.Next? <==> user.Some? && user.value.role in roles
    ensures g.Next? ==> g.value == user.value
    ensures g.Stop? ==> g == Stop(403, Forbidden)
  {
    if user.None? || user.value.role !in roles then Stop(403, Forbidden) else Next(user.value)
  }

  /** The JSON body of a login request; every field may be missing. */
  datatype LoginRequest = LoginRequest(email: Option<string>, password: Option<string>,
                                       userType: Option<string>)

  /** The body of a successful login. */
  datatype LoginBody = LoginBody(token: string, user: PublicUser)

  /** The account a login addresses: same email ignoring case, role equal to `userType`. */
  predicate LoginMatches(u: User, email: string, userType: string) {
    SameIgnoringCase(u.email, email) && u.role == userType
  }

  /** `loginHandler`: 400 unless email, password and userType are all given;
      401 unless the FIRST account matching email and role has this password;
      403 if that account is inactive; otherwise a token for it and its public view. */
  function Login(users: seq<User>, req: LoginRequest): (r: Reply<LoginBody>)
    ensures !(Present(req.email) && Present(req.password) && Present(req.userType)) <==> r.Fail? && r.status == 400
    ensures r.Ok? ==> r.status == 200
    ensures r.Ok? ==>
      exists i :: (0 <= i < |users|
        && LoginMatches(users[i], req.email.value, req.userType.value)
        && (forall j :: 0 <= j < i ==> !LoginMatches(users[j], req.email.value, req.userType.value))
        && users[i].password == req.password.value && users[i].isActive
        && r.value == LoginBody(CreateToken(users[i]), ToPublicUser(users[i])))
    ensures r.Fail? && r.status == 403 ==>
      exists i :: (0 <= i < |users|
        && LoginMatches(users[i], req.email.value, req.userType.value)
        && (forall j :: 0 <= j < i ==> !LoginMatches(users[j], req.email.value, req.userType.value))
        && users[i].password == req.password.value && !users[i].isActive)
    ensures r.Fail? && r.status == 401 ==>
      forall i :: 0 <= i < |users| && LoginMatches(users[i], req.email.value, req.userType.value) &&
                  (forall j :: 0 <= j < i ==> !LoginMatches(users[j], req.email.value, req.userType.value)) ==>
                  users[i].password != req.password.value
    ensures r.Fail? ==> r.status in {400, 401, 403}
  {
    if !(Present(req.email) && Present(req.password) && Present(req.userType)) then
      Fail(400, "email, password and userType are required in the request body")
    else
      var email, password, userType := req.email.value, req.password.value, req.userType.value;
      match FindFirst(users, (u: User) => LoginMatches(u, email, userType))
      case None => Fail(401, "Invalid credentials")
      case Some(i) =>
        if users[i].password != password then Fail(401, "Invalid credentials")
        else if !users[i].isActive then Fail(403, "Account is inactive")
        else Ok(200, LoginBody(CreateToken(users[i]), ToPublicUser(users[i])))
  }

  /** No account with that email and role, whatever the password: 401. */
  lemma LoginUnknownAccount(users: seq<User>, req: LoginRequest)
    requires Present(req.email) && Present(req.password) && Present(req.userType)
    requires forall u :: u in users ==> !LoginMatches(u, req.email.value, req.userType.value)
    ensures Login(users, req) == Fail(401, "Invalid credentials")
  {
  }

  /** The token a successful login returns authenticates, as a bearer
      credential, the very account that logged in (ids being unique). */
  lemma LoginTokenAuthenticates(users: seq<User>, req: LoginRequest)
    requires UserIdsUnique(users)
    requires Login(users, req).Ok?
    ensures var body := Login(users, req).value;
            && ParseUserFromToken(users, body.token).Some?
            && ToPublicUser(ParseUserFromToken(users, body.token).value) == body.user
  {
    var body := Login(users, req).value;
    var i :| 0 <= i < |users| && body == LoginBody(CreateToken(users[i]), ToPublicUser(users[i]));
    ParseCreatedToken(users, users[i]);
  }
}
