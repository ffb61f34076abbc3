/** The session handlers: login by email and password, logout, and token refresh behind
    the gate. The token issuer and bcrypt's check are the oracles of `Services`; the
    configured token lifetime in hours is a parameter. */
module AccountAuth {
  import opened Common
  import opened UserModel
  import opened Responses
  import opened Collaborators
  import opened AuthGate

  const INVALID_CREDENTIALS: string := "Invalid email or password"
  const TOKEN_FAILED: string := "Failed to generate authentication token"
  const REFRESH_FAILED: string := "Failed to refresh authentication token"
  const LOGIN_OK: string := "Login successful"
  const LOGOUT_OK: string := "Logout successful"
  const REFRESHED: string := "Token refreshed successfully"
  const TOKEN_TYPE: string := "Bearer"

  /** The token lifetime the configuration sets when nothing overrides it. */
  const DEFAULT_EXPIRATION_HOURS: int64 := 24

  /** The login body, after gin's binding. */
  datatype LoginRequest = LoginRequest(email: Bytes, password: Bytes)

  /** `expires_in`: the configured hours times 3600, computed in Go's 64-bit `int`. */
  function ExpiresIn(hours: int64): (seconds: int64)
    ensures INT64_MIN <= hours as int * 3600 <= INT64_MAX ==> seconds == hours * 3600
    ensures (seconds - hours * 3600) % TWO_TO_64 == 0
  {
    WrapInt64(hours * 3600)
  }

  /** The default lifetime is reported as a day's worth of seconds. */
  lemma DefaultExpiresIn()
    ensures ExpiresIn(DEFAULT_EXPIRATION_HOURS) == 86400
  {
  }

  /** The user the login finds by email, and whose stored hash the password checks
      against. */
  predicate Authenticates(store: Store, svc: Services, req: LoginRequest) {
    FindByEmail(store, req.email).Some? && svc.check(req.password, FindByEmail(store, req.email).value.passwordHash)
  }

  /** `ActionLogin`. */
  function Login(bound: Bound<LoginRequest>, store: Store, svc: Services, hours: int64): (out: Outcome)
    ensures bound.BindError? ==> out == Outcome(Error(STATUS_BAD_REQUEST, INVALID_REQUEST), [])
    // a bound request starts with the lookup by email, and the stored hash is checked
    // only when a user was found
    ensures bound.Bound? ==> |out.calls| >= 1 && out.calls[0] == GetByEmail(bound.request.email)
    ensures bound.Bound? && FindByEmail(store, bound.request.email).None? ==> |out.calls| == 1
    ensures bound.Bound? && FindByEmail(store, bound.request.email).Some? ==>
      |out.calls| >= 2 &&
      out.calls[1] == CheckPassword(bound.request.password, FindByEmail(store, bound.request.email).value.passwordHash)
    ensures bound.Bound? && FindByEmail(store, bound.request.email).Some? && !Authenticates(store, svc, bound.request) ==>
      |out.calls| == 2
    // an unknown email and a wrong password get one and the same refusal
    ensures out.response.status == STATUS_UNAUTHORIZED <==> bound.Bound? && !Authenticates(store, svc, bound.request)
    ensures out.response.status == STATUS_UNAUTHORIZED ==> out.response == Error(STATUS_UNAUTHORIZED, INVALID_CREDENTIALS)
    // a token is requested only after the lookup and the password check, from the
    // identity of the user found
    ensures forall i :: 0 <= i < |out.calls| && out.calls[i].GenerateToken? ==>
      bound.Bound? && Authenticates(store, svc, bound.request)
    ensures bound.Bound? && Authenticates(store, svc, bound.request) ==>
      var user := FindByEmail(store, bound.request.email).value;
         out.calls == [GetByEmail(bound.request.email), CheckPassword(bound.request.password, user.passwordHash),
                       GenerateToken(user.id, user.username, user.email)]
    // a signing failure is a server error, not a credential failure
    ensures out.response.status == STATUS_INTERNAL_ERROR <==>
      && bound.Bound? && Authenticates(store, svc, bound.request)
      && var user := FindByEmail(store, bound.request.email).value;
         svc.issue(user.id, user.username, user.email).None?
    ensures out.response.status == STATUS_INTERNAL_ERROR ==> out.response == Error(STATUS_INTERNAL_ERROR, TOKEN_FAILED)
    // a request that authenticates and is signed is accepted
    ensures out.response.status == STATUS_OK <==>
      && bound.Bound? && Authenticates(store, svc, bound.request)
      && var user := FindByEmail(store, bound.request.email).value;
         svc.issue(user.id, user.username, user.email).Some?
    ensures out.response.status == STATUS_OK ==>
      && bound.Bound? && Authenticates(store, svc, bound.request)
      && var user := FindByEmail(store, bound.request.email).value;
      && svc.issue(user.id, user.username, user.email).Some?
      && out.response.body == LoginBody(LOGIN_OK, svc.issue(user.id, user.username, user.email).value,
                                        ToResponse(user), ExpiresIn(hours), TOKEN_TYPE)
  {
    if bound.BindError? then Outcome(Error(STATUS_BAD_REQUEST, INVALID_REQUEST), [])
    else
      var req := bound.request;
      var lookup := [GetByEmail(req.email)];
      match FindByEmail(store, req.email)
      case None => Outcome(Error(STATUS_UNAUTHORIZED, INVALID_CREDENTIALS), lookup)
      case Some(user) =>
        var checked := lookup + [CheckPassword(req.password, user.passwordHash)];
        if !svc.check(req.password, user.passwordHash) then
          Outcome(Error(STATUS_UNAUTHORIZED, INVALID_CREDENTIALS), checked)
        else
          var issued := checked + [GenerateToken(user.id, user.username, user.email)];
          match svc.issue(user.id, user.username, user.email)
          case None => Outcome(Error(STATUS_INTERNAL_ERROR, TOKEN_FAILED), issued)
          case Some(token) =>
            Outcome(Response(STATUS_OK, LoginBody(LOGIN_OK, token, ToResponse(user), ExpiresIn(hours), TOKEN_TYPE)), issued)
  }

  /** In a table that keeps emails unique, a login is refused exactly when no row has
      the email with a hash the password checks against. */
  lemma LoginRefusedIff(store: Store, svc: Services, req: LoginRequest, hours: int64)
    requires Consistent(store) && SelectByEmail !in store.failing
    ensures Login(Bound(req), store, svc, hours).response.status == STATUS_UNAUTHORIZED <==>
      forall i :: 0 <= i < |store.rows| && store.rows[i].email == req.email ==>
        !svc.check(req.password, store.rows[i].passwordHash)
  {
    FindByEmailUnique(store, req.email);
  }

  /** A caller cannot tell an unknown email from a wrong password: both requests get the
      same response, and neither reaches the token issuer. */
  lemma LoginHidesWhichCredentialFailed(store: Store, svc: Services, unknown: LoginRequest, wrong: LoginRequest, hours: int64)
    requires FindByEmail(store, unknown.email).None?
    requires FindByEmail(store, wrong.email).Some?
    requires !svc.check(wrong.password, FindByEmail(store, wrong.email).value.passwordHash)
    ensures Login(Bound(unknown), store, svc, hours).response == Login(Bound(wrong), store, svc, hours).response
    ensures forall c :: c in Login(Bound(unknown), store, svc, hours).calls + Login(Bound(wrong), store, svc, hours).calls ==>
      !c.GenerateToken?
  {
  }

  /** `ActionLogout`: there is no server-side session, so it only answers. */
  function Logout(): (out: Outcome)
    ensures out.response.status == STATUS_OK && out.calls == []
    ensures out.response.body == MessageBody(LOGOUT_OK)
  {
    Outcome(Response(STATUS_OK, MessageBody(LOGOUT_OK)), [])
  }

  /** `ActionRefreshToken`: a new token for the identity the gate stored, without a
      lookup or a password check. */
  function RefreshToken(keys: Keys, svc: Services, hours: int64): (out: Outcome)
    ensures out.response.status == STATUS_UNAUTHORIZED <==>
      !(GetUserID(keys).1 && GetUsername(keys).1 && GetEmail(keys).1)
    ensures out.response.status == STATUS_UNAUTHORIZED ==>
      out == Outcome(Error(STATUS_UNAUTHORIZED, NOT_AUTHENTICATED), [])
    ensures GetUserID(keys).1 && GetUsername(keys).1 && GetEmail(keys).1 ==>
      out.calls == [GenerateToken(GetUserID(keys).0, GetUsername(keys).0, GetEmail(keys).0)]
    ensures out.response.status == STATUS_INTERNAL_ERROR <==>
      && GetUserID(keys).1 && GetUsername(keys).1 && GetEmail(keys).1
      && svc.issue(GetUserID(keys).0, GetUsername(keys).0, GetEmail(keys).0).None?
    ensures out.response.status == STATUS_INTERNAL_ERROR ==> out.response == Error(STATUS_INTERNAL_ERROR, REFRESH_FAILED)
    // a full identity whose token is signed is answered with it
    ensures out.response.status == STATUS_OK <==>
      && GetUserID(keys).1 && GetUsername(keys).1 && GetEmail(keys).1
      && svc.issue(GetUserID(keys).0, GetUsername(keys).0, GetEmail(keys).0).Some?
    ensures out.response.status == STATUS_OK ==>
      && svc.issue(GetUserID(keys).0, GetUsername(keys).0, GetEmail(keys).0).Some?
      && out.response.body == TokenBody(REFRESHED, svc.issue(GetUserID(keys).0, GetUsername(keys).0, GetEmail(keys).0).value,
                                        ExpiresIn(hours), TOKEN_TYPE)
  {
    var (userId, hasId) := GetUserID(keys);
    if !hasId then Outcome(Error(STATUS_UNAUTHORIZED, NOT_AUTHENTICATED), [])
    else
      var (username, hasName) := GetUsername(keys);
      if !hasName then Outcome(Error(STATUS_UNAUTHORIZED, NOT_AUTHENTICATED), [])
      else
        var (email, hasEmail) := GetEmail(keys);
        if !hasEmail then Outcome(Error(STATUS_UNAUTHORIZED, NOT_AUTHENTICATED), [])
        else
          var calls := [GenerateToken(userId, username, email)];
          match svc.issue(userId, username, email)
          case None => Outcome(Error(STATUS_INTERNAL_ERROR, REFRESH_FAILED), calls)
          case Some(token) => Outcome(Response(STATUS_OK, TokenBody(REFRESHED, token, ExpiresIn(hours), TOKEN_TYPE)), calls)
  }

  /** Behind the gate a refresh always finds its identity: the one call it makes issues a
      token for exactly the claims of the bearer token the request came with. */
  lemma RefreshAfterGate(header: Bytes, validate: Validator, keys: Keys, svc: Services, hours: int64)
    requires Decide(header, validate).Admit?
    ensures var claims := Decide(header, validate).claims;
      var out := RefreshToken(WithIdentity(keys, claims), svc, hours);
      && out.response.status != STATUS_UNAUTHORIZED
      && out.calls == [GenerateToken(claims.userId, claims.username, claims.email)]
  {
    IdentityRoundTrip(keys, Decide(header, validate).claims);
  }
}
