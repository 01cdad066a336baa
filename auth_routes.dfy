/** The decision logic of the account routes: register, login, refresh, logout, me.
  * The refresh cookie the framework sets or deletes is a field of the response. */
module AuthRoutes {
  import opened Outcomes
  import opened Models
  import Security
  import Deps
  import AuthController
  import Storage
  import Text

  const REGISTRATION_FAILED := Error(400, "Registration failed")
  const INVALID_CREDENTIALS := Error(401, "Invalid credentials")
  const REFRESH_TOKEN_MISSING := Error(401, "Refresh token missing")
  const INVALID_REFRESH_TOKEN := Error(401, "Invalid refresh token")
  const NOT_FOUND := Error(404, "Not Found")
  const TOKEN_TYPE := "bearer"

  /** What a response does to the `refresh_token` cookie. */
  datatype Cookie = Untouched | SetRefresh(token: Security.Token) | DeleteRefresh

  /** `{"access_token": ..., "token_type": "bearer"}` and the cookie the response carries. */
  datatype TokenResponse = TokenResponse(accessToken: Security.Token, tokenType: string, cookie: Cookie)

  datatype LogoutResponse = LogoutResponse(success: bool, cookie: Cookie)

  datatype Profile = Profile(name: string, email: string, role: string)

  /** `register`'s mapping of `register_user`'s outcome: `ValueError` is 400 with its message,
    * `None` is 400 "Registration failed", a user is `{"success": True}`. */
  function RegisterResponse(outcome: AuthController.Registration): (r: Result<bool>)
    ensures outcome.Invalid? ==> r == Err(Error(400, outcome.message))
    ensures outcome.EmailTaken? ==> r == Err(REGISTRATION_FAILED)
    ensures outcome.Registered? <==> r == Ok(true)
  {
    match outcome
    case Invalid(message) => Err(Error(400, message))
    case EmailTaken => Err(REGISTRATION_FAILED)
    case Registered(_) => Ok(true)
  }

  /** `POST /register`. */
  method Register(store: Storage.Store, name: string, email: string, password: string,
                  bcrypt: AuthController.Bcrypt, salt: AuthController.Salt)
    returns (r: Result<bool>)
    modifies store
    ensures var (outcome, db') := AuthController.RegisterStep(old(store.Snapshot()), name, email, password, bcrypt, salt);
      store.Snapshot() == db' && r == RegisterResponse(outcome)
    ensures old(store.Valid()) ==> store.Valid()
  {
    var outcome := AuthController.RegisterUser(store, name, email, password, bcrypt, salt);
    r := RegisterResponse(outcome);
  }

  /** A rejected registration is a 400 and leaves the users table as it was. */
  lemma RegisterFailureChangesNothing(db: Storage.Db, name: string, email: string, password: string,
                                      bcrypt: AuthController.Bcrypt, salt: AuthController.Salt)
    ensures var (outcome, db') := AuthController.RegisterStep(db, name, email, password, bcrypt, salt);
      RegisterResponse(outcome).Err? ==> RegisterResponse(outcome).error.status == 400 && db' == db
  {
  }

  /** `POST /login`: 401 and no tokens when authentication fails; otherwise an access token in
    * the body and a refresh token in the cookie, both for the user's id and role. */
  function Login(users: seq<User>, email: string, password: string, bcrypt: AuthController.Bcrypt,
                 cfg: Security.Config, now: int): (r: Result<TokenResponse>)
    ensures r.Err? <==> AuthController.AuthenticateUser(users, email, password, bcrypt).None?
    ensures r.Err? ==> r.error == INVALID_CREDENTIALS
    ensures r.Ok? ==>
      var u := AuthController.AuthenticateUser(users, email, password, bcrypt).value;
      && r.value.accessToken == Security.CreateAccessToken(cfg, u.id, u.role, now)
      && r.value.tokenType == TOKEN_TYPE
      && r.value.cookie == SetRefresh(Security.CreateRefreshToken(cfg, u.id, u.role, now))
  {
    match AuthController.AuthenticateUser(users, email, password, bcrypt)
    case None => Err(INVALID_CREDENTIALS)
    case Some(user) =>
      var access := Security.CreateAccessToken(cfg, user.id, user.role, now);
      var refresh := Security.CreateRefreshToken(cfg, user.id, user.role, now);
      Ok(TokenResponse(access, TOKEN_TYPE, SetRefresh(refresh)))
  }

  /** The two tokens of a login carry the same subject and role and the right types; the
    * access token passes the access gate and names the user who logged in. */
  lemma LoginTokensAgree(users: seq<User>, email: string, password: string, bcrypt: AuthController.Bcrypt,
                         cfg: Security.Config, now: int)
    requires Login(users, email, password, bcrypt, cfg, now).Ok?
    requires cfg.accessMinutes >= 0
    ensures var resp := Login(users, email, password, bcrypt, cfg, now).value;
      var u := AuthController.AuthenticateUser(users, email, password, bcrypt).value;
      && resp.cookie.SetRefresh?
      && resp.accessToken.claims.sub == resp.cookie.token.claims.sub
      && resp.accessToken.claims.role == resp.cookie.token.claims.role == u.role
      && resp.accessToken.claims.kind == Security.ACCESS && resp.cookie.token.claims.kind == Security.REFRESH
      && Deps.GetCurrentUser(resp.accessToken, cfg.secretKey, now) == Ok(resp.accessToken.claims)
      && Deps.CallerId(resp.accessToken.claims) == Ok(u.id)
  {
  }

  /** `POST /refresh`: 401 without the cookie; 401 for a token that does not decode or is not a
    * refresh token; otherwise a new pair issued at `now` for the token's own subject and role
    * (read from the token, not from the users table). */
  function Refresh(cookie: Option<Security.Token>, cfg: Security.Config, now: int): (r: Result<TokenResponse>)
    ensures cookie == None || cookie == Some(Security.Malformed("")) ==> r == Err(REFRESH_TOKEN_MISSING)
    ensures cookie.Some? && cookie.value != Security.Malformed("") ==>
      var payload := Security.DecodeToken(cookie.value, cfg.secretKey, now);
      if payload.None? || payload.value.kind != Security.REFRESH then r == Err(INVALID_REFRESH_TOKEN)
      else if Text.DecimalToNat(payload.value.sub).None? then r == Err(INTERNAL_SERVER_ERROR)
      else
        var userId := Text.DecimalToNat(payload.value.sub).value;
        r == Ok(TokenResponse(Security.CreateAccessToken(cfg, userId, payload.value.role, now), TOKEN_TYPE,
                              SetRefresh(Security.CreateRefreshToken(cfg, userId, payload.value.role, now))))
  {
    if cookie.None? || cookie.value == Security.Malformed("") then Err(REFRESH_TOKEN_MISSING)
    else
      var payload := Security.DecodeToken(cookie.value, cfg.secretKey, now);
      if payload.None? || payload.value.kind != Security.REFRESH then Err(INVALID_REFRESH_TOKEN)
      else
        var userId :- Deps.CallerId(payload.value);
        var role := payload.value.role;
        Ok(TokenResponse(Security.CreateAccessToken(cfg, userId, role, now), TOKEN_TYPE,
                         SetRefresh(Security.CreateRefreshToken(cfg, userId, role, now))))
  }

  /** An access token is refused at the refresh endpoint. */
  lemma RefreshRejectsAccessToken(cfg: Security.Config, userId: nat, role: string, issued: int, now: int)
    ensures Refresh(Some(Security.CreateAccessToken(cfg, userId, role, issued)), cfg, now) == Err(INVALID_REFRESH_TOKEN)
  {
  }

  /** A refresh token from a login, presented before it expires, is rotated into a pair for the
    * same user and role; the presented token is not invalidated and still decodes afterwards. */
  lemma RefreshRotates(cfg: Security.Config, userId: nat, role: string, issued: int, now: int, later: int)
    requires now <= later <= issued + cfg.refreshDays * 86400
    ensures var presented := Security.CreateRefreshToken(cfg, userId, role, issued);
      && Refresh(Some(presented), cfg, now)
         == Ok(TokenResponse(Security.CreateAccessToken(cfg, userId, role, now), TOKEN_TYPE,
                             SetRefresh(Security.CreateRefreshToken(cfg, userId, role, now))))
      && Refresh(Some(presented), cfg, later).Ok?
  {
  }

  /** For any accepted refresh token whose subject is in the form `str(n)` gives, the new tokens
    * carry exactly the presented subject and role. */
  lemma RefreshKeepsClaims(cookie: Security.Token, cfg: Security.Config, now: int)
    requires Refresh(Some(cookie), cfg, now).Ok?
    requires cookie.Jws? && Text.Canonical(cookie.claims.sub)
    ensures var resp := Refresh(Some(cookie), cfg, now).value;
      && resp.accessToken.claims.sub == cookie.claims.sub && resp.accessToken.claims.role == cookie.claims.role
      && resp.cookie.SetRefresh?
      && resp.cookie.token.claims.sub == cookie.claims.sub && resp.cookie.token.claims.role == cookie.claims.role
  {
    var payload := Security.DecodeToken(cookie, cfg.secretKey, now);
    assert payload == Some(cookie.claims);
    Text.CanonicalRoundTrip(cookie.claims.sub);
  }

  /** `POST /logout`: deletes the refresh cookie and nothing else; no token is revoked. */
  function Logout(): (r: LogoutResponse)
    ensures r.success && r.cookie == DeleteRefresh
  {
    LogoutResponse(true, DeleteRefresh)
  }

  /** `GET /me`: the profile of the user the access token names; 404 when no such user. */
  function Me(users: seq<User>, payload: Security.Payload): (r: Result<Profile>)
    ensures Deps.CallerId(payload).Err? ==> r == Err(INTERNAL_SERVER_ERROR)
    ensures Deps.CallerId(payload).Ok? ==>
      match Storage.UserById(users, Deps.CallerId(payload).value)
      case None => r == Err(NOT_FOUND)
      case Some(u) => r == Ok(Profile(u.name, u.email, u.role))
  {
    var userId :- Deps.CallerId(payload);
    match Storage.UserById(users, userId)
    case None => Err(NOT_FOUND)
    case Some(user) => Ok(Profile(user.name, user.email, user.role))
  }

  /** With ids by position, `me` finds the user at position `id - 1` and gives 404 past the end. */
  lemma MeByPosition(users: seq<User>, payload: Security.Payload, userId: nat)
    requires Storage.UsersIndexed(users) && Deps.CallerId(payload) == Ok(userId)
    ensures Me(users, payload) == if 1 <= userId <= |users|
      then Ok(Profile(users[userId - 1].name, users[userId - 1].email, users[userId - 1].role))
      else Err(NOT_FOUND)
  {
    Storage.UserByIdAt(users, userId);
  }
}
