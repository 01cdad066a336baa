/** Access and refresh tokens: JSON Web Tokens (RFC 7519) signed with HMAC-SHA-256
  * (section 3.2 of RFC 7518). Signing is symbolic: a signature records the key and the claims
  * it covers, so only a holder of the key can produce one. The clock is the parameter `now`,
  * in whole seconds since the epoch. */
module Security {
  import opened Outcomes
  import Text

  const ALGORITHM := "HS256"
  const ACCESS := "access"
  const REFRESH := "refresh"

  const DEFAULT_ACCESS_TOKEN_EXPIRE_MINUTES := 30
  const DEFAULT_REFRESH_TOKEN_EXPIRE_DAYS := 7

  /** The claims of a token: `sub` (section 4.1.2 of RFC 7519), `role`, `type` and
    * `exp` (section 4.1.4 of RFC 7519) in seconds since the epoch. */
  datatype Payload = Payload(sub: string, role: string, kind: string, exp: int)

  /** A symbolic HMAC tag over the claims. */
  datatype Signature = Hmac(key: string, claims: Payload)

  /** A token as presented: a signed JWS, or any string that does not parse as one. */
  datatype Token = Jws(alg: string, claims: Payload, signature: Signature) | Malformed(raw: string)

  /** The module-level settings, fixed when the module is loaded. */
  datatype Config = Config(secretKey: string, accessMinutes: int, refreshDays: int)

  /** Loading the module either yields the settings or stops the process. */
  datatype Startup = Started(config: Config) | Fatal(message: string)

  const SECRET_KEY_MISSING := "SECRET_KEY is not set in environment variables"

  /** Module load: TTLs default to 30 minutes and 7 days; an unset or empty `SECRET_KEY` is fatal. */
  function LoadConfig(secretKey: Option<string>, accessMinutes: Option<int>, refreshDays: Option<int>): (r: Startup)
    ensures r.Fatal? <==> secretKey == None || secretKey == Some("")
    ensures r.Fatal? ==> r.message == SECRET_KEY_MISSING
    ensures r.Started? ==> r.config.secretKey == secretKey.value
    ensures r.Started? ==> r.config.accessMinutes == (if accessMinutes.Some? then accessMinutes.value else 30)
    ensures r.Started? ==> r.config.refreshDays == (if refreshDays.Some? then refreshDays.value else 7)
  {
    var minutes := if accessMinutes.Some? then accessMinutes.value else DEFAULT_ACCESS_TOKEN_EXPIRE_MINUTES;
    var days := if refreshDays.Some? then refreshDays.value else DEFAULT_REFRESH_TOKEN_EXPIRE_DAYS;
    if secretKey.None? || secretKey.value == "" then Fatal(SECRET_KEY_MISSING)
    else Started(Config(secretKey.value, minutes, days))
  }

  /** `jwt.encode(claims, key, algorithm="HS256")`. */
  function Encode(claims: Payload, key: string): Token
  {
    Jws(ALGORITHM, claims, Hmac(key, claims))
  }

  /** `decode_token`: total; the claims of a token sealed under `key` that has not yet expired,
    * `None` for every other token (bad signature, other algorithm, expired, malformed). */
  function DecodeToken(token: Token, key: string, now: int): (r: Option<Payload>)
    ensures forall p {:trigger Encode(p, key)} :: r == Some(p) <==> token == Encode(p, key) && now <= p.exp
  {
    match token
    case Malformed(_) => None
    case Jws(alg, claims, signature) =>
      if alg == ALGORITHM && signature == Hmac(key, claims) && now <= claims.exp then Some(claims)
      else None
  }

  function AccessClaims(cfg: Config, userId: nat, role: string, now: int): Payload
  {
    Payload(Text.NatToDecimal(userId), role, ACCESS, now + cfg.accessMinutes * 60)
  }

  function RefreshClaims(cfg: Config, userId: nat, role: string, now: int): Payload
  {
    Payload(Text.NatToDecimal(userId), role, REFRESH, now + cfg.refreshDays * 24 * 60 * 60)
  }

  /** `create_access_token(user_id, role)` at time `now`. */
  function CreateAccessToken(cfg: Config, userId: nat, role: string, now: int): (t: Token)
    ensures t.Jws? && t.claims.role == role && t.claims.kind == ACCESS
    ensures t.claims.exp == now + cfg.accessMinutes * 60
    ensures Text.DecimalToNat(t.claims.sub) == Some(userId)
    ensures t.claims.sub == Text.NatToDecimal(userId)
    ensures t == Encode(t.claims, cfg.secretKey)
  {
    Text.DecimalRoundTrip(userId);
    Encode(AccessClaims(cfg, userId, role, now), cfg.secretKey)
  }

  /** `create_refresh_token(user_id, role)` at time `now`. */
  function CreateRefreshToken(cfg: Config, userId: nat, role: string, now: int): (t: Token)
    ensures t.Jws? && t.claims.role == role && t.claims.kind == REFRESH
    ensures t.claims.exp == now + cfg.refreshDays * 86400
    ensures Text.DecimalToNat(t.claims.sub) == Some(userId)
    ensures t.claims.sub == Text.NatToDecimal(userId)
    ensures t == Encode(t.claims, cfg.secretKey)
  {
    Text.DecimalRoundTrip(userId);
    Encode(RefreshClaims(cfg, userId, role, now), cfg.secretKey)
  }

  /** A freshly issued access token decodes to its own claims until `exp` and to `None` after. */
  lemma AccessTokenLifetime(cfg: Config, userId: nat, role: string, now: int, at: int)
    ensures var t := CreateAccessToken(cfg, userId, role, now);
      DecodeToken(t, cfg.secretKey, at) == if at <= now + cfg.accessMinutes * 60 then Some(t.claims) else None
  {
  }

  /** The same for refresh tokens. */
  lemma RefreshTokenLifetime(cfg: Config, userId: nat, role: string, now: int, at: int)
    ensures var t := CreateRefreshToken(cfg, userId, role, now);
      DecodeToken(t, cfg.secretKey, at) == if at <= now + cfg.refreshDays * 86400 then Some(t.claims) else None
  {
  }

  /** A token sealed under another key never decodes. */
  lemma ForeignKeyRejected(claims: Payload, key: string, other: string, now: int)
    requires other != key
    ensures DecodeToken(Encode(claims, other), key, now) == None
  {
  }

  /** With the default TTLs a refresh token outlives an access token issued at the same instant;
    * in general, exactly when the refresh TTL is the longer one. */
  lemma RefreshOutlivesAccess(cfg: Config, userId: nat, role: string, now: int)
    ensures CreateRefreshToken(cfg, userId, role, now).claims.exp > CreateAccessToken(cfg, userId, role, now).claims.exp
            <==> cfg.refreshDays * 1440 > cfg.accessMinutes
    ensures cfg.accessMinutes == DEFAULT_ACCESS_TOKEN_EXPIRE_MINUTES && cfg.refreshDays == DEFAULT_REFRESH_TOKEN_EXPIRE_DAYS ==>
            CreateRefreshToken(cfg, userId, role, now).claims.exp > CreateAccessToken(cfg, userId, role, now).claims.exp
  {
  }
}
