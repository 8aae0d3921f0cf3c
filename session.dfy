/**
 * Session tokens and the `token` cookie: the claims a token carries, the
 * opaque password-hashing and token-signing functions, the cookies set by
 * POST /api/login and POST /api/logout, and GET /api/check-auth.
 */
module Session {
  import opened Wrappers
  import opened Http

  /** The payload of a session token: `{ userId }` and the `exp` claim, in seconds since the epoch. */
  datatype Claims = Claims(userId: int, exp: int)

  const Algorithm := "HS256"
  /** `setExpirationTime("1h")`, and the cookie's `maxAge`. */
  const TokenLifetime := 3600
  const CookieName := "token"

  /**
   * bcrypt and jose under the server's secret, as opaque functions.
   * `hash` takes the salt bcrypt draws at random; `decode` is jose's
   * signature check, which yields the claims of a well-signed token.
   */
  datatype Crypto = Crypto(
    hash: (string, nat) -> string,
    compare: (string, string) -> bool,
    sign: (string, Claims) -> string,
    decode: string -> Option<Claims>)

  /**
   * What the model relies on: a password compares true against its own
   * hash, a token decodes to the claims it was signed with, and the empty
   * string is not a token.
   */
  ghost predicate Sound(c: Crypto) {
    && (forall password, salt :: c.compare(password, c.hash(password, salt)))
    && (forall claims :: c.decode(c.sign(Algorithm, claims)) == Some(claims))
    && c.decode("") == None
  }

  /** `jwtVerify(token, secret)` at time `now`: the claims, or `None` where it throws. */
  function Verify(c: Crypto, token: string, now: int): (r: Option<Claims>)
    ensures r.Some? ==> c.decode(token) == r && now < r.value.exp
    ensures r.None? ==> c.decode(token).None? || c.decode(token).value.exp <= now
  {
    match c.decode(token)
    case None => None
    case Some(claims) => if now < claims.exp then Some(claims) else None
  }

  /** The token POST /api/login issues at time `now`. */
  function IssueToken(c: Crypto, userId: int, now: int): string {
    c.sign(Algorithm, Claims(userId, now + TokenLifetime))
  }

  /** An issued token verifies, with the user's id, for exactly one hour. */
  lemma IssuedTokenVerifies(c: Crypto, userId: int, now: int, t: int)
    requires Sound(c)
    ensures Verify(c, IssueToken(c, userId, now), t)
         == if t < now + TokenLifetime then Some(Claims(userId, now + TokenLifetime)) else None
  {
    assert c.decode(c.sign(Algorithm, Claims(userId, now + TokenLifetime))) == Some(Claims(userId, now + TokenLifetime));
  }

  lemma EmptyTokenFails(c: Crypto, t: int)
    requires Sound(c)
    ensures Verify(c, "", t).None?
  {
  }

  // ---- Cookies ----

  datatype SameSite = Strict | Lax | NoSameSite

  /** The attributes of a `Set-Cookie`; times are seconds since the epoch. */
  datatype Cookie = Cookie(
    value: string,
    httpOnly: bool,
    secure: bool,
    sameSite: SameSite,
    maxAge: Option<int>,
    expires: Option<int>,
    path: Option<string>)

  /** The cookies a response sets, by name. */
  class CookieJar {
    var cookies: map<string, Cookie>

    constructor()
      ensures cookies == map[]
    {
      cookies := map[];
    }

    /** `response.cookies.set(name, …)`: a later setting of the same name replaces the earlier. */
    method Set(name: string, cookie: Cookie)
      modifies this
      ensures cookies == old(cookies)[name := cookie]
    {
      cookies := cookies[name := cookie];
    }
  }

  /**
   * The cookie POST /api/login sets at time `setAt`; `production` is
   * `NODE_ENV === "production"`. The framework's cookie store adds the
   * defaults the route leaves out: an `Expires` date `Max-Age` seconds on,
   * and path "/".
   */
  function SessionCookie(token: string, production: bool, setAt: int): Cookie {
    Cookie(token, true, production, Strict, Some(TokenLifetime), Some(setAt + TokenLifetime), Some("/"))
  }

  /** The cookie POST /api/logout sets: empty, expired at the epoch, on path "/". */
  function ClearedCookie(production: bool): Cookie {
    Cookie("", true, production, Strict, None, Some(0), Some("/"))
  }

  /**
   * What a browser that received `cookie` at time `setAt` sends back at
   * time `now` (the expiry rules of section 5.3 of RFC 6265): nothing once
   * `Max-Age` has run out or the `Expires` date has passed, the value
   * otherwise. `Max-Age` wins over `Expires`.
   */
  function SentBack(cookie: Cookie, setAt: int, now: int): (r: Option<string>)
    ensures r.Some? ==> r.value == cookie.value
    ensures r.Some? <==> match cookie.maxAge
                         case Some(age) => now < setAt + age
                         case None => cookie.expires.None? || now < cookie.expires.value
  {
    match cookie.maxAge
    case Some(age) => if now < setAt + age then Some(cookie.value) else None
    case None =>
      match cookie.expires
      case Some(at) => if now < at then Some(cookie.value) else None
      case None => Some(cookie.value)
  }

  /** The session cookie lives exactly as long as the token it carries. */
  lemma SessionCookieLifetime(c: Crypto, userId: int, production: bool, setAt: int, now: int)
    requires Sound(c)
    ensures var token := IssueToken(c, userId, setAt);
            match SentBack(SessionCookie(token, production, setAt), setAt, now)
            case None => now >= setAt + TokenLifetime
            case Some(v) => Verify(c, v, now) == Some(Claims(userId, setAt + TokenLifetime))
  {
    IssuedTokenVerifies(c, userId, setAt, now);
  }

  /**
   * POST /api/logout: always `{ success: true }`, and the `token` cookie is
   * overwritten. No server state is read or changed, so a token issued
   * earlier stays valid until it expires.
   */
  method Logout(production: bool) returns (r: Response<Json>, jar: CookieJar)
    ensures r == Response(200, Success(true))
    ensures fresh(jar) && jar.cookies == map[CookieName := ClearedCookie(production)]
  {
    jar := new CookieJar();
    jar.Set(CookieName, ClearedCookie(production));
    r := Response(200, Success(true));
  }

  /**
   * After logout the browser sends no token at any time after the epoch,
   * and the value it was given is empty. The cleared cookie has the session
   * cookie's name and path, so it replaces that cookie rather than sitting
   * beside it.
   */
  lemma LogoutClearsCookie(production: bool, token: string, setAt: int, now: int)
    requires now > 0
    ensures SentBack(ClearedCookie(production), setAt, now) == None
    ensures ClearedCookie(production).value == ""
    ensures ClearedCookie(production).path == SessionCookie(token, production, setAt).path
  {
  }

  /**
   * GET /api/check-auth. `token` is the request's `token` cookie;
   * a cookie that is present but empty still goes to `jwtVerify`.
   */
  function CheckAuth(c: Crypto, token: Option<string>, now: int): (r: Response<Json>)
    ensures r.body == AuthState(r.status == 200)
    ensures r.status == 200 || r.status == 401
    ensures r.status == 200 <==> token.Some? && Verify(c, token.value, now).Some?
  {
    match token
    case None => Response(401, AuthState(false))
    case Some(t) =>
      if Verify(c, t, now).Some? then Response(200, AuthState(true)) else Response(401, AuthState(false))
  }

  /** A freshly issued session is authenticated for its hour and not after. */
  lemma CheckAuthAfterLogin(c: Crypto, userId: int, now: int, t: int)
    requires Sound(c)
    ensures CheckAuth(c, Some(IssueToken(c, userId, now)), t).status == 200 <==> t < now + TokenLifetime
  {
    IssuedTokenVerifies(c, userId, now, t);
  }

  /** The cookie logout leaves behind is never authenticated. */
  lemma CheckAuthAfterLogout(c: Crypto, production: bool, t: int)
    requires Sound(c)
    ensures CheckAuth(c, Some(ClearedCookie(production).value), t) == Response(401, AuthState(false))
  {
    EmptyTokenFails(c, t);
  }
}
