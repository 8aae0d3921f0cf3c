/**
 * The request gate of `middleware.ts`: which paths it runs on (the
 * `config.matcher` pattern) and, for those, whether the request goes on
 * or is sent to the login page.
 */
module Middleware {
  import opened Wrappers
  import opened Text
  import opened Session

  datatype Decision = Next | Redirect(location: string)

  /** Files served to everyone. */
  const AllowedFiles: seq<string> := ["/plant-background.jpg"]
  const LoginPage := "/login"
  const RegisterPage := "/register"

  /** The paths the gate lets through before it looks at the cookie. */
  predicate Exempt(path: string) {
    || path in AllowedFiles
    || StartsWith(path, "/_next") || path == "/favicon.ico"
    || path == LoginPage || path == RegisterPage
  }

  /**
   * `middleware(request)` for a path the matcher selects. `token` is the
   * value of the request's `token` cookie; `!token` treats a missing
   * cookie and an empty value alike.
   */
  function Gate(c: Crypto, path: string, token: Option<string>, now: int): (d: Decision)
    ensures d == Next || d == Redirect(LoginPage)
    ensures Exempt(path) ==> d == Next
    ensures !Exempt(path) && (token.None? || token.value == "") ==> d == Redirect(LoginPage)
  {
    if path in AllowedFiles then Next
    else if StartsWith(path, "/_next") || path == "/favicon.ico" then Next
    else if path == LoginPage || path == RegisterPage then Next
    else if token.None? || token.value == "" then Redirect(LoginPage)
    else if Verify(c, token.value, now).Some? then Next
    else Redirect(LoginPage)
  }

  /** Past the exemptions, a request goes on exactly when its token verifies. */
  lemma GateVerifies(c: Crypto, path: string, token: string, now: int)
    requires !Exempt(path) && token != ""
    ensures Gate(c, path, Some(token), now) == Next <==> Verify(c, token, now).Some?
  {
  }

  /** No redirect loop: the page a request is sent to is let through without a token. */
  lemma NoRedirectLoop(c: Crypto, path: string, token: Option<string>, now: int, again: Option<string>, later: int)
    ensures match Gate(c, path, token, now)
            case Redirect(target) => Gate(c, target, again, later) == Next
            case Next => true
  {
  }

  /** Only the exact login and register paths are public: "/loginx" and "/login/" are gated. */
  lemma LookalikesGated(c: Crypto, now: int)
    ensures Gate(c, "/loginx", None, now) == Redirect(LoginPage)
    ensures Gate(c, "/login/", None, now) == Redirect(LoginPage)
    ensures Gate(c, "/registered", None, now) == Redirect(LoginPage)
  {
    DiffersFromPrefix("/loginx", "/_next", 1);
    DiffersFromPrefix("/login/", "/_next", 1);
    DiffersFromPrefix("/registered", "/_next", 1);
  }

  /** The background image passes with or without a token. */
  lemma BackgroundAlwaysServed(c: Crypto, token: Option<string>, now: int)
    ensures Gate(c, "/plant-background.jpg", token, now) == Next
  {
  }

  /**
   * The gate and GET /api/check-auth agree: past the exemptions, a request
   * goes on exactly when check-auth would call the same cookie
   * authenticated. The empty value, which the gate turns away without
   * verifying, is one that jose rejects.
   */
  lemma GateAgreesWithCheckAuth(c: Crypto, path: string, token: Option<string>, now: int)
    requires Sound(c) && !Exempt(path)
    ensures Gate(c, path, token, now) == Next <==> CheckAuth(c, token, now).status == 200
  {
    if token == Some("") {
      EmptyTokenFails(c, now);
    }
  }

  /** A session issued at login opens every page for one hour; after logout every gated page redirects. */
  lemma GateOverSession(c: Crypto, path: string, userId: int, issuedAt: int, now: int, production: bool)
    requires Sound(c) && !Exempt(path)
    ensures Gate(c, path, Some(IssueToken(c, userId, issuedAt)), now) == Next <==> now < issuedAt + TokenLifetime
    ensures Gate(c, path, Some(ClearedCookie(production).value), now) == Redirect(LoginPage)
  {
    IssuedTokenVerifies(c, userId, issuedAt, now);
    assert c.sign(Algorithm, Claims(userId, issuedAt + TokenLifetime)) != "" by {
      assert c.decode("") == None;
    }
  }

  // ---- The matcher ----

  /**
   * The matcher pattern, a negative lookahead after the leading "/": a
   * path runs the middleware unless its text after the "/" begins with
   * "api", "_next/static", "_next/image" or "favicon", any character,
   * "ico" (the pattern's dot is unescaped).
   */
  predicate Matched(path: string) {
    && |path| >= 1 && path[0] == '/'
    && var rest := path[1..];
    && !StartsWith(rest, "api")
    && !StartsWith(rest, "_next/static")
    && !StartsWith(rest, "_next/image")
    && !FaviconLike(rest)
  }

  predicate FaviconLike(s: string) {
    |s| >= 11 && s[..7] == "favicon" && s[8..11] == "ico"
  }

  /** The middleware as Next.js runs it: outside the matcher the request goes on untouched. */
  function Middleware(c: Crypto, path: string, token: Option<string>, now: int): (d: Decision)
    ensures !Matched(path) ==> d == Next
    ensures Matched(path) ==> d == Gate(c, path, token, now)
  {
    if Matched(path) then Gate(c, path, token, now) else Next
  }

  /**
   * API routes never pass through the gate (each checks its own cookie),
   * and since the lookahead has no trailing "/", neither does any path
   * whose first segment merely starts with "api".
   */
  lemma ApiNotGated(c: Crypto, path: string, token: Option<string>, now: int)
    requires StartsWith(path, "/api")
    ensures Middleware(c, path, token, now) == Next
  {
    assert path[1..][..3] == path[..4][1..];
  }

  lemma MatcherExamples(c: Crypto, now: int)
    ensures Middleware(c, "/apiary", None, now) == Next
    ensures Middleware(c, "/favicon-ico", None, now) == Next
    ensures Middleware(c, "/profile", None, now) == Redirect(LoginPage)
  {
    ApiNotGated(c, "/apiary", None, now);
    assert "/favicon-ico"[1..] == "favicon-ico";
    assert FaviconLike("favicon-ico");
    assert "/profile"[1..] == "profile";
    DiffersFromPrefix("profile", "api", 0);
    DiffersFromPrefix("profile", "_next/static", 0);
    DiffersFromPrefix("profile", "_next/image", 0);
    DiffersFromPrefix("/profile", "/_next", 1);
    assert Matched("/profile");
  }
}
