/**
 * The access guard run before every request: public paths pass, a request
 * whose `noba_auth` cookie equals the configured password hash passes, and
 * every other request is refused, with a 401 for the API and a redirect to
 * the login page for pages.
 */
module Middleware {
  import opened Maybe

  datatype Decision =
    | Pass                          // NextResponse.next()
    | Unauthorized                  // 401 with { error: 'Unauthorized' }
    | Redirect(pathname: string)    // NextResponse.redirect to the cloned URL with a new path

  const LoginPath: string := "/login"
  const PublicPaths: seq<string> := [LoginPath, "/api/auth"]
  const AssetsPrefix: string := "/_next"
  const ApiPrefix: string := "/api/"

  /** `s.startsWith(prefix)` */
  predicate StartsWith(s: string, prefix: string) {
    |prefix| <= |s| && s[..|prefix|] == prefix
  }

  /** `PUBLIC_PATHS.some(path => pathname.startsWith(path)) || pathname.startsWith('/_next')` */
  predicate IsPublic(pathname: string) {
    (exists p :: p in PublicPaths && StartsWith(pathname, p)) || StartsWith(pathname, AssetsPrefix)
  }

  /** `Boolean(v)` for a string that may be missing: present and non-empty. */
  predicate Given(v: Option<string>) {
    v.Some? && v.value != ""
  }

  /** `token && SITE_PASSWORD_HASH && token === SITE_PASSWORD_HASH` */
  predicate Authorized(token: Option<string>, configured: Option<string>) {
    Given(token) && Given(configured) && token.value == configured.value
  }

  /**
   * The decision for a request to `pathname` carrying the cookie `token`
   * (`None` when absent) while the server is configured with the hash
   * `configured` (`None` when the variable is unset).
   */
  function Guard(pathname: string, token: Option<string>, configured: Option<string>): (d: Decision)
    ensures d.Pass? <==> IsPublic(pathname) || Authorized(token, configured)
    ensures d.Unauthorized? ==> StartsWith(pathname, ApiPrefix)
    ensures d.Redirect? ==> d.pathname == LoginPath && !StartsWith(pathname, ApiPrefix)
  {
    if IsPublic(pathname) then Pass
    else if Authorized(token, configured) then Pass
    else if StartsWith(pathname, ApiPrefix) then Unauthorized
    else Redirect(LoginPath)
  }

  /** A path under `/login`, `/api/auth` or `/_next` passes whatever the cookie says. */
  lemma PublicAlwaysPasses(pathname: string, token: Option<string>, configured: Option<string>)
    requires StartsWith(pathname, "/login") || StartsWith(pathname, "/api/auth") || StartsWith(pathname, "/_next")
    ensures Guard(pathname, token, configured) == Pass
  {
    if StartsWith(pathname, "/api/auth") {
      assert PublicPaths[1] == "/api/auth";
    } else if StartsWith(pathname, "/login") {
      assert PublicPaths[0] == "/login";
    }
  }

  /** Matching is by prefix: `/login-x` is public too. */
  lemma PrefixMatching(configured: Option<string>)
    ensures Guard("/login-x", None, configured) == Pass
  {
    assert "/login-x"[..6] == "/login";
    PublicAlwaysPasses("/login-x", None, configured);
  }

  /**
   * A path that is not public passes exactly when the cookie is set,
   * a hash is configured, and the two are equal.
   */
  lemma PrivatePassIff(pathname: string, token: Option<string>, configured: Option<string>)
    requires !IsPublic(pathname)
    ensures Guard(pathname, token, configured) == Pass
        <==> token.Some? && configured.Some? && token.value != "" && configured.value != "" && token.value == configured.value
  {
  }

  /** Without a configured hash (unset or empty) no private path ever passes. */
  lemma NoHashNoAccess(pathname: string, token: Option<string>, configured: Option<string>)
    requires !IsPublic(pathname)
    requires configured == None || configured == Some("")
    ensures Guard(pathname, token, configured) != Pass
  {
  }

  /** A refused API request gets a 401 and is never redirected. */
  lemma RefusedApiGets401(pathname: string, token: Option<string>, configured: Option<string>)
    requires StartsWith(pathname, ApiPrefix)
    requires Guard(pathname, token, configured) != Pass
    ensures Guard(pathname, token, configured) == Unauthorized
  {
  }

  /** A refused page is redirected to `/login`, and that request passes: the guard never loops. */
  lemma RedirectPasses(pathname: string, token: Option<string>, configured: Option<string>,
                       token': Option<string>)
    requires Guard(pathname, token, configured).Redirect?
    ensures Guard(pathname, token, configured) == Redirect(LoginPath)
    ensures Guard(Guard(pathname, token, configured).pathname, token', configured) == Pass
  {
    assert StartsWith(LoginPath, PublicPaths[0]);
    assert IsPublic(LoginPath);
  }

  /**
   * The cookie the login route sets is the configured hash itself, so once
   * logged in every path passes while the hash stays the same.
   */
  lemma LoggedInPasses(pathname: string, hash: string)
    requires hash != ""
    ensures Guard(pathname, Some(hash), Some(hash)) == Pass
  {
  }
}
