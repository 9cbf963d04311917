/** The request middleware: which paths it runs on, the redirect rule for the
    admin area and the login page, and the session-cookie hand-over of `setAll`.
    Whether there is a signed-in user (`auth.getUser()`) is the parameter
    `hasUser`; the cookies the authentication client wants written are the
    parameter `toSet`. */
module Middleware {
  import opened Common

  /** A query string as its list of name-value pairs, in order. */
  type Params = seq<(string, string)>

  datatype Url = Url(pathname: string, search: Params)

  /** `NextResponse.next()` or `NextResponse.redirect(url)`. */
  datatype Decision = PassThrough | Redirect(target: Url)

  const AdminPrefix: string := "/admin"
  const LoginPath: string := "/auth/login"
  const RedirectParam: string := "redirectTo"

  // ---------------------------------------------------------------------------
  // Query parameters
  // ---------------------------------------------------------------------------

  function HasName(name: string): ((string, string)) -> bool {
    (p: (string, string)) => p.0 == name
  }

  function OtherName(name: string): ((string, string)) -> bool {
    (p: (string, string)) => p.0 != name
  }

  /** `URLSearchParams.get`: the value of the first pair with the name. */
  function GetParam(ps: Params, name: string): (r: Option<string>)
    ensures r.None? <==> forall i :: 0 <= i < |ps| ==> ps[i].0 != name
  {
    if ps == [] then None
    else if ps[0].0 == name then Some(ps[0].1)
    else GetParam(ps[1..], name)
  }

  /** `URLSearchParams.set`: the first pair with the name takes the value and the
      other pairs with it are dropped; with no such pair, one is appended. */
  function SetParam(ps: Params, name: string, value: string): (r: Params)
    ensures GetParam(r, name) == Some(value)
    ensures Count(r, HasName(name)) == 1
    ensures Filter(r, OtherName(name)) == Filter(ps, OtherName(name))
    ensures (forall i :: 0 <= i < |ps| ==> ps[i].0 != name) ==> r == ps + [(name, value)]
  {
    if ps == [] then [(name, value)]
    else if ps[0].0 == name then
      var rest := Filter(ps[1..], OtherName(name));
      FilterNone(rest, HasName(name));
      FilterAll(rest, OtherName(name));
      assert Filter(ps, OtherName(name)) == rest;
      var r := [(name, value)] + rest;
      assert r[1..] == rest;
      r
    else
      var tail := SetParam(ps[1..], name, value);
      var r := [ps[0]] + tail;
      assert r[1..] == tail;
      AppendedBehindHead(ps, name, value, tail);
      r
  }

  /** A name none of the pairs has is appended behind the first pair as behind the rest. */
  lemma AppendedBehindHead(ps: Params, name: string, value: string, tail: Params)
    requires ps != []
    requires (forall i :: 0 <= i < |ps[1..]| ==> ps[1..][i].0 != name) ==> tail == ps[1..] + [(name, value)]
    ensures (forall i :: 0 <= i < |ps| ==> ps[i].0 != name) ==> [ps[0]] + tail == ps + [(name, value)]
  {
    if forall i :: 0 <= i < |ps| ==> ps[i].0 != name {
      forall i | 0 <= i < |ps[1..]| ensures ps[1..][i].0 != name {
        assert ps[1..][i] == ps[i + 1];
      }
      assert [ps[0]] + (ps[1..] + [(name, value)]) == ps + [(name, value)];
    }
  }

  // ---------------------------------------------------------------------------
  // The matcher
  // ---------------------------------------------------------------------------

  /** The path prefixes `config.matcher` leaves to the framework. */
  const Excluded: seq<string> := ["/_next/static", "/_next/image", "/favicon.ico", "/images/", "/api/"]

  /** The path starts with the pattern, where an unescaped `.` of the pattern
      stands for any one character, as in a regular expression. */
  predicate PatternPrefix(pattern: string, pathname: string) {
    |pattern| <= |pathname| && forall i :: 0 <= i < |pattern| ==> pattern[i] == '.' || pattern[i] == pathname[i]
  }

  /** `'/((?!_next/static|_next/image|favicon.ico|images/|api/).*)'`: the
      middleware runs on a path that starts with '/' and does not continue with one
      of the excluded names. */
  predicate Runs(pathname: string) {
    IsPrefix("/", pathname) && forall i :: 0 <= i < |Excluded| ==> !PatternPrefix(Excluded[i], pathname)
  }

  /** The `.` of `favicon.ico` is not escaped, so a path that has another character
      in its place is skipped too, while the real favicon is skipped as intended. */
  lemma FaviconDotIsWildcard()
    ensures !Runs("/favicon.ico") && !Runs("/favicon-ico") && !Runs("/faviconxico/admin")
    ensures Runs("/favicon")
  {
    assert PatternPrefix(Excluded[2], "/favicon.ico");
    assert PatternPrefix(Excluded[2], "/favicon-ico");
    assert PatternPrefix(Excluded[2], "/faviconxico/admin");
    var f := "/favicon";
    assert IsPrefix("/", f) by { assert f[..1] == "/"; }
    forall i | 0 <= i < |Excluded| ensures !PatternPrefix(Excluded[i], f) {
      var e := Excluded[i];
      assert |e| > |f| || (e[1] != '.' && e[1] != f[1]);
    }
  }

  /** The guard cannot be bypassed: every admin path is one the middleware runs on. */
  lemma AdminPathsRun(pathname: string)
    requires IsPrefix(AdminPrefix, pathname)
    ensures Runs(pathname)
  {
    assert pathname[..|AdminPrefix|] == AdminPrefix;
    assert pathname[0] == '/' && pathname[1] == 'a' && pathname[2] == 'd' by {
      assert pathname[0] == pathname[..|AdminPrefix|][0];
      assert pathname[1] == pathname[..|AdminPrefix|][1];
      assert pathname[2] == pathname[..|AdminPrefix|][2];
    }
    assert pathname[..1] == "/";
    forall i | 0 <= i < |Excluded| ensures !PatternPrefix(Excluded[i], pathname) {
      var e := Excluded[i];
      assert |e| >= 3 && e[1] != '.' && e[2] != '.' && (e[1] != 'a' || e[2] != 'd');
    }
  }

  // ---------------------------------------------------------------------------
  // The decision
  // ---------------------------------------------------------------------------

  /** An admin route: a plain prefix test on the path. */
  predicate IsAdminRoute(pathname: string) {
    IsPrefix(AdminPrefix, pathname)
  }

  /** The login page: the exact path only. */
  predicate IsAuthRoute(pathname: string) {
    pathname == LoginPath
  }

  /** Admin without a user goes to the login page, which is told where to return;
      the login page with a user goes to the admin area; everything else passes.
      The redirect keeps the request's query string apart from `redirectTo`. */
  function Decide(url: Url, hasUser: bool): (d: Decision)
    ensures IsAdminRoute(url.pathname) && !hasUser ==>
              d == Redirect(Url(LoginPath, SetParam(url.search, RedirectParam, url.pathname)))
    ensures IsAuthRoute(url.pathname) && hasUser ==> d == Redirect(Url(AdminPrefix, url.search))
    ensures d.PassThrough? <==> !(IsAdminRoute(url.pathname) && !hasUser) && !(IsAuthRoute(url.pathname) && hasUser)
  {
    if IsAdminRoute(url.pathname) && !hasUser then
      Redirect(Url(LoginPath, SetParam(url.search, RedirectParam, url.pathname)))
    else if IsAuthRoute(url.pathname) && hasUser then
      Redirect(Url(AdminPrefix, url.search))
    else PassThrough
  }

  /** The login page is not an admin route, so the two rules never both apply. */
  lemma LoginIsNotAdmin()
    ensures !IsAdminRoute(LoginPath)
  {
    assert LoginPath[..|AdminPrefix|][2] != AdminPrefix[2];
  }

  /** No redirect loop: for the same user state, the page a redirect leads to
      passes through. */
  lemma NoRedirectLoop(url: Url, hasUser: bool)
    ensures Decide(url, hasUser).Redirect? ==> Decide(Decide(url, hasUser).target, hasUser) == PassThrough
  {
    LoginIsNotAdmin();
    assert AdminPrefix != LoginPath by {
      assert |AdminPrefix| != |LoginPath|;
    }
  }

  /** A signed-out visitor sent to the login page carries the original path in
      `redirectTo`. */
  lemma LoginKnowsWhereToReturn(url: Url)
    requires IsAdminRoute(url.pathname)
    ensures Decide(url, false).Redirect?
    ensures GetParam(Decide(url, false).target.search, RedirectParam) == Some(url.pathname)
  {
  }

  /** "/administrator" is guarded too, since the test is a prefix test. */
  lemma AdministratorGuarded(search: Params)
    ensures Decide(Url("/administrator", search), false).Redirect?
  {
    assert "/administrator"[..|AdminPrefix|] == AdminPrefix;
  }

  /** "/auth/login/" with a trailing slash is not the login page. */
  lemma LoginPageIsExact(search: Params)
    ensures Decide(Url("/auth/login/", search), true) == PassThrough
  {
    assert "/auth/login/"[..|AdminPrefix|][2] != AdminPrefix[2];
  }

  // ---------------------------------------------------------------------------
  // Cookies
  // ---------------------------------------------------------------------------

  /** The options the client attaches to a cookie, kept as name-value pairs. */
  type CookieOptions = seq<(string, string)>

  datatype CookieToSet = CookieToSet(name: string, value: string, options: CookieOptions)

  datatype StoredCookie = StoredCookie(value: string, options: CookieOptions)

  /** A set of cookies keyed by name; a later `set` with a name replaces the earlier. */
  class CookieJar {
    var values: map<string, StoredCookie>

    constructor(initial: map<string, StoredCookie>)
      ensures values == initial
    {
      values := initial;
    }
  }

  /** The cookies after writing `toSet` in order: the last write of a name wins. */
  function Written(m: map<string, StoredCookie>, toSet: seq<CookieToSet>, withOptions: bool): map<string, StoredCookie>
    decreases |toSet|
  {
    if toSet == [] then m
    else
      var c := Last(toSet);
      Written(m, toSet[..|toSet| - 1], withOptions)[c.name := StoredCookie(c.value, if withOptions then c.options else [])]
  }

  /** The last cookie in `toSet` with the name, if any. */
  function LastWrite(toSet: seq<CookieToSet>, name: string): (r: Option<CookieToSet>)
    ensures r.None? <==> forall i :: 0 <= i < |toSet| ==> toSet[i].name != name
    ensures r.Some? ==> exists k :: 0 <= k < |toSet| && toSet[k] == r.value && r.value.name == name &&
                                    forall j :: k < j < |toSet| ==> toSet[j].name != name
    decreases |toSet|
  {
    if toSet == [] then None
    else if Last(toSet).name == name then Some(Last(toSet))
    else
      var r := LastWrite(toSet[..|toSet| - 1], name);
      LastWriteExtends(toSet, name, r);
      r
  }

  /** The last write of a name among all but the last cookie is its last write
      overall when the last cookie has another name. */
  lemma LastWriteExtends(toSet: seq<CookieToSet>, name: string, r: Option<CookieToSet>)
    requires toSet != [] && Last(toSet).name != name
    requires var init := toSet[..|toSet| - 1];
             && (r.None? <==> forall i :: 0 <= i < |init| ==> init[i].name != name)
             && (r.Some? ==> exists k :: 0 <= k < |init| && init[k] == r.value && r.value.name == name &&
                                         forall j :: k < j < |init| ==> init[j].name != name)
    ensures r.None? <==> forall i :: 0 <= i < |toSet| ==> toSet[i].name != name
    ensures r.Some? ==> exists k :: 0 <= k < |toSet| && toSet[k] == r.value && r.value.name == name &&
                                    forall j :: k < j < |toSet| ==> toSet[j].name != name
  {
    var n := |toSet| - 1;
    var init := toSet[..n];
    if r.Some? {
      var k :| 0 <= k < n && init[k] == r.value && r.value.name == name &&
               forall j :: k < j < n ==> init[j].name != name;
      assert toSet[k] == init[k];
      forall j | k < j < |toSet| ensures toSet[j].name != name {
        if j < n {
          assert toSet[j] == init[j];
        }
      }
    } else {
      forall i | 0 <= i < |toSet| ensures toSet[i].name != name {
        if i < n {
          assert toSet[i] == init[i];
        }
      }
    }
  }

  /** A written cookie ends with the value and options of its last write; a cookie
      that is not written keeps its entry, or its absence. */
  lemma {:induction false} WrittenLastWins(m: map<string, StoredCookie>, toSet: seq<CookieToSet>, withOptions: bool, name: string)
    ensures LastWrite(toSet, name).None? ==>
              (name in Written(m, toSet, withOptions) <==> name in m) &&
              (name in m ==> Written(m, toSet, withOptions)[name] == m[name])
    ensures LastWrite(toSet, name).Some? ==>
              var c := LastWrite(toSet, name).value;
              name in Written(m, toSet, withOptions) &&
              Written(m, toSet, withOptions)[name] == StoredCookie(c.value, if withOptions then c.options else [])
    decreases |toSet|
  {
    if toSet != [] && Last(toSet).name != name {
      WrittenLastWins(m, toSet[..|toSet| - 1], withOptions, name);
    }
  }

  /** `setAll`: each cookie is written into the request (name and value) and into
      the response (with its options), in order. */
  method SetAll(request: CookieJar, response: CookieJar, toSet: seq<CookieToSet>)
    requires request != response
    modifies request, response
    ensures request.values == Written(old(request.values), toSet, false)
    ensures response.values == Written(old(response.values), toSet, true)
  {
    var i := 0;
    while i < |toSet|
      invariant 0 <= i <= |toSet|
      invariant request.values == Written(old(request.values), toSet[..i], false)
      invariant response.values == Written(old(response.values), toSet[..i], true)
    {
      var c := toSet[i];
      assert toSet[..i + 1][..i] == toSet[..i];
      request.values := request.values[c.name := StoredCookie(c.value, [])];
      response.values := response.values[c.name := StoredCookie(c.value, c.options)];
      i := i + 1;
    }
    assert toSet[..|toSet|] == toSet;
  }

  // ---------------------------------------------------------------------------
  // The whole middleware
  // ---------------------------------------------------------------------------

  /** The response: where it redirects, if it does, and the cookies it sets. */
  datatype Response = Response(redirect: Option<Url>, cookies: map<string, StoredCookie>)

  /** As written: `NextResponse.redirect(url)` is a new response, so the cookies
      `setAll` put on `supabaseResponse` reach the browser only when the request
      passes through. */
  function ResponseAsWritten(d: Decision, written: map<string, StoredCookie>): (r: Response)
    ensures d.PassThrough? ==> r == Response(None, written)
    ensures d.Redirect? ==> r == Response(Some(d.target), map[])
  {
    if d.Redirect? then Response(Some(d.target), map[]) else Response(None, written)
  }

  /** Copying the refreshed cookies onto the redirect as well. */
  function ResponseWithCookies(d: Decision, written: map<string, StoredCookie>): (r: Response)
    ensures r.cookies == written
    ensures r.redirect.Some? <==> d.Redirect?
    ensures d.Redirect? ==> r.redirect == Some(d.target)
  {
    Response(if d.Redirect? then Some(d.target) else None, written)
  }

  /** `middleware` as written: the client writes `toSet` through `setAll` while
      the user is looked up, then the decision is taken. */
  method HandleAsWritten(url: Url, requestCookies: CookieJar, hasUser: bool, toSet: seq<CookieToSet>)
    returns (resp: Response)
    modifies requestCookies
    ensures requestCookies.values == Written(old(requestCookies.values), toSet, false)
    ensures resp == ResponseAsWritten(Decide(url, hasUser), Written(map[], toSet, true))
  {
    var response := new CookieJar(map[]);
    SetAll(requestCookies, response, toSet);
    var d := Decide(url, hasUser);
    if d.Redirect? {
      resp := Response(Some(d.target), map[]);
    } else {
      resp := Response(None, response.values);
    }
  }

  /** The same with the refreshed cookies carried by every response. */
  method Handle(url: Url, requestCookies: CookieJar, hasUser: bool, toSet: seq<CookieToSet>)
    returns (resp: Response)
    modifies requestCookies
    ensures requestCookies.values == Written(old(requestCookies.values), toSet, false)
    ensures resp == ResponseWithCookies(Decide(url, hasUser), Written(map[], toSet, true))
    ensures forall name :: LastWrite(toSet, name).Some? ==>
              name in resp.cookies && resp.cookies[name].value == LastWrite(toSet, name).value.value
  {
    var response := new CookieJar(map[]);
    SetAll(requestCookies, response, toSet);
    var d := Decide(url, hasUser);
    resp := Response(if d.Redirect? then Some(d.target) else None, response.values);
    forall name | LastWrite(toSet, name).Some?
      ensures name in resp.cookies && resp.cookies[name].value == LastWrite(toSet, name).value.value
    {
      WrittenLastWins(map[], toSet, true, name);
    }
  }

  /** A signed-in visitor on the login page whose session the client refreshes is
      redirected without the refreshed cookie. */
  lemma RedirectDropsRefreshedCookie(search: Params, c: CookieToSet)
    ensures var d := Decide(Url(LoginPath, search), true);
            d.Redirect? &&
            c.name in Written(map[], [c], true) &&
            c.name !in ResponseAsWritten(d, Written(map[], [c], true)).cookies &&
            c.name in ResponseWithCookies(d, Written(map[], [c], true)).cookies
  {
    LoginIsNotAdmin();
    WrittenLastWins(map[], [c], true, c.name);
  }
}
