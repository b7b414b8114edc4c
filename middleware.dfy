/**
 * The request middleware: a decision computed from the environment, the request
 * path and whether the request carries a valid session token. Verifying the
 * token is outside the model; its verdict is the parameter `authenticated`.
 */
module Middleware {
  import opened Strings

  datatype Response = Next | Redirect(location: string)

  const PublicPaths: seq<string> := ["/", "/login", "/register"]

  /** `paths.some(path => pathname === path || pathname.startsWith(path))`. */
  predicate SomeMatches(paths: seq<string>, pathname: string)
    decreases |paths|
  {
    paths != [] && (pathname == paths[0] || StartsWith(pathname, paths[0]) || SomeMatches(paths[1..], pathname))
  }

  predicate IsPublicPath(pathname: string) {
    SomeMatches(PublicPaths, pathname)
  }

  /** The middleware's decision, as written. */
  function Decide(isDevelopment: bool, pathname: string, authenticated: bool): (r: Response) {
    if isDevelopment then Next
    else if !authenticated && !IsPublicPath(pathname) then Redirect("/login")
    else if authenticated && (pathname == "/login" || pathname == "/register") then Redirect("/editor")
    else Next
  }

  /** Since "/" is a public path and the test is a prefix test, a path is public
      exactly when it starts with "/". */
  lemma PublicIffRooted(pathname: string)
    ensures IsPublicPath(pathname) <==> StartsWith(pathname, "/")
  {
    assert PublicPaths[0] == "/";
    assert PublicPaths[1..][0] == "/login" && PublicPaths[2..][0] == "/register";
    assert PublicPaths[1..][1..] == PublicPaths[2..] && PublicPaths[2..][1..] == [];
    if StartsWith(pathname, "/login") {
      assert pathname[..1] == pathname[..|"/login"|][..1];
    }
    if StartsWith(pathname, "/register") {
      assert pathname[..1] == pathname[..|"/register"|][..1];
    }
  }

  /** The whole decision, stated without the public-path list: in production the
      only redirect to "/login" is for a path that does not start with "/", and the
      only redirect to "/editor" is for an authenticated request for exactly
      "/login" or "/register"; everything else passes through. */
  lemma DecisionTable(isDevelopment: bool, pathname: string, authenticated: bool)
    ensures Decide(isDevelopment, pathname, authenticated) ==
      if isDevelopment then Next
      else if !authenticated && !StartsWith(pathname, "/") then Redirect("/login")
      else if authenticated && (pathname == "/login" || pathname == "/register") then Redirect("/editor")
      else Next
  {
    PublicIffRooted(pathname);
  }

  /** No request whose path starts with "/" is ever sent to the login page. */
  lemma RootedPathsNeverRedirectToLogin(isDevelopment: bool, pathname: string, authenticated: bool)
    requires StartsWith(pathname, "/")
    ensures Decide(isDevelopment, pathname, authenticated) != Redirect("/login")
  {
    PublicIffRooted(pathname);
  }

  /** An authenticated request is sent to the editor exactly for "/login" and
      "/register" themselves (not for "/login/x"), and an unauthenticated request
      never is. */
  lemma EditorRedirectExactly(pathname: string, authenticated: bool)
    ensures Decide(false, pathname, authenticated) == Redirect("/editor") <==>
      authenticated && (pathname == "/login" || pathname == "/register")
  {
  }

  /** The evidently intended decision: "/" is public only as itself, while
      "/login" and "/register" stay prefix matches. */
  predicate IsPublicPathIntended(pathname: string) {
    pathname == "/" || SomeMatches(PublicPaths[1..], pathname)
  }

  function DecideIntended(isDevelopment: bool, pathname: string, authenticated: bool): Response {
    if isDevelopment then Next
    else if !authenticated && !IsPublicPathIntended(pathname) then Redirect("/login")
    else if authenticated && (pathname == "/login" || pathname == "/register") then Redirect("/editor")
    else Next
  }

  /** As written, an unauthenticated production request for "/editor" passes through. */
  lemma EditorReachableWithoutLogin()
    ensures Decide(false, "/editor", false) == Next
  {
    PublicIffRooted("/editor");
  }

  lemma IntendedPublicIff(pathname: string)
    ensures IsPublicPathIntended(pathname) <==>
      pathname == "/" || StartsWith(pathname, "/login") || StartsWith(pathname, "/register")
  {
    var rest := PublicPaths[1..];
    assert rest[0] == "/login" && rest[1..][0] == "/register" && rest[1..][1..] == [];
    assert !SomeMatches(rest[1..][1..], pathname);
    assert SomeMatches(rest[1..], pathname) <==> pathname == "/register" || StartsWith(pathname, "/register");
    assert pathname == "/login" ==> StartsWith(pathname, "/login");
    assert pathname == "/register" ==> StartsWith(pathname, "/register");
  }

  /** With the intended public-path test, an unauthenticated production request is
      sent to "/login" exactly when its path is neither "/" nor under "/login" or
      "/register"; "/editor" is one of them. */
  lemma IntendedProtectsOtherPaths(pathname: string)
    ensures DecideIntended(false, pathname, false) == Redirect("/login") <==>
      pathname != "/" && !StartsWith(pathname, "/login") && !StartsWith(pathname, "/register")
    ensures DecideIntended(false, "/editor", false) == Redirect("/login")
  {
    IntendedPublicIff(pathname);
    IntendedPublicIff("/editor");
    assert !StartsWith("/editor", "/login") by { assert "/editor"[1] != "/login"[1]; }
    assert !StartsWith("/editor", "/register") by { assert "/editor"[1] != "/register"[1]; }
  }
}
