/**
 * The route guard (middleware.ts): a request for a protected page without a session
 * cookie is sent to the login page, remembering where it was going; a request for the
 * login page with a session cookie is sent home; anything else passes.
 */
module Middleware {
  import opened Types
  import opened Text

  const AUTH_COOKIE: string := "unifound_auth_token"
  const LOGIN_PATH: string := "/login"
  const HOME_PATH: string := "/"

  datatype Response =
    | Redirect(target: string, callbackUrl: Option<string>)
    | Next

  /** `isAuthPage`: exactly the login page. */
  predicate IsAuthPage(path: string)
  {
    path == LOGIN_PATH
  }

  /** `isProtectedRoute`: a prefix test, so `/adminx` is protected as well as `/admin/users`. */
  predicate IsProtected(path: string)
  {
    StartsWith(path, "/admin") || StartsWith(path, "/submit")
    || StartsWith(path, "/messages") || StartsWith(path, "/profile")
  }

  /** `!!token`: a cookie that is missing or empty is no session. */
  predicate HasSession(token: Option<string>)
  {
    token.Some? && token.value != ""
  }

  /** `middleware(request)`, with the path and the session cookie's value as inputs. */
  function Guard(path: string, token: Option<string>): (r: Response)
    ensures r == Redirect(LOGIN_PATH, Some(path)) <==> IsProtected(path) && !HasSession(token)
    ensures r == Redirect(HOME_PATH, None) <==> IsAuthPage(path) && HasSession(token)
    ensures r == Next <==> !(IsProtected(path) && !HasSession(token)) && !(IsAuthPage(path) && HasSession(token))
  {
    if IsProtected(path) && !HasSession(token) then Redirect(LOGIN_PATH, Some(path))
    else if IsAuthPage(path) && HasSession(token) then Redirect(HOME_PATH, None)
    else Next
  }

  /** The login page is not protected, so the two redirects never both apply. */
  lemma LoginNotProtected()
    ensures !IsProtected(LOGIN_PATH)
  {
    assert LOGIN_PATH[1] == 'l';
  }

  /**
   * No redirect loop: a visitor sent to the login page is let through there, and a
   * signed-in user sent home is not redirected again.
   */
  lemma NoRedirectLoop(path: string, token: Option<string>)
    ensures Guard(path, token).Redirect? && !HasSession(token) ==> Guard(Guard(path, token).target, token) == Next
    ensures Guard(path, token).Redirect? && HasSession(token) ==> Guard(Guard(path, token).target, token) == Next
  {
    LoginNotProtected();
    assert !IsProtected(HOME_PATH);
  }

  /** The prefix test admits paths that only begin like a protected section. */
  lemma PrefixExamples()
    ensures IsProtected("/adminx") && IsProtected("/admin/users")
    ensures !IsProtected("/") && !IsProtected("/about")
  {
    assert "/admin" <= "/adminx";
    assert "/admin" <= "/admin/users";
    assert "/about"[1] == 'a' && "/about"[2] == 'b';
  }
}
