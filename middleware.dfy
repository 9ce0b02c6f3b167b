/** The Next.js `middleware` of middleware.ts: the home page needs a session,
    the login and register pages are for visitors without one, and every
    other path passes through. `hasToken` is whether `getToken` decoded a
    session token from the request's cookie. */
module Middleware {

  /** `NextResponse.next()`, or a redirect to the given path on the
      request's own origin. */
  datatype Decision = Next | Redirect(location: string)

  const HomePath := "/"
  const LoginPath := "/login"
  const RegisterPath := "/register"

  /** The pages only a visitor without a session should see. */
  predicate IsAuthPage(pathname: string) {
    pathname == RegisterPath || pathname == LoginPath
  }

  function Decide(pathname: string, hasToken: bool): (d: Decision)
    ensures d == Redirect(LoginPath) <==> pathname == HomePath && !hasToken
    ensures d == Redirect(HomePath) <==> IsAuthPage(pathname) && hasToken
    ensures d.Next? <==> (pathname == HomePath && hasToken) ||
                         (IsAuthPage(pathname) && !hasToken) ||
                         (pathname != HomePath && !IsAuthPage(pathname))
  {
    if pathname == HomePath then
      if !hasToken then Redirect(LoginPath) else Next
    else if IsAuthPage(pathname) then
      if hasToken then Redirect(HomePath) else Next
    else Next
  }

  /** Outside "/", "/login" and "/register" the token is never consulted:
      both token states pass through. */
  lemma OtherPathsPassThrough(pathname: string, hasToken: bool)
    requires pathname != HomePath && !IsAuthPage(pathname)
    ensures Decide(pathname, hasToken) == Next
    ensures Decide(pathname, true) == Decide(pathname, false)
  {
  }

  /** With the token unchanged, the request a redirect leads to passes
      through: no redirect chain and no loop. */
  lemma NoRedirectLoop(pathname: string, hasToken: bool)
    ensures Decide(pathname, hasToken).Redirect? ==>
              Decide(Decide(pathname, hasToken).location, hasToken) == Next
  {
  }

  /** The number of redirects followed from `pathname` before a request
      passes through, looking at most `fuel` hops ahead. */
  function RedirectHops(pathname: string, hasToken: bool, fuel: nat): nat
    decreases fuel
  {
    match Decide(pathname, hasToken)
    case Next => 0
    case Redirect(location) => if fuel == 0 then 0 else 1 + RedirectHops(location, hasToken, fuel - 1)
  }

  /** However far one follows redirects, at most one is ever taken. */
  lemma {:induction false} AtMostOneRedirect(pathname: string, hasToken: bool, fuel: nat)
    ensures RedirectHops(pathname, hasToken, fuel) <= 1
    ensures RedirectHops(pathname, hasToken, fuel) == 1 <==> fuel > 0 && Decide(pathname, hasToken).Redirect?
  {
    if fuel > 0 && Decide(pathname, hasToken).Redirect? {
      NoRedirectLoop(pathname, hasToken);
    }
  }
}
