/**
 * Navigation guards. Each is a decision on `isLoggedIn()` (passed as `loggedIn`) and the requested
 * URL; the route snapshot is accepted but never consulted.
 */
module Guards {
  import Auth

  const DASHBOARD_ROUTE := "/dashboard"
  const RETURN_URL := "returnUrl"

  /** `ActivatedRouteSnapshot`: the matched route's path and parameters. */
  datatype RouteSnapshot = RouteSnapshot(path: string, params: map<string, string>)

  /** `RouterStateSnapshot`: the URL being navigated to. */
  datatype RouterState = RouterState(url: string)

  /** A `UrlTree` from `createUrlTree(commands, { queryParams })`. */
  datatype UrlTree = UrlTree(commands: seq<string>, queryParams: map<string, string>)

  /** A guard's answer: `true`, or a redirect tree. */
  datatype GuardResult = Allow | Redirect(tree: UrlTree)

  /** The redirect to the login page that remembers where the user was going. */
  function LoginRedirect(url: string): (r: GuardResult)
    ensures r.Redirect? && r.tree.commands == [Auth.LOGIN_ROUTE]
    ensures r.tree.queryParams.Keys == {RETURN_URL} && r.tree.queryParams[RETURN_URL] == url
  {
    Redirect(UrlTree([Auth.LOGIN_ROUTE], map[RETURN_URL := url]))
  }

  /** AuthGuard.canActivate. */
  function AuthGuardCanActivate(loggedIn: bool, route: RouteSnapshot, state: RouterState): (r: GuardResult)
    ensures r == Allow <==> loggedIn
    ensures !loggedIn ==> r == LoginRedirect(state.url)
  {
    if loggedIn then Allow else LoginRedirect(state.url)
  }

  /** authGuardFn, the function form of the same guard. */
  function AuthGuardFn(loggedIn: bool, route: RouteSnapshot, state: RouterState): (r: GuardResult)
    ensures r == AuthGuardCanActivate(loggedIn, route, state)
  {
    if loggedIn then Allow else Redirect(UrlTree([Auth.LOGIN_ROUTE], map[RETURN_URL := state.url]))
  }

  /** LoginGuard.canActivate: a logged-in user is sent to the dashboard. */
  function LoginGuardCanActivate(loggedIn: bool, route: RouteSnapshot, state: RouterState): (r: GuardResult)
    ensures r == Allow <==> !loggedIn
    ensures loggedIn ==> r == Redirect(UrlTree([DASHBOARD_ROUTE], map[]))
  {
    if loggedIn then Redirect(UrlTree([DASHBOARD_ROUTE], map[])) else Allow
  }

  /** loginGuardFn, the function form of LoginGuard. */
  function LoginGuardFn(loggedIn: bool, route: RouteSnapshot, state: RouterState): (r: GuardResult)
    ensures r == LoginGuardCanActivate(loggedIn, route, state)
  {
    if loggedIn then Redirect(UrlTree([DASHBOARD_ROUTE], map[])) else Allow
  }

  /** In every session state exactly one of the two guards lets the navigation through. */
  lemma ExactlyOneGuardAllows(loggedIn: bool, route: RouteSnapshot, state: RouterState)
    ensures (AuthGuardCanActivate(loggedIn, route, state) == Allow) != (LoginGuardCanActivate(loggedIn, route, state) == Allow)
  {
  }

  /** Neither guard looks at the route, and LoginGuard ignores the URL too. */
  lemma GuardsIgnoreRoute(loggedIn: bool, r1: RouteSnapshot, r2: RouteSnapshot, s1: RouterState, s2: RouterState)
    ensures AuthGuardCanActivate(loggedIn, r1, s1) == AuthGuardCanActivate(loggedIn, r2, s1)
    ensures LoginGuardCanActivate(loggedIn, r1, s1) == LoginGuardCanActivate(loggedIn, r2, s2)
  {
  }

  /** The login redirect carries the requested URL exactly, so distinct URLs give distinct redirects. */
  lemma ReturnUrlPreserved(route: RouteSnapshot, s1: RouterState, s2: RouterState)
    ensures AuthGuardCanActivate(false, route, s1) == AuthGuardCanActivate(false, route, s2) <==> s1.url == s2.url
  {
    if AuthGuardCanActivate(false, route, s1) == AuthGuardCanActivate(false, route, s2) {
      assert LoginRedirect(s1.url).tree.queryParams[RETURN_URL] == s1.url;
    }
  }
}
