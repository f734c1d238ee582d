/**
 * The request interceptor: attaches the stored token to outgoing requests, and chooses the side
 * effects an error response triggers before the error is rethrown unchanged.
 */
module Interceptor {
  import opened Wrappers
  import opened Strings
  import opened Http
  import opened Auth

  const AUTHORIZATION := "Authorization"
  const BEARER_PREFIX := "Bearer "
  const LOGIN_PATH := "/login"
  const REFRESH_PATH := "/refresh"

  /** A side effect of the error handler: `logoutDemo()`'s session clearing, or a navigation to the login route. */
  datatype Effect = ClearSession | NavigateToLogin

  /** The request `next` receives: the token is attached unless it is falsy or the URL is an auth endpoint. */
  function AuthorizedRequest(req: Request, token: Option<string>): (sent: Request)
    ensures sent.url == req.url
    ensures sent != req ==>
              && token.Some? && token.value != ""
              && sent.headers == req.headers[AUTHORIZATION := BEARER_PREFIX + token.value]
  {
    if token.Some? && token.value != "" && !Contains(req.url, LOGIN_PATH) && !Contains(req.url, REFRESH_PATH) then
      req.(headers := req.headers[AUTHORIZATION := BEARER_PREFIX + token.value])
    else
      req
  }

  /** The header rule stated with the reference meaning of `includes`. */
  ghost predicate AttachesToken(url: string, token: Option<string>)
  {
    token.Some? && token.value != "" && !HasSubstring(url, LOGIN_PATH) && !HasSubstring(url, REFRESH_PATH)
  }

  /**
   * The header is `Bearer <token>` exactly when the token is non-empty and the URL mentions neither
   * '/login' nor '/refresh'; otherwise the request passes through unchanged. The URL and every other
   * header are never touched.
   */
  lemma AuthorizedRequestSpec(req: Request, token: Option<string>)
    ensures var sent := AuthorizedRequest(req, token);
            && sent.url == req.url
            && (forall h :: h != AUTHORIZATION ==> (h in sent.headers <==> h in req.headers))
            && (forall h :: h != AUTHORIZATION && h in req.headers ==> sent.headers[h] == req.headers[h])
            && (AttachesToken(req.url, token) ==>
                  AUTHORIZATION in sent.headers && sent.headers[AUTHORIZATION] == BEARER_PREFIX + token.value)
            && (!AttachesToken(req.url, token) ==> sent == req)
  {
    ContainsIff(req.url, LOGIN_PATH);
    ContainsIff(req.url, REFRESH_PATH);
  }

  /** The effects the error handler runs, in order: a 401 off the login URL, then a 403. */
  function ErrorEffects(url: string, status: nat): (effects: seq<Effect>)
    ensures ClearSession in effects <==> status == 401 && !Contains(url, LOGIN_PATH)
    ensures forall i :: 0 < i < |effects| ==> effects[i] == NavigateToLogin
    ensures effects == [] <==> !(status == 401 && !Contains(url, LOGIN_PATH)) && status != 403
  {
    (if status == 401 && !Contains(url, LOGIN_PATH) then [ClearSession, NavigateToLogin, NavigateToLogin] else [])
    + (if status == 403 then [NavigateToLogin] else [])
  }

  /** The interceptor's result: the request sent, the effects run, and what the caller receives. */
  datatype Interception<T> = Interception(sent: Request, effects: seq<Effect>, result: HttpOutcome<T>)

  /** authInterceptor for one request whose transport outcome is given. */
  function Intercept<T>(req: Request, token: Option<string>, outcome: HttpOutcome<T>): (r: Interception<T>)
    ensures r.result == outcome
    ensures r.sent == AuthorizedRequest(req, token)
    ensures outcome.Ok? ==> r.effects == []
    ensures outcome.Err? ==> r.effects == ErrorEffects(req.url, outcome.error.status)
  {
    var effects := if outcome.Err? then ErrorEffects(req.url, outcome.error.status) else [];
    Interception(AuthorizedRequest(req, token), effects, outcome)
  }

  /** The session after the effects have run; navigation leaves the session alone. */
  function SessionAfter(s: Session, effects: seq<Effect>): Session
    decreases |effects|
  {
    if effects == [] then s
    else if effects[0] == ClearSession then SessionAfter(Cleared(s), effects[1..])
    else SessionAfter(s, effects[1..])
  }

  /** Clearing once, before any navigation, is what a 401 effect list amounts to. */
  lemma {:induction false} SessionAfterNavigations(s: Session, n: nat)
    ensures SessionAfter(s, seq(n, _ => NavigateToLogin)) == s
  {
    if n > 0 {
      assert seq(n, _ => NavigateToLogin)[1..] == seq(n - 1, _ => NavigateToLogin);
      SessionAfterNavigations(s, n - 1);
    }
  }

  /**
   * A 401 on any URL that does not mention '/login' (refresh URLs included) clears the session and
   * navigates to the login route; a 401 on a login URL does nothing.
   */
  lemma UnauthorizedEffects(s: Session, url: string)
    ensures !HasSubstring(url, LOGIN_PATH) ==>
            && ErrorEffects(url, 401) == [ClearSession, NavigateToLogin, NavigateToLogin]
            && SessionAfter(s, ErrorEffects(url, 401)) == Cleared(s)
    ensures HasSubstring(url, LOGIN_PATH) ==> ErrorEffects(url, 401) == []
  {
    ContainsIff(url, LOGIN_PATH);
    if !HasSubstring(url, LOGIN_PATH) {
      assert [ClearSession, NavigateToLogin, NavigateToLogin][1..] == seq(2, _ => NavigateToLogin);
      SessionAfterNavigations(Cleared(s), 2);
    }
  }

  /** A 403 navigates to the login route on every URL and leaves the session untouched. */
  lemma ForbiddenEffects(s: Session, url: string)
    ensures ErrorEffects(url, 403) == [NavigateToLogin]
    ensures SessionAfter(s, ErrorEffects(url, 403)) == s
  {
    assert [NavigateToLogin][1..] == [];
  }

  /** Any other status has no side effect. */
  lemma OtherStatusNoEffects(url: string, status: nat)
    requires status != 401 && status != 403
    ensures ErrorEffects(url, status) == []
  {
  }
}
