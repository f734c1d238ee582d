/**
 * The authentication service: a session kept in browser storage under two keys plus the
 * current-user value, and the handlers that edit it when login, logout and refresh replies arrive.
 */
module Auth {
  import opened Wrappers
  import opened Strings
  import opened Http
  import opened Encoding
  import opened Token

  const TOKEN_KEY := "auth_token"
  const USER_KEY := "current_user"
  const LOGIN_ROUTE := "/login"
  const DEMO_USERNAME := "admin"
  const DEMO_PASSWORD := "password123"
  const DEMO_USER := User("1", "admin", Some("admin@example.com"), Some("administrator"))
  const INVALID_CREDENTIALS := "Invalid username or password"
  const ERROR_CODE_PREFIX := "Error Code: "

  /** The reply body of the login and refresh endpoints; a falsy `token` is the empty string. */
  datatype LoginResponse = LoginResponse(success: bool, user: Option<User>, token: string, message: Option<string>)

  /**
   * The error the service rethrows: `{ error: { message } }` from handleError (success None), or
   * `{ error: { success: false, message } }` for rejected demo credentials.
   */
  datatype AuthError = AuthError(success: Option<bool>, message: string)

  /** What `logout()` emits: the server's reply body, or `{ success: true }` after a failed call. */
  datatype LogoutReply = ServerReply(body: string) | LocalSuccess

  /** The message handleError falls back to: the status code and the error's own message. */
  function FallbackMessage(e: HttpError): (m: string)
    ensures |m| > 12 + |DecimalString(e.status)| + |e.message|
    ensures m[..12] == ERROR_CODE_PREFIX && m[12..12 + |DecimalString(e.status)|] == DecimalString(e.status)
    ensures m[|m| - |e.message|..] == e.message
  {
    ERROR_CODE_PREFIX + DecimalString(e.status) + "\nMessage: " + e.message
  }

  /** handleError's choice: a client event's message, else a non-empty server message, else the fallback. */
  function ErrorMessage(e: HttpError): (m: string)
    ensures e.payload.ClientEvent? ==> m == e.payload.eventMessage
    ensures e.payload.ServerBody? && e.payload.bodyMessage.Some? && e.payload.bodyMessage.value != "" ==>
            m == e.payload.bodyMessage.value
    ensures m != "" || e.payload == ClientEvent("")
  {
    match e.payload
    case ClientEvent(text) => text
    case ServerBody(Some(text)) => if text != "" then text else FallbackMessage(e)
    case _ => FallbackMessage(e)
  }

  /**
   * The fallback message reads as the status code's digits after the prefix, then a line holding
   * the error's own message.
   */
  lemma FallbackReportsStatus(e: HttpError)
    requires !e.payload.ClientEvent?
    requires !(e.payload.ServerBody? && e.payload.bodyMessage.Some? && e.payload.bodyMessage.value != "")
    ensures var m, d := ErrorMessage(e), |DecimalString(e.status)|;
            && |m| > 12 + d
            && m[..12] == ERROR_CODE_PREFIX
            && IsDigits(m[12..12 + d])
            && DigitsValue(m[12..12 + d]) == e.status
            && m[12 + d] == '\n'
            && m[12 + d..] == "\nMessage: " + e.message
  {
    var m, digits := ErrorMessage(e), DecimalString(e.status);
    assert m == ERROR_CODE_PREFIX + (digits + ("\nMessage: " + e.message));
    assert m[12..12 + |digits|] == digits;
    assert m[12 + |digits|..] == "\nMessage: " + e.message;
    DecimalRoundTrip(e.status);
  }

  /** The empty message arises only from a client event that carries an empty message. */
  lemma ErrorMessageEmpty(e: HttpError)
    ensures ErrorMessage(e) == "" <==> e.payload == ClientEvent("")
  {
    if !e.payload.ClientEvent? {
      assert |FallbackMessage(e)| > 0;
    }
  }

  /** The session state: the storage entries and the current-user value. */
  datatype Session = Session(storage: map<string, string>, currentUser: Option<User>)

  /** setSession: store the token and the serialised user, and publish the user. */
  function WithSession(s: Session, token: string, user: User, codec: Codec): (r: Session)
    ensures r.storage.Keys == s.storage.Keys + {TOKEN_KEY, USER_KEY}
    ensures r.storage[TOKEN_KEY] == token && r.storage[USER_KEY] == codec.serializeUser(user)
    ensures forall k :: k in s.storage && k != TOKEN_KEY && k != USER_KEY ==> r.storage[k] == s.storage[k]
    ensures r.currentUser == Some(user)
  {
    Session(s.storage[TOKEN_KEY := token][USER_KEY := codec.serializeUser(user)], Some(user))
  }

  /** clearSession: remove both entries and publish null. */
  function Cleared(s: Session): (r: Session)
    ensures r.storage.Keys == s.storage.Keys - {TOKEN_KEY, USER_KEY}
    ensures forall k :: k in r.storage ==> r.storage[k] == s.storage[k]
    ensures r.currentUser == None
  {
    Session(s.storage - {TOKEN_KEY, USER_KEY}, None)
  }

  /** `localStorage.getItem(key)`: None stands for `null`. */
  function GetItem(s: Session, key: string): (v: Option<string>)
    ensures v.Some? <==> key in s.storage
    ensures v.Some? ==> v.value == s.storage[key]
  {
    if key in s.storage then Some(s.storage[key]) else None
  }

  /** isLoggedIn: false for an absent or empty token, otherwise the token must not have expired. */
  predicate LoggedIn(s: Session, nowMs: nat, codec: Codec): (b: bool)
    ensures b ==> TOKEN_KEY in s.storage && s.storage[TOKEN_KEY] != "" && '.' in s.storage[TOKEN_KEY]
    ensures b ==> !IsTokenExpired(s.storage[TOKEN_KEY], nowMs, codec)
  {
    match GetItem(s, TOKEN_KEY)
    case None => false
    case Some(token) => token != "" && !IsTokenExpired(token, nowMs, codec)
  }

  /** Being logged in means a stored token whose payload reads and whose `exp` is absent or not yet past. */
  lemma LoggedInMeaning(s: Session, nowMs: nat, codec: Codec)
    ensures LoggedIn(s, nowMs, codec) <==>
            && TOKEN_KEY in s.storage
            && '.' in s.storage[TOKEN_KEY]
            && TokenClaims(s.storage[TOKEN_KEY], codec).Some?
            && var exp := TokenClaims(s.storage[TOKEN_KEY], codec).value.exp;
               exp.None? || Seconds(nowMs) <= exp.value
  {
  }

  /** Whether loadStoredAuth adopts the stored session: both entries truthy and the token unexpired. */
  predicate StoredSessionUsable(s: Session, nowMs: nat, codec: Codec): (b: bool)
    ensures b ==> LoggedIn(s, nowMs, codec) && USER_KEY in s.storage
  {
    && TOKEN_KEY in s.storage && s.storage[TOKEN_KEY] != ""
    && USER_KEY in s.storage && s.storage[USER_KEY] != ""
    && !IsTokenExpired(s.storage[TOKEN_KEY], nowMs, codec)
  }

  /**
   * loadStoredAuth: when the stored entries are usable, keep them and publish what `JSON.parse` makes
   * of the stored user, even a falsy value; when the parse throws, or the entries are not usable,
   * clear the session.
   */
  function LoadedAuth(s: Session, nowMs: nat, codec: Codec): (r: Session)
    ensures r.currentUser.Some? <==>
            StoredSessionUsable(s, nowMs, codec) && codec.parseUser(s.storage[USER_KEY]).Profile?
    ensures r.currentUser.Some? ==> r.currentUser.value == codec.parseUser(s.storage[USER_KEY]).user
    ensures StoredSessionUsable(s, nowMs, codec) && !codec.parseUser(s.storage[USER_KEY]).Unparsable? ==>
            r.storage == s.storage
    ensures !(StoredSessionUsable(s, nowMs, codec) && !codec.parseUser(s.storage[USER_KEY]).Unparsable?) ==>
            r == Cleared(s)
  {
    if StoredSessionUsable(s, nowMs, codec) then
      match codec.parseUser(s.storage[USER_KEY])
      case Profile(user) => s.(currentUser := Some(user))
      case Falsy => s.(currentUser := None)
      case Unparsable => Cleared(s)
    else
      Cleared(s)
  }

  /**
   * Right after start-up the client is logged in exactly when the stored entries were usable and the
   * stored user parsed; unless it parsed to a falsy value, that is exactly when there is a current user.
   */
  lemma LoadedAuthConsistent(s: Session, nowMs: nat, codec: Codec)
    ensures var r := LoadedAuth(s, nowMs, codec);
            LoggedIn(r, nowMs, codec) <==>
            StoredSessionUsable(s, nowMs, codec) && !codec.parseUser(s.storage[USER_KEY]).Unparsable?
    ensures var r := LoadedAuth(s, nowMs, codec);
            !(USER_KEY in s.storage && codec.parseUser(s.storage[USER_KEY]).Falsy?) ==>
            (LoggedIn(r, nowMs, codec) <==> r.currentUser.Some?)
  {
  }

  /**
   * A stored user that parses to a falsy value is adopted: the client stays logged in with no
   * current user.
   */
  lemma FalsyUserStaysLoggedIn(s: Session, nowMs: nat, codec: Codec)
    requires StoredSessionUsable(s, nowMs, codec) && codec.parseUser(s.storage[USER_KEY]).Falsy?
    ensures var r := LoadedAuth(s, nowMs, codec);
            LoggedIn(r, nowMs, codec) && r.currentUser.None? && r.storage == s.storage
  {
  }

  /** Loading a second time at the same instant changes nothing. */
  lemma LoadedAuthIdempotent(s: Session, nowMs: nat, codec: Codec)
    ensures LoadedAuth(LoadedAuth(s, nowMs, codec), nowMs, codec) == LoadedAuth(s, nowMs, codec)
  {
    var r := LoadedAuth(s, nowMs, codec);
    if !(StoredSessionUsable(s, nowMs, codec) && !codec.parseUser(s.storage[USER_KEY]).Unparsable?) {
      assert Cleared(r) == r;
    }
  }

  /** A session stored with an unexpired token is adopted unchanged by the next start-up. */
  lemma SessionRoundTrip(s: Session, token: string, user: User, nowMs: nat, codec: Codec)
    requires ValidCodec(codec)
    requires token != "" && !IsTokenExpired(token, nowMs, codec)
    ensures LoadedAuth(WithSession(s, token, user, codec), nowMs, codec) == WithSession(s, token, user, codec)
  {
    assert codec.parseUser(codec.serializeUser(user)) == Profile(user);
    assert codec.serializeUser(user) != "";
  }

  /** Clearing twice is the same as clearing once. */
  lemma ClearedIdempotent(s: Session)
    ensures Cleared(Cleared(s)) == Cleared(s)
  {
    assert Cleared(Cleared(s)).storage == Cleared(s).storage;
  }

  /** Logging out after setSession restores every other storage entry as it was before. */
  lemma ClearedForgetsSession(s: Session, token: string, user: User, codec: Codec)
    ensures Cleared(WithSession(s, token, user, codec)) == Cleared(s)
  {
    assert Cleared(WithSession(s, token, user, codec)).storage == Cleared(s).storage;
  }

  /** A cleared session is not logged in. */
  lemma ClearedIsLoggedOut(s: Session, nowMs: nat, codec: Codec)
    ensures !LoggedIn(Cleared(s), nowMs, codec)
  {
  }

  /** The login reply handler: setSession only when `success`, `token` and `user` are all truthy. */
  function AfterLoginReply(s: Session, reply: LoginResponse, codec: Codec): (r: Session)
    ensures reply.success && reply.token != "" && reply.user.Some? ==>
            r == WithSession(s, reply.token, reply.user.value, codec)
    ensures !(reply.success && reply.token != "" && reply.user.Some?) ==> r == s
  {
    if reply.success && reply.token != "" && reply.user.Some? then
      WithSession(s, reply.token, reply.user.value, codec)
    else
      s
  }

  /** A successful login reply with an unexpired token leaves the client logged in as the reply's user. */
  lemma LoginReplyLogsIn(s: Session, reply: LoginResponse, nowMs: nat, codec: Codec)
    requires reply.success && reply.token != "" && reply.user.Some?
    requires !IsTokenExpired(reply.token, nowMs, codec)
    ensures LoggedIn(AfterLoginReply(s, reply, codec), nowMs, codec)
    ensures AfterLoginReply(s, reply, codec).currentUser == reply.user
  {
  }

  /**
   * The current user outlives the token: after setSession with a token that has expired, the client
   * is logged out while the profile is still the one stored.
   */
  lemma UserOutlivesToken(s: Session, token: string, user: User, nowMs: nat, codec: Codec)
    requires IsTokenExpired(token, nowMs, codec)
    ensures var r := WithSession(s, token, user, codec);
            !LoggedIn(r, nowMs, codec) && r.currentUser == Some(user)
  {
  }

  /** The refresh reply handler: on success overwrite only the stored token. */
  function AfterRefreshReply(s: Session, reply: LoginResponse): (r: Session)
    ensures r.currentUser == s.currentUser
    ensures forall k :: k != TOKEN_KEY ==> (k in r.storage <==> k in s.storage)
    ensures forall k :: k != TOKEN_KEY && k in s.storage ==> r.storage[k] == s.storage[k]
    ensures reply.success && reply.token != "" ==> TOKEN_KEY in r.storage && r.storage[TOKEN_KEY] == reply.token
    ensures !(reply.success && reply.token != "") ==> r == s
  {
    if reply.success && reply.token != "" then
      s.(storage := s.storage[TOKEN_KEY := reply.token])
    else
      s
  }

  /** The reply `loginDemo` builds for the demo credentials. */
  function DemoReply(nowMs: nat, codec: Codec): (r: LoginResponse)
    ensures r.success && r.token != "" && r.user == Some(DEMO_USER)
  {
    LoginResponse(true, Some(DEMO_USER), GenerateMockToken(nowMs, codec), Some("Login successful"))
  }

  /** After a demo login at `issuedMs`, the client is logged in exactly until second issued + 86400. */
  lemma DemoLoginLifetime(s: Session, issuedMs: nat, nowMs: nat, codec: Codec)
    requires ValidCodec(codec) && issuedMs <= MAX_TIME_MS
    ensures var r := WithSession(s, GenerateMockToken(issuedMs, codec), DEMO_USER, codec);
            LoggedIn(r, nowMs, codec) <==> Seconds(nowMs) <= Seconds(issuedMs) + ONE_DAY_SECONDS
  {
    MockTokenClaims(issuedMs, codec);
    MockTokenLifetime(issuedMs, nowMs, codec);
  }

  /** The service object: its storage field stands for `localStorage`, currentUser for the subject's value. */
  class AuthService {
    var storage: map<string, string>
    var currentUser: Option<User>
    const codec: Codec

    function State(): Session
      reads this
    {
      Session(storage, currentUser)
    }

    /** The constructor runs loadStoredAuth over whatever storage already holds. */
    constructor (initialStorage: map<string, string>, codec: Codec, nowMs: nat)
      ensures this.codec == codec
      ensures State() == LoadedAuth(Session(initialStorage, None), nowMs, codec)
    {
      storage := initialStorage;
      currentUser := None;
      this.codec := codec;
      new;
      LoadStoredAuth(nowMs);
    }

    method SetSession(token: string, user: User)
      modifies this
      ensures State() == WithSession(old(State()), token, user, codec)
    {
      storage := storage[TOKEN_KEY := token];
      storage := storage[USER_KEY := codec.serializeUser(user)];
      currentUser := Some(user);
    }

    method ClearSession()
      modifies this
      ensures State() == Cleared(old(State()))
    {
      storage := storage - {TOKEN_KEY};
      storage := storage - {USER_KEY};
      currentUser := None;
    }

    method LoadStoredAuth(nowMs: nat)
      modifies this
      ensures State() == LoadedAuth(old(State()), nowMs, codec)
    {
      var token := GetItem(State(), TOKEN_KEY);
      var userData := GetItem(State(), USER_KEY);
      if token.Some? && token.value != "" && userData.Some? && userData.value != ""
         && !IsTokenExpired(token.value, nowMs, codec)
      {
        match codec.parseUser(userData.value)
        case Profile(user) =>
          currentUser := Some(user);
        case Falsy =>
          currentUser := None;
        case Unparsable =>
          ClearSession();
      } else {
        ClearSession();
      }
    }

    function GetToken(): (token: Option<string>)
      reads this
      ensures token == GetItem(State(), TOKEN_KEY)
    {
      if TOKEN_KEY in storage then Some(storage[TOKEN_KEY]) else None
    }

    function GetCurrentUser(): (u: Option<User>)
      reads this
      ensures u == State().currentUser
    {
      currentUser
    }

    function IsLoggedIn(nowMs: nat): (b: bool)
      reads this
      ensures b == LoggedIn(State(), nowMs, codec)
    {
      var token := GetToken();
      if token.None? || token.value == "" then false else !IsTokenExpired(token.value, nowMs, codec)
    }

    /** login: given the endpoint's outcome, run the reply handler or surface handleError's message. */
    method Login(outcome: HttpOutcome<LoginResponse>) returns (r: Result<LoginResponse, AuthError>)
      modifies this
      ensures outcome.Ok? ==> State() == AfterLoginReply(old(State()), outcome.value, codec) && r == Ok(outcome.value)
      ensures outcome.Err? ==> State() == old(State()) && r == Err(AuthError(None, ErrorMessage(outcome.error)))
    {
      match outcome
      case Ok(reply) =>
        if reply.success && reply.token != "" && reply.user.Some? {
          SetSession(reply.token, reply.user.value);
        }
        r := Ok(reply);
      case Err(e) =>
        r := Err(AuthError(None, ErrorMessage(e)));
    }

    /** loginDemo: the fixed demo credentials get a session with a one-day mock token; all others an error. */
    method LoginDemo(username: string, password: string, nowMs: nat) returns (r: Result<LoginResponse, AuthError>)
      modifies this
      ensures username == DEMO_USERNAME && password == DEMO_PASSWORD ==>
              && r == Ok(DemoReply(nowMs, codec))
              && State() == WithSession(old(State()), GenerateMockToken(nowMs, codec), DEMO_USER, codec)
      ensures !(username == DEMO_USERNAME && password == DEMO_PASSWORD) ==>
              r == Err(AuthError(Some(false), INVALID_CREDENTIALS)) && State() == old(State())
    {
      if username == DEMO_USERNAME && password == DEMO_PASSWORD {
        var reply := DemoReply(nowMs, codec);
        SetSession(reply.token, reply.user.value);
        r := Ok(reply);
      } else {
        r := Err(AuthError(Some(false), INVALID_CREDENTIALS));
      }
    }

    /** logout: the local session is cleared whatever the server answers. */
    method Logout(outcome: HttpOutcome<string>) returns (r: LogoutReply)
      modifies this
      ensures State() == Cleared(old(State()))
      ensures r == if outcome.Ok? then ServerReply(outcome.value) else LocalSuccess
    {
      match outcome
      case Ok(body) =>
        ClearSession();
        r := ServerReply(body);
      case Err(_) =>
        ClearSession();
        r := LocalSuccess;
    }

    /** logoutDemo: clear the session and navigate to the login route (returned). */
    method LogoutDemo() returns (navigateTo: string)
      modifies this
      ensures State() == Cleared(old(State()))
      ensures navigateTo == LOGIN_ROUTE
    {
      ClearSession();
      navigateTo := LOGIN_ROUTE;
    }

    /** refreshToken: a successful reply replaces the stored token; a failed call changes nothing. */
    method RefreshToken(outcome: HttpOutcome<LoginResponse>) returns (r: Result<LoginResponse, AuthError>)
      modifies this
      ensures outcome.Ok? ==> State() == AfterRefreshReply(old(State()), outcome.value) && r == Ok(outcome.value)
      ensures outcome.Err? ==> State() == old(State()) && r == Err(AuthError(None, ErrorMessage(outcome.error)))
    {
      match outcome
      case Ok(reply) =>
        if reply.success && reply.token != "" {
          storage := storage[TOKEN_KEY := reply.token];
        }
        r := Ok(reply);
      case Err(e) =>
        r := Err(AuthError(None, ErrorMessage(e)));
    }
  }
}
