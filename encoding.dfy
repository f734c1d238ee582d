/** The browser's `atob`/`btoa` and `JSON.parse`/`JSON.stringify`, abstracted as a codec. */
module Encoding {
  import opened Wrappers

  /** The stored user profile. */
  datatype User = User(id: string, username: string, email: Option<string>, role: Option<string>)

  /**
   * What `JSON.parse` makes of a stored profile: it throws, it yields a falsy value (`null`, `false`,
   * `0` or `""`, which a caller testing the current user sees as no user), or it yields a profile.
   */
  datatype ParsedUser = Unparsable | Falsy | Profile(user: User)

  /**
   * The claims of a token's payload segment. A string field is None when it is absent or not a string.
   * `exp` is what `payload.exp < currentTime` sees: None when that comparison is false for every
   * integer (`undefined`, NaN, +Infinity, a non-numeric string); otherwise the floor of the coerced
   * number, since for an integer n, `x < n` holds exactly when floor(x) < n. So `null` and `false`
   * are Some(0), `true` is Some(1), and -Infinity is any negative value.
   */
  datatype Claims = Claims(sub: Option<string>, username: Option<string>, exp: Option<int>)

  /** `Number.MAX_SAFE_INTEGER`: beyond it a JavaScript number no longer holds every integer. */
  const MAX_SAFE_INTEGER: int := 9007199254740991

  /** The largest time value in milliseconds (section 21.4.1.1 of ECMA-262); `Date.now()` never exceeds it. */
  const MAX_TIME_MS: nat := 8640000000000000

  /** `btoa` throws on a character above U+00FF. */
  predicate Latin1(s: string)
  {
    forall i :: 0 <= i < |s| ==> s[i] <= '\U{FF}'
  }

  /**
   * Claims that survive `btoa(JSON.stringify(...))` and `JSON.parse(atob(...))` unchanged: Latin-1
   * strings, and an `exp` that a JavaScript number holds exactly.
   */
  predicate Encodable(cl: Claims)
  {
    && (cl.sub.Some? ==> Latin1(cl.sub.value))
    && (cl.username.Some? ==> Latin1(cl.username.value))
    && (cl.exp.Some? ==> -MAX_SAFE_INTEGER <= cl.exp.value <= MAX_SAFE_INTEGER)
  }

  /**
   * The foreign encoders and decoders the client calls:
   *  - encodeClaims: `btoa(JSON.stringify(claims))`
   *  - decodeClaims: `JSON.parse(atob(segment))`, None when either call throws or the payload is `null`
   *  - encodedHeader: `btoa(JSON.stringify({ alg: 'HS256', typ: 'JWT' }))`
   *  - encodedSignature: `btoa('mock_signature')`
   *  - serializeUser: `JSON.stringify(user)`
   *  - parseUser: `JSON.parse(text)`
   */
  datatype Codec = Codec(
    encodeClaims: Claims -> string,
    decodeClaims: string -> Option<Claims>,
    encodedHeader: string,
    encodedSignature: string,
    serializeUser: User -> string,
    parseUser: string -> ParsedUser)

  /**
   * What the real functions guarantee on the values they accept, and the model relies on: decoding
   * undoes encoding of encodable claims, base64 text never contains '.', a user profile survives
   * `JSON.stringify` and `JSON.parse`, and a serialised object is never the empty string.
   */
  ghost predicate ValidCodec(c: Codec)
  {
    && (forall cl :: Encodable(cl) ==> c.decodeClaims(c.encodeClaims(cl)) == Some(cl))
    && (forall cl :: Encodable(cl) ==> '.' !in c.encodeClaims(cl))
    && '.' !in c.encodedHeader
    && '.' !in c.encodedSignature
    && (forall u :: c.parseUser(c.serializeUser(u)) == Profile(u))
    && (forall u :: c.serializeUser(u) != "")
  }

  /** `Math.floor(Date.now() / 1000)`: the clock in whole seconds. */
  function Seconds(nowMs: nat): nat
  {
    nowMs / 1000
  }
}
