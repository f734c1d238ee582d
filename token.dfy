/** Reading the expiry claim of a bearer token, and the demo token generator. */
module Token {
  import opened Wrappers
  import opened Strings
  import opened Encoding

  const ONE_DAY_SECONDS: nat := 24 * 60 * 60

  /** `token.split('.')[1]`; None when there is no second segment (`atob(undefined)` then throws). */
  function PayloadSegment(token: string): (segment: Option<string>)
    ensures segment.Some? <==> '.' in token
    ensures segment.Some? ==> '.' !in segment.value
  {
    var parts := Split(token, '.');
    if |parts| >= 2 then
      assert token == parts[0] + ['.'] + Join(parts[1..], '.');
      assert token[|parts[0]|] == '.';
      Some(parts[1])
    else
      None
  }

  /** The payload as `JSON.parse(atob(token.split('.')[1]))` yields it; None whenever that throws. */
  function TokenClaims(token: string, codec: Codec): (claims: Option<Claims>)
    ensures '.' !in token ==> claims.None?
    ensures '.' in token ==> claims == codec.decodeClaims(Split(token, '.')[1])
  {
    match PayloadSegment(token)
    case None => None
    case Some(segment) => codec.decodeClaims(segment)
  }

  /**
   * isTokenExpired: an unreadable payload counts as expired; otherwise `payload.exp < currentTime`.
   * The comparison is strict, and `undefined < n` is false, so a payload without `exp` never expires.
   */
  predicate IsTokenExpired(token: string, nowMs: nat, codec: Codec): (expired: bool)
    ensures TokenClaims(token, codec).None? ==> expired
    ensures TokenClaims(token, codec).Some? ==>
            (expired <==> exists exp: int :: TokenClaims(token, codec).value.exp == Some(exp) && exp < Seconds(nowMs))
  {
    match TokenClaims(token, codec)
    case None => true
    case Some(claims) => claims.exp.Some? && claims.exp.value < Seconds(nowMs)
  }

  /** A token laid out as header, payload and signature segments joined by '.'. */
  function Assemble(header: string, claims: Claims, signature: string, codec: Codec): string
  {
    Join([header, codec.encodeClaims(claims), signature], '.')
  }

  /** The payload of an assembled token decodes to the claims it was built from. */
  lemma AssembledClaims(header: string, claims: Claims, signature: string, codec: Codec)
    requires ValidCodec(codec) && Encodable(claims)
    requires '.' !in header && '.' !in signature
    ensures TokenClaims(Assemble(header, claims, signature, codec), codec) == Some(claims)
  {
    var parts := [header, codec.encodeClaims(claims), signature];
    SplitJoin(parts, '.');
  }

  /** For a well-formed token, expiry is exactly `exp < now` on its own claims. */
  lemma AssembledExpiry(header: string, claims: Claims, signature: string, codec: Codec, nowMs: nat)
    requires ValidCodec(codec) && Encodable(claims)
    requires '.' !in header && '.' !in signature
    ensures IsTokenExpired(Assemble(header, claims, signature, codec), nowMs, codec)
            <==> claims.exp.Some? && claims.exp.value < Seconds(nowMs)
  {
    AssembledClaims(header, claims, signature, codec);
  }

  /** A token with no '.' at all is always treated as expired (fail closed). */
  lemma NoSegmentIsExpired(token: string, nowMs: nat, codec: Codec)
    requires '.' !in token
    ensures IsTokenExpired(token, nowMs, codec)
  {
  }

  /** An `exp` equal to the current second has not expired yet. */
  lemma ExpiryIsStrict(token: string, nowMs: nat, codec: Codec)
    requires TokenClaims(token, codec).Some?
    requires TokenClaims(token, codec).value.exp == Some(Seconds(nowMs))
    ensures !IsTokenExpired(token, nowMs, codec)
  {
  }

  /** Once expired, a token stays expired as the clock moves forward. */
  lemma ExpiryIsFinal(token: string, nowMs: nat, laterMs: nat, codec: Codec)
    requires nowMs <= laterMs
    requires IsTokenExpired(token, nowMs, codec)
    ensures IsTokenExpired(token, laterMs, codec)
  {
    assert Seconds(nowMs) <= Seconds(laterMs);
  }

  /** The claims of the demo token issued at `nowMs`: subject '1', user 'admin', one day of validity. */
  function MockClaims(nowMs: nat): (claims: Claims)
    ensures claims.sub == Some("1") && claims.username == Some("admin")
    ensures claims.exp == Some(Seconds(nowMs) + ONE_DAY_SECONDS)
    ensures nowMs <= MAX_TIME_MS ==> Encodable(claims)
  {
    Claims(Some("1"), Some("admin"), Some(Seconds(nowMs) + ONE_DAY_SECONDS))
  }

  /** generateMockToken: `header.payload.signature` with the mock claims in the payload. */
  function GenerateMockToken(nowMs: nat, codec: Codec): (token: string)
    ensures |token| > |codec.encodedHeader| && token[|codec.encodedHeader|] == '.'
  {
    var header, payload := codec.encodedHeader, codec.encodeClaims(MockClaims(nowMs));
    assert [header, payload, codec.encodedSignature][1..] == [payload, codec.encodedSignature];
    assert [payload, codec.encodedSignature][1..] == [codec.encodedSignature];
    assert Join([payload, codec.encodedSignature], '.') == payload + ['.'] + codec.encodedSignature;
    assert Assemble(header, MockClaims(nowMs), codec.encodedSignature, codec)
           == header + ['.'] + (payload + ['.'] + codec.encodedSignature);
    Assemble(header, MockClaims(nowMs), codec.encodedSignature, codec)
  }

  /** The demo token is non-empty and its payload reads back as the mock claims. */
  lemma MockTokenClaims(nowMs: nat, codec: Codec)
    requires ValidCodec(codec) && nowMs <= MAX_TIME_MS
    ensures GenerateMockToken(nowMs, codec) != ""
    ensures TokenClaims(GenerateMockToken(nowMs, codec), codec) == Some(MockClaims(nowMs))
  {
    AssembledClaims(codec.encodedHeader, MockClaims(nowMs), codec.encodedSignature, codec);
  }

  /** The demo token issued at `issuedMs` is unexpired exactly up to and including second issued + 86400. */
  lemma MockTokenLifetime(issuedMs: nat, nowMs: nat, codec: Codec)
    requires ValidCodec(codec) && issuedMs <= MAX_TIME_MS
    ensures !IsTokenExpired(GenerateMockToken(issuedMs, codec), nowMs, codec)
            <==> Seconds(nowMs) <= Seconds(issuedMs) + ONE_DAY_SECONDS
  {
    AssembledExpiry(codec.encodedHeader, MockClaims(issuedMs), codec.encodedSignature, codec, nowMs);
  }
}
