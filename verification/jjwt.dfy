/** The JWT library the service calls: signing a claim set into a compact JWS
    (section 7.1 of RFC 7515, HS512 of section 3.2 of RFC 7518) and parsing
    one back. Base64url, JSON and HMAC are not modelled: a `Codec` is any pair
    of functions, and what the service relies on is stated as the hypothesis
    `RoundTrips`. */
module Jjwt {
  import opened Wrappers
  import opened ClaimSet

  /** A compact serialised token, as the caller sees it. */
  type Token = string

  /** Why the library refuses to decode a token. */
  datatype DecodeError =
    | MalformedJwt        // not three base64url parts of JSON
    | SignatureMismatch   // HMAC does not match under the secret

  /** The exceptions that parsing, or reading a `null` claim, can throw. */
  datatype JwtError =
    | Invalid(cause: DecodeError)   // the token does not decode or verify
    | ExpiredJwt                    // `exp` is before the parser's clock
    | NullClaim                     // a claim the caller dereferences is absent

  /** `sign` compacts a claim set under the fixed secret; `verify` decodes a
      token and checks its signature under that secret. */
  datatype Codec = Codec(sign: Claims -> Token, verify: Token -> Result<Claims, DecodeError>)

  /** The round-trip hypothesis on the library: a token it signed verifies,
      and gives back the claims with dates truncated to whole seconds. */
  ghost predicate RoundTrips(k: Codec)
  {
    forall c :: k.verify(k.sign(c)) == Success(WholeSeconds(c))
  }

  /** The parser's own expiry rule: a claim set with an `exp` strictly before
      `now` is rejected; one without `exp` never is (no clock skew allowed). */
  predicate RejectedAsExpired(c: Claims, now: Millis)
  {
    c.expiration.Some? && Before(c.expiration.value, now)
  }

  /** `Jwts.parser().setSigningKey(secret).parseClaimsJws(token).getBody()`:
      verify the token, then refuse it when it has already expired. */
  function ParseClaimsJws(k: Codec, token: Token, now: Millis): (r: Result<Claims, JwtError>)
    ensures r.Success? <==> k.verify(token).Success? && !RejectedAsExpired(k.verify(token).value, now)
    ensures r.Success? ==> r.value == k.verify(token).value
    ensures r.Success? ==> r.value.expiration.None? || now <= r.value.expiration.value
    ensures k.verify(token).Failure? ==> r == Failure(Invalid(k.verify(token).error))
    ensures k.verify(token).Success? && r.Failure? ==> r.error == ExpiredJwt
  {
    match k.verify(token)
    case Failure(e) => Failure(Invalid(e))
    case Success(c) => if RejectedAsExpired(c, now) then Failure(ExpiredJwt) else Success(c)
  }

  /** A token the library signed parses back, while `now` has not passed its
      (truncated) expiration. */
  lemma ParseSigned(k: Codec, c: Claims, now: Millis)
    requires RoundTrips(k)
    requires c.expiration.None? || now <= ToNumericDate(c.expiration.value)
    ensures ParseClaimsJws(k, k.sign(c), now) == Success(WholeSeconds(c))
  {
  }

  /** ... and is refused as expired once `now` has passed it. */
  lemma ParseSignedExpired(k: Codec, c: Claims, now: Millis)
    requires RoundTrips(k)
    requires c.expiration.Some? && ToNumericDate(c.expiration.value) < now
    ensures ParseClaimsJws(k, k.sign(c), now) == Failure(ExpiredJwt)
  {
  }
}
