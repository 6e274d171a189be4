/** Properties of one token's life: what issuance puts into it, how long it
    stays valid, and how invalidation and the subject check decide
    validation. */
module TokenLifecycle {
  import opened Wrappers
  import opened ClaimSet
  import opened Jjwt
  import opened JwtTokenUtil

  /** Issuing at a non-negative instant puts exactly the lifetime between the
      issued-at and expiration dates as read back from the token. */
  lemma IssuedLifetimeExact(username: string, email: string, now: Millis)
    requires now >= 0
    ensures WholeSeconds(IssuedClaims(username, email, now)).expiration.value
         == WholeSeconds(IssuedClaims(username, email, now)).issuedAt.value + TtlMillis
  {
  }

  /** At any instant, the expiration read back from an issued token is later
      than its issued-at date: truncation to seconds cannot close a
      sixty-second gap. */
  lemma IssuedExpiresAfterIssue(username: string, email: string, now: Millis)
    ensures WholeSeconds(IssuedClaims(username, email, now)).issuedAt.value
          < WholeSeconds(IssuedClaims(username, email, now)).expiration.value
  {
  }

  /** Reading back a generated token, before it expires, yields the username
      and email it was generated for and its whole-second expiration. */
  lemma GenerateReadsBack(u: TokenUtil, username: string, email: string, now: Millis, now': Millis)
    requires RoundTrips(u.jwt)
    requires now' <= IssuedExpiry(now)
    ensures GetUsernameFromToken(u, GenerateToken(u, username, email, now), now') == Success(Some(username))
    ensures GetEmailFromToken(u, GenerateToken(u, username, email, now), now') == Success(Some(email))
    ensures GetExpirationDateFromToken(u, GenerateToken(u, username, email, now), now') == Success(Some(IssuedExpiry(now)))
  {
    ParseSigned(u.jwt, IssuedClaims(username, email, now), now');
  }

  /** Whatever map `doGenerateToken` is given, even one holding its own `sub`
      entry, the token reads back with the given subject and the map's email. */
  lemma DoGenerateSubjectWins(u: TokenUtil, claims: map<string, string>, subject: string, now: Millis, now': Millis)
    requires RoundTrips(u.jwt)
    requires now' <= IssuedExpiry(now)
    ensures GetUsernameFromToken(u, DoGenerateToken(u, claims, subject, now), now') == Success(Some(subject))
    ensures GetEmailFromToken(u, DoGenerateToken(u, claims, subject, now), now') == Success(Get(claims, "email"))
  {
    ParseSigned(u.jwt, BuildClaims(claims, subject, now), now');
  }

  /** A generated token that nobody invalidated validates for its own
      username up to and including its expiration instant. */
  lemma GeneratedTokenValid(u: TokenUtil, username: string, email: string, now: Millis, now': Millis)
    requires RoundTrips(u.jwt)
    requires now' <= IssuedExpiry(now)
    requires !IsTokenBlacklisted(u, GenerateToken(u, username, email, now))
    ensures ValidateToken(u, GenerateToken(u, username, email, now), username, now') == Success(true)
  {
    ParseSigned(u.jwt, IssuedClaims(username, email, now), now');
  }

  /** Once its expiration has passed, a generated token no longer validates:
      the parser throws, so validation ends in an error, not in `false`. */
  lemma GeneratedTokenExpires(u: TokenUtil, username: string, email: string, now: Millis, now': Millis)
    requires RoundTrips(u.jwt)
    requires IssuedExpiry(now) < now'
    ensures ValidateToken(u, GenerateToken(u, username, email, now), username, now') == Failure(ExpiredJwt)
    ensures IsTokenExpired(u, GenerateToken(u, username, email, now), now') == Failure(ExpiredJwt)
  {
    ParseSignedExpired(u.jwt, IssuedClaims(username, email, now), now');
  }

  /** The expiry comparison is strict: a token whose expiration is exactly
      `now` is not expired, and one a millisecond older is refused. */
  lemma ExpiryBoundary(u: TokenUtil, token: Token, now: Millis)
    requires u.jwt.verify(token).Success?
    requires u.jwt.verify(token).value.expiration == Some(now)
    ensures IsTokenExpired(u, token, now) == Success(false)
    ensures IsTokenExpired(u, token, now + 1) == Failure(ExpiredJwt)
  {
  }

  /** The validation truth table, for a token that parses and carries a
      subject and an expiration. */
  lemma ValidateTruthTable(u: TokenUtil, token: Token, username: string, now: Millis)
    requires ParseClaimsJws(u.jwt, token, now).Success?
    requires u.jwt.verify(token).value.subject.Some?
    requires u.jwt.verify(token).value.expiration.Some?
    ensures ValidateToken(u, token, username, now) == Success(
      && u.jwt.verify(token).value.subject.value == username
      && !Before(u.jwt.verify(token).value.expiration.value, now)
      && !IsTokenBlacklisted(u, token))
  {
  }

  /** A blacklisted token never validates, expired or not. */
  lemma BlacklistedRejected(u: TokenUtil, token: Token, username: string, now: Millis)
    requires IsTokenBlacklisted(u, token)
    ensures ValidateToken(u, token, username, now) != Success(true)
  {
  }

  /** A token never validates for a username other than its subject; when it
      parses, the answer is `false`, since the subject comparison stops the
      evaluation before the expiration is read. */
  lemma OtherSubjectRejected(u: TokenUtil, token: Token, username: string, now: Millis)
    requires u.jwt.verify(token).Success?
    requires u.jwt.verify(token).value.subject != Some(username)
    ensures ValidateToken(u, token, username, now) != Success(true)
    ensures ParseClaimsJws(u.jwt, token, now).Success? && u.jwt.verify(token).value.subject.Some?
            ==> ValidateToken(u, token, username, now) == Success(false)
  {
  }

  /** Invalidating a token that validated makes it validate to `false` at the
      same instant, though it is still unexpired; every other token
      validates as before. */
  lemma InvalidateRevokes(u: TokenUtil, token: Token, other: Token, username: string, now: Millis)
    requires ValidateToken(u, token, username, now) == Success(true)
    requires other != token
    ensures IsTokenExpired(InvalidateToken(u, token), token, now) == Success(false)
    ensures ValidateToken(InvalidateToken(u, token), token, username, now) == Success(false)
    ensures ValidateToken(InvalidateToken(u, token), other, username, now) == ValidateToken(u, other, username, now)
  {
  }

  /** Invalidating twice is invalidating once. */
  lemma InvalidateIdempotent(u: TokenUtil, token: Token)
    ensures InvalidateToken(InvalidateToken(u, token), token) == InvalidateToken(u, token)
  {
  }

  /** The order of two invalidations does not matter. */
  lemma InvalidateCommutes(u: TokenUtil, a: Token, b: Token)
    ensures InvalidateToken(InvalidateToken(u, a), b) == InvalidateToken(InvalidateToken(u, b), a)
  {
  }

  /** The end-to-end life of a token for "alice" with email "a@x.com":
      valid when issued, its email readable, refused after invalidation, and
      refused by the parser a minute and a second later. */
  lemma AliceScenario(jwt: Codec, now: Millis)
    requires RoundTrips(jwt)
    ensures var u := Init(jwt);
            var t := GenerateToken(u, "alice", "a@x.com", now);
            && ValidateToken(u, t, "alice", now) == Success(true)
            && GetEmailFromToken(u, t, now) == Success(Some("a@x.com"))
            && ValidateToken(u, t, "bob", now) == Success(false)
            && ValidateToken(InvalidateToken(u, t), t, "alice", now) == Success(false)
            && ValidateToken(u, t, "alice", now + 61000) == Failure(ExpiredJwt)
  {
    var u := Init(jwt);
    var t := GenerateToken(u, "alice", "a@x.com", now);
    GeneratedTokenValid(u, "alice", "a@x.com", now, now);
    GenerateReadsBack(u, "alice", "a@x.com", now, now);
    InvalidateRevokes(u, t, t + "x", "alice", now);
    GeneratedTokenExpires(u, "alice", "a@x.com", now, now + 61000);
  }
}
