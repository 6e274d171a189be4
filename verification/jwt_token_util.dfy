/** The token service: issuance, claim reading, expiry and validation checks,
    and the in-memory blacklist of invalidated tokens. The clock is the
    parameter `now`; the blacklist is the `tokenBlacklist` field of an
    immutable `TokenUtil` that the state-changing operation returns anew. */
module JwtTokenUtil {
  import opened Wrappers
  import opened ClaimSet
  import opened Jjwt

  /** The component's state: the library keyed by its fixed secret, and the
      set of invalidated token strings. */
  datatype TokenUtil = TokenUtil(jwt: Codec, tokenBlacklist: set<Token>)

  /** A freshly started component: nothing has been invalidated yet. */
  function Init(jwt: Codec): (u: TokenUtil)
    ensures u.jwt == jwt
    ensures forall t :: !IsTokenBlacklisted(u, t)
  {
    TokenUtil(jwt, {})
  }

  // ---------------------------------------------------------------- issuance

  /** The claim set `doGenerateToken` builds before signing: the given map,
      then the subject, then issued-at `now` and expiration `now` plus the
      lifetime. The subject is set after the map, so a `sub` entry in the map
      never survives. */
  function BuildClaims(claims: map<string, string>, subject: string, now: Millis): (c: Claims)
    ensures c.subject == Some(subject)
    ensures c.email == Get(claims, "email")
    ensures c.issuedAt == Some(now)
    ensures c.expiration == Some(now + 60000)
    ensures c.issuedAt.value < c.expiration.value
  {
    FromMap(claims).WithSubject(subject).WithIssuedAt(now).WithExpiration(now + TtlMillis)
  }

  /** `doGenerateToken(claims, subject)`: the signed form of `BuildClaims`. */
  function DoGenerateToken(u: TokenUtil, claims: map<string, string>, subject: string, now: Millis): Token
  {
    u.jwt.sign(BuildClaims(claims, subject, now))
  }

  /** `generateToken(userDetails, email)`: a token for `username` carrying
      the private claim `email`. */
  function GenerateToken(u: TokenUtil, username: string, email: string, now: Millis): (t: Token)
    ensures t == u.jwt.sign(Claims(Some(username), Some(email), Some(now), Some(now + TtlMillis)))
  {
    DoGenerateToken(u, map["email" := email], username, now)
  }

  /** The claim set signed into `GenerateToken(u, username, email, now)`. */
  function IssuedClaims(username: string, email: string, now: Millis): (c: Claims)
    ensures c.subject == Some(username) && c.email == Some(email)
    ensures c.issuedAt == Some(now) && c.expiration == Some(now + TtlMillis)
  {
    BuildClaims(map["email" := email], username, now)
  }

  /** The last instant at which a token issued at `now` still parses: its
      expiration as read back from the token, in whole seconds. */
  function IssuedExpiry(now: Millis): (e: Millis)
    ensures e % 1000 == 0
    ensures 0 <= now + TtlMillis ==> now + TtlMillis - 1000 < e <= now + TtlMillis
    ensures now + TtlMillis < 0 ==> now + TtlMillis <= e < now + TtlMillis + 1000
  {
    ToNumericDate(now + TtlMillis)
  }

  // ----------------------------------------------------------- claim reading

  /** `getAllClaimsFromToken`: parse and verify under the secret. */
  function GetAllClaimsFromToken(u: TokenUtil, token: Token, now: Millis): (r: Result<Claims, JwtError>)
    ensures r.Success? <==> u.jwt.verify(token).Success? && !RejectedAsExpired(u.jwt.verify(token).value, now)
    ensures r.Success? ==> r.value == u.jwt.verify(token).value
    ensures u.jwt.verify(token).Failure? ==> r == Failure(Invalid(u.jwt.verify(token).error))
    ensures u.jwt.verify(token).Success? && RejectedAsExpired(u.jwt.verify(token).value, now) ==> r == Failure(ExpiredJwt)
  {
    ParseClaimsJws(u.jwt, token, now)
  }

  /** `getUsernameFromToken`: the `sub` claim, `null` when absent. */
  function GetUsernameFromToken(u: TokenUtil, token: Token, now: Millis): (r: Result<Option<string>, JwtError>)
    ensures r.Success? <==> GetAllClaimsFromToken(u, token, now).Success?
    ensures r.Failure? ==> r.error == GetAllClaimsFromToken(u, token, now).error
    ensures r.Success? ==> r.value == u.jwt.verify(token).value.subject
  {
    var c :- GetAllClaimsFromToken(u, token, now);
    Success(c.subject)
  }

  /** `getEmailFromToken`: the `email` claim, `null` when absent. */
  function GetEmailFromToken(u: TokenUtil, token: Token, now: Millis): (r: Result<Option<string>, JwtError>)
    ensures r.Success? <==> GetAllClaimsFromToken(u, token, now).Success?
    ensures r.Failure? ==> r.error == GetAllClaimsFromToken(u, token, now).error
    ensures r.Success? ==> r.value == u.jwt.verify(token).value.email
  {
    var c :- GetAllClaimsFromToken(u, token, now);
    Success(c.email)
  }

  /** `getExpirationDateFromToken`: the `exp` claim, `null` when absent. A
      token that parses at `now` never has an expiration before `now`. */
  function GetExpirationDateFromToken(u: TokenUtil, token: Token, now: Millis): (r: Result<Option<Millis>, JwtError>)
    ensures r.Success? <==> GetAllClaimsFromToken(u, token, now).Success?
    ensures r.Failure? ==> r.error == GetAllClaimsFromToken(u, token, now).error
    ensures r.Success? ==> r.value == u.jwt.verify(token).value.expiration
    ensures r.Success? && r.value.Some? ==> now <= r.value.value
  {
    var c :- GetAllClaimsFromToken(u, token, now);
    Success(c.expiration)
  }

  // ------------------------------------------------------------------ checks

  /** `isTokenExpired`: whether the expiration is strictly before `now`;
      dereferencing an absent expiration throws. Because the parser already
      refuses a token that expired before `now`, the answer, when there is
      one, is always `false`. */
  function IsTokenExpired(u: TokenUtil, token: Token, now: Millis): (r: Result<bool, JwtError>)
    ensures r != Success(true)
    ensures r == Success(false) <==>
      && u.jwt.verify(token).Success?
      && u.jwt.verify(token).value.expiration.Some?
      && !Before(u.jwt.verify(token).value.expiration.value, now)
    ensures u.jwt.verify(token).Failure? ==> r == Failure(Invalid(u.jwt.verify(token).error))
    ensures u.jwt.verify(token).Success? && RejectedAsExpired(u.jwt.verify(token).value, now) ==> r == Failure(ExpiredJwt)
    ensures (&& u.jwt.verify(token).Success?
             && !RejectedAsExpired(u.jwt.verify(token).value, now)
             && u.jwt.verify(token).value.expiration.None?) ==> r == Failure(NullClaim)
  {
    var expiration :- GetExpirationDateFromToken(u, token, now);
    match expiration
    case None => Failure(NullClaim)
    case Some(exp) => Success(Before(exp, now))
  }

  /** `isTokenBlacklisted`: membership of the exact token string. */
  function IsTokenBlacklisted(u: TokenUtil, token: Token): bool
  {
    token in u.tokenBlacklist
  }

  /** The acceptance condition, stated independently of the evaluation order
      of `validateToken`: the token verifies, names `username` as subject,
      has an expiration not before `now`, and was never invalidated. */
  ghost predicate Accepts(u: TokenUtil, token: Token, username: string, now: Millis)
  {
    && u.jwt.verify(token).Success?
    && u.jwt.verify(token).value.subject == Some(username)
    && u.jwt.verify(token).value.expiration.Some?
    && u.jwt.verify(token).value.expiration.value >= now
    && token !in u.tokenBlacklist
  }

  /** `validateToken(token, userDetails)`: subject matches, and the token is
      neither expired nor blacklisted, evaluated left to right with `&&`
      short-circuiting. Failures of parsing, and an absent subject or
      expiration, propagate as errors rather than becoming `false`. */
  function ValidateToken(u: TokenUtil, token: Token, username: string, now: Millis): (r: Result<bool, JwtError>)
    ensures r == Success(true) <==> Accepts(u, token, username, now)
    ensures r == Success(true) ==> !IsTokenBlacklisted(u, token)
    ensures u.jwt.verify(token).Failure? ==> r == Failure(Invalid(u.jwt.verify(token).error))
    ensures ParseClaimsJws(u.jwt, token, now).Failure? ==> r == Failure(ParseClaimsJws(u.jwt, token, now).error)
    ensures ParseClaimsJws(u.jwt, token, now).Success? && u.jwt.verify(token).value.subject.None? ==> r == Failure(NullClaim)
    ensures (&& ParseClaimsJws(u.jwt, token, now).Success?
             && u.jwt.verify(token).value.subject == Some(username)
             && u.jwt.verify(token).value.expiration.None?) ==> r == Failure(NullClaim)
    ensures (&& ParseClaimsJws(u.jwt, token, now).Success?
             && u.jwt.verify(token).value.subject.Some?
             && u.jwt.verify(token).value.subject.value != username) ==> r == Success(false)
    ensures (&& ParseClaimsJws(u.jwt, token, now).Success?
             && u.jwt.verify(token).value.subject == Some(username)
             && u.jwt.verify(token).value.expiration.Some?) ==> r == Success(!IsTokenBlacklisted(u, token))
    ensures r.Success? ==> ParseClaimsJws(u.jwt, token, now).Success?
  {
    var username' :- GetUsernameFromToken(u, token, now);
    if username'.None? then Failure(NullClaim)
    else if username'.value != username then Success(false)
    else
      var expired :- IsTokenExpired(u, token, now);
      Success(!expired && !IsTokenBlacklisted(u, token))
  }

  // ---------------------------------------------------------------- registry

  /** `invalidateToken`: add the token to the blacklist; nothing else about
      the component changes. */
  function InvalidateToken(u: TokenUtil, token: Token): (u': TokenUtil)
    ensures u'.jwt == u.jwt
    ensures IsTokenBlacklisted(u', token)
    ensures forall t :: t != token ==> (IsTokenBlacklisted(u', t) <==> IsTokenBlacklisted(u, t))
    ensures u.tokenBlacklist <= u'.tokenBlacklist
  {
    u.(tokenBlacklist := u.tokenBlacklist + {token})
  }
}
