/** The claim set carried by a token: the registered claims `sub`, `iat` and
    `exp` and the private claim `email`, with dates as a java.util.Date holds
    them, in milliseconds since the epoch. */
module ClaimSet {
  import opened Wrappers

  /** Milliseconds since the epoch (`Date.getTime()`). */
  type Millis = int

  /** Lifetime of an issued token: `1000 * 60 * 1` milliseconds. */
  const TtlMillis: Millis := 1000 * 60 * 1

  datatype Claims = Claims(
    subject: Option<string>,
    email: Option<string>,
    issuedAt: Option<Millis>,
    expiration: Option<Millis>)
  {
    /** `JwtBuilder.setSubject`: overwrites whatever `sub` the claims held. */
    function WithSubject(s: string): Claims {
      this.(subject := Some(s))
    }

    /** `JwtBuilder.setIssuedAt`. */
    function WithIssuedAt(t: Millis): Claims {
      this.(issuedAt := Some(t))
    }

    /** `JwtBuilder.setExpiration`. */
    function WithExpiration(t: Millis): Claims {
      this.(expiration := Some(t))
    }
  }

  /** `JwtBuilder.setClaims(map)`: the claim set becomes the given map. Of a
      string-valued map only `sub` and `email` are observable here; any `iat`
      or `exp` entry is overwritten by the builder calls that follow it. */
  function FromMap(m: map<string, string>): Claims
  {
    Claims(Get(m, "sub"), Get(m, "email"), None, None)
  }

  /** `Date.before`: strictly earlier. */
  predicate Before(a: Millis, b: Millis)
  {
    a < b
  }

  /** Java's `long` division, which truncates toward zero (Dafny's `/` is
      Euclidean and rounds negative quotients down instead). */
  function TruncDiv(a: int, b: int): (q: int)
    requires b > 0
    ensures 0 <= a ==> 0 <= q && q * b <= a < q * b + b
    ensures a < 0 ==> q <= 0 && q * b - b < a <= q * b
  {
    if a >= 0 then a / b else -((-a) / b)
  }

  /** A date after it has been through a token: it is stored as a NumericDate
      of whole seconds (section 2 of RFC 7519), `getTime() / 1000`, and read
      back as those seconds times 1000. */
  function ToNumericDate(t: Millis): (r: Millis)
    ensures r % 1000 == 0
    ensures 0 <= t ==> t - 1000 < r <= t
    ensures t < 0 ==> t <= r < t + 1000
  {
    TruncDiv(t, 1000) * 1000
  }

  /** The claim set that parsing a signed `c` yields: every date truncated to
      whole seconds, everything else as it was. */
  function WholeSeconds(c: Claims): (r: Claims)
    ensures r.subject == c.subject && r.email == c.email
    ensures r.issuedAt.Some? <==> c.issuedAt.Some?
    ensures r.expiration.Some? <==> c.expiration.Some?
    ensures c.expiration.Some? ==> r.expiration.value == ToNumericDate(c.expiration.value)
    ensures c.issuedAt.Some? ==> r.issuedAt.value == ToNumericDate(c.issuedAt.value)
  {
    c.(issuedAt := TruncateDate(c.issuedAt), expiration := TruncateDate(c.expiration))
  }

  /** An optional date as it comes back from a token. */
  function TruncateDate(t: Option<Millis>): Option<Millis>
  {
    match t
    case None => None
    case Some(v) => Some(ToNumericDate(v))
  }
}
