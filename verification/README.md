# JwtTokenUtil token lifecycle, in Dafny

A model of the token service of the `matching` application: the
`JwtTokenUtil` component that issues signed JSON Web Tokens for a user,
reads their claims back, checks expiry, validates a token for a user, and
keeps an in-memory blacklist of invalidated tokens.

- `wrappers.dfy` (`Wrappers`): `Option` for a Java `null`, `Result` for a call that throws.
- `claim_set.dfy` (`ClaimSet`): the `Claims` record (subject, email, issued-at,
  expiration in milliseconds), the builder steps, the 60 000 ms lifetime, and the
  whole-second truncation of dates (NumericDate, section 2 of RFC 7519), with Java's
  truncating `long` division written out.
- `jjwt.dfy` (`Jjwt`): the JWT library as an uninterpreted `Codec` (a `sign`
  and a `verify` function) under the hypothesis `RoundTrips`, and
  `ParseClaimsJws`, which verifies and then refuses a token whose expiration is
  strictly before the clock.
- `jwt_token_util.dfy` (`JwtTokenUtil`): the component's operations over an
  immutable `TokenUtil` state (codec plus `tokenBlacklist: set<string>`), the clock
  passed as `now`.
- `token_lifecycle.dfy` (`TokenLifecycle`): issuance bounds, the claim round trip,
  the expiry boundary, the validation truth table, revocation.
- `token_trace.dfy` (`TokenTrace`): the component as a state machine over a run of
  timestamped calls; the blacklist only grows, and read-your-writes holds.

Two consequences of the code that the model makes explicit:

- The library parser already throws for a token whose expiration is before the
  clock, so with one clock value `isTokenExpired` never answers `true`, and
  `validateToken` on an expired token ends in an error, not in `false`
  (`JwtTokenUtil.IsTokenExpired`, `TokenLifecycle.GeneratedTokenExpires`).
- `validateToken` does not catch parse failures: a malformed, forged or expired
  token, or one without a subject, or without an expiration when its subject
  matches, propagates as an error
  (`Failure`): a caller expecting `false` for a bad token gets an exception
  instead.

Dates are read back from a token in whole seconds, so a token issued at `now`
stays valid up to `IssuedExpiry(now)`. For `now >= -60000` that lies in the last
second up to and including `now + 60000`; for earlier clocks the truncation
toward zero rounds it up instead. Either way it equals `now + 60000` whenever
`now` is a whole number of seconds.

## Model

| member | source | states |
|---|---|---|
| JwtTokenUtil.Init | src/main/java/com/example/matching/util/JwtTokenUtil.java:23 | a freshly created component has an empty blacklist: no token is blacklisted |
| JwtTokenUtil.BuildClaims | src/main/java/com/example/matching/util/JwtTokenUtil.java:69-74 | the claim set built for signing has the given subject even when the claims map holds a `sub` entry, the map's `email`, issued-at `now`, expiration `now + 60000`, so expiration is after issued-at |
| JwtTokenUtil.GenerateToken | src/main/java/com/example/matching/util/JwtTokenUtil.java:60-64 | the generated token is the signed form of the claim set with the username as subject, the email claim, issued-at `now` and expiration `now + 60000` |
| TokenLifecycle.DoGenerateSubjectWins | src/main/java/com/example/matching/util/JwtTokenUtil.java:69-77 | under the round-trip hypothesis, the token reads back with the given subject even when the claims map holds a `sub` entry, and with the map's email |
| JwtTokenUtil.IssuedClaims | src/main/java/com/example/matching/util/JwtTokenUtil.java:60-63 | a token generated for a user carries the username as subject and the supplied email as the `email` claim |
| JwtTokenUtil.IssuedExpiry | src/main/java/com/example/matching/util/JwtTokenUtil.java:73-74 | the expiration read back from a token issued at `now` is a whole number of seconds in the last second up to and including `now + 60000` when `now >= -60000`, and above `now + 60000` only when `now < -60000` |
| JwtTokenUtil.GetAllClaimsFromToken | src/main/java/com/example/matching/util/JwtTokenUtil.java:46-51 | succeeds exactly when the token verifies and is not expired, then yields the verified claims; a decode failure becomes `Invalid`, an expired token `ExpiredJwt` |
| JwtTokenUtil.GetUsernameFromToken | src/main/java/com/example/matching/util/JwtTokenUtil.java:25-28 | succeeds exactly when the token parses, then yields its subject claim (absent as `None`); parse errors propagate |
| JwtTokenUtil.GetEmailFromToken | src/main/java/com/example/matching/util/JwtTokenUtil.java:30-33 | succeeds exactly when the token parses, then yields its `email` claim; parse errors propagate |
| JwtTokenUtil.GetExpirationDateFromToken | src/main/java/com/example/matching/util/JwtTokenUtil.java:35-38 | succeeds exactly when the token parses, then yields its expiration, which is never before `now`; parse errors propagate |
| JwtTokenUtil.IsTokenExpired | src/main/java/com/example/matching/util/JwtTokenUtil.java:53-57 | answers `false` exactly when the token verifies and has an expiration not before `now`; never answers `true`, because parsing refuses expired tokens; an expired token throws `ExpiredJwt`, a token without expiration `NullClaim`, and decode failures propagate as `Invalid` |
| JwtTokenUtil.ValidateToken | src/main/java/com/example/matching/util/JwtTokenUtil.java:79-83 | `true` exactly when the token verifies, names the username, has an expiration not before `now` and is not blacklisted; a parsing token whose subject names another user gives `false`; every parse error propagates unchanged instead of giving `false`, and a missing subject, or a missing expiration for a matching subject, throws `NullClaim` |
| JwtTokenUtil.InvalidateToken | src/main/java/com/example/matching/util/JwtTokenUtil.java:85-88 | afterwards the token is blacklisted, every other token's membership is unchanged, and no entry is removed |
| Jjwt.ParseClaimsJws | src/main/java/com/example/matching/util/JwtTokenUtil.java:45-51 | parsing succeeds exactly when the token verifies and its expiration, if any, is not before `now`; a decode failure is wrapped as `Invalid` and the only other error is `ExpiredJwt` |
| Jjwt.ParseSigned | src/main/java/com/example/matching/util/JwtTokenUtil.java:45-51 | under the round-trip hypothesis a signed claim set parses back, dates truncated to whole seconds, until its expiration |
| Jjwt.ParseSignedExpired | src/main/java/com/example/matching/util/JwtTokenUtil.java:45-51 | under the round-trip hypothesis a signed claim set is refused as expired once the clock passes its expiration |
| ClaimSet.ToNumericDate | src/main/java/com/example/matching/util/JwtTokenUtil.java:73-74 | a date read back from a token is a whole number of seconds: for a non-negative date the last whole second at or below it, for a negative date the first at or above it (truncation toward zero) |
| TokenLifecycle.IssuedLifetimeExact | src/main/java/com/example/matching/util/JwtTokenUtil.java:73-74 | for a non-negative clock, read-back expiration minus read-back issued-at is exactly 60000 ms |
| TokenLifecycle.IssuedExpiresAfterIssue | src/main/java/com/example/matching/util/JwtTokenUtil.java:73-74 | read-back expiration of an issued token is always after its read-back issued-at |
| TokenLifecycle.GenerateReadsBack | src/main/java/com/example/matching/util/JwtTokenUtil.java:25-38 | before expiry, reading a generated token gives back the username, the email and the whole-second expiration it was issued with |
| TokenLifecycle.GeneratedTokenValid | src/main/java/com/example/matching/util/JwtTokenUtil.java:79-83 | a generated, never invalidated token validates for its username at any instant up to its expiration |
| TokenLifecycle.GeneratedTokenExpires | src/main/java/com/example/matching/util/JwtTokenUtil.java:53-57 | after its expiration a generated token makes both `isTokenExpired` and `validateToken` throw the expiry error |
| TokenLifecycle.ExpiryBoundary | src/main/java/com/example/matching/util/JwtTokenUtil.java:54-57 | expiry is strict: expiration equal to `now` is not expired, one millisecond later it is refused |
| TokenLifecycle.ValidateTruthTable | src/main/java/com/example/matching/util/JwtTokenUtil.java:80-83 | for a parsing token with subject and expiration, validation equals subject matches and not expired and not blacklisted |
| TokenLifecycle.BlacklistedRejected | src/main/java/com/example/matching/util/JwtTokenUtil.java:82 | a blacklisted token never validates, expired or not |
| TokenLifecycle.OtherSubjectRejected | src/main/java/com/example/matching/util/JwtTokenUtil.java:81-82 | a token never validates for a username other than its subject, and when it parses the answer is `false`, not an error, even without an expiration |
| TokenLifecycle.InvalidateRevokes | src/main/java/com/example/matching/util/JwtTokenUtil.java:80-93 | invalidating a valid token makes it validate to `false` though still unexpired, and leaves every other token's validation unchanged |
| TokenLifecycle.InvalidateIdempotent | src/main/java/com/example/matching/util/JwtTokenUtil.java:86-88 | invalidating a token twice equals invalidating it once |
| TokenLifecycle.InvalidateCommutes | src/main/java/com/example/matching/util/JwtTokenUtil.java:86-88 | two invalidations give the same state in either order |
| TokenLifecycle.AliceScenario | src/main/java/com/example/matching/util/JwtTokenUtil.java:59-93 | a token for alice with email a@x.com validates, yields its email, fails for bob, fails after invalidation, and is refused 61 s later |
| TokenTrace.Run | src/main/java/com/example/matching/util/JwtTokenUtil.java:23-93 | after any run of calls the blacklist is exactly the initial one plus every token the run invalidated |
| TokenTrace.ReadOnlyCalls | src/main/java/com/example/matching/util/JwtTokenUtil.java:26-93 | every call other than `invalidateToken` leaves the state unchanged |
| TokenTrace.BlacklistedIffInvalidated | src/main/java/com/example/matching/util/JwtTokenUtil.java:91-93 | from a fresh start, `isTokenBlacklisted` answers `true` after a run exactly when some call of the run invalidated that exact token string |
| TokenTrace.BlacklistGrows | src/main/java/com/example/matching/util/JwtTokenUtil.java:86-88 | the blacklist after a prefix of a run is contained in the blacklist after any longer prefix |
| TokenTrace.InvalidatedStaysRejected | src/main/java/com/example/matching/util/JwtTokenUtil.java:86-93 | once a run invalidated a token, every later validation of it is not `true` and every later blacklist query is `true` |

## Left out

- Signing, base64url encoding, JSON and HMAC-SHA-512 are done by the jjwt library, which is not part of this model: `Codec` is any pair of functions, and what the proofs need of it is the explicit hypothesis `RoundTrips` (a signed claim set verifies back, dates in whole seconds). Signature correctness and tamper evidence are not modelled.
- The hard-coded secret (line 19) is not represented; the codec stands for the library keyed by it.
- Thread safety of the concurrent key set behind the blacklist (line 23) is not modelled; the blacklist is a plain `set<string>` threaded through the calls.
- The clock: every `new Date()` and `System.currentTimeMillis()` read within one call, including the parser's own, is the single parameter `now`. In the Java code these are separate reads a few microseconds apart, so `isTokenExpired` could in principle answer `true` for a token expiring inside that window; the model does not.
- `getClaimFromToken` (lines 40-43) takes a Java function argument; it is inlined into the two readers that call it, `getUsernameFromToken` and `getExpirationDateFromToken` (`getEmailFromToken` calls `getAllClaimsFromToken` directly).
- `UserDetails` is reduced to its username string; `null` usernames, emails or tokens passed in are not modelled. A `null` token makes `invalidateToken` and `isTokenBlacklisted` throw (the concurrent key set refuses `null`, lines 23, 87, 92), and the parser throws for it too.
- Custom claims other than `sub` and `email` in the map given to `doGenerateToken` are not represented, since nothing in the component reads them, and a non-string `email` claim (a type error when read) is not representable.
- 64-bit overflow of `currentTimeMillis() + 60000` is not modelled (integers are unbounded); it needs a clock within a minute of the largest `long`.
- The parser's not-before check is not modelled: issued tokens carry no `nbf` claim.
- No eviction of expired blacklist entries: the code has none.
- The commented-out earlier versions of the class (lines 96-603) are dead code.
