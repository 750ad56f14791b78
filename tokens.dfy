/** The session tokens the source signs and verifies with jsonwebtoken,
    modelled as an oracle: a token carries its claims, its issue time and
    its `exp` claim, and a signature that only the holder of the signing
    secret can produce. Times are passed in as milliseconds since the
    epoch, as `Date.now()` gives them; token times are whole seconds. */
module Tokens {
  import opened Basics

  /** The payload a token carries. Session tokens carry all three fields;
      federated sign-in tokens carry no username; the e-mail verification
      link carries only the id. */
  datatype Claims = Claims(id: Id, role: Option<string>, username: Option<string>)

  /** A keyed signature over the payload and its times. */
  datatype Signature = Mac(key: string, claims: Claims, iat: int, exp: int)

  datatype Jwt = Jwt(claims: Claims, iat: int, exp: int, signature: Signature)

  /** What a `user_token` cookie holds: a token that decodes, or text that does not. */
  datatype Cookie = Token(jwt: Jwt) | Unreadable

  /** The three ways `jwt.verify` throws. */
  datatype VerifyError = Malformed | BadSignature | Expired

  /** `expiresIn` values used by the source, in seconds. */
  const OneHour: nat := 3600
  const TwelveHours: nat := 43200
  const OneDay: nat := 86400

  /** jsonwebtoken's clock: `Math.floor(Date.now() / 1000)`. */
  function Seconds(nowMs: nat): nat {
    nowMs / 1000
  }

  /** `jwt.sign(claims, secret, { expiresIn: ttl })` at time `nowMs`. */
  function Sign(secret: string, claims: Claims, nowMs: nat, ttl: nat): (t: Jwt)
    ensures t.claims == claims
    ensures t.exp - t.iat == ttl && t.iat == Seconds(nowMs)
  {
    var iat := Seconds(nowMs);
    Jwt(claims, iat, iat + ttl, Mac(secret, claims, iat, iat + ttl))
  }

  /** `jwt.verify(token, secret)` at time `nowMs`: the encoding is read,
      then the signature is checked, then expiry, which per section 4.1.4
      of RFC 7519 rejects a token once the current time reaches `exp`. */
  function Verify(secret: string, cookie: Cookie, nowMs: nat): Result<Claims, VerifyError> {
    match cookie
    case Unreadable => Err(Malformed)
    case Token(t) =>
      if t.signature != Mac(secret, t.claims, t.iat, t.exp) then Err(BadSignature)
      else if Seconds(nowMs) >= t.exp then Err(Expired)
      else Ok(t.claims)
  }

  /** A token signed with the secret verifies, returning the claims it was
      signed with, exactly until its lifetime has run out. */
  lemma SignVerify(secret: string, claims: Claims, issuedMs: nat, ttl: nat, nowMs: nat)
    ensures Verify(secret, Token(Sign(secret, claims, issuedMs, ttl)), nowMs)
         == if Seconds(nowMs) < Seconds(issuedMs) + ttl then Ok(claims) else Err(Expired)
  {
  }

  /** A token signed under any other secret is refused, whatever its times. */
  lemma ForeignSecretRejected(secret: string, other: string, claims: Claims, issuedMs: nat, ttl: nat, nowMs: nat)
    requires other != secret
    ensures Verify(secret, Token(Sign(other, claims, issuedMs, ttl)), nowMs) == Err(BadSignature)
  {
  }

  /** Changing the claims of a genuine token (say, raising its role)
      invalidates its signature. */
  lemma TamperedClaimsRejected(secret: string, t: Jwt, forged: Claims, nowMs: nat)
    requires t.signature == Mac(secret, t.claims, t.iat, t.exp)
    requires forged != t.claims
    ensures Verify(secret, Token(t.(claims := forged)), nowMs) == Err(BadSignature)
  {
  }

  lemma MillisecondsToSeconds(ms: nat, hours: nat)
    ensures Seconds(ms + hours * 3_600_000) == Seconds(ms) + hours * 3600
  {
    assert ms + hours * 3_600_000 == (ms / 1000 + hours * 3600) * 1000 + ms % 1000;
  }

  /** A one-day session token issued at T is accepted at T + 23 h and
      refused as expired at T + 25 h. */
  lemma OneDayLifetime(secret: string, claims: Claims, issuedMs: nat)
    ensures Verify(secret, Token(Sign(secret, claims, issuedMs, OneDay)), issuedMs + 23 * 3_600_000) == Ok(claims)
    ensures Verify(secret, Token(Sign(secret, claims, issuedMs, OneDay)), issuedMs + 25 * 3_600_000) == Err(Expired)
  {
    MillisecondsToSeconds(issuedMs, 23);
    MillisecondsToSeconds(issuedMs, 25);
  }
}
