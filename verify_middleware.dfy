/** The cookie-token gate in front of the guarded routes: it reads the
    `user_token` cookie, verifies it, and either answers 401 itself or
    attaches the decoded claims to the request and passes it on. It never
    touches the store. */
module VerifyMiddleware {
  import opened Basics
  import opened Tokens

  const MissingTokenMessage: string := "Authentication token missing"
  const InvalidTokenMessage: string := "Invalid or expired token"

  /** The pure part of the gate: what it decides for a cookie. An absent
      cookie and an empty one are both falsy. */
  datatype Decision = Reject(message: string) | Admit(claims: Claims)

  function Decide(secret: string, cookie: Option<Cookie>, nowMs: nat): Decision {
    match cookie
    case None => Reject(MissingTokenMessage)
    case Some(c) =>
      match Verify(secret, c, nowMs)
      case Ok(claims) => Admit(claims)
      case Err(_) => Reject(InvalidTokenMessage)
  }

  /** One request/response exchange as the gate sees it. */
  class Exchange {
    const cookie: Option<Cookie>
    /** `req.user`. */
    var user: Option<Claims>
    /** The status of the response, once one has been sent. */
    var status: Option<int>
    var message: string
    /** How many times `next()` has been called. */
    var nextCalls: nat

    constructor (cookie: Option<Cookie>)
      ensures this.cookie == cookie
      ensures user == None && status == None && message == "" && nextCalls == 0
    {
      this.cookie := cookie;
      user, status, message, nextCalls := None, None, "", 0;
    }
  }

  /** `verify(req, res, next)`. */
  method Gate(x: Exchange, secret: string, nowMs: nat)
    modifies x
    ensures Decide(secret, x.cookie, nowMs).Reject? ==>
      && x.status == Some(401) && x.message == Decide(secret, x.cookie, nowMs).message
      && x.user == old(x.user) && x.nextCalls == old(x.nextCalls)
    ensures Decide(secret, x.cookie, nowMs).Admit? ==>
      && x.user == Some(Decide(secret, x.cookie, nowMs).claims)
      && x.nextCalls == old(x.nextCalls) + 1
      && x.status == old(x.status) && x.message == old(x.message)
  {
    if x.cookie.None? {
      x.status, x.message := Some(401), MissingTokenMessage;
      return;
    }
    var verdict := Verify(secret, x.cookie.value, nowMs);
    if verdict.Err? {
      x.status, x.message := Some(401), InvalidTokenMessage;
      return;
    }
    x.user := Some(verdict.value);
    x.nextCalls := x.nextCalls + 1;
  }

  /** With no cookie the gate refuses with its "missing" message. */
  lemma MissingCookieRefused(secret: string, nowMs: nat)
    ensures Decide(secret, None, nowMs) == Reject(MissingTokenMessage)
  {
  }

  /** Every verification failure, whatever its reason, gets the same
      answer, so a client cannot tell an expired token from a forged one. */
  lemma FailuresIndistinguishable(secret: string, c1: Cookie, c2: Cookie, nowMs: nat)
    requires Verify(secret, c1, nowMs).Err? && Verify(secret, c2, nowMs).Err?
    ensures Decide(secret, Some(c1), nowMs) == Decide(secret, Some(c2), nowMs) == Reject(InvalidTokenMessage)
  {
  }

  /** The gate admits exactly the cookies that verify, with their claims. */
  lemma AdmitsExactlyVerifiedTokens(secret: string, cookie: Option<Cookie>, nowMs: nat)
    ensures Decide(secret, cookie, nowMs).Admit? <==> cookie.Some? && Verify(secret, cookie.value, nowMs).Ok?
    ensures Decide(secret, cookie, nowMs).Admit? ==> Decide(secret, cookie, nowMs).claims == Verify(secret, cookie.value, nowMs).value
  {
  }
}
