/**
 * What the front end reads out of a JSON Web Token: the payload claims after
 * decoding, and the expiry test with its safety margin.
 */
module Jwt {
  import opened Wrappers
  import opened Text

  /**
   * The `exp` claim: seconds since the epoch when it is a number, a string that
   * JavaScript's number conversion reads as whole seconds, or anything else.
   */
  datatype Exp = NumericExp(seconds: int) | NumericTextExp(seconds: int) | NonNumericExp

  datatype Payload = Payload(sub: Option<string>, exp: Exp, roles: Option<seq<string>>)

  /**
   * A token decoder (the `jwt-decode` library, or base64 and `JSON.parse` of the
   * middle segment): `None` when decoding throws or yields no object.
   */
  type Decoder = string -> Option<Payload>

  /** The margin before expiry inside which a token already counts as expired: 5 minutes. */
  const BUFFER_MS: int := 5 * 60 * 1000

  /** The token expires, in milliseconds, strictly after `instant`. */
  predicate ExpiresAfter(p: Payload, instant: int) {
    p.exp.NumericExp? && p.exp.seconds * 1000 > instant
  }

  /**
   * The same test without a check of the claim's type: `exp * 1000` converts
   * a numeric string to its number, and anything else that is not a number
   * compares false.
   */
  predicate CoercedExpiresAfter(p: Payload, instant: int) {
    !p.exp.NonNumericExp? && p.exp.seconds * 1000 > instant
  }

  /**
   * Whether `token` is valid at time `now` (milliseconds): present, decodable,
   * with a numeric `exp` more than the buffer ahead of `now`. Never fails.
   */
  function ValidAt(token: Option<string>, decode: Decoder, now: int): (r: bool)
    ensures !Truthy(token) ==> !r
    ensures Truthy(token) && decode(token.value).None? ==> !r
    ensures Truthy(token) && decode(token.value).Some?
            ==> (r <==> ExpiresAfter(decode(token.value).value, now + BUFFER_MS))
  {
    if !Truthy(token) then false
    else
      match decode(token.value)
      case None => false
      case Some(p) => p.exp.NumericExp? && p.exp.seconds * 1000 > now + BUFFER_MS
  }

  /** A token valid at `now` is valid at every earlier time, and stays unexpired throughout the buffer. */
  lemma ValidAtEarlier(token: Option<string>, decode: Decoder, now: int, earlier: int)
    requires earlier <= now && ValidAt(token, decode, now)
    ensures ValidAt(token, decode, earlier)
    ensures forall t :: now <= t <= now + BUFFER_MS ==> ExpiresAfter(decode(token.value).value, t)
  {
  }
}
