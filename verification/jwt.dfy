/**
 * A stand-in for jsonwebtoken (RFC 7519). The payload `{ id }` with its
 * expiry claim is written as the numeral of the id, a dot, and the numeral of
 * the expiry time in seconds; `Decode` accepts exactly the strings `Encode`
 * produces. The signature and the shared secret are not modelled.
 */
module Jwt {
  import opened Wrappers
  import opened Strings
  import opened Decimal

  /** The claims a token carries: the user id and its expiry time `exp`, in seconds. */
  datatype Claims = Claims(id: nat, exp: nat)

  function Encode(c: Claims): string {
    Show(c.id) + "." + Show(c.exp)
  }

  /** Only the encoding of some claims decodes, and it decodes to those claims: no other string is accepted. */
  function Decode(token: string): (r: Option<Claims>)
    ensures r.Some? ==> Encode(r.value) == token
  {
    match IndexOf(token, '.')
    case None => None
    case Some(i) =>
      if IsNumeral(token[..i]) && IsNumeral(token[i + 1..])
      then
        ShowRead(token[..i]);
        ShowRead(token[i + 1..]);
        assert token == token[..i] + "." + token[i + 1..];
        Some(Claims(Read(token[..i]), Read(token[i + 1..])))
      else None
  }

  lemma NumeralHasNoDot(n: nat)
    ensures '.' !in Show(n) && ' ' !in Show(n)
  {
  }

  /** Every encoded token decodes to the claims it was made from. */
  lemma DecodeEncode(c: Claims)
    ensures Decode(Encode(c)) == Some(c)
  {
    var a, b := Show(c.id), Show(c.exp);
    NumeralHasNoDot(c.id);
    IndexOfAfter(a, '.', b);
    var t := Encode(c);
    assert t[..|a|] == a;
    assert t[|a| + 1..] == b;
    ReadShow(c.id);
    ReadShow(c.exp);
  }

  /** Encoded tokens hold no space, so they survive the `Bearer <token>` header. */
  lemma EncodeHasNoSpace(c: Claims)
    ensures ' ' !in Encode(c)
  {
    NumeralHasNoDot(c.id);
    NumeralHasNoDot(c.exp);
  }

  /** `jwt.sign({ id }, secret, { expiresIn })` at time `iat` (seconds). */
  function Sign(id: nat, iat: nat, expiresIn: nat): (token: string)
    ensures Decode(token) == Some(Claims(id, iat + expiresIn))
  {
    DecodeEncode(Claims(id, iat + expiresIn));
    Encode(Claims(id, iat + expiresIn))
  }

  /**
   * `jwt.verify(token, secret)` at wall-clock time `nowMs` (milliseconds):
   * the id of a well-formed token whose expiry lies in the future; None where
   * the library throws (token missing or empty, malformed, or expired:
   * the library rejects once the current second reaches `exp`).
   */
  function Verify(token: Option<string>, nowMs: nat): (r: Option<nat>)
    ensures r.Some? ==> token.Some? && token.value != ""
    ensures r.Some? <==> token.Some? && Decode(token.value).Some? && nowMs / 1000 < Decode(token.value).value.exp
    ensures r.Some? ==> r.value == Decode(token.value).value.id
  {
    if token.None? then None
    else match Decode(token.value)
      case None => None
      case Some(c) => if nowMs / 1000 < c.exp then Some(c.id) else None
  }
}
