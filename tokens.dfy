/** JSON web tokens, with the signature left abstract. A token is modelled by
    its payload `{id, iat, exp}`; the texts that the server's secret
    authenticates are given as a map from text to payload, and every other
    text fails verification. Times are whole seconds. */
module Tokens {
  import opened Wrappers
  import opened Identifiers

  /** `expiresIn: '1h'`. */
  const Lifetime: nat := 3600

  datatype Token = Token(id: ObjectId, iat: nat, exp: nat)

  /** `generateToken(id)`: the payload `{id}`, issued now, expiring in one hour. */
  function GenerateToken(id: ObjectId, now: nat): (t: Token)
    ensures t.id == id && t.iat == now
    ensures t.exp - t.iat == Lifetime
  {
    Token(id, now, now + Lifetime)
  }

  datatype Verified = Valid(token: Token) | Expired | Invalid

  /** `jwt.verify`: a missing or empty text is refused ('jwt must be provided'),
      as is a text the secret does not authenticate; an authentic token is
      expired from the second of its `exp` on. */
  function Verify(signed: map<string, Token>, text: Option<string>, now: nat): (v: Verified)
    ensures v.Valid? <==> text.Some? && text.value != "" && text.value in signed && now < signed[text.value].exp
    ensures v.Valid? ==> v.token == signed[text.value]
    ensures v.Expired? <==> text.Some? && text.value != "" && text.value in signed && signed[text.value].exp <= now
  {
    if text.None? || text.value == "" || text.value !in signed then Invalid
    else if now >= signed[text.value].exp then Expired
    else Valid(signed[text.value])
  }

  /** A token issued at `issued` verifies, for the id it was issued to, up to
      one hour later and is expired from then on. */
  lemma IssuedTokenLifetime(signed: map<string, Token>, text: string, id: ObjectId, issued: nat, now: nat)
    requires text != "" && text in signed && signed[text] == GenerateToken(id, issued)
    ensures now < issued + Lifetime ==> Verify(signed, Some(text), now) == Valid(Token(id, issued, issued + Lifetime))
    ensures issued + Lifetime <= now ==> Verify(signed, Some(text), now) == Expired
  {
  }
}
