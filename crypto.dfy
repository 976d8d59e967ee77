/**
 * Stand-in for bcryptjs. The real digest is salted and slow, and covers only the first
 * 72 bytes of the password; here it is a fixed, injective tagging of the whole
 * plaintext: `compareSync(p, hashSync(p))` holds and a different plaintext does not
 * match, which bcrypt promises only for passwords that differ in their first 72 bytes.
 */
module Bcrypt {

  const Prefix := "$2a$10$"

  function HashSync(plaintext: string): (digest: string)
    ensures digest != plaintext
  {
    Prefix + plaintext
  }

  function CompareSync(plaintext: string, digest: string): bool
  {
    digest == HashSync(plaintext)
  }

  lemma CompareHash(p: string)
    ensures CompareSync(p, HashSync(p))
  {
  }

  /** In this stand-in a digest matches only the plaintext it was made from; bcrypt compares the first 72 bytes only. */
  lemma CompareOther(p: string, q: string)
    requires p != q
    ensures !CompareSync(p, HashSync(q))
  {
    assert HashSync(q)[|Prefix|..] == q;
    assert HashSync(p)[|Prefix|..] == p;
  }
}

/**
 * Stand-in for jsonwebtoken as used by core/helper/jwt_generator.js: a token carries
 * only the user id. Signing secrets and expiry are environment configuration and
 * are not part of this model.
 */
module JwtGenerator {
  import opened Values
  import Decimal

  const Prefix := "jwt."

  /** `generateJWT(id)`: the token that the login handler hands out. */
  function GenerateJwt(id: nat): (t: string)
    ensures |t| > |Prefix| && t[..|Prefix|] == Prefix
  {
    Prefix + Decimal.NumberToString(id)
  }

  /**
   * `jwt.verify(token, secret)`: the id in the payload, or None where verify throws.
   * Only the exact form `generateJWT` produces is accepted; there is no secret, so
   * anyone can write that form for any id.
   */
  function Verify(token: string): Option<nat>
  {
    if |token| > |Prefix| && token[..|Prefix|] == Prefix then
      match Decimal.ParseNat(token[|Prefix|..])
      case Some(id) => if Decimal.NumberToString(id) == token[|Prefix|..] then Some(id) else None
      case None => None
    else None
  }

  /** A generated token verifies back to the id it was made for. */
  lemma VerifyGenerated(id: nat)
    ensures Verify(GenerateJwt(id)) == Some(id)
  {
    var t := GenerateJwt(id);
    assert t[..|Prefix|] == Prefix;
    assert t[|Prefix|..] == Decimal.NumberToString(id);
    Decimal.ParseNumberToString(id);
  }

  /** A token verifies to an id exactly when it is the token generated for that id. */
  lemma VerifyExactly(token: string, id: nat)
    ensures Verify(token) == Some(id) <==> token == GenerateJwt(id)
  {
    if token == GenerateJwt(id) {
      VerifyGenerated(id);
    }
    if Verify(token) == Some(id) {
      assert token == token[..|Prefix|] + token[|Prefix|..];
    }
  }
}
