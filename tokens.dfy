/** Identity tokens as issued at login and on an email change, and their
    verification: a signature check (abstract) followed by the expiry check
    of the `exp` claim (section 4.1.4 of RFC 7519). Times are whole seconds. */
module Tokens {
  import opened Wrappers

  /** The `user` claim: the identity the guard hands to every protected handler. */
  datatype Claims = Claims(username: string, email: string, id: nat)

  /** A signed token: its identity claim and the instant it stops being valid. */
  datatype Token = Token(claims: Claims, expiry: nat)

  /** `expiresIn: "1h"`. */
  const Lifetime: nat := 3600

  /** Signs `claims` at time `now`: the token carries exactly those claims
      and lives for one hour from then. */
  function Issue(claims: Claims, now: nat): (t: Token)
    ensures t.claims == claims
    ensures now < t.expiry && t.expiry - now == Lifetime
  {
    Token(claims, now + Lifetime)
  }

  /** The signing scheme, seen from outside: the compact text of a token, and
      the decoding of a text, which yields nothing for a bad signature or a
      malformed text. The process-wide secret is fixed inside it. */
  datatype TokenCodec = TokenCodec(encode: Token -> string, decode: string -> Option<Token>)

  /** A codec decodes what it encoded, and an encoding is a non-empty text
      without spaces (as a JSON Web Token's compact form is). */
  ghost predicate Sound(codec: TokenCodec) {
    forall t: Token ::
      codec.decode(codec.encode(t)) == Some(t) && codec.encode(t) != "" && ' ' !in codec.encode(t)
  }

  datatype VerifyError = Invalid | Expired

  datatype Verified = Valid(claims: Claims) | Rejected(reason: VerifyError)

  /** `jwt.verify`: signature first, then the expiry; a token is expired from
      the second its `exp` names onwards. */
  function Verify(codec: TokenCodec, text: string, now: nat): (r: Verified)
    ensures r.Valid? <==> codec.decode(text).Some? && now < codec.decode(text).value.expiry
    ensures r.Valid? ==> r.claims == codec.decode(text).value.claims
    ensures r == Rejected(Expired) <==> codec.decode(text).Some? && codec.decode(text).value.expiry <= now
  {
    match codec.decode(text)
    case None => Rejected(Invalid)
    case Some(t) => if now < t.expiry then Valid(t.claims) else Rejected(Expired)
  }

  /** A token issued at `iat` verifies, with the claims it was issued with,
      exactly until one hour has passed, and is expired from then on. */
  lemma IssuedTokenLifetime(codec: TokenCodec, claims: Claims, iat: nat, now: nat)
    requires Sound(codec)
    ensures Verify(codec, codec.encode(Issue(claims, iat)), now) ==
              if now < iat + Lifetime then Valid(claims) else Rejected(Expired)
  {
    var t := Issue(claims, iat);
    assert codec.decode(codec.encode(t)) == Some(t);
  }
}
