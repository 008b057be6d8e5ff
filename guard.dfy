/** The bearer guard that runs in front of every protected handler: it takes
    the credential from an `Authorization: Bearer <token>` header (section 2.1
    of RFC 6750), verifies it and either rejects the request with 401 or lets
    it proceed with the token's identity. */
module BearerGuard {
  import opened Wrappers
  import opened Text
  import opened Tokens

  const NoToken := "Not authorized, no token"
  const NotAuthorized := "User is not authorized"
  const Scheme := "Bearer "

  /** `headers.authorization || headers.Authorization`: the lower-case header
      wins unless it is absent or empty. */
  function SelectHeader(headers: map<string, string>): (r: Option<string>)
    ensures "authorization" in headers && headers["authorization"] != "" ==> r == Some(headers["authorization"])
    ensures ("authorization" !in headers || headers["authorization"] == "") && "Authorization" in headers ==>
              r == Some(headers["Authorization"])
    ensures r.None? <==> ("authorization" !in headers || headers["authorization"] == "") && "Authorization" !in headers
  {
    if "authorization" in headers && headers["authorization"] != "" then Some(headers["authorization"])
    else if "Authorization" in headers then Some(headers["Authorization"])
    else None
  }

  /** The token of a header: only a header starting with exactly "Bearer "
      yields one, and it is the second space-separated piece, if non-empty. */
  function ExtractToken(header: Option<string>): (r: Option<string>)
    ensures r.Some? ==> header.Some? && StartsWith(header.value, Scheme)
    ensures r.Some? ==> r.value != "" && ' ' !in r.value
    ensures r.Some? ==> StartsWith(header.value[|Scheme|..], r.value)
    ensures r.Some? ==> |header.value| == |Scheme| + |r.value| || header.value[|Scheme| + |r.value|] == ' '
    ensures r.None? <==> header.None? || !StartsWith(header.value, Scheme) || |header.value| == |Scheme|
                         || header.value[|Scheme|] == ' '
  {
    if header.Some? && StartsWith(header.value, Scheme) then
      var h := header.value;
      SplitAfter("Bearer", h[|Scheme|..], ' ');
      assert h == "Bearer" + [' '] + h[|Scheme|..];
      var rest := Split(h[|Scheme|..], ' ');
      assert Split(h, ' ') == ["Bearer"] + rest;
      var token := rest[0];
      if token != "" then
        PrefixOfFirstPiece(h[|Scheme|..], ' ');
        Some(token)
      else None
    else None
  }

  /** The first piece of a split is a prefix of the text, ended by the text's
      end or by a separator. */
  lemma {:induction false} PrefixOfFirstPiece(s: string, sep: char)
    ensures StartsWith(s, Split(s, sep)[0])
    ensures |s| == |Split(s, sep)[0]| || s[|Split(s, sep)[0]|] == sep
    decreases |s|
  {
    if |s| > 0 && s[0] != sep {
      PrefixOfFirstPiece(s[1..], sep);
    }
  }

  /** `validateToken`: a missing header, a wrong prefix or an empty token gives
      401 "Not authorized, no token"; a token that fails verification, forged
      and expired alike, gives 401 "User is not authorized"; otherwise the
      request proceeds, once, with the token's `user` claim. */
  function Authenticate(headers: map<string, string>, codec: TokenCodec, now: nat): (r: Result<Claims>)
    ensures r.Err? ==> r.status == 401
    ensures r == Err(401, NoToken) <==> ExtractToken(SelectHeader(headers)).None?
    ensures r == Err(401, NotAuthorized) <==>
              ExtractToken(SelectHeader(headers)).Some? && Verify(codec, ExtractToken(SelectHeader(headers)).value, now).Rejected?
    ensures ExtractToken(SelectHeader(headers)).Some? && Verify(codec, ExtractToken(SelectHeader(headers)).value, now).Valid? ==>
              r == Ok(Verify(codec, ExtractToken(SelectHeader(headers)).value, now).claims)
    ensures r.Ok? ==> exists text :: ExtractToken(SelectHeader(headers)) == Some(text) &&
                                     codec.decode(text).Some? && r.value == codec.decode(text).value.claims &&
                                     now < codec.decode(text).value.expiry
  {
    match ExtractToken(SelectHeader(headers))
    case None => Err(401, NoToken)
    case Some(text) =>
      match Verify(codec, text, now)
      case Valid(user) => Ok(user)
      case Rejected(_) => Err(401, NotAuthorized)
  }

  /** The header a client builds from a token, `Bearer ${token}`, gives that token back. */
  lemma {:induction false} ExtractBuiltHeader(token: string)
    requires token != "" && ' ' !in token
    ensures ExtractToken(Some(Scheme + token)) == Some(token)
  {
    var h := Scheme + token;
    assert h[|Scheme|..] == token;
    SplitNoSeparator(token, ' ');
  }

  /** The prefix is case-sensitive: `bearer <token>` is refused as carrying no token. */
  lemma LowerCaseSchemeRefused(token: string)
    ensures ExtractToken(Some("bearer " + token)) == None
  {
    assert ("bearer " + token)[0] != Scheme[0];
  }

  /** End to end: a request carrying a freshly issued token in its
      `authorization` header proceeds with the issued identity for one hour,
      and from then on is refused with the single "not authorized" answer. */
  lemma IssuedTokenAuthenticates(codec: TokenCodec, claims: Claims, iat: nat, now: nat)
    requires Sound(codec)
    ensures Authenticate(map["authorization" := Scheme + codec.encode(Issue(claims, iat))], codec, now) ==
              if now < iat + Lifetime then Ok(claims) else Err(401, NotAuthorized)
  {
    var text := codec.encode(Issue(claims, iat));
    assert codec.decode(text) == Some(Issue(claims, iat));
    ExtractBuiltHeader(text);
    IssuedTokenLifetime(codec, claims, iat, now);
  }
}
