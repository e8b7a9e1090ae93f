/** JSON Web Tokens (RFC 7519) as the golang-jwt v5 library parses them, and
    `DecodeJWT`, the gate this service puts in front of that parser.

    The compact serialisation (base64url segments of JSON, RFC 7515
    section 7.1) is a parameter, `Codec`, and HMAC is a symbolic term: a
    `Mac` equals another only when it was made from the same method, key,
    header and claims, which is the usual perfect-cryptography reading of a
    MAC (RFC 7518 section 3.2). */
module Jwt {
  import opened Errors

  /** A JSON value as decoded into a claim or header map. Numbers are whole
      numbers; `Compound` is an array or an object. */
  datatype Json = Str(str: string) | Number(num: int) | Bool(b: bool) | Null | Compound

  type JsonObject = map<string, Json>

  /** The signing methods the library registers, known by their `alg`
      names (RFC 7518 section 3.1); `Unsecured` is "none". */
  datatype Method =
    | HS256 | HS384 | HS512
    | RS256 | RS384 | RS512
    | PS256 | PS384 | PS512
    | ES256 | ES384 | ES512
    | EdDSA | Unsecured

  function AlgName(m: Method): string
  {
    match m
    case HS256 => "HS256"
    case HS384 => "HS384"
    case HS512 => "HS512"
    case RS256 => "RS256"
    case RS384 => "RS384"
    case RS512 => "RS512"
    case PS256 => "PS256"
    case PS384 => "PS384"
    case PS512 => "PS512"
    case ES256 => "ES256"
    case ES384 => "ES384"
    case ES512 => "ES512"
    case EdDSA => "EdDSA"
    case Unsecured => "none"
  }

  /** `jwt.GetSigningMethod`: the registered method with this `alg` name. */
  function MethodByName(name: string): (r: Option<Method>)
    ensures r.Some? ==> AlgName(r.value) == name
    ensures forall m :: AlgName(m) == name ==> r == Some(m)
  {
    if name == "HS256" then Some(HS256)
    else if name == "HS384" then Some(HS384)
    else if name == "HS512" then Some(HS512)
    else if name == "RS256" then Some(RS256)
    else if name == "RS384" then Some(RS384)
    else if name == "RS512" then Some(RS512)
    else if name == "PS256" then Some(PS256)
    else if name == "PS384" then Some(PS384)
    else if name == "PS512" then Some(PS512)
    else if name == "ES256" then Some(ES256)
    else if name == "ES384" then Some(ES384)
    else if name == "ES512" then Some(ES512)
    else if name == "EdDSA" then Some(EdDSA)
    else if name == "none" then Some(Unsecured)
    else None
  }

  /** The methods whose Go type is `*jwt.SigningMethodHMAC`. */
  predicate IsHmac(m: Method)
  {
    m.HS256? || m.HS384? || m.HS512?
  }

  /** The signature segment. `Mac` is the HMAC of the header and claims
      under a key, with the hash the method names; `Other` is any other
      byte string. */
  datatype Signature =
    | Mac(alg: Method, key: string, header: JsonObject, claims: JsonObject)
    | Other(bytes: string)

  datatype Token = Token(header: JsonObject, claims: JsonObject, signature: Signature)

  /** The compact serialisation and its parser. `parse` returns None for
      text that is not three base64url segments of JSON. */
  datatype Codec = Codec(serialize: Token -> string, parse: string -> Option<Token>)

  /** The only property of the serialisation the model relies on. */
  ghost predicate RoundTrips(c: Codec)
  {
    forall t :: c.parse(c.serialize(t)) == Some(t)
  }

  /** Why the library refused a token. */
  datatype ParseError =
    | Malformed                    // not a parsable compact token
    | AlgUnspecified               // header has no string "alg"
    | AlgUnavailable               // "alg" names no registered method
    | Unverifiable(cause: Error)   // the key function returned an error
    | SignatureInvalid
    | ClaimInvalid(claim: string)  // "exp" or "nbf" is not a number
    | Expired
    | NotYetValid

  /** What `jwt.Parse` hands back: the token's claims, its `Valid` flag and
      its error. */
  datatype Parsed = Parsed(claims: JsonObject, valid: bool, err: Option<ParseError>)

  /** `MapClaims.parseNumericDate`: a missing key or the number 0 counts as
      absent; any other non-number is a type error. */
  datatype NumericDate = Absent | Date(seconds: int) | NotANumber

  function DateClaim(claims: JsonObject, key: string): NumericDate
  {
    if key !in claims then Absent
    else match claims[key]
      case Number(n) => if n == 0 then Absent else Date(n)
      case _ => NotANumber
  }

  /** The library's default claim validation at Unix second `now`: "exp"
      (RFC 7519 section 4.1.4) must lie after `now`, "nbf" (section 4.1.5)
      must not. No other claim is looked at. */
  function ValidateClaims(claims: JsonObject, now: int): Option<ParseError>
  {
    var exp := DateClaim(claims, "exp");
    var nbf := DateClaim(claims, "nbf");
    if exp.NotANumber? then Some(ClaimInvalid("exp"))
    else if exp.Date? && exp.seconds <= now then Some(Expired)
    else if nbf.NotANumber? then Some(ClaimInvalid("nbf"))
    else if nbf.Date? && now < nbf.seconds then Some(NotYetValid)
    else None
  }

  /** Signature check of `Method.Verify` with the key the key function
      supplied. Only the HMAC methods accept a byte-string key; the others
      fail with an invalid-key-type error. */
  predicate SignatureVerifies(m: Method, key: string, t: Token)
  {
    IsHmac(m) && t.signature == Mac(m, key, t.header, t.claims)
  }

  /** `jwt.Parse(text, keyFunc)` with default options: parse, look up the
      method named by "alg", ask the key function for a key, verify the
      signature, then validate the time claims. The token is valid exactly
      when every step passed. */
  function Parse(codec: Codec, text: string, keyFunc: Method -> Result<string>, now: int): (p: Parsed)
    ensures p.valid <==> p.err.None?
  {
    match codec.parse(text)
    case None => Parsed(map[], false, Some(Malformed))
    case Some(t) =>
      if "alg" !in t.header || !t.header["alg"].Str? then Parsed(t.claims, false, Some(AlgUnspecified))
      else
        match MethodByName(t.header["alg"].str)
        case None => Parsed(t.claims, false, Some(AlgUnavailable))
        case Some(m) =>
          match keyFunc(m)
          case Err(e) => Parsed(t.claims, false, Some(Unverifiable(e)))
          case Ok(key) =>
            if !SignatureVerifies(m, key, t) then Parsed(t.claims, false, Some(SignatureInvalid))
            else
              match ValidateClaims(t.claims, now)
              case Some(e) => Parsed(t.claims, false, Some(e))
              case None => Parsed(t.claims, true, None)
  }

  /** The key function `DecodeJWT` passes to the parser: it refuses every
      method outside the HMAC family and otherwise returns the secret's
      bytes as the key. */
  function VerificationKey(m: Method, secret: string): (r: Result<string>)
    ensures r.Ok? <==> IsHmac(m)
    ensures r.Ok? ==> r.value == secret
    ensures r.Err? ==> r.error == New("unexpected signing method")
  {
    if IsHmac(m) then Ok(secret) else Err(New("unexpected signing method"))
  }

  /** The claim checks that the library's validation amounts to, stated
      directly on the claim map. */
  predicate TimeValid(claims: JsonObject, now: int)
  {
    && ("exp" in claims ==> claims["exp"].Number? && (claims["exp"].num == 0 || now < claims["exp"].num))
    && ("nbf" in claims ==> claims["nbf"].Number? && (claims["nbf"].num == 0 || claims["nbf"].num <= now))
  }

  /** Reference definition of the tokens `DecodeJWT` accepts: the header
      names some HMAC method, the signature is that method's MAC under the
      secret, and the time claims hold. */
  predicate Accepted(t: Token, secret: string, now: int)
  {
    && (exists m :: IsHmac(m) && "alg" in t.header && t.header["alg"] == Str(AlgName(m))
                    && t.signature == Mac(m, secret, t.header, t.claims))
    && TimeValid(t.claims, now)
  }

  /** `utils.DecodeJWT`. Every failure of the parser, whatever its cause,
      becomes the one error "invalid token"; claims come back only for a
      token the parser marked valid, and they come back as parsed. */
  function DecodeJWT(codec: Codec, text: string, secret: string, now: int): (r: Result<JsonObject>)
    ensures r.Err? ==> r.error == New("invalid token")
    ensures r.Ok? <==> codec.parse(text).Some? && Accepted(codec.parse(text).value, secret, now)
    ensures r.Ok? ==> r.value == codec.parse(text).value.claims
  {
    var p := Parse(codec, text, m => VerificationKey(m, secret), now);
    if p.err.Some? then Err(New("invalid token"))
    else if !p.valid then Err(New("invalid token claims"))
    else Ok(p.claims)
  }

  /** The library's claim validation and the `TimeValid` reference agree. */
  lemma TimeValidMatches(claims: JsonObject, now: int)
    ensures ValidateClaims(claims, now).None? <==> TimeValid(claims, now)
  {
  }

  /** A token whose "alg" names a registered method outside the HMAC family
      is refused, and the outcome is the same whatever the secret: the key
      function fails before it produces a key. */
  lemma NonHmacRejectedBeforeKey(codec: Codec, text: string, s1: string, s2: string, now: int, m: Method)
    requires codec.parse(text).Some?
    requires "alg" in codec.parse(text).value.header
    requires codec.parse(text).value.header["alg"] == Str(AlgName(m))
    requires !IsHmac(m)
    ensures Parse(codec, text, k => VerificationKey(k, s1), now).err
            == Some(Unverifiable(New("unexpected signing method")))
    ensures Parse(codec, text, k => VerificationKey(k, s1), now)
            == Parse(codec, text, k => VerificationKey(k, s2), now)
    ensures DecodeJWT(codec, text, s1, now) == DecodeJWT(codec, text, s2, now) == Err(New("invalid token"))
  {
  }

  /** The method check is family-wide: a token MACed under the secret with
      any of HS256, HS384 or HS512, and naming that method, decodes to its
      claims while its time claims hold. */
  lemma HmacFamilyAccepted(codec: Codec, secret: string, now: int, m: Method, header: JsonObject, claims: JsonObject)
    requires RoundTrips(codec)
    requires IsHmac(m)
    requires "alg" in header && header["alg"] == Str(AlgName(m))
    requires TimeValid(claims, now)
    ensures DecodeJWT(codec, codec.serialize(Token(header, claims, Mac(m, secret, header, claims))), secret, now)
            == Ok(claims)
  {
  }

  /** A token MACed under one secret is refused under any other secret. */
  lemma OtherSecretRejected(codec: Codec, t: Token, s1: string, s2: string, now: int)
    requires RoundTrips(codec)
    requires t.signature.Mac? && t.signature.key == s1
    requires s1 != s2
    ensures DecodeJWT(codec, codec.serialize(t), s2, now) == Err(New("invalid token"))
  {
  }

  /** A token whose non-zero "exp" is at or before `now` is refused,
      whatever its signature. */
  lemma ExpiredRejected(codec: Codec, text: string, secret: string, now: int)
    requires codec.parse(text).Some?
    requires "exp" in codec.parse(text).value.claims
    requires codec.parse(text).value.claims["exp"].Number?
    requires codec.parse(text).value.claims["exp"].num != 0
    requires codec.parse(text).value.claims["exp"].num <= now
    ensures DecodeJWT(codec, text, secret, now) == Err(New("invalid token"))
  {
  }
}
