/**
 * The golang-jwt library as the service sees it. Its HS256 arithmetic, the compact
 * serialization and its registered-claims checks are not modelled: a `Library` value
 * carries them as three opaque functions, and every statement about the service holds
 * for every such library.
 */
module Jwt {
  import opened Results
  import opened Model

  /** The family of the signing method a token's header declares (`token.Method`). */
  datatype SigningFamily = HMAC | RSA | RSAPSS | ECDSA | EdDSA | Unsecured

  /** A decoded but unverified header: the method family and the raw `alg` text. */
  datatype Header = Header(family: SigningFamily, alg: string)

  /** A parsed token: its claims and `token.Valid`. */
  datatype Token = Token(claims: Claims, valid: bool)

  /** Why parsing failed: bad encoding, the key function refused, or verification failed. */
  datatype ParseError = Malformed(detail: string) | Unverifiable(detail: string) | Rejected(detail: string)

  /**
   * decodeHeader: split the token and decode its header without trusting it;
   * verify: check the signature under a key and the time-based claims at a time;
   * sign: `jwt.NewWithClaims(jwt.SigningMethodHS256, claims).SignedString(key)`.
   */
  datatype Library = Library(
    decodeHeader: string -> Result<Header, string>,
    verify: (string, string, int) -> Result<Token, string>,
    sign: (Claims, string) -> Result<string, string>)

  /**
   * `jwt.ParseWithClaims(token, claims, keyFunc)`: the key function sees the decoded
   * header and chooses the key; the signature is checked only with the key it returns.
   */
  function ParseWithClaims(lib: Library, token: string, keyFunc: Header -> Result<string, string>, now: int)
    : (r: Result<Token, ParseError>)
    ensures lib.decodeHeader(token).Err? ==> r == Err(Malformed(lib.decodeHeader(token).error))
    ensures lib.decodeHeader(token).Ok? && keyFunc(lib.decodeHeader(token).value).Err? ==>
              r == Err(Unverifiable(keyFunc(lib.decodeHeader(token).value).error))
    ensures r.Ok? <==> lib.decodeHeader(token).Ok? && keyFunc(lib.decodeHeader(token).value).Ok? &&
                       lib.verify(token, keyFunc(lib.decodeHeader(token).value).value, now).Ok?
    ensures r.Ok? ==> r.value == lib.verify(token, keyFunc(lib.decodeHeader(token).value).value, now).value
  {
    match lib.decodeHeader(token)
    case Err(e) => Err(Malformed(e))
    case Ok(h) =>
      match keyFunc(h)
      case Err(e) => Err(Unverifiable(e))
      case Ok(key) =>
        match lib.verify(token, key, now)
        case Err(e) => Err(Rejected(e))
        case Ok(t) => Ok(t)
  }

  /** Two claim sets that agree on every field except `sub`. */
  predicate SameButSubject(a: Claims, b: Claims)
  {
    a.(subject := "") == b.(subject := "")
  }

  /**
   * A library whose HS256 tokens read back: a token it signs declares HMAC, and until the
   * claims' expiry it verifies under the same key to claims that agree with the signed
   * ones on every field but `sub` (the JSON tag that UserID and the embedded
   * RegisteredClaims.Subject share).
   */
  ghost predicate SoundHs256(lib: Library)
  {
    && (forall c, k :: lib.sign(c, k).Ok? ==> lib.decodeHeader(lib.sign(c, k).value) == Ok(Header(HMAC, "HS256")))
    && (forall c, k, now ::
          lib.sign(c, k).Ok? && c.expiresAt.Some? && now < c.expiresAt.value ==>
            && lib.verify(lib.sign(c, k).value, k, now).Ok?
            && lib.verify(lib.sign(c, k).value, k, now).value.valid
            && SameButSubject(lib.verify(lib.sign(c, k).value, k, now).value.claims, c))
  }
}
