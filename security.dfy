/**
 * Password hashing and access tokens (app/security.py). Argon2 and the JWT
 * library are abstract: each is a record of the library's entry points, and
 * the properties the model relies on are predicates stated here (`Sound` for
 * Argon2; `Faithful` and `Compact` for the JWT codec). The salt of a new hash
 * and the clock ("now", in whole seconds since the epoch) are parameters.
 */
module Security {
  import opened Wrappers
  import opened Text

  // ---------------------------------------------------------------- passwords

  /** Passwords longer than this are cut before hashing and before verifying. */
  const MAX_PW_LEN: nat := 128

  /** `password[:MAX_PW_LEN]`. */
  function Truncate(password: string): (r: string)
    ensures r <= password
    ensures |r| == if |password| <= MAX_PW_LEN then |password| else MAX_PW_LEN
  {
    if |password| <= MAX_PW_LEN then password else password[..MAX_PW_LEN]
  }

  /** A password of at least 128 characters is cut to exactly its first 128. */
  lemma TruncateLong(p: string)
    requires |p| >= MAX_PW_LEN
    ensures Truncate(p) == p[..MAX_PW_LEN]
  {
    if |p| == MAX_PW_LEN {
      assert p[..MAX_PW_LEN] == p;
    }
  }

  /** What `PasswordHasher.verify` does: return True, or raise one of its errors. */
  datatype VerifyOutcome = Verified | VerifyMismatch | InvalidHash | VerificationFailed

  /**
   * The configured Argon2 hasher (time cost 3, 64 MiB, parallelism 2):
   * `hash(password, salt)` and `verify(hash, password)`.
   */
  datatype Argon2 = Argon2(hash: (string, nat) -> string, verify: (string, string) -> VerifyOutcome)

  /** A hash always verifies against the password it was made from. */
  ghost predicate Sound(h: Argon2) {
    forall p, salt :: h.verify(h.hash(p, salt), p) == Verified
  }

  /** `hash_password`: an Argon2 hash of the first 128 characters. */
  function HashPassword(h: Argon2, password: string, salt: nat): (hashed: string)
    ensures |password| <= MAX_PW_LEN ==> hashed == h.hash(password, salt)
    ensures |password| > MAX_PW_LEN ==> hashed == h.hash(password[..MAX_PW_LEN], salt)
  {
    h.hash(Truncate(password), salt)
  }

  /**
   * `verify_password`: a `None` candidate counts as the empty string, the
   * candidate is truncated, and every failure of the library is `false`.
   */
  function VerifyPassword(h: Argon2, plain: Option<string>, hashed: string): (ok: bool)
    ensures ok <==> h.verify(hashed, Truncate(plain.GetOr(""))) == Verified
  {
    match h.verify(hashed, Truncate(plain.GetOr("")))
    case Verified => true
    case VerifyMismatch => false
    case InvalidHash => false
    case VerificationFailed => false
  }

  /** Only the first 128 characters of a password reach the hash. */
  lemma HashUsesPrefix(h: Argon2, p: string, q: string, salt: nat)
    requires |p| >= MAX_PW_LEN && |q| >= MAX_PW_LEN && p[..MAX_PW_LEN] == q[..MAX_PW_LEN]
    ensures HashPassword(h, p, salt) == HashPassword(h, q, salt)
  {
    TruncateLong(p);
    TruncateLong(q);
  }

  /** Verification looks only at the first 128 characters of the candidate. */
  lemma VerifyUsesPrefix(h: Argon2, p: string, q: string, hashed: string)
    requires |p| >= MAX_PW_LEN && |q| >= MAX_PW_LEN && p[..MAX_PW_LEN] == q[..MAX_PW_LEN]
    ensures VerifyPassword(h, Some(p), hashed) == VerifyPassword(h, Some(q), hashed)
  {
    TruncateLong(p);
    TruncateLong(q);
  }

  /** A missing candidate is treated as the empty password. */
  lemma VerifyNoneIsEmpty(h: Argon2, hashed: string)
    ensures VerifyPassword(h, None, hashed) == VerifyPassword(h, Some(""), hashed)
  {
  }

  /** Mismatch, a malformed hash and any other library error all give false. */
  lemma VerifyNeverRaises(h: Argon2, plain: Option<string>, hashed: string)
    requires h.verify(hashed, Truncate(plain.GetOr(""))) != Verified
    ensures !VerifyPassword(h, plain, hashed)
  {
  }

  /** A password verifies against its own hash, whatever its length. */
  lemma HashThenVerify(h: Argon2, password: string, salt: nat)
    requires Sound(h)
    ensures VerifyPassword(h, Some(password), HashPassword(h, password, salt))
  {
    assert h.verify(h.hash(Truncate(password), salt), Truncate(password)) == Verified;
  }

  /**
   * Two passwords that share their first 128 characters are interchangeable:
   * each verifies against the other's hash.
   */
  lemma LongPasswordsCollide(h: Argon2, p: string, q: string, salt: nat)
    requires Sound(h)
    requires |p| >= MAX_PW_LEN && |q| >= MAX_PW_LEN && p[..MAX_PW_LEN] == q[..MAX_PW_LEN]
    ensures VerifyPassword(h, Some(q), HashPassword(h, p, salt))
  {
    HashThenVerify(h, p, salt);
    VerifyUsesPrefix(h, p, q, HashPassword(h, p, salt));
  }

  // ------------------------------------------------------------------ tokens

  /** `ACCESS_TOKEN_EXPIRE_MINUTES` with no environment override. */
  const ACCESS_TOKEN_EXPIRE_MINUTES: int := 60

  /** The claims of a token payload; any of them may be absent in a decoded one. */
  datatype Claims = Claims(sub: Option<string>, exp: Option<int>, iat: Option<int>)

  /** What checking a token's signature and reading its payload gives. */
  datatype Decoded = Payload(claims: Claims) | Undecodable(reason: string)

  /**
   * The JWT library with the configured secret and algorithm: `encode` signs a
   * payload, `decode` checks the signature and format and returns the payload.
   */
  datatype JwtCodec = JwtCodec(encode: Claims -> string, decode: string -> Decoded)

  /** A token made by `encode` decodes to its claims. */
  ghost predicate Faithful(c: JwtCodec) {
    forall claims :: c.decode(c.encode(claims)) == Payload(claims)
  }

  /**
   * Every token `encode` makes is non-empty and free of whitespace, as a
   * compact JWS (three base64url parts joined by dots) is.
   */
  ghost predicate Compact(c: JwtCodec) {
    forall claims :: c.encode(claims) != [] && NoSpace(c.encode(claims))
  }

  /** `expires_minutes or ACCESS_TOKEN_EXPIRE_MINUTES`: None and 0 both fall back. */
  function ExpireMinutes(expiresMinutes: Option<int>): (m: int)
    ensures expiresMinutes == None || expiresMinutes == Some(0) ==> m == ACCESS_TOKEN_EXPIRE_MINUTES
    ensures expiresMinutes.Some? && expiresMinutes.value != 0 ==> m == expiresMinutes.value
  {
    match expiresMinutes
    case None => ACCESS_TOKEN_EXPIRE_MINUTES
    case Some(m) => if m == 0 then ACCESS_TOKEN_EXPIRE_MINUTES else m
  }

  /** The payload `create_access_token` signs, issued at `now`. */
  function AccessClaims(subject: string, expiresMinutes: Option<int>, now: int): (c: Claims)
    ensures c.sub == Some(subject) && c.iat == Some(now)
    ensures c.exp == Some(now + 60 * ExpireMinutes(expiresMinutes))
  {
    Claims(Some(subject), Some(now + 60 * ExpireMinutes(expiresMinutes)), Some(now))
  }

  /** `create_access_token`. */
  function CreateAccessToken(codec: JwtCodec, subject: string, expiresMinutes: Option<int>, now: int): (token: string)
    ensures Faithful(codec) ==> codec.decode(token) == Payload(AccessClaims(subject, expiresMinutes, now))
  {
    codec.encode(AccessClaims(subject, expiresMinutes, now))
  }

  /** The library's `decode`: signature and format first, then the `exp` claim. */
  datatype JoseOutcome = Valid(claims: Claims) | SignatureExpired | JoseError(reason: string)

  /** An `exp` claim in the past (strictly before `now`) makes the token expired. */
  function JoseDecode(codec: JwtCodec, token: string, now: int): (r: JoseOutcome)
    ensures r.JoseError? <==> codec.decode(token).Undecodable?
    ensures r.SignatureExpired? <==>
      codec.decode(token).Payload? && codec.decode(token).claims.exp.Some? && codec.decode(token).claims.exp.value < now
    ensures r.Valid? ==> r.claims == codec.decode(token).claims
  {
    match codec.decode(token)
    case Undecodable(reason) => JoseError(reason)
    case Payload(c) =>
      if c.exp.Some? && c.exp.value < now then SignatureExpired else Valid(c)
  }

  /** The three ways `decode_token` raises `ValueError`. */
  datatype TokenError = MissingSub | Expired | Invalid(reason: string)

  /**
   * The `ValueError` messages. The message determines the error: the two
   * fixed texts belong to one error each, and only an invalid token's message
   * starts with "Token inválido: ", followed by the library's reason.
   */
  function Message(e: TokenError): (m: string)
    ensures m == "Token sin 'sub'." <==> e.MissingSub?
    ensures m == "Token expirado." <==> e.Expired?
    ensures "Token inválido: " <= m <==> e.Invalid?
    ensures e.Invalid? ==> m[|"Token inválido: "|..] == e.reason
  {
    match e
    case MissingSub =>
      assert "Token sin 'sub'."[6] != "Token inválido: "[6];
      "Token sin 'sub'."
    case Expired => "Token expirado."
    case Invalid(reason) =>
      assert ("Token inválido: " + reason)[6] != "Token sin 'sub'."[6];
      "Token inválido: " + reason
  }

  /** `decode_token`: the subject of a valid token, or why there is none. */
  function DecodeToken(codec: JwtCodec, token: string, now: int): (r: Result<string, TokenError>)
    ensures r.Ok? <==> JoseDecode(codec, token, now).Valid?
                        && JoseDecode(codec, token, now).claims.sub.Some?
                        && JoseDecode(codec, token, now).claims.sub.value != ""
    ensures r.Ok? ==> Some(r.value) == codec.decode(token).claims.sub
    ensures r == Err(Expired) <==> JoseDecode(codec, token, now).SignatureExpired?
    ensures r == Err(MissingSub) <==>
      JoseDecode(codec, token, now).Valid? && JoseDecode(codec, token, now).claims.sub.GetOr("") == ""
    ensures (r.Err? && r.error.Invalid?) <==> codec.decode(token).Undecodable?
  {
    match JoseDecode(codec, token, now)
    case Valid(c) =>
      if c.sub.GetOr("") == "" then Err(MissingSub) else Ok(c.sub.value)
    case SignatureExpired => Err(Expired)
    case JoseError(reason) => Err(Invalid(reason))
  }

  /** `decode_access_token`, the alias kept for callers. */
  function DecodeAccessToken(codec: JwtCodec, token: string, now: int): (r: Result<string, TokenError>)
    ensures r == DecodeToken(codec, token, now)
  {
    DecodeToken(codec, token, now)
  }

  /** The three messages are distinct, so callers can tell expiry from the rest. */
  lemma MessagesDistinct(reason: string)
    ensures Message(Expired) != Message(MissingSub)
    ensures Message(Expired) != Message(Invalid(reason))
    ensures Message(MissingSub) != Message(Invalid(reason))
  {
    assert Message(Invalid(reason))[6] == 'i';
  }

  /** A token read back before its `exp` gives back its subject. */
  lemma IssueThenDecode(codec: JwtCodec, subject: string, expiresMinutes: Option<int>, issued: int, now: int)
    requires Faithful(codec)
    requires subject != ""
    requires now <= issued + 60 * ExpireMinutes(expiresMinutes)
    ensures DecodeToken(codec, CreateAccessToken(codec, subject, expiresMinutes, issued), now) == Ok(subject)
  {
    var c := AccessClaims(subject, expiresMinutes, issued);
    assert codec.decode(codec.encode(c)) == Payload(c);
  }

  /** A token read back after its TTL is expired, never merely invalid. */
  lemma ExpiredAfterTtl(codec: JwtCodec, subject: string, expiresMinutes: Option<int>, issued: int, now: int)
    requires Faithful(codec)
    requires now > issued + 60 * ExpireMinutes(expiresMinutes)
    ensures DecodeToken(codec, CreateAccessToken(codec, subject, expiresMinutes, issued), now) == Err(Expired)
  {
    var c := AccessClaims(subject, expiresMinutes, issued);
    assert codec.decode(codec.encode(c)) == Payload(c);
  }

  /** A token issued for the empty subject is refused for its missing `sub`. */
  lemma EmptySubjectRejected(codec: JwtCodec, expiresMinutes: Option<int>, issued: int, now: int)
    requires Faithful(codec)
    requires now <= issued + 60 * ExpireMinutes(expiresMinutes)
    ensures DecodeToken(codec, CreateAccessToken(codec, "", expiresMinutes, issued), now) == Err(MissingSub)
  {
    var c := AccessClaims("", expiresMinutes, issued);
    assert codec.decode(codec.encode(c)) == Payload(c);
  }

  /** With the default TTL a token lives exactly one hour. */
  lemma DefaultTtlIsOneHour(codec: JwtCodec, subject: string, issued: int)
    requires Faithful(codec)
    requires subject != ""
    ensures DecodeToken(codec, CreateAccessToken(codec, subject, None, issued), issued + 3600) == Ok(subject)
    ensures DecodeToken(codec, CreateAccessToken(codec, subject, Some(0), issued), issued + 3601) == Err(Expired)
  {
    IssueThenDecode(codec, subject, None, issued, issued + 3600);
    ExpiredAfterTtl(codec, subject, Some(0), issued, issued + 3601);
  }
}
