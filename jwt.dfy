/** backend/helpers/jwt.go: issuing a token, verifying one, and the gate in
    front of every protected handler. Signing and signature checking (HMAC
    SHA-256 under the server's secret) are abstract: `sign` turns claims into
    the compact token text or fails, and `decode` parses the bytes of
    token text and reports whether its signature checks out. Times are Unix
    seconds. The Authorization header is the byte string Go sees. */
module Jwt {
  import opened Common
  import opened Http
  import opened Utf8

  const HS256: string := "HS256"
  const UsernameClaim: string := "username"
  const ExpClaim: string := "exp"
  const NbfClaim: string := "nbf"
  /** `time.Hour * 24`, in seconds. */
  const TokenLifetime: int := 24 * 60 * 60

  /** A claim value as MapClaims holds it after JSON decoding. */
  datatype Claim = StringClaim(s: string) | NumberClaim(n: int) | OtherClaim

  /** The decoded header algorithm and the claims. */
  datatype Token = Token(alg: string, claims: map<string, Claim>)

  /** What parsing token text gives: nothing usable, or a token together with
      the outcome of checking its signature against the secret. */
  datatype Parsed = Malformed | Parsed(token: Token, signatureValid: bool)

  datatype TokenError =
    | MalformedToken
    | MethodNotAllowed(alg: string)
    | SignatureInvalid
    | Expired
    | NotYetValid
    | InvalidClaimType(name: string)
    | MissingUsername
    | SigningFailed

  /** The claims CreateToken signs: the username and an expiry 24 hours after `now`. */
  function NewToken(username: string, now: int): (t: Token)
    ensures t.alg == HS256
    ensures t.claims.Keys == {UsernameClaim, ExpClaim}
    ensures t.claims[UsernameClaim] == StringClaim(username)
    ensures t.claims[ExpClaim] == NumberClaim(now + TokenLifetime)
  {
    Token(HS256, map[UsernameClaim := StringClaim(username), ExpClaim := NumberClaim(now + TokenLifetime)])
  }

  /** CreateToken: sign the new claims; a signing failure gives "" and the error. */
  function CreateToken(username: string, now: int, sign: Token -> Option<string>): (r: Result<string, TokenError>)
    ensures r.Ok? <==> sign(NewToken(username, now)).Some?
    ensures r.Ok? ==> r.value == sign(NewToken(username, now)).value
    ensures r.Err? ==> r.error == SigningFailed
  {
    match sign(NewToken(username, now))
    case Some(text) => Ok(text)
    case None => Err(SigningFailed)
  }

  /** The registered time claims jwt.Parse validates by default: `exp` must
      lie after `now` and `nbf` must not lie after it; either may be absent,
      and a present one that is not a number is an error. */
  function CheckTimes(claims: map<string, Claim>, now: int): (r: Option<TokenError>)
    ensures r.None? <==>
      && (ExpClaim in claims ==> claims[ExpClaim].NumberClaim? && now < claims[ExpClaim].n)
      && (NbfClaim in claims ==> claims[NbfClaim].NumberClaim? && claims[NbfClaim].n <= now)
  {
    if ExpClaim in claims && !claims[ExpClaim].NumberClaim? then Some(InvalidClaimType(ExpClaim))
    else if ExpClaim in claims && claims[ExpClaim].n <= now then Some(Expired)
    else if NbfClaim in claims && !claims[NbfClaim].NumberClaim? then Some(InvalidClaimType(NbfClaim))
    else if NbfClaim in claims && now < claims[NbfClaim].n then Some(NotYetValid)
    else None
  }

  /** verifyToken: parse with HS256 as the only accepted method, require a
      valid signature and valid time claims, then return the `username`
      claim, which must be a string. */
  function VerifyToken(decode: Bytes -> Parsed, text: Bytes, now: int): (r: Result<string, TokenError>)
    ensures r.Ok? <==>
      && decode(text).Parsed?
      && decode(text).token.alg == HS256
      && decode(text).signatureValid
      && CheckTimes(decode(text).token.claims, now).None?
      && UsernameClaim in decode(text).token.claims
      && decode(text).token.claims[UsernameClaim].StringClaim?
    ensures r.Ok? ==> StringClaim(r.value) == decode(text).token.claims[UsernameClaim]
  {
    match decode(text)
    case Malformed => Err(MalformedToken)
    case Parsed(token, signatureValid) =>
      if token.alg != HS256 then Err(MethodNotAllowed(token.alg))
      else if !signatureValid then Err(SignatureInvalid)
      else if CheckTimes(token.claims, now).Some? then Err(CheckTimes(token.claims, now).value)
      else if UsernameClaim !in token.claims || !token.claims[UsernameClaim].StringClaim? then Err(MissingUsername)
      else Ok(token.claims[UsernameClaim].s)
  }

  /** A token of any other algorithm is refused, whatever its claims and
      signature. */
  lemma OnlyHS256(decode: Bytes -> Parsed, text: Bytes, now: int)
    requires decode(text).Parsed? && decode(text).token.alg != HS256
    ensures VerifyToken(decode, text, now) == Err(MethodNotAllowed(decode(text).token.alg))
  {
  }

  /** A token CreateToken issued at `issued` verifies, and yields the
      username it was issued for, exactly until 24 hours have passed. The
      hypothesis is what signing and parsing promise each other: parsing the
      signed text gives back the claims with a valid signature. */
  lemma IssuedTokenVerifies(username: string, issued: int, now: int,
                            sign: Token -> Option<string>, decode: Bytes -> Parsed)
    requires CreateToken(username, issued, sign).Ok?
    requires decode(Encode(CreateToken(username, issued, sign).value)) == Parsed(NewToken(username, issued), true)
    ensures var r := VerifyToken(decode, Encode(CreateToken(username, issued, sign).value), now);
            if now < issued + TokenLifetime then r == Ok(username) else r == Err(Expired)
  {
    var t := NewToken(username, issued);
    assert NbfClaim !in t.claims;
  }

  /** What the gate does: refuse with a status and message, or run the
      wrapped handler. */
  datatype Gate = Deny(status: int, message: string) | Run(username: string)

  const NoTokenMessage: string := "request does not contain an access token"
  const InvalidTokenMessage: string := "invalid token, you dont have permission for this route"
  const NoPermissionMessage: string := "you dont have permission for this route"

  /** `len("Bearer ")`: the number of bytes the gate drops. */
  const SchemeLength: int := 7

  /** The header's bytes after the first 7, which are dropped unchecked. */
  function TokenText(header: Bytes): (t: Bytes)
    requires |header| >= SchemeLength
    ensures |t| == |header| - SchemeLength && header == header[..SchemeLength] + t
  {
    header[SchemeLength..]
  }

  /** ProtectedHandler. `qualify` is the optional isQualifiedCallback. A
      non-empty header shorter than 7 bytes makes the slice panic, so it is
      excluded. */
  function ProtectedHandler(header: Bytes, decode: Bytes -> Parsed, now: int,
                            qualify: Option<string -> bool>): (g: Gate)
    requires header == [] || |header| >= SchemeLength
    ensures g.Run? <==>
      && header != []
      && VerifyToken(decode, TokenText(header), now).Ok?
      && (qualify.None? || qualify.value(VerifyToken(decode, TokenText(header), now).value))
    ensures g.Run? ==> g.username == VerifyToken(decode, TokenText(header), now).value
    ensures g.Deny? ==> g.status == StatusUnauthorized
    ensures header == [] ==> g == Deny(StatusUnauthorized, NoTokenMessage)
    ensures header != [] && VerifyToken(decode, TokenText(header), now).Err? ==> g == Deny(StatusUnauthorized, InvalidTokenMessage)
  {
    if header == [] then Deny(StatusUnauthorized, NoTokenMessage)
    else
      var username := VerifyToken(decode, TokenText(header), now);
      if username.Err? then Deny(StatusUnauthorized, InvalidTokenMessage)
      else if qualify.Some? && !qualify.value(username.value) then Deny(StatusUnauthorized, NoPermissionMessage)
      else Run(username.value)
  }

  /** A predicate that refuses the verified user denies the request. */
  lemma QualifierRefusalDenies(header: Bytes, decode: Bytes -> Parsed, now: int, qualify: string -> bool)
    requires |header| >= SchemeLength
    requires VerifyToken(decode, TokenText(header), now).Ok?
    requires !qualify(VerifyToken(decode, TokenText(header), now).value)
    ensures ProtectedHandler(header, decode, now, Some(qualify)) == Deny(StatusUnauthorized, NoPermissionMessage)
  {
  }

  /** The scheme is never looked at: any 7 bytes in front of the same
      token bytes give the same outcome. */
  lemma SchemeIgnored(scheme: Bytes, other: Bytes, token: Bytes, decode: Bytes -> Parsed, now: int,
                      qualify: Option<string -> bool>)
    requires |scheme| == SchemeLength && |other| == SchemeLength
    ensures ProtectedHandler(scheme + token, decode, now, qualify) == ProtectedHandler(other + token, decode, now, qualify)
  {
    assert TokenText(scheme + token) == token;
    assert TokenText(other + token) == token;
  }

  /** A freshly issued token sent as "Bearer <token>" runs a handler with no
      predicate, as the issued user. */
  lemma IssuedTokenOpensTheGate(username: string, issued: int, now: int,
                                sign: Token -> Option<string>, decode: Bytes -> Parsed)
    requires CreateToken(username, issued, sign).Ok?
    requires decode(Encode(CreateToken(username, issued, sign).value)) == Parsed(NewToken(username, issued), true)
    requires issued <= now < issued + TokenLifetime
    ensures ProtectedHandler(Encode("Bearer " + CreateToken(username, issued, sign).value), decode, now, None) == Run(username)
  {
    var text := CreateToken(username, issued, sign).value;
    BearerDropsExactlyTheScheme(text);
    IssuedTokenVerifies(username, issued, now, sign, decode);
  }

  /** Behind the ASCII scheme "Bearer ", the gate reads exactly the token's
      bytes. */
  lemma BearerDropsExactlyTheScheme(text: string)
    ensures |Encode("Bearer " + text)| >= SchemeLength
    ensures TokenText(Encode("Bearer " + text)) == Encode(text)
  {
    EncodeAppend("Bearer ", text);
    assert IsAscii("Bearer ");
  }

  /** A scheme spelled with a non-ASCII letter is one byte longer, so the
      gate hands the token's bytes to the parser with the scheme's last byte,
      a space, in front. */
  lemma WideSchemeShiftsTheToken(text: string)
    ensures |Encode("B\U{E9}arer " + text)| >= SchemeLength
    ensures TokenText(Encode("B\U{E9}arer " + text)) == [0x20] + Encode(text)
  {
    EncodeAppend("B\U{E9}arer ", text);
    WideSchemeBytes();
  }

  /** "Béarer " takes 8 bytes: `é` is the two bytes C3 A9. */
  lemma WideSchemeBytes()
    ensures Encode("B\U{E9}arer ") == [0x42, 0xC3, 0xA9, 0x61, 0x72, 0x65, 0x72, 0x20]
  {
    assert High(0xE9, 1) == 3;
    assert EncodeChar('\U{E9}') == [0xC3, 0xA9];
    assert Encode("arer ") == [0x61, 0x72, 0x65, 0x72, 0x20];
  }
}
