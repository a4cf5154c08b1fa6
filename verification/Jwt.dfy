/** The access-token codec: JWS compact form (section 7.1 of RFC 7515) over the claims of
    section 4.1 of RFC 7519. JSON and HMAC-SHA256 are parameters; splitting, base64url, decimal
    subjects, trimming and whole-second expiry are concrete. */
module Jwt {
  import opened Common
  import opened Text
  import opened Base64Url
  import opened Decimal

  datatype Header = Header(algorithm: string, typ: string)

  datatype Payload = Payload(
    issuer: string, subject: string, issuedAt: int, expiresAt: int, tokenId: string, sessionId: string,
      tokenType: string)

  datatype Claims = Claims(
    subjectId: int, tokenId: string, sessionId: string, tokenType: string, issuer: string, issuedAt: int,
      expiresAt: int)

  /** The libraries the codec calls. */
  datatype Library = Library(
    marshalHeader: Header -> seq<Byte>,
    unmarshalHeader: seq<Byte> -> Option<Header>,
    marshalPayload: Payload -> seq<Byte>,
    unmarshalPayload: seq<Byte> -> Option<Payload>,
    mac: string -> seq<Byte>)

  /** What is assumed of the JSON library: reading back what it wrote gives the same value. */
  ghost predicate Lawful(lib: Library) {
    && (forall h :: lib.unmarshalHeader(lib.marshalHeader(h)) == Some(h))
    && (forall p :: lib.unmarshalPayload(lib.marshalPayload(p)) == Some(p))
  }

  datatype Codec = Codec(issuer: string, lib: Library)

  datatype IssueError = SubjectNotPositive | SessionIdRequired

  datatype ParseError =
    | NotThreeParts | MalformedHeader | UnsupportedHeader | SignatureMismatch | MalformedPayload | IssuerMismatch
    | SubjectRequired | SubjectNotNumeric | TokenIdRequired | SessionIdMissing | WrongType | Expired

  const ALGORITHM := "HS256"
  const HEADER_TYPE := "JWT"
  const ACCESS := "access"
  const SECOND := 1_000_000_000

  /** Time.Unix of an instant in nanoseconds: whole seconds, rounded down. */
  function Unix(t: int): (s: int)
    ensures s * SECOND <= t < (s + 1) * SECOND
  {
    t / SECOND
  }

  function Signature(c: Codec, signedPart: string): string { Encode(c.lib.mac(signedPart)) }

  function Sign(c: Codec, p: Payload): string {
    var signedPart := Encode(c.lib.marshalHeader(Header(ALGORITHM, HEADER_TYPE))) + "."
      + Encode(c.lib.marshalPayload(p));
    signedPart + "." + Signature(c, signedPart)
  }

  function IssueAccessToken(c: Codec, subjectId: int, sessionId: string, ttl: int, now: int, tokenId: string)
    : Result<string, IssueError>
  {
    if subjectId <= 0 then Err(SubjectNotPositive)
    else if TrimSpace(sessionId) == "" then Err(SessionIdRequired)
    else Ok(Sign(c,
      Payload(c.issuer, FormatInt(subjectId), Unix(now), Unix(now + ttl), tokenId, TrimSpace(sessionId), ACCESS)))
  }

  function DecodeHeader(c: Codec, part: string): Option<Header> {
    var bytes := Decode(part);
    if bytes.None? then None else c.lib.unmarshalHeader(bytes.value)
  }

  function DecodePayload(c: Codec, part: string): Option<Payload> {
    var bytes := Decode(part);
    if bytes.None? then None else c.lib.unmarshalPayload(bytes.value)
  }

  function ParseAccessToken(c: Codec, token: string, now: int): Result<Claims, ParseError> {
    var parts := Split(token, '.');
    if |parts| != 3 then Err(NotThreeParts)
    else
      var header := DecodeHeader(c, parts[0]);
      if header.None? then Err(MalformedHeader)
      else if header.value != Header(ALGORITHM, HEADER_TYPE) then Err(UnsupportedHeader)
      else if parts[2] != Signature(c, parts[0] + "." + parts[1]) then Err(SignatureMismatch)
      else
        var payload := DecodePayload(c, parts[1]);
        if payload.None? then Err(MalformedPayload) else Validate(c, payload.value, now)
  }

  function Validate(c: Codec, p: Payload, now: int): Result<Claims, ParseError> {
    var subject := ParseInt(p.subject);
    if p.issuer != c.issuer then Err(IssuerMismatch)
    else if TrimSpace(p.subject) == "" then Err(SubjectRequired)
    else if subject.None? || subject.value <= 0 then Err(SubjectNotNumeric)
    else if TrimSpace(p.tokenId) == "" then Err(TokenIdRequired)
    else if TrimSpace(p.sessionId) == "" then Err(SessionIdMissing)
    else if p.tokenType != ACCESS then Err(WrongType)
    else if p.expiresAt * SECOND <= now then Err(Expired)
    else Ok(Claims(subject.value, p.tokenId, p.sessionId, p.tokenType, p.issuer, p.issuedAt * SECOND,
      p.expiresAt * SECOND))
  }

  /** The first two parts of a token, h and b, with a proper header. */
  ghost predicate ProperParts(c: Codec, h: string, b: string) {
    && '.' !in h && '.' !in b
    && Decode(h).Some? && c.lib.unmarshalHeader(Decode(h).value) == Some(Header("HS256", "JWT"))
  }

  /** The MAC of the two parts and the dot between them, in base64url. */
  lemma SignatureIsMac(c: Codec, h: string, b: string)
    ensures Signature(c, h + "." + b) == Encode(c.lib.mac(h + "." + b)) && '.' !in Encode(c.lib.mac(h + "." + b))
  {
    EncodeAlphabet(c.lib.mac(h + "." + b));
  }

  /** Under a proper header the third part decides: any text but the base64url form of the MAC of the
      first two parts is a mismatch, and with it the token parses to what its payload validates to. */
  lemma SignatureDecides(c: Codec, h: string, b: string, s: string, now: int)
    requires ProperParts(c, h, b) && '.' !in s
    ensures ParseAccessToken(c, h + "." + b + "." + s, now)
            == if s != Encode(c.lib.mac(h + "." + b)) then Err(SignatureMismatch)
               else if Decode(b).None? || c.lib.unmarshalPayload(Decode(b).value).None? then Err(MalformedPayload)
               else Validate(c, c.lib.unmarshalPayload(Decode(b).value).value, now)
  {
    ThreeParts(h, b, s);
    SignatureIsMac(c, h, b);
  }

  /** Parsing a token the codec signed gets back to validating the payload it signed. */
  lemma ParseOfSigned(c: Codec, issuedBy: Codec, p: Payload, now: int)
    requires Lawful(c.lib) && issuedBy.lib == c.lib
    ensures ParseAccessToken(c, Sign(issuedBy, p), now) == Validate(c, p, now)
  {
    var h := Encode(c.lib.marshalHeader(Header(ALGORITHM, HEADER_TYPE)));
    var b := Encode(c.lib.marshalPayload(p));
    EncodeAlphabet(c.lib.marshalHeader(Header(ALGORITHM, HEADER_TYPE)));
    EncodeAlphabet(c.lib.marshalPayload(p));
    DecodeEncode(c.lib.marshalHeader(Header(ALGORITHM, HEADER_TYPE)));
    DecodeEncode(c.lib.marshalPayload(p));
    SignatureIsMac(issuedBy, h, b);
    SignatureDecides(c, h, b, Encode(c.lib.mac(h + "." + b)), now);
  }

  /** A codec with another key refuses the token exactly when its MAC of the signed parts differs. */
  lemma OtherKeyRefuses(c: Codec, issuedBy: Codec, p: Payload, now: int)
    requires Lawful(c.lib) && issuedBy.lib == c.lib.(mac := issuedBy.lib.mac)
    ensures var signed := Encode(c.lib.marshalHeader(Header("HS256", "JWT"))) + "." + Encode(c.lib.marshalPayload(p));
            ParseAccessToken(c, Sign(issuedBy, p), now) == Err(SignatureMismatch)
            <==> c.lib.mac(signed) != issuedBy.lib.mac(signed)
  {
    var header := c.lib.marshalHeader(Header("HS256", "JWT"));
    var h, b := Encode(header), Encode(c.lib.marshalPayload(p));
    EncodeAlphabet(header);
    EncodeAlphabet(c.lib.marshalPayload(p));
    DecodeEncode(header);
    DecodeEncode(c.lib.marshalPayload(p));
    SignatureIsMac(issuedBy, h, b);
    OtherMacMismatches(c, h, b, issuedBy.lib.mac(h + "." + b), now);
  }

  lemma OtherMacMismatches(c: Codec, h: string, b: string, other: seq<Byte>, now: int)
    requires ProperParts(c, h, b) && Decode(b).Some? && c.lib.unmarshalPayload(Decode(b).value).Some?
    ensures ParseAccessToken(c, h + "." + b + "." + Encode(other), now) == Err(SignatureMismatch)
            <==> c.lib.mac(h + "." + b) != other
  {
    var mac := c.lib.mac(h + "." + b);
    EncodeAlphabet(other);
    SignatureDecides(c, h, b, Encode(other), now);
    if Encode(mac) == Encode(other) {
      EncodeInjective(mac, other);
    }
    ValidateChecksNoSignature(c, c.lib.unmarshalPayload(Decode(b).value).value, now);
  }

  lemma ValidateChecksNoSignature(c: Codec, p: Payload, now: int)
    ensures Validate(c, p, now) != Err(SignatureMismatch)
  {
  }

  lemma ThreeParts(a: string, b: string, c: string)
    requires '.' !in a && '.' !in b && '.' !in c
    ensures Split(a + "." + b + "." + c, '.') == [a, b, c]
  {
    SplitOne(c, '.');
    SplitHead(b, c, '.');
    SplitHead(a, b + "." + c, '.');
    assert a + "." + b + "." + c == a + "." + (b + "." + c);
  }

  /** At every time t an issued token parses to the claims it was issued with, or is refused as
      expired: it expires at the last whole second not after now + ttl. */
  lemma IssueThenParse(c: Codec, subjectId: int, sessionId: string, ttl: int, now: int, tokenId: string, t: int)
    requires Lawful(c.lib) && 0 < subjectId <= MAX_INT64 && TrimSpace(sessionId) != "" && TrimSpace(tokenId) != ""
    ensures var token := IssueAccessToken(c, subjectId, sessionId, ttl, now, tokenId);
            token.Ok? && ParseAccessToken(c, token.value, t) ==
              if t < Unix(now + ttl) * SECOND
              then Ok(Claims(subjectId, tokenId, TrimSpace(sessionId), ACCESS, c.issuer,
                             Unix(now) * SECOND, Unix(now + ttl) * SECOND))
              else Err(Expired)
  {
    var p := Payload(c.issuer, FormatInt(subjectId), Unix(now), Unix(now + ttl), tokenId, TrimSpace(sessionId), ACCESS);
    ParseOfSigned(c, c, p, t);
    ParseFormat(subjectId);
    TrimIdempotent(sessionId);
    DigitsAreNotBlank(subjectId);
  }

  lemma DigitsAreNotBlank(n: nat)
    ensures TrimSpace(FormatInt(n)) != ""
  {
    var s := FormatNat(n);
    assert IsDigit(s[0]) && IsDigit(s[|s| - 1]);
    TrimFixed(s);
  }

  /** So a token with lifetime ttl is accepted up to one second before its nominal end, and never
      from that end on. */
  lemma LifetimeBounds(c: Codec, subjectId: int, sessionId: string, ttl: int, now: int, tokenId: string, t: int)
    requires Lawful(c.lib) && 0 < subjectId <= MAX_INT64 && TrimSpace(sessionId) != "" && TrimSpace(tokenId) != ""
    ensures var token := IssueAccessToken(c, subjectId, sessionId, ttl, now, tokenId);
            && token.Ok?
            && (t <= now + ttl - SECOND ==> ParseAccessToken(c, token.value, t).Ok?)
            && (t >= now + ttl ==> ParseAccessToken(c, token.value, t) == Err(Expired))
  {
    IssueThenParse(c, subjectId, sessionId, ttl, now, tokenId, t);
  }

  /** A codec with the same key but another issuer refuses the token. */
  lemma OtherIssuerRefuses(c: Codec, other: Codec, subjectId: int, sessionId: string, ttl: int, now: int,
                           tokenId: string, t: int)
    requires Lawful(c.lib) && other.lib == c.lib && other.issuer != c.issuer
    requires 0 < subjectId && TrimSpace(sessionId) != ""
    ensures var token := IssueAccessToken(c, subjectId, sessionId, ttl, now, tokenId);
            token.Ok? && ParseAccessToken(other, token.value, t) == Err(IssuerMismatch)
  {
    var p := Payload(c.issuer, FormatInt(subjectId), Unix(now), Unix(now + ttl), tokenId, TrimSpace(sessionId), ACCESS);
    ParseOfSigned(other, c, p, t);
  }

  lemma JoinThree(parts: seq<string>)
    requires |parts| == 3
    ensures Join(parts, '.') == parts[0] + "." + parts[1] + "." + parts[2]
  {
    var tail := parts[1..];
    assert tail[1..] == [parts[2]];
    assert Join(tail, '.') == parts[1] + "." + parts[2];
    assert parts[0] + "." + parts[1] + "." + parts[2] == parts[0] + "." + (parts[1] + "." + parts[2]);
  }

  /** Whatever is accepted is, character for character, two parts and the codec's own MAC of them, so the
      signature part is not malleable, and its payload passes validation. */
  lemma AcceptedIsSigned(c: Codec, token: string, now: int) returns (h: string, b: string)
    ensures ParseAccessToken(c, token, now).Ok? ==>
              && ProperParts(c, h, b) && token == h + "." + b + "." + Encode(c.lib.mac(h + "." + b))
              && Decode(b).Some? && c.lib.unmarshalPayload(Decode(b).value).Some?
              && ParseAccessToken(c, token, now) == Validate(c, c.lib.unmarshalPayload(Decode(b).value).value, now)
    ensures ParseAccessToken(c, token, now).Ok? ==> Split(token, '.') == [h, b, Encode(c.lib.mac(h + "." + b))]
  {
    var parts := Split(token, '.');
    JoinSplit(token, '.');
    if |parts| != 3 {
      return "", "";
    }
    JoinThree(parts);
    h, b := parts[0], parts[1];
    SignatureIsMac(c, h, b);
  }

  /** Tampering shows: two accepted tokens with one signature part have signed parts with one MAC, so with a
      MAC that does not collide on them they are one token. */
  lemma SameSignatureSameToken(c: Codec, x: string, y: string, now: int, later: int)
    ensures var p, q := Split(x, '.'), Split(y, '.');
            ParseAccessToken(c, x, now).Ok? && ParseAccessToken(c, y, later).Ok? && Last(p) == Last(q) ==>
              && |p| == |q| == 3 && c.lib.mac(p[0] + "." + p[1]) == c.lib.mac(q[0] + "." + q[1])
              && (p[0] + "." + p[1] == q[0] + "." + q[1] <==> x == y)
  {
    var h, b := AcceptedIsSigned(c, x, now);
    var h', b' := AcceptedIsSigned(c, y, later);
    var mac, mac' := c.lib.mac(h + "." + b), c.lib.mac(h' + "." + b');
    if Encode(mac) == Encode(mac') {
      EncodeInjective(mac, mac');
    }
  }

  /** What validation guarantees of the claims it lets through. */
  lemma ClaimsAreSound(c: Codec, p: Payload, now: int)
    ensures Validate(c, p, now).Ok? <==>
              && p.issuer == c.issuer && p.tokenType == "access" && now < p.expiresAt * 1_000_000_000
              && ParseInt(p.subject).Some? && ParseInt(p.subject).value > 0
              && TrimSpace(p.tokenId) != "" && TrimSpace(p.sessionId) != ""
    ensures Validate(c, p, now).Ok? ==>
              Validate(c, p, now).value == Claims(ParseInt(p.subject).value, p.tokenId, p.sessionId, "access", c.issuer,
                                                  p.issuedAt * 1_000_000_000, p.expiresAt * 1_000_000_000)
  {
    if ParseInt(p.subject).Some? {
      NumbersAreNotBlank(p.subject);
    }
  }

  /** Text that ParseInt takes has no space at its ends. */
  lemma NumbersAreNotBlank(s: string)
    requires ParseInt(s).Some?
    ensures TrimSpace(s) == s && s != ""
  {
    var digits := if s[0] == '-' || s[0] == '+' then s[1..] else s;
    assert IsDigit(digits[|digits| - 1]) && IsDigit(digits[0]);
    assert s[|s| - 1] == digits[|digits| - 1];
    TrimFixed(s);
  }
}
