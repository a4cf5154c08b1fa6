/** Opaque refresh tokens: 32 random bytes in base64url, stored as a prefixed hex digest. */
module RefreshTokens {
  import opened Common
  import opened Base64Url

  const RANDOM_BYTES := 32
  const TOKEN_LENGTH := 43
  const STORED_PREFIX := "sha256:"
  /** 30 days, in nanoseconds. */
  const DEFAULT_TTL := 30 * 24 * 3600 * 1_000_000_000

  /** A reader hands out its bytes in pieces of its own choosing. */
  class Reader {
    var remaining: seq<Byte>

    constructor (bytes: seq<Byte>)
      ensures remaining == bytes
    {
      remaining := bytes;
    }

    method Read(limit: nat) returns (piece: seq<Byte>)
      requires limit > 0
      modifies this
      ensures old(remaining) == piece + remaining && |piece| <= limit
      ensures old(remaining) != [] ==> piece != []
    {
      var n: nat :| n <= limit && n <= |remaining| && (remaining != [] ==> n > 0);
      piece, remaining := remaining[..n], remaining[n..];
    }
  }

  datatype ReadError = UnexpectedEOF

  /** io.ReadFull: the buffer is filled completely or the call fails. */
  method ReadFull(reader: Reader, buffer: array<Byte>) returns (ok: bool)
    modifies reader, buffer
    ensures ok <==> |old(reader.remaining)| >= buffer.Length
    ensures ok ==> old(reader.remaining) == buffer[..] + reader.remaining
  {
    var filled := 0;
    while filled < buffer.Length
      invariant 0 <= filled <= buffer.Length
      invariant old(reader.remaining) == buffer[..filled] + reader.remaining
    {
      var piece := reader.Read(buffer.Length - filled);
      if piece == [] {
        return false;
      }
      forall i | 0 <= i < |piece| {
        buffer[filled + i] := piece[i];
      }
      assert buffer[..filled + |piece|] == buffer[..filled] + piece;
      filled := filled + |piece|;
    }
    assert buffer[..filled] == buffer[..];
    ok := true;
  }

  /** Generate encodes the first 32 bytes of its source, or fails when there are fewer. */
  method Generate(reader: Reader) returns (token: Result<string, ReadError>)
    modifies reader
    ensures token.Ok? <==> |old(reader.remaining)| >= RANDOM_BYTES
    ensures token.Ok? ==> token.value == Encode(old(reader.remaining)[..RANDOM_BYTES])
                          && reader.remaining == old(reader.remaining)[RANDOM_BYTES..]
                          && Parse(token.value).Ok?
  {
    var buffer := new Byte[RANDOM_BYTES];
    var ok := ReadFull(reader, buffer);
    if !ok {
      return Err(UnexpectedEOF);
    }
    GeneratedShape(buffer[..]);
    token := Ok(Encode(buffer[..]));
  }

  datatype TokenError = InvalidToken

  function Parse(token: string): (r: Result<string, TokenError>)
    ensures r.Ok? ==> r.value == token
  {
    if |token| != TOKEN_LENGTH || !AllSymbols(token) then Err(InvalidToken) else Ok(token)
  }

  function HexDigit(n: int): char
    requires 0 <= n < 16
  {
    if n < 10 then ('0' as int + n) as char else ('a' as int + (n - 10)) as char
  }

  function Hex(bs: seq<Byte>): (s: string)
    ensures |s| == 2 * |bs|
  {
    if bs == [] then "" else [HexDigit(bs[0] / 16), HexDigit(bs[0] % 16)] + Hex(bs[1..])
  }

  /** The stored form of a token; sha is the digest function. */
  function Hash(sha: string -> seq<Byte>, token: string): Result<string, TokenError> {
    if Parse(token).Err? then Err(InvalidToken) else Ok(STORED_PREFIX + Hex(sha(token)))
  }

  /** A configured lifetime of zero or less means 30 days, so the lifetime is always positive. */
  function RefreshTokenTTL(configured: int): (ttl: int)
    ensures ttl > 0
    ensures configured > 0 ==> ttl == configured
  {
    if configured <= 0 then DEFAULT_TTL else configured
  }

  /** Every generated token has 43 base64url characters, the last with its two low bits zero; it
      passes Parse, so hashing it cannot fail. */
  lemma GeneratedShape(bs: seq<Byte>)
    requires |bs| == RANDOM_BYTES
    ensures |Encode(bs)| == TOKEN_LENGTH && AllSymbols(Encode(bs))
    ensures Value(Encode(bs)[TOKEN_LENGTH - 1]) % 4 == 0
    ensures Parse(Encode(bs)) == Ok(Encode(bs))
    ensures forall sha :: Hash(sha, Encode(bs)).Ok?
  {
    EncodeAlphabet(bs);
    DecodeEncode(bs);
    EncodeDecode(Encode(bs));
    assert Value(Encode(bs)[TOKEN_LENGTH - 1]) == Values(Encode(bs))[TOKEN_LENGTH - 1];
  }

  /** Exactly the parseable tokens whose last character has its two low bits zero can be generated,
      each from one byte string only. */
  lemma GeneratedExactly(token: string)
    ensures (exists bs: seq<Byte> :: |bs| == RANDOM_BYTES && Encode(bs) == token) <==>
              Parse(token).Ok? && Value(token[TOKEN_LENGTH - 1]) % 4 == 0
  {
    if Parse(token).Ok? && Value(token[TOKEN_LENGTH - 1]) % 4 == 0 {
      NoNewlines(token);
      EncodeDecode(token);
      var bs := Decode(token).value;
      assert Encode(bs) == token;
      EncodeAlphabet(bs);
      assert |bs| == RANDOM_BYTES;
    }
    forall bs: seq<Byte> | |bs| == RANDOM_BYTES && Encode(bs) == token
      ensures Parse(token).Ok? && Value(token[TOKEN_LENGTH - 1]) % 4 == 0
    {
      GeneratedShape(bs);
    }
  }

  lemma {:induction false} HexInjective(a: seq<Byte>, b: seq<Byte>)
    requires Hex(a) == Hex(b)
    ensures a == b
  {
    if a != [] {
      assert |b| == |a|;
      assert Hex(a)[0] == Hex(b)[0] && Hex(a)[1] == Hex(b)[1];
      HexDigitInjective(a[0] / 16, b[0] / 16);
      HexDigitInjective(a[0] % 16, b[0] % 16);
      assert Hex(a)[2..] == Hex(a[1..]) && Hex(b)[2..] == Hex(b[1..]);
      HexInjective(a[1..], b[1..]);
      assert a == [a[0]] + a[1..] && b == [b[0]] + b[1..];
    }
  }

  lemma HexDigitInjective(m: int, n: int)
    requires 0 <= m < 16 && 0 <= n < 16 && HexDigit(m) == HexDigit(n)
    ensures m == n
  {
  }

  /** Two tokens share a stored hash exactly when their digests collide. */
  lemma HashEquality(sha: string -> seq<Byte>, a: string, b: string)
    requires Parse(a).Ok? && Parse(b).Ok?
    ensures Hash(sha, a) == Hash(sha, b) <==> sha(a) == sha(b)
  {
    if Hash(sha, a) == Hash(sha, b) {
      assert Hash(sha, a).value[|STORED_PREFIX|..] == Hex(sha(a));
      assert Hash(sha, b).value[|STORED_PREFIX|..] == Hex(sha(b));
      HexInjective(sha(a), sha(b));
    }
  }
}
