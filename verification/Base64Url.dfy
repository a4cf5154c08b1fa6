/** Go's base64.RawURLEncoding (section 5 of RFC 4648, without padding): what EncodeToString
    prints and what DecodeString accepts. */
module Base64Url {
  import opened Common

  type Byte = n: int | 0 <= n < 256
  type Bits6 = n: int | 0 <= n < 64

  function Symbol(v: Bits6): char {
    if v < 26 then ('A' as int + v) as char
    else if v < 52 then ('a' as int + (v - 26)) as char
    else if v < 62 then ('0' as int + (v - 52)) as char
    else if v == 62 then '-' else '_'
  }

  predicate IsSymbol(c: char) {
    'A' <= c <= 'Z' || 'a' <= c <= 'z' || '0' <= c <= '9' || c == '-' || c == '_'
  }

  function Value(c: char): (v: Bits6)
    requires IsSymbol(c)
    ensures Symbol(v) == c
  {
    if 'A' <= c <= 'Z' then c as int - 'A' as int
    else if 'a' <= c <= 'z' then c as int - 'a' as int + 26
    else if '0' <= c <= '9' then c as int - '0' as int + 52
    else if c == '-' then 62 else 63
  }

  lemma ValueOfSymbol(v: Bits6)
    ensures IsSymbol(Symbol(v)) && Value(Symbol(v)) == v
  {
  }

  predicate AllSymbols(s: string) {
    forall i :: 0 <= i < |s| ==> IsSymbol(s[i])
  }

  function Symbols(vs: seq<Bits6>): (s: string)
    ensures |s| == |vs|
  {
    seq(|vs|, i requires 0 <= i < |vs| => Symbol(vs[i]))
  }

  function Values(s: string): (vs: seq<Bits6>)
    requires AllSymbols(s)
    ensures |vs| == |s|
  {
    seq(|s|, i requires 0 <= i < |s| => Value(s[i]))
  }

  /** Bytes cut into six-bit groups; a short last group is filled up with zero bits. */
  function Sextets(bs: seq<Byte>): (vs: seq<Bits6>)
    ensures |vs| == (4 * |bs| + 2) / 3
  {
    if bs == [] then []
    else if |bs| == 1 then [bs[0] / 4, bs[0] % 4 * 16]
    else if |bs| == 2 then [bs[0] / 4, bs[0] % 4 * 16 + bs[1] / 16, bs[1] % 16 * 4]
    else [bs[0] / 4, bs[0] % 4 * 16 + bs[1] / 16, bs[1] % 16 * 4 + bs[2] / 64, bs[2] % 64] + Sextets(bs[3..])
  }

  /** Six-bit groups joined into bytes; the bits left over at the end are dropped unchecked. */
  function Octets(vs: seq<Bits6>): seq<Byte> {
    if |vs| < 2 then []
    else if |vs| == 2 then [Octet0(vs[0], vs[1])]
    else if |vs| == 3 then [Octet0(vs[0], vs[1]), Octet1(vs[1], vs[2])]
    else [Octet0(vs[0], vs[1]), Octet1(vs[1], vs[2]), Octet2(vs[2], vs[3])] + Octets(vs[4..])
  }

  function Octet0(a: Bits6, b: Bits6): Byte { a as int * 4 + b as int / 16 }

  function Octet1(a: Bits6, b: Bits6): Byte { a as int % 16 * 16 + b as int / 4 }

  function Octet2(a: Bits6, b: Bits6): Byte { a as int % 4 * 64 + b as int }

  function Encode(bs: seq<Byte>): string { Symbols(Sextets(bs)) }

  /** The decoder skips line ends wherever they stand. */
  function SkipNewlines(s: string): (t: string)
    ensures forall i :: 0 <= i < |t| ==> t[i] != '\r' && t[i] != '\n'
  {
    if s == "" then ""
    else if s[0] == '\r' || s[0] == '\n' then SkipNewlines(s[1..])
    else [s[0]] + SkipNewlines(s[1..])
  }

  /** DecodeString: an error on any other character, and on a last group of one character. */
  function Decode(s: string): Option<seq<Byte>> {
    var t := SkipNewlines(s);
    if AllSymbols(t) && |t| % 4 != 1 then Some(Octets(Values(t))) else None
  }

  lemma Split16(x: int, y: int)
    requires 0 <= x && 0 <= y < 16
    ensures (x * 16 + y) / 16 == x && (x * 16 + y) % 16 == y
  {
  }

  lemma Split4(x: int, y: int)
    requires 0 <= x && 0 <= y < 4
    ensures (x * 4 + y) / 4 == x && (x * 4 + y) % 4 == y
  {
  }

  /** The three joints between the four groups of three bytes. */
  lemma Joint0(b0: Byte, x: Bits6)
    requires x < 16
    ensures b0 % 4 * 16 + x < 64 && Octet0(b0 / 4, b0 % 4 * 16 + x) == b0
  {
    Split16(b0 % 4, x);
  }

  lemma Joint1(x: Bits6, b1: Byte, y: Bits6)
    requires x < 4 && y < 4
    ensures x * 16 + b1 / 16 < 64 && b1 % 16 * 4 + y < 64 && Octet1(x * 16 + b1 / 16, b1 % 16 * 4 + y) == b1
  {
    Split16(x, b1 / 16);
    Split4(b1 % 16, y);
  }

  lemma Joint2(x: Bits6, b2: Byte)
    requires x < 16
    ensures x * 4 + b2 / 64 < 64 && Octet2(x * 4 + b2 / 64, b2 % 64) == b2
  {
    Split4(x, b2 / 64);
  }

  lemma {:induction false} OctetsSextets(bs: seq<Byte>)
    ensures Octets(Sextets(bs)) == bs
  {
    if |bs| == 1 {
      Joint0(bs[0], 0);
    } else if |bs| == 2 {
      Joint0(bs[0], bs[1] / 16);
      Joint1(bs[0] % 4, bs[1], 0);
    } else if |bs| > 2 {
      Joint0(bs[0], bs[1] / 16);
      Joint1(bs[0] % 4, bs[1], bs[2] / 64);
      Joint2(bs[1] % 16, bs[2]);
      OctetsSextets(bs[3..]);
      OctetsOfGroup(bs);
      assert bs == [bs[0], bs[1], bs[2]] + bs[3..];
    }
  }

  lemma OctetsOfGroup(bs: seq<Byte>)
    requires |bs| > 2
    ensures var v := Sextets(bs);
            |v| >= 4 && v[4..] == Sextets(bs[3..])
            && Octets(v) == [Octet0(v[0], v[1]), Octet1(v[1], v[2]), Octet2(v[2], v[3])] + Octets(Sextets(bs[3..]))
  {
  }

  /** No encoded length leaves a lone character in the last group. */
  lemma EncodedLength(n: nat)
    ensures (4 * n + 2) / 3 % 4 != 1
  {
    var k, r := n / 3, n % 3;
    assert n == 3 * k + r;
    assert (4 * n + 2) / 3 == 4 * k + (4 * r + 2) / 3;
  }

  /** The bits a short last group leaves over are zero. */
  predicate ZeroTail(vs: seq<Bits6>) {
    (|vs| % 4 == 2 ==> vs[|vs| - 1] % 16 == 0) && (|vs| % 4 == 3 ==> vs[|vs| - 1] % 4 == 0)
  }

  // The arithmetic of one group, with the bytes as plain parameters.

  lemma GroupBack(v0: Bits6, v1: Bits6, v2: Bits6, v3: Bits6)
    ensures var b0, b1, b2 := Octet0(v0, v1), Octet1(v1, v2), Octet2(v2, v3);
            b0 / 4 == v0 && b0 % 4 * 16 + b1 / 16 == v1 && b1 % 16 * 4 + b2 / 64 == v2 && b2 % 64 == v3
  {
  }

  lemma ShortBack(v0: Bits6, v1: Bits6, v2: Bits6)
    ensures var b0, b1 := Octet0(v0, v1), Octet1(v1, v2);
            b0 / 4 == v0 && b0 % 4 * 16 == v1 - v1 % 16 && b0 % 4 * 16 + b1 / 16 == v1 && b1 % 16 * 4 == v2 - v2 % 4
  {
  }

  lemma OneByte(b0: Byte, vs: seq<Bits6>)
    requires |vs| == 2 && b0 / 4 == vs[0] && b0 % 4 * 16 == vs[1] - vs[1] % 16
    ensures Sextets([b0]) == vs <==> ZeroTail(vs)
  {
  }

  lemma TwoBytes(b0: Byte, b1: Byte, vs: seq<Bits6>)
    requires |vs| == 3 && b0 / 4 == vs[0] && b0 % 4 * 16 + b1 / 16 == vs[1] && b1 % 16 * 4 == vs[2] - vs[2] % 4
    ensures Sextets([b0, b1]) == vs <==> ZeroTail(vs)
  {
  }

  lemma ThreeBytes(b0: Byte, b1: Byte, b2: Byte, bs: seq<Byte>, vs: seq<Bits6>)
    requires |vs| >= 4 && b0 / 4 == vs[0] && b0 % 4 * 16 + b1 / 16 == vs[1] && b1 % 16 * 4 + b2 / 64 == vs[2]
    requires b2 % 64 == vs[3]
    ensures Sextets([b0, b1, b2] + bs) == vs <==> Sextets(bs) == vs[4..]
  {
    assert ([b0, b1, b2] + bs)[3..] == bs;
    var all := Sextets([b0, b1, b2] + bs);
    assert all == [vs[0], vs[1], vs[2], vs[3]] + Sextets(bs) && all[4..] == Sextets(bs);
    assert vs == [vs[0], vs[1], vs[2], vs[3]] + vs[4..];
  }

  lemma LastOfTwo(vs: seq<Bits6>)
    requires |vs| == 2
    ensures Sextets(Octets(vs)) == vs <==> ZeroTail(vs)
  {
    ShortBack(vs[0], vs[1], 0);
    OneByte(Octet0(vs[0], vs[1]), vs);
  }

  lemma LastOfThree(vs: seq<Bits6>)
    requires |vs| == 3
    ensures Sextets(Octets(vs)) == vs <==> ZeroTail(vs)
  {
    ShortBack(vs[0], vs[1], vs[2]);
    TwoBytes(Octet0(vs[0], vs[1]), Octet1(vs[1], vs[2]), vs);
  }

  lemma FirstGroup(vs: seq<Bits6>)
    requires |vs| >= 4
    ensures Sextets(Octets(vs)) == vs <==> Sextets(Octets(vs[4..])) == vs[4..]
  {
    GroupBack(vs[0], vs[1], vs[2], vs[3]);
    ThreeBytes(Octet0(vs[0], vs[1]), Octet1(vs[1], vs[2]), Octet2(vs[2], vs[3]), Octets(vs[4..]), vs);
  }

  lemma SameTail(vs: seq<Bits6>)
    requires |vs| >= 4 && |vs| % 4 != 1
    ensures ZeroTail(vs[4..]) == ZeroTail(vs)
  {
    var rest := vs[4..];
    SameRemainder(|rest|);
    assert |vs| == |rest| + 4;
    if |rest| > 0 {
      assert rest[|rest| - 1] == vs[|vs| - 1];
    }
  }

  lemma SameRemainder(n: nat)
    ensures (n + 4) % 4 == n % 4
  {
  }

  lemma {:induction false} SextetsOctets(vs: seq<Bits6>)
    requires |vs| % 4 != 1
    ensures Sextets(Octets(vs)) == vs <==> ZeroTail(vs)
  {
    if |vs| == 2 {
      LastOfTwo(vs);
    } else if |vs| == 3 {
      LastOfThree(vs);
    } else if |vs| >= 4 {
      SextetsOctets(vs[4..]);
      SameTail(vs);
      FirstGroup(vs);
    } else {
      assert vs == [];
    }
  }

  lemma {:induction false} NoNewlines(s: string)
    requires AllSymbols(s)
    ensures SkipNewlines(s) == s
  {
    if s != "" {
      assert IsSymbol(s[0]) && AllSymbols(s[1..]);
      NoNewlines(s[1..]);
    }
  }

  /** The output is plain symbols: no dot, no line end, and a length set by the input's. */
  lemma EncodeAlphabet(bs: seq<Byte>)
    ensures AllSymbols(Encode(bs)) && |Encode(bs)| == (4 * |bs| + 2) / 3
    ensures Values(Encode(bs)) == Sextets(bs)
    ensures SkipNewlines(Encode(bs)) == Encode(bs)
    ensures '.' !in Encode(bs)
  {
    forall i | 0 <= i < |Sextets(bs)|
      ensures IsSymbol(Encode(bs)[i]) && Value(Encode(bs)[i]) == Sextets(bs)[i]
    {
      ValueOfSymbol(Sextets(bs)[i]);
    }
    NoNewlines(Encode(bs));
  }

  /** Decoding undoes encoding, for every byte sequence. */
  lemma DecodeEncode(bs: seq<Byte>)
    ensures Decode(Encode(bs)) == Some(bs)
  {
    EncodeAlphabet(bs);
    EncodedLength(|bs|);
    OctetsSextets(bs);
  }

  lemma EncodeInjective(a: seq<Byte>, b: seq<Byte>)
    requires Encode(a) == Encode(b)
    ensures a == b
  {
    DecodeEncode(a);
    DecodeEncode(b);
  }

  /** Encoding undoes decoding exactly on canonical text: only symbols, and a zero tail. */
  lemma EncodeDecode(s: string)
    requires Decode(s).Some?
    ensures Encode(Decode(s).value) == s <==> AllSymbols(s) && ZeroTail(Values(s))
  {
    var bs := Decode(s).value;
    EncodeAlphabet(bs);
    if AllSymbols(s) {
      NoNewlines(s);
      SextetsOctets(Values(s));
      if Sextets(bs) == Values(s) {
        SymbolsOfValues(s);
      }
    }
  }

  lemma SymbolsOfValues(s: string)
    requires AllSymbols(s)
    ensures Symbols(Values(s)) == s
  {
    assert forall i :: 0 <= i < |s| ==> Symbol(Value(s[i])) == s[i];
  }
}
