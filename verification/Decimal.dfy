/** strconv.FormatInt and strconv.ParseInt in base 10. */
module Decimal {
  import opened Common

  const MAX_INT64 := 0x7FFF_FFFF_FFFF_FFFF

  function Digit(d: int): char
    requires 0 <= d < 10
  {
    ('0' as int + d) as char
  }

  predicate IsDigit(c: char) { '0' <= c <= '9' }

  predicate AllDigits(s: string) { forall i :: 0 <= i < |s| ==> IsDigit(s[i]) }

  function FormatNat(n: nat): (s: string)
    ensures s != "" && AllDigits(s)
  {
    if n < 10 then [Digit(n)] else FormatNat(n / 10) + [Digit(n % 10)]
  }

  function FormatInt(n: int): string {
    if n < 0 then "-" + FormatNat(-n) else FormatNat(n)
  }

  function ReadNat(s: string): nat
    requires AllDigits(s)
  {
    if s == "" then 0 else
      assert IsDigit(s[|s| - 1]);
      var d: nat := s[|s| - 1] as int - '0' as int;
      ReadNat(s[..|s| - 1]) * 10 + d
  }

  /** An optional sign, at least one digit and nothing else, within 64 bits. */
  function ParseInt(s: string): (r: Option<int>)
    ensures r.Some? ==> -MAX_INT64 - 1 <= r.value <= MAX_INT64
  {
    var signed := s != "" && (s[0] == '-' || s[0] == '+');
    var digits := if signed then s[1..] else s;
    if digits == "" || !AllDigits(digits) then None
    else
      var n: int := if signed && s[0] == '-' then -(ReadNat(digits) as int) else ReadNat(digits);
      if -MAX_INT64 - 1 <= n <= MAX_INT64 then Some(n) else None
  }

  lemma {:induction false} ReadFormat(n: nat)
    ensures ReadNat(FormatNat(n)) == n
  {
    if n >= 10 {
      ReadFormat(n / 10);
      assert FormatNat(n)[..|FormatNat(n)| - 1] == FormatNat(n / 10);
    }
  }

  lemma ParseDigits(s: string)
    requires s != "" && AllDigits(s) && ReadNat(s) <= MAX_INT64
    ensures ParseInt(s) == Some(ReadNat(s))
  {
    assert IsDigit(s[0]);
  }

  lemma ParseMinus(s: string)
    requires s != "" && AllDigits(s) && ReadNat(s) <= MAX_INT64 + 1
    ensures ParseInt("-" + s) == Some(-(ReadNat(s) as int))
  {
    assert ("-" + s)[1..] == s;
  }

  /** Parsing undoes formatting on every 64-bit integer. */
  lemma ParseFormat(n: int)
    requires -MAX_INT64 - 1 <= n <= MAX_INT64
    ensures ParseInt(FormatInt(n)) == Some(n)
  {
    if n < 0 {
      ReadFormat(-n);
      ParseMinus(FormatNat(-n));
    } else {
      ReadFormat(n);
      ParseDigits(FormatNat(n));
    }
  }
}
