/** The few string functions of Go's standard library that the modelled code leans on. */
module Text {
  /** unicode.IsSpace. */
  predicate IsSpace(c: char) {
    || '\t' <= c <= '\r' || c == ' '
    || c == '\U{85}' || c == '\U{A0}' || c == '\U{1680}' || '\U{2000}' <= c <= '\U{200A}'
    || c == '\U{2028}' || c == '\U{2029}' || c == '\U{202F}' || c == '\U{205F}' || c == '\U{3000}'
  }

  /** The 25 code points with the White_Space property. */
  lemma SpacesExactly(c: char)
    ensures IsSpace(c) <==>
              c as int in [9, 10, 11, 12, 13, 32, 133, 160, 5760, 8192, 8193, 8194, 8195, 8196, 8197, 8198, 8199, 8200,
                           8201, 8202, 8232, 8233, 8239, 8287, 12288]
  {
  }

  function TrimLeft(s: string): (t: string)
    ensures t == "" || !IsSpace(t[0])
  {
    if s != "" && IsSpace(s[0]) then TrimLeft(s[1..]) else s
  }

  function TrimRight(s: string): (t: string)
    ensures t <= s
    ensures t == "" || !IsSpace(t[|t| - 1])
  {
    if s != "" && IsSpace(s[|s| - 1]) then TrimRight(s[..|s| - 1]) else s
  }

  /** strings.TrimSpace. */
  function TrimSpace(s: string): (t: string)
    ensures t == "" || (!IsSpace(t[0]) && !IsSpace(t[|t| - 1]))
  {
    TrimRight(TrimLeft(s))
  }

  /** Text whose two ends are not spaces is left alone. */
  lemma TrimFixed(s: string)
    requires s == "" || (!IsSpace(s[0]) && !IsSpace(s[|s| - 1]))
    ensures TrimSpace(s) == s
  {
  }

  lemma TrimIdempotent(s: string)
    ensures TrimSpace(TrimSpace(s)) == TrimSpace(s)
  {
    TrimFixed(TrimSpace(s));
  }

  predicate AllSpace(s: string) { forall i :: 0 <= i < |s| ==> IsSpace(s[i]) }

  /** Trimming cuts the text into spaces, the result, and spaces. */
  lemma TrimCuts(s: string) returns (before: string, after: string)
    ensures s == before + TrimSpace(s) + after && AllSpace(before) && AllSpace(after)
  {
    before := TrimLeftCuts(s);
    after := TrimRightCuts(TrimLeft(s));
  }

  lemma {:induction false} TrimLeftCuts(s: string) returns (before: string)
    ensures s == before + TrimLeft(s) && AllSpace(before)
  {
    if s != "" && IsSpace(s[0]) {
      before := TrimLeftCuts(s[1..]);
      before := [s[0]] + before;
      assert s == [s[0]] + s[1..];
    } else {
      before := "";
    }
  }

  lemma {:induction false} TrimRightCuts(s: string) returns (after: string)
    ensures s == TrimRight(s) + after && AllSpace(after)
  {
    if s != "" && IsSpace(s[|s| - 1]) {
      after := TrimRightCuts(s[..|s| - 1]);
      after := after + [s[|s| - 1]];
      assert s == s[..|s| - 1] + [s[|s| - 1]];
    } else {
      after := "";
    }
  }

  /** Nothing is left exactly of text that is all spaces. */
  lemma BlankExactly(s: string)
    ensures TrimSpace(s) == "" <==> AllSpace(s)
  {
    var before, after := TrimCuts(s);
    if TrimSpace(s) != "" {
      assert s[|before|] == TrimSpace(s)[0];
    }
  }

  /** So every other character is kept. */
  lemma TrimKeeps(s: string, c: char)
    requires !IsSpace(c)
    ensures c in TrimSpace(s) <==> c in s
  {
    var before, after := TrimCuts(s);
    assert c !in before && c !in after;
  }

  /** strings.Split with a one-character separator. */
  function Split(s: string, sep: char): (parts: seq<string>)
    ensures parts != []
    ensures forall i :: 0 <= i < |parts| ==> sep !in parts[i]
  {
    if s == "" then [""]
    else
      var rest := Split(s[1..], sep);
      if s[0] == sep then [""] + rest else [[s[0]] + rest[0]] + rest[1..]
  }

  /** strings.Join. */
  function Join(parts: seq<string>, sep: char): string {
    if parts == [] then "" else if |parts| == 1 then parts[0] else parts[0] + [sep] + Join(parts[1..], sep)
  }

  lemma {:induction false} JoinSplit(s: string, sep: char)
    ensures Join(Split(s, sep), sep) == s
  {
    if s != "" {
      JoinSplit(s[1..], sep);
      var rest := Split(s[1..], sep);
      assert s == [s[0]] + s[1..];
      if s[0] == sep {
        assert ([""] + rest)[1..] == rest;
      } else {
        var parts := Split(s, sep);
        assert parts[1..] == rest[1..] && parts[0] == [s[0]] + rest[0];
        assert Join(parts, sep) == [s[0]] + Join(rest, sep);
      }
    }
  }

  lemma {:induction false} SplitOne(a: string, sep: char)
    requires sep !in a
    ensures Split(a, sep) == [a]
  {
    if a != "" {
      SplitOne(a[1..], sep);
      assert a[0] != sep && a == [a[0]] + a[1..];
    }
  }

  lemma {:induction false} SplitHead(a: string, b: string, sep: char)
    requires sep !in a
    ensures Split(a + [sep] + b, sep) == [a] + Split(b, sep)
  {
    var s := a + [sep] + b;
    if a == "" {
      assert s[1..] == b;
    } else {
      assert s[1..] == a[1..] + [sep] + b;
      SplitHead(a[1..], b, sep);
      assert s[0] == a[0] != sep && a == [a[0]] + a[1..];
      assert Split(s, sep) == [[s[0]] + a[1..]] + Split(b, sep);
    }
  }

  /** Go's < on strings: by the first differing character, a proper prefix first. */
  predicate Less(a: string, b: string) {
    b != "" && (a == "" || a[0] < b[0] || (a[0] == b[0] && Less(a[1..], b[1..])))
  }

  /** a comes before b exactly when b goes on after their common start with nothing or less in a. */
  lemma {:induction false} LessExactly(a: string, b: string)
    ensures Less(a, b) <==>
              exists n :: 0 <= n <= |a| && n < |b| && a[..n] == b[..n] && (n == |a| || a[n] < b[n])
  {
    if b != "" && a != "" && a[0] == b[0] {
      LessExactly(a[1..], b[1..]);
      if n :| 0 <= n <= |a[1..]| && n < |b[1..]| && a[1..][..n] == b[1..][..n]
              && (n == |a[1..]| || a[1..][n] < b[1..][n]) {
        assert a[..n + 1] == [a[0]] + a[1..][..n] && b[..n + 1] == [b[0]] + b[1..][..n];
      }
      if n :| 0 <= n <= |a| && n < |b| && a[..n] == b[..n] && (n == |a| || a[n] < b[n]) {
        assert n > 0 && a[1..][..n - 1] == a[..n][1..] && b[1..][..n - 1] == b[..n][1..];
      }
    } else if b != "" {
      assert a[..0] == b[..0];
      if n :| 0 <= n <= |a| && n < |b| && a[..n] == b[..n] && (n == |a| || a[n] < b[n]) {
        assert n > 0 ==> a[..n][0] == b[..n][0];
      }
    }
  }

  lemma {:induction false} LessTotal(a: string, b: string)
    ensures !(Less(a, b) && Less(b, a))
    ensures a != b <==> Less(a, b) || Less(b, a)
  {
    if a != "" && b != "" {
      LessTotal(a[1..], b[1..]);
      assert a == [a[0]] + a[1..] && b == [b[0]] + b[1..];
    }
  }

  lemma {:induction false} LessTransitive(a: string, b: string, c: string)
    requires Less(a, b) && Less(b, c)
    ensures Less(a, c)
  {
    if a != "" && a[0] == b[0] == c[0] {
      LessTransitive(a[1..], b[1..], c[1..]);
    }
  }
}
