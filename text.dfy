/** The string primitives of the JavaScript runtime that the workspace code
    relies on: `trim`, `split`/`join` on one separator character,
    `toLowerCase`/`toUpperCase`, number-to-text conversion and `parseInt`
    with radix 10.  Characters are Unicode scalar values; case mapping is
    the ASCII one. */
module Text {
  import opened Options

  // ---------------------------------------------------------------------
  // Whitespace and trimming
  // ---------------------------------------------------------------------

  /** The characters `String.prototype.trim` and `parseInt` skip: the
      WhiteSpace and LineTerminator productions of ECMAScript. */
  predicate IsWhitespace(c: char) {
    || c == '\t' || c == '\n' || c == '\U{B}' || c == '\U{C}' || c == '\r'
    || c == ' ' || c == '\U{A0}' || c == '\U{1680}'
    || ('\U{2000}' <= c <= '\U{200A}')
    || c == '\U{2028}' || c == '\U{2029}' || c == '\U{202F}' || c == '\U{205F}'
    || c == '\U{3000}' || c == '\U{FEFF}'
  }

  /** A text that `trim()` turns into the empty (falsy) string. */
  predicate IsBlank(s: string) {
    forall i :: 0 <= i < |s| ==> IsWhitespace(s[i])
  }

  /** The number of whitespace characters `s` starts with. */
  function LeadingBlank(s: string): (k: nat)
    ensures k <= |s|
    ensures forall i :: 0 <= i < k ==> IsWhitespace(s[i])
    ensures k < |s| ==> !IsWhitespace(s[k])
    decreases |s|
  {
    if s == [] || !IsWhitespace(s[0]) then 0
    else
      var k := 1 + LeadingBlank(s[1..]);
      assert forall i :: 1 <= i < k ==> s[i] == s[1..][i - 1];
      k
  }

  /** The number of whitespace characters `s` ends with. */
  function TrailingBlank(s: string): (k: nat)
    ensures k <= |s|
    ensures forall i :: |s| - k <= i < |s| ==> IsWhitespace(s[i])
    ensures k < |s| ==> !IsWhitespace(s[|s| - k - 1])
    decreases |s|
  {
    if s == [] || !IsWhitespace(s[|s| - 1]) then 0
    else
      var k := 1 + TrailingBlank(s[..|s| - 1]);
      assert forall i :: |s| - k <= i < |s| - 1 ==> s[i] == s[..|s| - 1][i];
      k
  }

  /** `s` without its leading whitespace. */
  function TrimStart(s: string): (r: string)
    ensures |r| <= |s| && r == s[|s| - |r|..]
    ensures r == [] || !IsWhitespace(r[0])
    ensures IsBlank(s[..|s| - |r|])
  {
    var k := LeadingBlank(s);
    assert forall i :: 0 <= i < k ==> s[..k][i] == s[i];
    s[k..]
  }

  /** `s` without its trailing whitespace. */
  function TrimEnd(s: string): (r: string)
    ensures |r| <= |s| && r == s[..|r|]
    ensures r == [] || !IsWhitespace(r[|r| - 1])
    ensures IsBlank(s[|r|..])
  {
    var m := |s| - TrailingBlank(s);
    assert forall i :: m <= i < |s| ==> s[m..][i - m] == s[i];
    s[..m]
  }

  /** `s.trim()`: the text between a blank prefix and a blank suffix,
      empty exactly for a blank text, and otherwise neither starting nor
      ending with whitespace. */
  function Trim(s: string): (r: string)
    ensures exists a, b :: 0 <= a <= b <= |s| && r == s[a..b] && IsBlank(s[..a]) && IsBlank(s[b..])
    ensures r == [] <==> IsBlank(s)
    ensures r != [] ==> !IsWhitespace(r[0]) && !IsWhitespace(r[|r| - 1])
    ensures |r| <= |s|
  {
    TrimSlice(s);
    TrimEmpty(s);
    TrimEnd(TrimStart(s))
  }

  /** Trimming both ends keeps the text between the blank prefix
      TrimStart drops and the blank suffix TrimEnd drops. */
  lemma TrimSlice(s: string)
    ensures var t := TrimStart(s);
            var a := |s| - |t|;
            var r := TrimEnd(t);
            a + |r| <= |s| && r == s[a..a + |r|] && IsBlank(s[..a]) && IsBlank(s[a + |r|..])
  {
    var t := TrimStart(s);
    var a := |s| - |t|;
    var r := TrimEnd(t);
    assert r == t[..|r|];
    assert s[a + |r|..] == t[|r|..];
  }

  /** Trimming both ends gives the empty text exactly for a blank one. */
  lemma TrimEmpty(s: string)
    ensures TrimEnd(TrimStart(s)) == [] <==> IsBlank(s)
  {
    var t := TrimStart(s);
    var r := TrimEnd(t);
    assert r == [] ==> IsBlank(t) by {
      if r == [] { assert t[|r|..] == t; }
    }
    assert t == [] ==> s[..|s| - |t|] == s;
    assert t != [] ==> !IsWhitespace(s[|s| - |t|]) by {
      if t != [] { assert t[0] == s[|s| - |t|]; }
    }
  }

  // ---------------------------------------------------------------------
  // Case mapping
  // ---------------------------------------------------------------------

  function LowerChar(c: char): char {
    if 'A' <= c <= 'Z' then (c as int + 32) as char else c
  }

  function UpperChar(c: char): char {
    if 'a' <= c <= 'z' then (c as int - 32) as char else c
  }

  /** `s.toLowerCase()`, character by character. */
  function ToLower(s: string): (r: string)
    ensures |r| == |s|
  {
    seq(|s|, i requires 0 <= i < |s| => LowerChar(s[i]))
  }

  /** Lower-casing changes exactly the upper-case ASCII letters, each to
      its lower-case letter. */
  lemma ToLowerChangesOnlyUpper(s: string)
    ensures forall i :: 0 <= i < |s| ==> (ToLower(s)[i] != s[i] <==> 'A' <= s[i] <= 'Z')
    ensures forall i :: 0 <= i < |s| ==> !('A' <= ToLower(s)[i] <= 'Z')
  {
  }

  lemma ToLowerIdempotent(s: string)
    ensures ToLower(ToLower(s)) == ToLower(s)
  {
  }

  // ---------------------------------------------------------------------
  // split / join on one separator character
  // ---------------------------------------------------------------------

  /** `s.split(sep)` for a one-character separator: always at least one
      part, no part contains the separator, and an empty part stands
      between two adjacent separators or at an end. */
  function Split(s: string, sep: char): (parts: seq<string>)
    ensures |parts| >= 1
    ensures forall i :: 0 <= i < |parts| ==> sep !in parts[i]
  {
    if s == [] then [[]]
    else
      var rest := Split(s[1..], sep);
      if s[0] == sep then [[]] + rest
      else [[s[0]] + rest[0]] + rest[1..]
  }

  /** `parts.join(sep)`. */
  function Join(parts: seq<string>, sep: char): string {
    if parts == [] then []
    else if |parts| == 1 then parts[0]
    else parts[0] + [sep] + Join(parts[1..], sep)
  }

  /** Joining the parts of a split gives back the original text. */
  lemma {:induction false} SplitThenJoin(s: string, sep: char)
    ensures Join(Split(s, sep), sep) == s
  {
    if s != [] {
      SplitThenJoin(s[1..], sep);
      var rest := Split(s[1..], sep);
      var parts := Split(s, sep);
      if s[0] == sep {
        assert parts == [[]] + rest;
        assert parts[1..] == rest;
      } else {
        assert parts == [[s[0]] + rest[0]] + rest[1..];
        if |rest| > 1 {
          assert parts[1..] == rest[1..];
        }
      }
    }
  }

  /** Splitting a text whose first part `p` holds no separator. */
  lemma {:induction false} SplitAfterSeparatorFree(p: string, t: string, sep: char)
    requires sep !in p
    ensures Split(p + t, sep) == [p + Split(t, sep)[0]] + Split(t, sep)[1..]
  {
    var st := Split(t, sep);
    if p == [] {
      assert p + t == t;
      assert p + st[0] == st[0];
      assert [st[0]] + st[1..] == st;
    } else {
      var c, q := p[0], p[1..];
      assert p == [c] + q && c != sep;
      assert p + t == [c] + (q + t);
      SplitAfterSeparatorFree(q, t, sep);
      SplitCons(c, q + t, sep);
      var r := Split(q + t, sep);
      assert r[0] == q + st[0] && r[1..] == st[1..];
      assert [c] + (q + st[0]) == p + st[0];
    }
  }

  /** Splitting a join of separator-free parts gives back the parts. */
  lemma {:induction false} JoinThenSplit(parts: seq<string>, sep: char)
    requires |parts| >= 1
    requires forall i :: 0 <= i < |parts| ==> sep !in parts[i]
    ensures Split(Join(parts, sep), sep) == parts
  {
    if |parts| == 1 {
      SplitAfterSeparatorFree(parts[0], [], sep);
      assert parts[0] + [] == parts[0];
    } else {
      var rest := Join(parts[1..], sep);
      JoinThenSplit(parts[1..], sep);
      var t := [sep] + rest;
      assert t[0] == sep && t[1..] == rest;
      assert Split(t, sep) == [[]] + parts[1..];
      SplitAfterSeparatorFree(parts[0], t, sep);
      assert parts[0] + t == Join(parts, sep);
      assert parts[0] + [] == parts[0];
    }
  }

  // ---------------------------------------------------------------------
  // Decimal numbers: template-literal conversion and parseInt(s, 10)
  // ---------------------------------------------------------------------

  /** Splitting at one separator splits the text into the parts before it
      and the parts after it. */
  lemma {:induction false} SplitAround(a: string, b: string, sep: char)
    ensures Split(a + [sep] + b, sep) == Split(a, sep) + Split(b, sep)
  {
    if a == [] {
      assert a + [sep] + b == [sep] + b;
      SplitCons(sep, b, sep);
    } else {
      var c, t := a[0], a[1..];
      assert a == [c] + t;
      assert a + [sep] + b == [c] + (t + [sep] + b);
      SplitAround(t, b, sep);
      SplitCons(c, t + [sep] + b, sep);
      SplitCons(c, t, sep);
      ConsSplitConcat(c, Split(t, sep), Split(b, sep));
    }
  }

  /** Prepending a character to the first part commutes with appending
      more parts. */
  lemma ConsSplitConcat(c: char, rt: seq<string>, rb: seq<string>)
    requires |rt| >= 1
    ensures [[c] + (rt + rb)[0]] + (rt + rb)[1..] == ([[c] + rt[0]] + rt[1..]) + rb
  {
    assert (rt + rb)[0] == rt[0];
    assert (rt + rb)[1..] == rt[1..] + rb;
  }

  /** One step of Split: the first character either ends an empty first
      part or starts the first part. */
  lemma SplitCons(c: char, t: string, sep: char)
    ensures Split([c] + t, sep) ==
            if c == sep then [[]] + Split(t, sep)
            else [[c] + Split(t, sep)[0]] + Split(t, sep)[1..]
  {
    assert ([c] + t)[0] == c && ([c] + t)[1..] == t;
  }

  predicate IsDigit(c: char) {
    '0' <= c <= '9'
  }

  predicate AllDigits(s: string) {
    forall i :: 0 <= i < |s| ==> IsDigit(s[i])
  }

  function DigitChar(d: int): (c: char)
    requires 0 <= d < 10
    ensures IsDigit(c)
  {
    ('0' as int + d) as char
  }

  /** The decimal numeral of `n`, without sign or leading zeros. */
  function NatToString(n: nat): (s: string)
    ensures |s| >= 1 && AllDigits(s)
  {
    if n < 10 then [DigitChar(n)] else NatToString(n / 10) + [DigitChar(n % 10)]
  }

  /** How JavaScript prints an integer inside a template literal. */
  function IntToString(n: int): (s: string)
    ensures |s| >= 1
    ensures forall i :: 0 <= i < |s| ==> IsDigit(s[i]) || s[i] == '-'
  {
    if n < 0 then "-" + NatToString(-n) else NatToString(n)
  }

  /** The value of a numeral, read most significant digit first. */
  function DigitsValue(s: string): nat
    requires AllDigits(s)
  {
    if s == [] then 0 else DigitsValue(s[..|s| - 1]) * 10 + (s[|s| - 1] as int - '0' as int)
  }

  lemma {:induction false} NatToStringValue(n: nat)
    ensures DigitsValue(NatToString(n)) == n
  {
    if n >= 10 {
      NatToStringValue(n / 10);
      var s := NatToString(n);
      assert s[..|s| - 1] == NatToString(n / 10);
    }
  }

  /** The length of the longest all-digit prefix of `s`. */
  function DigitPrefixLength(s: string): (k: nat)
    ensures k <= |s| && AllDigits(s[..k])
    ensures k == |s| || !IsDigit(s[k])
  {
    if s == [] || !IsDigit(s[0]) then 0
    else
      var k := 1 + DigitPrefixLength(s[1..]);
      assert s[..k] == [s[0]] + s[1..][..k - 1];
      k
  }

  /** `parseInt(s, 10)`: leading whitespace is skipped, one optional sign is
      read, then the longest run of decimal digits; without digits the
      result is NaN, here `None`. */
  function ParseInt(s: string): (r: Option<int>)
    ensures r.None? <==> (var t := TrimStart(s);
                          var body := if |t| > 0 && (t[0] == '-' || t[0] == '+') then t[1..] else t;
                          body == [] || !IsDigit(body[0]))
  {
    var t := TrimStart(s);
    var negative := |t| > 0 && t[0] == '-';
    var body := if |t| > 0 && (t[0] == '-' || t[0] == '+') then t[1..] else t;
    var k := DigitPrefixLength(body);
    if k == 0 then None
    else
      var v: int := DigitsValue(body[..k]);
      Some(if negative then -v else v)
  }

  /** `parseInt` reads back every integer JavaScript prints. */
  lemma ParseIntOfIntToString(n: int)
    ensures ParseInt(IntToString(n)) == Some(n)
  {
    var s := IntToString(n);
    assert TrimStart(s) == s by {
      assert !IsWhitespace(s[0]);
    }
    var digits := if n < 0 then NatToString(-n) else NatToString(n);
    var body := if |s| > 0 && (s[0] == '-' || s[0] == '+') then s[1..] else s;
    assert body == digits;
    assert DigitPrefixLength(body) == |body|;
    assert body[..|body|] == body;
    NatToStringValue(if n < 0 then -n else n);
  }

  /** Distinct integers print differently. */
  lemma IntToStringInjective(m: int, n: int)
    requires IntToString(m) == IntToString(n)
    ensures m == n
  {
    ParseIntOfIntToString(m);
    ParseIntOfIntToString(n);
  }
}
