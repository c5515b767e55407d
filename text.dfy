/** The few JavaScript string operations the feed relies on: `trim`, `split`
    on one separator character, and the decimal rendering of a non-negative
    integer inside a template literal. */
module Text {

  /** The characters that `trim` strips in this model: ASCII space and the
      control whitespace, no-break space, the byte-order mark and the two
      Unicode line terminators. */
  predicate IsWhitespace(c: char) {
    c == ' ' || c == '\t' || c == '\n' || c == '\r' || c == '\U{B}' || c == '\U{C}'
    || c == '\U{A0}' || c == '\U{FEFF}' || c == '\U{2028}' || c == '\U{2029}'
  }

  predicate AllWhitespace(s: string) {
    forall i :: 0 <= i < |s| ==> IsWhitespace(s[i])
  }

  /** Length of the run of whitespace that starts `s`. */
  function LeadingWhitespace(s: string): (n: nat)
    ensures n <= |s|
    ensures AllWhitespace(s[..n])
    ensures n < |s| ==> !IsWhitespace(s[n])
  {
    if s == [] || !IsWhitespace(s[0]) then 0
    else
      var m := LeadingWhitespace(s[1..]);
      assert s[..1 + m] == [s[0]] + s[1..][..m];
      1 + m
  }

  /** Length of the run of whitespace that ends `s`. */
  function TrailingWhitespace(s: string): (n: nat)
    ensures n <= |s|
    ensures AllWhitespace(s[|s| - n..])
    ensures n < |s| ==> !IsWhitespace(s[|s| - n - 1])
  {
    if s == [] || !IsWhitespace(s[|s| - 1]) then 0
    else
      var init := s[..|s| - 1];
      var m := TrailingWhitespace(init);
      assert s[|s| - (1 + m)..] == init[|init| - m..] + [s[|s| - 1]];
      1 + m
  }

  /** `String.prototype.trim`: `s` without its leading and trailing
      whitespace. The result is the middle of `s`, it is empty exactly when
      `s` is all whitespace, and otherwise it neither starts nor ends with
      whitespace. */
  function Trim(s: string): (r: string)
    ensures r == "" <==> AllWhitespace(s)
    ensures r != "" ==> !IsWhitespace(r[0]) && !IsWhitespace(r[|r| - 1])
    ensures LeadingWhitespace(s) + |r| <= |s|
    ensures s == s[..LeadingWhitespace(s)] + r + s[LeadingWhitespace(s) + |r|..]
    ensures AllWhitespace(s[LeadingWhitespace(s) + |r|..])
    ensures forall c :: c in r ==> c in s
  {
    var a := LeadingWhitespace(s);
    var b := TrailingWhitespace(s[a..]);
    TrailingOfSuffix(s, a, b);
    TrimSlices(s, a, b);
    s[a..|s| - b]
  }

  /** A whitespace run ending the suffix `s[a..]` is a run ending `s`. */
  lemma TrailingOfSuffix(s: string, a: nat, b: nat)
    requires a <= |s| && b <= |s| - a
    requires AllWhitespace(s[a..][|s| - a - b..])
    requires b < |s| - a ==> !IsWhitespace(s[a..][|s| - a - b - 1])
    ensures AllWhitespace(s[|s| - b..])
    ensures a + b < |s| ==> !IsWhitespace(s[|s| - b - 1])
  {
    assert s[a..][|s| - a - b..] == s[|s| - b..];
  }

  /** The facts behind `Trim`, stated on the two run lengths. */
  lemma TrimSlices(s: string, a: nat, b: nat)
    requires a + b <= |s|
    requires AllWhitespace(s[..a]) && (a < |s| ==> !IsWhitespace(s[a]))
    requires AllWhitespace(s[|s| - b..]) && (a + b < |s| ==> !IsWhitespace(s[|s| - b - 1]))
    ensures var r := s[a..|s| - b];
      && (r == "" <==> AllWhitespace(s))
      && (r != "" ==> !IsWhitespace(r[0]) && !IsWhitespace(r[|r| - 1]))
      && s == s[..a] + r + s[a + |r|..]
      && AllWhitespace(s[a + |r|..])
      && (forall c :: c in r ==> c in s)
  {
    var r := s[a..|s| - b];
    assert a + |r| == |s| - b;
    assert s == s[..a] + r + s[a + |r|..];
    if r != "" {
      assert r[0] == s[a] && r[|r| - 1] == s[|s| - b - 1];
    }
  }

  /** `!s.trim()`: the string is empty once trimmed, which is the case
      exactly when every character of it is whitespace (the empty string
      included). */
  predicate IsBlank(s: string)
    ensures IsBlank(s) <==> AllWhitespace(s)
  {
    Trim(s) == ""
  }

  /** Number of occurrences of `c` in `s`. */
  function Occurrences(s: string, c: char): nat {
    if s == [] then 0 else (if s[0] == c then 1 else 0) + Occurrences(s[1..], c)
  }

  /** The parts put back together with `sep` between them (`parts.join(sep)`). */
  function Join(parts: seq<string>, sep: char): string
    requires |parts| >= 1
  {
    if |parts| == 1 then parts[0] else parts[0] + [sep] + Join(parts[1..], sep)
  }

  /** `s.split(sep)` for a one-character separator: the maximal pieces of `s`
      between occurrences of `sep`, one more piece than there are separators,
      none containing `sep`, and joining them with `sep` gives `s` back. */
  function Split(s: string, sep: char): (parts: seq<string>)
    ensures |parts| == Occurrences(s, sep) + 1
    ensures forall i :: 0 <= i < |parts| ==> sep !in parts[i]
    ensures Join(parts, sep) == s
  {
    if s == [] then [""]
    else
      var rest := Split(s[1..], sep);
      if s[0] == sep then
        assert ([""] + rest)[1..] == rest;
        [""] + rest
      else
        var parts := [[s[0]] + rest[0]] + rest[1..];
        assert parts[1..] == rest[1..];
        assert Join(parts, sep) == s by {
          if |rest| > 1 {
            assert Join(rest, sep) == rest[0] + [sep] + Join(rest[1..], sep);
          }
          assert s == [s[0]] + s[1..];
        }
        parts
  }

  /** Splitting a piece free of the separator gives the piece alone. */
  lemma SplitPlain(p: string, sep: char)
    requires sep !in p
    ensures Split(p, sep) == [p]
  {
  }

  /** Splitting `p + [sep] + rest` splits off `p` as the first piece. */
  lemma {:induction false} SplitAtSeparator(p: string, sep: char, rest: string)
    requires sep !in p
    ensures Split(p + [sep] + rest, sep) == [p] + Split(rest, sep)
  {
    var s := p + [sep] + rest;
    if p == [] {
      assert s[1..] == rest;
    } else {
      assert s[1..] == p[1..] + [sep] + rest;
      SplitAtSeparator(p[1..], sep, rest);
      assert [p[0]] + p[1..] == p;
    }
  }

  /** The other direction of the split round trip: pieces free of the
      separator are recovered from their join. */
  lemma {:induction false} SplitJoin(parts: seq<string>, sep: char)
    requires |parts| >= 1
    requires forall i :: 0 <= i < |parts| ==> sep !in parts[i]
    ensures Split(Join(parts, sep), sep) == parts
  {
    if |parts| == 1 {
      SplitPlain(parts[0], sep);
    } else {
      SplitJoin(parts[1..], sep);
      SplitAtSeparator(parts[0], sep, Join(parts[1..], sep));
      assert [parts[0]] + parts[1..] == parts;
    }
  }

  predicate IsDigit(c: char) {
    '0' <= c <= '9'
  }

  predicate AllDigits(s: string) {
    forall i :: 0 <= i < |s| ==> IsDigit(s[i])
  }

  function DigitChar(d: nat): (c: char)
    requires d < 10
    ensures IsDigit(c) && c as int - '0' as int == d
  {
    ('0' as int + d) as char
  }

  /** The value of a string of decimal digits (the empty string reads as 0). */
  function ParseDecimal(s: string): nat
    requires AllDigits(s)
  {
    if s == [] then 0 else 10 * ParseDecimal(s[..|s| - 1]) + (s[|s| - 1] as int - '0' as int)
  }

  /** The decimal rendering of `n`, as `${n}` and `toString()` produce it: a
      non-empty string of digits without a leading zero (unless it is "0")
      that reads back as `n`. */
  function Decimal(n: nat): (s: string)
    ensures |s| >= 1 && AllDigits(s)
    ensures s[0] == '0' ==> n == 0 && s == "0"
    ensures ParseDecimal(s) == n
  {
    if n < 10 then [DigitChar(n)]
    else
      var s := Decimal(n / 10) + [DigitChar(n % 10)];
      assert s[..|s| - 1] == Decimal(n / 10);
      s
  }

  /** A digit string with a digit other than '0' reads as a positive number. */
  lemma {:induction false} ParseDecimalPositive(s: string, i: nat)
    requires AllDigits(s) && i < |s| && s[i] != '0'
    ensures ParseDecimal(s) >= 1
  {
    if i < |s| - 1 {
      ParseDecimalPositive(s[..|s| - 1], i);
    }
  }

  /** The other direction of the decimal round trip: a digit string without
      a leading zero (other than "0" itself) is the decimal text of the
      number it reads as. */
  lemma {:induction false} DecimalOfParse(s: string)
    requires |s| >= 1 && AllDigits(s)
    requires s[0] == '0' ==> s == "0"
    ensures Decimal(ParseDecimal(s)) == s
  {
    var last := s[|s| - 1] as int - '0' as int;
    if |s| == 1 {
      assert DigitChar(last) == s[0];
    } else {
      var init := s[..|s| - 1];
      assert init[0] == s[0];
      DecimalOfParse(init);
      ParseDecimalPositive(init, 0);
      var n := ParseDecimal(s);
      assert n == 10 * ParseDecimal(init) + last;
      assert n / 10 == ParseDecimal(init) && n % 10 == last;
      assert DigitChar(last) == s[|s| - 1];
      assert s == init + [s[|s| - 1]];
    }
  }
}
