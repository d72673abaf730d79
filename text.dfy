/** The string operations app.js uses: `String.prototype.trim` on the session
    name, the decimal rendering of a whole number in a template literal, and
    `join('\n')` on the report rows (with the split that reads them back). */
module Text {

  /** The characters `trim` removes: the WhiteSpace and LineTerminator code
      points of ECMAScript (tab, vertical tab, form feed, space, no-break space,
      byte order mark, the space separators of Unicode, line feed, carriage
      return, line and paragraph separator). */
  predicate IsWhitespace(c: char) {
    c == '\t' || c == '\n' || c == '\U{000B}' || c == '\U{000C}' || c == '\r'
    || c == ' ' || c == '\U{00A0}' || c == '\U{1680}'
    || ('\U{2000}' <= c <= '\U{200A}')
    || c == '\U{2028}' || c == '\U{2029}' || c == '\U{202F}' || c == '\U{205F}'
    || c == '\U{3000}' || c == '\U{FEFF}'
  }

  /** Every character of `s` is whitespace. */
  predicate AllWhitespace(s: string) {
    forall k :: 0 <= k < |s| ==> IsWhitespace(s[k])
  }

  /** The string without its leading whitespace. */
  function TrimStart(s: string): string
  {
    if s != [] && IsWhitespace(s[0]) then TrimStart(s[1..]) else s
  }

  /** TrimStart drops a prefix of whitespace and stops at the first other character. */
  lemma {:induction false} TrimStartDropsLeading(s: string)
    ensures var r := TrimStart(s);
      |r| <= |s| && r == s[|s| - |r|..] && AllWhitespace(s[..|s| - |r|])
      && (r != [] ==> !IsWhitespace(r[0]))
  {
    if s != [] && IsWhitespace(s[0]) {
      TrimStartDropsLeading(s[1..]);
      var r := TrimStart(s);
      assert s[..|s| - |r|] == [s[0]] + s[1..][..|s| - 1 - |r|];
    }
  }

  /** The string without its trailing whitespace. */
  function TrimEnd(s: string): string
  {
    if s != [] && IsWhitespace(s[|s| - 1]) then TrimEnd(s[..|s| - 1]) else s
  }

  /** TrimEnd drops a suffix of whitespace and stops at the last other character. */
  lemma {:induction false} TrimEndDropsTrailing(s: string)
    ensures var r := TrimEnd(s);
      |r| <= |s| && r == s[..|r|] && AllWhitespace(s[|r|..])
      && (r != [] ==> !IsWhitespace(r[|r| - 1]))
  {
    if s != [] && IsWhitespace(s[|s| - 1]) {
      var init := s[..|s| - 1];
      TrimEndDropsTrailing(init);
      var r := TrimEnd(s);
      assert s[|r|..] == init[|r|..] + [s[|s| - 1]];
    }
  }

  /** `s.trim()`: `s` without its leading and its trailing whitespace. It has
      no whitespace at either end, and it is empty exactly when `s` is all
      whitespace; TrimStretch shows where it sits in `s`. */
  function Trim(s: string): (r: string)
    ensures r != [] ==> !IsWhitespace(r[0]) && !IsWhitespace(r[|r| - 1])
    ensures r == [] <==> AllWhitespace(s)
  {
    TrimEmpty(s);
    TrimEnd(TrimStart(s))
  }

  /** The trimmed string is a stretch of `s` with only whitespace before and after it. */
  lemma TrimStretch(s: string)
    ensures var r := Trim(s);
      exists i ::
        0 <= i <= |s| - |r| && r == s[i..i + |r|] && AllWhitespace(s[..i]) && AllWhitespace(s[i + |r|..])
  {
    var t := TrimStart(s);
    var r := TrimEnd(t);
    TrimStartDropsLeading(s);
    TrimEndDropsTrailing(t);
    var i := |s| - |t|;
    assert r == s[i..i + |r|];
    assert s[i + |r|..] == t[|r|..];
  }

  /** The proof of Trim's contract, kept apart from its body. */
  lemma TrimEmpty(s: string)
    ensures var r := TrimEnd(TrimStart(s));
      (r != [] ==> !IsWhitespace(r[0]) && !IsWhitespace(r[|r| - 1]))
      && (r == [] <==> AllWhitespace(s))
  {
    var t := TrimStart(s);
    var r := TrimEnd(t);
    TrimStartDropsLeading(s);
    TrimEndDropsTrailing(t);
    var i := |s| - |t|;
    if r == [] {
      assert s[..i] == s;
    } else {
      assert r[0] == t[0] == s[i];
    }
  }

  /** The decimal digit for `d`. */
  function DigitChar(d: nat): (c: char)
    requires d < 10
    ensures '0' <= c <= '9'
  {
    ('0' as int + d) as char
  }

  /** The value of a decimal digit. */
  function DigitValue(c: char): (d: nat)
    requires '0' <= c <= '9'
    ensures d < 10
  {
    c as int - '0' as int
  }

  predicate IsDigits(s: string) {
    forall k :: 0 <= k < |s| ==> '0' <= s[k] <= '9'
  }

  /** A whole number as a template literal shows it below 10^21: its decimal
      digits, most significant first, with no leading zero. */
  function NatToString(n: nat): (r: string)
    ensures r != [] && IsDigits(r)
    ensures |r| > 1 ==> r[0] != '0'
  {
    if n < 10 then [DigitChar(n)] else NatToString(n / 10) + [DigitChar(n % 10)]
  }

  /** The number a string of decimal digits denotes. */
  function DigitsValue(s: string): nat
    requires IsDigits(s)
  {
    if s == [] then 0 else DigitsValue(s[..|s| - 1]) * 10 + DigitValue(s[|s| - 1])
  }

  /** Reading the digits back gives the number: the rendering loses nothing,
      so two different numbers never print the same. */
  lemma {:induction false} NatToStringRoundTrip(n: nat)
    ensures DigitsValue(NatToString(n)) == n
  {
    var r := NatToString(n);
    if n >= 10 {
      NatToStringRoundTrip(n / 10);
      assert r[..|r| - 1] == NatToString(n / 10);
    }
  }

  /** `rows.join(sep)`: the rows with `sep` between neighbours, "" for no rows. */
  function Join(rows: seq<string>, sep: char): string
  {
    if |rows| == 0 then ""
    else if |rows| == 1 then rows[0]
    else rows[0] + [sep] + Join(rows[1..], sep)
  }

  /** `s.split(sep)`: the pieces of `s` between occurrences of `sep`; there is
      always at least one piece, and no piece holds `sep`. */
  function Split(s: string, sep: char): (r: seq<string>)
    ensures |r| >= 1
    ensures forall k :: 0 <= k < |r| ==> sep !in r[k]
  {
    if s == [] then [[]]
    else
      var rest := Split(s[1..], sep);
      if s[0] == sep then [[]] + rest else [[s[0]] + rest[0]] + rest[1..]
  }

  /** A string without the separator is a single piece. */
  lemma {:induction false} SplitWhole(a: string, sep: char)
    requires sep !in a
    ensures Split(a, sep) == [a]
  {
    if a != [] {
      SplitWhole(a[1..], sep);
      assert [a[0]] + a[1..] == a;
    }
  }

  /** Splitting at the first separator yields the text before it, then the
      pieces of the rest. */
  lemma {:induction false} SplitAtFirst(a: string, sep: char, b: string)
    requires sep !in a
    ensures Split(a + [sep] + b, sep) == [a] + Split(b, sep)
  {
    if a == [] {
      assert a + [sep] + b == [sep] + b;
    } else {
      SplitAtFirst(a[1..], sep, b);
      assert (a + [sep] + b)[1..] == a[1..] + [sep] + b;
      assert [a[0]] + a[1..] == a;
    }
  }

  /** Split undoes Join when no row holds the separator and there is at least
      one row. */
  lemma {:induction false} SplitJoin(rows: seq<string>, sep: char)
    requires |rows| >= 1
    requires forall k :: 0 <= k < |rows| ==> sep !in rows[k]
    ensures Split(Join(rows, sep), sep) == rows
  {
    if |rows| == 1 {
      SplitWhole(rows[0], sep);
    } else {
      SplitJoin(rows[1..], sep);
      SplitAtFirst(rows[0], sep, Join(rows[1..], sep));
      assert [rows[0]] + rows[1..] == rows;
    }
  }
}
