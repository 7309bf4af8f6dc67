/**
 * Python's `str()` of the two kinds of value that `str.format` substitutes
 * into the validator's hints: an `int` (a decimal numeral with an optional
 * minus sign) and a `list` of `str` (the list's `repr`, each item quoted).
 */
module PyFormat {
  import opened Wrappers

  // ---------------------------------------------------------------------
  // Decimal numerals: str(n) for an int n
  // ---------------------------------------------------------------------

  predicate IsDigit(c: char) { '0' <= c <= '9' }

  predicate AllDigits(s: string) { forall i :: 0 <= i < |s| ==> IsDigit(s[i]) }

  /** A canonical numeral: digits only, and no leading zero unless it is "0". */
  predicate IsNumeral(s: string) { |s| > 0 && AllDigits(s) && (s[0] == '0' ==> |s| == 1) }

  function DigitValue(c: char): (d: nat)
    requires IsDigit(c)
    ensures d < 10
  {
    c as int - '0' as int
  }

  function DigitChar(d: nat): (c: char)
    requires d < 10
    ensures IsDigit(c) && DigitValue(c) == d
  {
    ('0' as int + d) as char
  }

  /** str(n) for a non-negative n: the shortest decimal numeral of n. */
  function FormatNat(n: nat): (s: string)
    ensures IsNumeral(s)
    ensures s[0] == '0' <==> n == 0
    decreases n
  {
    if n < 10 then [DigitChar(n)] else FormatNat(n / 10) + [DigitChar(n % 10)]
  }

  /** str(n) for any int: a minus sign before the numeral of |n| when n < 0. */
  function FormatInt(n: int): (s: string)
    ensures ReadInt(s) == Some(n)
  {
    if n < 0 then
      var digits := FormatNat(-n);
      ReadFormatNat(-n);
      assert ("-" + digits)[1..] == digits;
      "-" + digits
    else
      ReadFormatNat(n);
      FormatNat(n)
  }

  /** The value of a string of digits, read most significant digit first. */
  function ReadNat(s: string): nat
    requires |s| > 0 && AllDigits(s)
    decreases |s|
  {
    if |s| == 1 then DigitValue(s[0])
    else 10 * ReadNat(s[..|s| - 1]) + DigitValue(s[|s| - 1])
  }

  /** Reads back exactly the strings FormatInt produces, and nothing else. */
  function ReadInt(s: string): Option<int>
  {
    if |s| > 0 && s[0] == '-' then
      if IsNumeral(s[1..]) && s[1..] != "0" then Some(-(ReadNat(s[1..]) as int)) else None
    else if IsNumeral(s) then Some(ReadNat(s))
    else None
  }

  lemma {:induction false} ReadFormatNat(n: nat)
    ensures ReadNat(FormatNat(n)) == n
  {
    if n >= 10 {
      var s := FormatNat(n);
      ReadFormatNat(n / 10);
      assert s[..|s| - 1] == FormatNat(n / 10);
    }
  }

  lemma {:induction false} FormatReadNat(s: string)
    requires IsNumeral(s)
    ensures FormatNat(ReadNat(s)) == s
  {
    if |s| > 1 {
      var p := s[..|s| - 1];
      assert p[0] == s[0];
      assert IsNumeral(p);
      FormatReadNat(p);
      var m := ReadNat(p);
      assert m != 0;
      var d := DigitValue(s[|s| - 1]);
      assert ReadNat(s) == 10 * m + d;
      assert (10 * m + d) / 10 == m && (10 * m + d) % 10 == d;
      assert DigitChar(d) == s[|s| - 1];
      assert s == p + [s[|s| - 1]];
    } else {
      assert DigitChar(DigitValue(s[0])) == s[0];
      assert s == [s[0]];
    }
  }

  /** ReadInt and FormatInt are inverse: each int has exactly one rendering. */
  lemma ReadIntInvertsFormatInt(n: int, s: string)
    ensures ReadInt(s) == Some(n) <==> FormatInt(n) == s
  {
    if ReadInt(s) == Some(n) {
      if |s| > 0 && s[0] == '-' {
        var t := s[1..];
        FormatReadNat(t);
        assert ReadNat(t) != 0;
        assert s == "-" + t;
      } else {
        FormatReadNat(s);
      }
    }
  }

  /** Two ints render alike only when they are equal. */
  lemma FormatIntInjective(a: int, b: int)
    requires FormatInt(a) == FormatInt(b)
    ensures a == b
  {
  }

  // ---------------------------------------------------------------------
  // str(list) for a list of strings: "[" + ", ".join(map(repr, items)) + "]"
  // ---------------------------------------------------------------------

  predicate IsQuote(q: char) { q == '\'' || q == '"' }

  /** repr quotes with ' unless the text holds a ' and no ". */
  function QuoteFor(s: string): (q: char)
    ensures IsQuote(q)
    ensures q == '"' <==> '\'' in s && '"' !in s
  {
    if '\'' in s && '"' !in s then '"' else '\''
  }

  function HexDigit(d: nat): (c: char)
    requires d < 16
    ensures IsHex(c) && HexValue(c) == d
  {
    if d < 10 then ('0' as int + d) as char else ('a' as int + d - 10) as char
  }

  predicate IsHex(c: char) { '0' <= c <= '9' || 'a' <= c <= 'f' }

  function HexValue(c: char): (d: nat)
    requires IsHex(c)
    ensures d < 16
  {
    if c <= '9' then c as int - '0' as int else c as int - 'a' as int + 10
  }

  /** How repr writes one character inside a literal quoted with q. */
  function EscapeChar(c: char, q: char): string
  {
    if c == q || c == '\\' then ['\\', c]
    else if c == '\t' then "\\t"
    else if c == '\n' then "\\n"
    else if c == '\r' then "\\r"
    else if c as int < 0x20 || c as int == 0x7F then
      "\\x" + [HexDigit(c as int / 16), HexDigit(c as int % 16)]
    else [c]
  }

  function Escape(s: string, q: char): string
  {
    if s == [] then [] else EscapeChar(s[0], q) + Escape(s[1..], q)
  }

  function Prepend(c: char, rest: Option<string>): Option<string>
  {
    if rest.Some? then Some([c] + rest.value) else None
  }

  /**
   * Reads the inside of a literal quoted with q, undoing the escapes above;
   * None for a bare quote or an unknown escape.
   */
  function Unescape(t: string, q: char): Option<string>
    decreases |t|
  {
    if t == [] then Some([])
    else if t[0] == '\\' then
      if |t| >= 2 && (t[1] == q || t[1] == '\\') then Prepend(t[1], Unescape(t[2..], q))
      else if |t| >= 2 && t[1] == 't' then Prepend('\t', Unescape(t[2..], q))
      else if |t| >= 2 && t[1] == 'n' then Prepend('\n', Unescape(t[2..], q))
      else if |t| >= 2 && t[1] == 'r' then Prepend('\r', Unescape(t[2..], q))
      else if |t| >= 4 && t[1] == 'x' && IsHex(t[2]) && IsHex(t[3]) then
        Prepend((16 * HexValue(t[2]) + HexValue(t[3])) as char, Unescape(t[4..], q))
      else None
    else if t[0] == q then None
    else Prepend(t[0], Unescape(t[1..], q))
  }

  lemma UnescapeEscapeChar(c: char, q: char, rest: string)
    requires IsQuote(q)
    ensures Unescape(EscapeChar(c, q) + rest, q) == Prepend(c, Unescape(rest, q))
  {
  }

  lemma {:induction false} UnescapeEscape(s: string, q: char)
    requires IsQuote(q)
    ensures Unescape(Escape(s, q), q) == Some(s)
  {
    if s != [] {
      UnescapeEscape(s[1..], q);
      UnescapeEscapeChar(s[0], q, Escape(s[1..], q));
      assert s == [s[0]] + s[1..];
    }
  }

  /**
   * repr(s) for a str s: the chosen quote at both ends, and between them a
   * body that reads back as s.
   */
  function StrRepr(s: string): (r: string)
    ensures |r| >= 2 && r[0] == r[|r| - 1] == QuoteFor(s)
    ensures Unescape(r[1..|r| - 1], r[0]) == Some(s)
  {
    var q := QuoteFor(s);
    var body := Escape(s, q);
    UnescapeEscape(s, q);
    assert ([q] + body + [q])[1..|body| + 1] == body;
    [q] + body + [q]
  }

  /** A character repr writes as itself in a '-quoted literal: printable ASCII but ' and \. */
  predicate IsPlain(c: char)
  {
    0x20 <= c as int < 0x7F && c != '\'' && c != '\\'
  }

  /** a occurs somewhere in b as a contiguous piece. */
  ghost predicate Occurs(a: string, b: string)
  {
    exists k :: 0 <= k <= |b| && a <= b[k..]
  }

  lemma OccursWithin(a: string, b: string, before: string, after: string)
    requires Occurs(a, b)
    ensures Occurs(a, before + b + after)
  {
    var k :| 0 <= k <= |b| && a <= b[k..];
    var w := before + b + after;
    assert w[|before| + k..] == b[k..] + after;
    assert a <= w[|before| + k..];
  }

  lemma ReprsOccurWithin(items: seq<string>, b: string, before: string, after: string)
    requires forall i :: 0 <= i < |items| ==> Occurs(StrRepr(items[i]), b)
    ensures forall i :: 0 <= i < |items| ==> Occurs(StrRepr(items[i]), before + b + after)
  {
    forall i | 0 <= i < |items|
      ensures Occurs(StrRepr(items[i]), before + b + after)
    {
      OccursWithin(StrRepr(items[i]), b, before, after);
    }
  }

  /** ", ".join of the items' reprs: the repr of every item occurs in it. */
  function JoinReprs(items: seq<string>): (r: string)
    ensures forall i :: 0 <= i < |items| ==> Occurs(StrRepr(items[i]), r)
  {
    if items == [] then ""
    else
      var head := StrRepr(items[0]);
      if |items| == 1 then
        assert head <= head[0..];
        head
      else
        var rest := JoinReprs(items[1..]);
        ReprsOccurWithin(items[1..], rest, head + ", ", "");
        var r := head + ", " + rest;
        assert r == head + ", " + rest + "";
        assert head <= r[0..];
        assert forall i :: 1 <= i < |items| ==> items[i] == items[1..][i - 1];
        r
  }

  /** str(items) for a list items of str: it shows the repr of every item. */
  function ListRepr(items: seq<string>): (r: string)
    ensures |r| >= 2 && r[0] == '[' && r[|r| - 1] == ']'
    ensures forall i :: 0 <= i < |items| ==> Occurs(StrRepr(items[i]), r)
  {
    var j := JoinReprs(items);
    ReprsOccurWithin(items, j, "[", "]");
    "[" + j + "]"
  }

  lemma {:induction false} EscapePlain(s: string)
    requires forall i :: 0 <= i < |s| ==> IsPlain(s[i])
    ensures Escape(s, '\'') == s
  {
    if s != [] {
      EscapePlain(s[1..]);
      assert s == [s[0]] + s[1..];
    }
  }

  /** A label made of plain characters is shown between single quotes, unchanged. */
  lemma PlainStrRepr(s: string)
    requires forall i :: 0 <= i < |s| ==> IsPlain(s[i])
    ensures StrRepr(s) == "'" + s + "'"
  {
    EscapePlain(s);
  }
}
