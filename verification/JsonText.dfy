/** JSON string literals (section 7 of RFC 8259), as both `JSON.stringify` and
    the Rust serializer write them, and how a reader decodes them. */
module JsonText {

  import opened Wrappers

  const HEX := "0123456789abcdef"

  /** How one character is written inside a literal. */
  function Escaped(c: char): string {
    if c == '\"' then "\\\""
    else if c == '\\' then "\\\\"
    else if c as int == 8 then "\\b"
    else if c as int == 9 then "\\t"
    else if c as int == 10 then "\\n"
    else if c as int == 12 then "\\f"
    else if c as int == 13 then "\\r"
    else if c as int < 0x20 then "\\u00" + [HEX[c as int / 16], HEX[c as int % 16]]
    else [c]
  }

  function Escape(s: string): string {
    if s == "" then "" else Escaped(s[0]) + Escape(s[1..])
  }

  function Quote(s: string): string {
    "\"" + (Escape(s) + "\"")
  }

  // ---- Reading a literal back ----

  function HexValue(c: char): Option<nat> {
    if '0' <= c <= '9' then Some(c as int - '0' as int)
    else if 'a' <= c <= 'f' then Some(c as int - 'a' as int + 10)
    else if 'A' <= c <= 'F' then Some(c as int - 'A' as int + 10)
    else None
  }

  /** Four hexadecimal digits naming a character by itself, not half of a pair. */
  function HexChar(s: string): Option<char>
    requires |s| == 4
  {
    match (HexValue(s[0]), HexValue(s[1]), HexValue(s[2]), HexValue(s[3]))
    case (Some(a), Some(b), Some(c), Some(d)) =>
      var n := ((a * 16 + b) * 16 + c) * 16 + d;
      if n < 0xD800 || 0xE000 <= n < 0x11_0000 then Some(n as char) else None
    case _ => None
  }

  function SimpleEscape(c: char): Option<char> {
    if c == '\"' || c == '\\' || c == '/' then Some(c)
    else if c == 'b' then Some(8 as char)
    else if c == 't' then Some(9 as char)
    else if c == 'n' then Some(10 as char)
    else if c == 'f' then Some(12 as char)
    else if c == 'r' then Some(13 as char)
    else None
  }

  /** The next character of a literal's inside, and what follows it. */
  function ReadChar(s: string): Option<(char, string)> {
    if s == "" || s[0] == '\"' || s[0] as int < 0x20 then None
    else if s[0] != '\\' then Some((s[0], s[1..]))
    else if |s| >= 6 && s[1] == 'u' then
      (match HexChar(s[2..6])
       case Some(c) => Some((c, s[6..]))
       case None => None)
    else if |s| >= 2 then
      (match SimpleEscape(s[1])
       case Some(c) => Some((c, s[2..]))
       case None => None)
    else None
  }

  /** The inside of a literal up to its closing quote, and what follows the quote. */
  function ReadInside(s: string): Option<(string, string)>
    decreases |s|
  {
    if s != "" && s[0] == '\"' then Some(("", s[1..]))
    else
      match ReadChar(s)
      case None => None
      case Some((c, rest)) =>
        if |rest| >= |s| then None
        else
          match ReadInside(rest)
          case None => None
          case Some((inside, after)) => Some(([c] + inside, after))
  }

  /** A literal at the start of `s`, decoded, and what follows it. */
  function ReadLiteral(s: string): Option<(string, string)> {
    if s == "" || s[0] != '\"' then None else ReadInside(s[1..])
  }

  /** Hexadecimal digits count from zero, in either case. */
  lemma HexDigits(c: char, k: nat)
    ensures HexValue(c) == Some(k) <==> k < 16 && (c == "0123456789abcdef"[k] || c == "0123456789ABCDEF"[k])
  {
    if k < 16 {
      assert "0123456789abcdef"[k] == if k < 10 then '0' + k as char else 'a' + (k - 10) as char;
      assert "0123456789ABCDEF"[k] == if k < 10 then '0' + k as char else 'A' + (k - 10) as char;
    }
  }

  lemma HexReads(n: nat)
    requires n < 0x20
    ensures HexChar(['0', '0', HEX[n / 16], HEX[n % 16]]) == Some(n as char)
  {
    var low := n % 16;
    assert HEX[n / 16] == if n < 16 then '0' else '1';
    assert HEX[low] == if low < 10 then '0' + low as char else 'a' + (low - 10) as char;
  }

  lemma ReadsLong(s: string, c: char, rest: string)
    requires |s| >= 6 && s[0] == '\\' && s[1] == 'u' && HexChar(s[2..6]) == Some(c) && s[6..] == rest
    ensures ReadChar(s) == Some((c, rest))
  {
  }

  lemma ReadsEscaped(c: char, rest: string)
    ensures ReadChar(Escaped(c) + rest) == Some((c, rest))
  {
    var s := Escaped(c) + rest;
    assert s[|Escaped(c)|..] == rest;
    if |Escaped(c)| == 6 {
      assert s[2..6] == ['0', '0', HEX[c as int / 16], HEX[c as int % 16]];
      HexReads(c as int);
      ReadsLong(s, c, rest);
    }
  }

  /** No shorter text inside a literal reads as the character. */
  lemma EscapedIsShortest(c: char, unit: string)
    requires ReadChar(unit) == Some((c, ""))
    ensures |Escaped(c)| <= |unit|
  {
  }

  /** Reading one character first, then the rest of the literal. */
  lemma ReadInsideStep(unit: string, c: char, tail: string, inside: string, after: string)
    requires unit != "" && unit[0] != '\"' && ReadChar(unit + tail) == Some((c, tail))
    requires ReadInside(tail) == Some((inside, after))
    ensures ReadInside(unit + tail) == Some(([c] + inside, after))
  {
  }

  lemma {:induction false} ReadsEscape(s: string, closing: string, after: string)
    requires closing == "\"" + after
    ensures ReadInside(Escape(s) + closing) == Some((s, after))
  {
    if s == "" {
      assert Escape(s) + closing == closing && closing[1..] == after;
    } else {
      var tail := Escape(s[1..]) + closing;
      assert Escape(s) + closing == Escaped(s[0]) + tail;
      ReadsEscape(s[1..], closing, after);
      ReadsEscaped(s[0], tail);
      ReadInsideStep(Escaped(s[0]), s[0], tail, s[1..], after);
      assert [s[0]] + s[1..] == s;
    }
  }

  /** A literal reads back as what was written, wherever it stands. */
  lemma QuoteReadsBack(s: string, after: string)
    ensures ReadLiteral(Quote(s) + after) == Some((s, after))
  {
    ReadsEscape(s, "\"" + after, after);
    assert (Escape(s) + "\"") + after == Escape(s) + ("\"" + after);
    assert Quote(s) + after == "\"" + ((Escape(s) + "\"") + after);
  }

  /** Two texts that begin with literals and are equal have equal literals. */
  lemma QuoteCuts(s: string, t: string, x: string, y: string)
    requires Quote(s) + x == Quote(t) + y
    ensures s == t && x == y
  {
    QuoteReadsBack(s, x);
    QuoteReadsBack(t, y);
  }
}
