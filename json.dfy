/**
 * JSON string literals as Go's `json.Marshal` writes them for a Go string
 * (section 7 of RFC 8259), and a decoder for the same grammar.
 *
 * Go's encoder (HTML-safe mode, the mode `json.Marshal` uses) writes `"` and
 * `\` as `\"` and `\\`; backspace, form feed, newline, carriage return and tab
 * as `\b`, `\f`, `\n`, `\r`, `\t`; every other control character below U+0020
 * and the characters `<`, `>`, `&` as `\u00XX` with lower-case hex digits;
 * U+2028 and U+2029 as `\u2028` and `\u2029`; everything else as itself.
 */
module Json {
  import opened Model

  /** A lower-case hexadecimal digit. */
  function HexDigit(n: nat): (d: char)
    requires n < 16
  {
    if n < 10 then ('0' as int + n) as char else ('a' as int + n - 10) as char
  }

  /** The value of a hexadecimal digit of either case, as RFC 8259 admits. */
  function HexValue(d: char): (r: Option<nat>)
    ensures r.Some? ==> r.value < 16
  {
    if '0' <= d <= '9' then Some(d as int - '0' as int)
    else if 'a' <= d <= 'f' then Some(d as int - 'a' as int + 10)
    else if 'A' <= d <= 'F' then Some(d as int - 'A' as int + 10)
    else None
  }

  lemma HexDigitValue(n: nat)
    requires n < 16
    ensures HexValue(HexDigit(n)) == Some(n)
  {
  }

  /** True for the characters the encoder writes as a `\u00XX` escape. */
  predicate NeedsUnicodeEscape(c: char)
  {
    (c as int < 0x20 && c as int != 0x08 && c as int != 0x0C && c != '\n' && c != '\r' && c != '\t')
    || c == '<' || c == '>' || c == '&'
  }

  /** The encoding of one character inside a JSON string literal. */
  function EscapeChar(c: char): (r: string)
    ensures |r| > 0
  {
    if c == '"' then ['\\', '"']
    else if c == '\\' then ['\\', '\\']
    else if c as int == 0x08 then ['\\', 'b']
    else if c as int == 0x0C then ['\\', 'f']
    else if c == '\n' then ['\\', 'n']
    else if c == '\r' then ['\\', 'r']
    else if c == '\t' then ['\\', 't']
    else if NeedsUnicodeEscape(c) then ['\\', 'u', '0', '0', HexDigit(c as int / 16), HexDigit(c as int % 16)]
    else if c as int == 0x2028 || c as int == 0x2029 then ['\\', 'u', '2', '0', '2', HexDigit(c as int % 16)]
    else [c]
  }

  /** The encoding of a string between the quotes. */
  function EscapeBody(s: string): string
    decreases |s|
  {
    if |s| == 0 then "" else EscapeChar(s[0]) + EscapeBody(s[1..])
  }

  /** A character the encoder writes as itself. */
  predicate Plain(c: char)
  {
    c != '"' && c != '\\' && c as int >= 0x20 && !NeedsUnicodeEscape(c) && c as int != 0x2028 && c as int != 0x2029
  }

  /** A string of plain characters is its own encoding. */
  lemma {:induction false} EscapeBodyPlain(s: string)
    requires forall i :: 0 <= i < |s| ==> Plain(s[i])
    ensures EscapeBody(s) == s
    decreases |s|
  {
    if |s| > 0 {
      EscapeBodyPlain(s[1..]);
      assert s == [s[0]] + s[1..];
    }
  }

  /** `json.Marshal` of a string: the quoted, escaped literal. It never fails. */
  function Quote(s: string): string
  {
    "\"" + EscapeBody(s) + "\""
  }

  /** The character named by a two-character escape `\x`, per section 7 of RFC 8259. */
  function ShortEscape(x: char): Option<char>
  {
    if x == '"' then Some('"')
    else if x == '\\' then Some('\\')
    else if x == '/' then Some('/')
    else if x == 'b' then Some(0x08 as char)
    else if x == 'f' then Some(0x0C as char)
    else if x == 'n' then Some('\n')
    else if x == 'r' then Some('\r')
    else if x == 't' then Some('\t')
    else None
  }

  /** The value of the four hexadecimal digits that start `t`. */
  function Hex4(t: string): (r: Option<nat>)
    ensures r.Some? ==> r.value < 0x10000
  {
    if |t| < 4 then None
    else match (HexValue(t[0]), HexValue(t[1]), HexValue(t[2]), HexValue(t[3]))
      case (Some(a), Some(b), Some(c), Some(d)) =>
        assert a * 16 + b < 256;
        assert (a * 16 + b) * 16 + c < 4096;
        Some(((a * 16 + b) * 16 + c) * 16 + d)
      case _ => None
  }

  /** The character a UTF-16 surrogate pair names. */
  function SurrogatePair(hi: nat, lo: nat): char
    requires 0xD800 <= hi < 0xDC00 && 0xDC00 <= lo < 0xE000
  {
    var high := hi - 0xD800;
    assert high * 0x400 <= 0x3FF * 0x400;
    (0x10000 + high * 0x400 + (lo - 0xDC00)) as char
  }

  function Prepend(c: char, r: Option<(string, string)>): Option<(string, string)>
  {
    match r
    case None => None
    case Some((d, rest)) => Some(([c] + d, rest))
  }

  /**
   * Decodes the body of a string literal whose opening quote has been read:
   * the decoded text and what follows the closing quote, or None when `t` is
   * not a well-formed body. A `\u` escape of a high surrogate must be followed
   * by a `\u` escape of a low surrogate; the pair names one character.
   */
  function DecodeBody(t: string): Option<(string, string)>
    decreases |t|
  {
    if |t| == 0 then None
    else if t[0] == '"' then Some(("", t[1..]))
    else if t[0] == '\\' then
      if |t| < 2 then None
      else if t[1] == 'u' then
        match Hex4(t[2..])
        case None => None
        case Some(n) =>
          if 0xD800 <= n < 0xDC00 then
            if |t| >= 12 && t[6] == '\\' && t[7] == 'u' then
              match Hex4(t[8..])
              case None => None
              case Some(lo) =>
                if 0xDC00 <= lo < 0xE000
                then Prepend(SurrogatePair(n, lo), DecodeBody(t[12..]))
                else None
            else None
          else if 0xDC00 <= n < 0xE000 then None
          else Prepend(n as char, DecodeBody(t[6..]))
      else
        match ShortEscape(t[1])
        case None => None
        case Some(c) => Prepend(c, DecodeBody(t[2..]))
    else if t[0] as int < 0x20 then None
    else Prepend(t[0], DecodeBody(t[1..]))
  }

  /** Decodes a string literal at the start of `t`: its text and the rest of `t`. */
  function Unquote(t: string): Option<(string, string)>
  {
    if |t| > 0 && t[0] == '"' then DecodeBody(t[1..]) else None
  }

  /** A character written as `\u00XX` decodes back. */
  lemma UnicodeEscapeDecodes(c: char, t: string)
    requires NeedsUnicodeEscape(c) && c != '"' && c != '\\'
    ensures DecodeBody(EscapeChar(c) + t) == Prepend(c, DecodeBody(t))
  {
    var e := EscapeChar(c) + t;
    var n := c as int;
    HexDigitValue(n / 16);
    HexDigitValue(n % 16);
    assert e[2..][..4] == ['0', '0', HexDigit(n / 16), HexDigit(n % 16)];
    assert Hex4(e[2..]) == Some(n);
    assert e[6..] == t;
  }

  /** U+2028 and U+2029, written as `\u202X`, decode back. */
  lemma LineSeparatorDecodes(c: char, t: string)
    requires !NeedsUnicodeEscape(c) && (c as int == 0x2028 || c as int == 0x2029)
    ensures DecodeBody(EscapeChar(c) + t) == Prepend(c, DecodeBody(t))
  {
    var e := EscapeChar(c) + t;
    var n := c as int;
    HexDigitValue(n % 16);
    assert Hex4(e[2..]) == Some(n);
    assert e[6..] == t;
  }

  /** Decoding the encoding of one character yields that character. */
  lemma EscapeCharDecodes(c: char, t: string)
    ensures DecodeBody(EscapeChar(c) + t) == Prepend(c, DecodeBody(t))
  {
    var e := EscapeChar(c) + t;
    if NeedsUnicodeEscape(c) && c != '"' && c != '\\' {
      UnicodeEscapeDecodes(c, t);
    } else if !NeedsUnicodeEscape(c) && (c as int == 0x2028 || c as int == 0x2029) {
      LineSeparatorDecodes(c, t);
    } else if c == '"' || c == '\\' || c as int == 0x08 || c as int == 0x0C || c == '\n' || c == '\r' || c == '\t' {
      assert e[2..] == t;
    } else {
      assert e[1..] == t;
    }
  }

  /** Decoding an escaped body followed by the closing quote gives back the text and the rest. */
  lemma {:induction false} EscapeBodyDecodes(s: string, rest: string)
    ensures DecodeBody(EscapeBody(s) + "\"" + rest) == Some((s, rest))
    decreases |s|
  {
    if |s| == 0 {
      assert EscapeBody(s) + "\"" + rest == "\"" + rest;
    } else {
      assert EscapeBody(s) + "\"" + rest == EscapeChar(s[0]) + (EscapeBody(s[1..]) + "\"" + rest);
      EscapeCharDecodes(s[0], EscapeBody(s[1..]) + "\"" + rest);
      EscapeBodyDecodes(s[1..], rest);
      assert [s[0]] + s[1..] == s;
    }
  }

  /** Round trip: the literal `json.Marshal` writes decodes to the original string, whatever follows it. */
  lemma QuoteRoundTrip(s: string, rest: string)
    ensures Unquote(Quote(s) + rest) == Some((s, rest))
  {
    var t := Quote(s) + rest;
    assert t[1..] == EscapeBody(s) + "\"" + rest;
    EscapeBodyDecodes(s, rest);
  }

  /** Distinct strings have distinct literals, and no literal is a proper prefix of another. */
  lemma QuoteInjective(a: string, ra: string, b: string, rb: string)
    requires Quote(a) + ra == Quote(b) + rb
    ensures a == b && ra == rb
  {
    QuoteRoundTrip(a, ra);
    QuoteRoundTrip(b, rb);
  }
}
