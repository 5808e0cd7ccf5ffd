/** Strings as `json.dumps` writes them, with everything but printable ASCII escaped. */
module JsonStrings {
  import opened Wrappers
  import opened Text

  function UnicodeEscape(n: int): string
    requires 0 <= n < 0x1_0000
  {
    "\\u" + HexDigits(n, 4)
  }

  /** A code point as one escape, or as a surrogate pair. */
  function EscapeCodePoint(n: int): string
    requires 0 <= n < 0x11_0000
  {
    if n < 0x1_0000 then UnicodeEscape(n)
    else UnicodeEscape(0xd800 + (n - 0x1_0000) / 1024) + UnicodeEscape(0xdc00 + (n - 0x1_0000) % 1024)
  }

  /** One character as `json.dumps` writes it inside a string. */
  function EscapeChar(c: char): string {
    if c == '"' then "\\\"" else if c == '\\' then "\\\\"
    else if ' ' <= c <= '~' then [c]
    else if c == '\n' then "\\n" else if c == '\r' then "\\r" else if c == '\t' then "\\t"
    else if c == '\U{8}' then "\\b" else if c == '\U{c}' then "\\f"
    else EscapeCodePoint(c as int)
  }

  function Escape(s: string): string {
    if s == "" then "" else EscapeChar(s[0]) + Escape(s[1..])
  }

  predicate IsPlain(s: string) {
    forall c | c in s :: ' ' <= c <= '~' && c != '"' && c != '\\'
  }

  lemma {:induction false} PlainIsUnescaped(s: string)
    requires IsPlain(s)
    ensures Escape(s) == s
  {
    if s != "" {
      assert s[0] in s && forall c | c in s[1..] :: c in s;
      PlainIsUnescaped(s[1..]);
      assert s == [s[0]] + s[1..];
    }
  }

  predicate IsAscii(s: string) {
    forall c | c in s :: ' ' <= c <= '~'
  }

  lemma EscapeCodePointIsAscii(n: int)
    requires 0 <= n < 0x11_0000
    ensures IsAscii(EscapeCodePoint(n))
  {
    if n >= 0x1_0000 {
      var high, low := 0xd800 + (n - 0x1_0000) / 1024, 0xdc00 + (n - 0x1_0000) % 1024;
      assert EscapeCodePoint(n) == UnicodeEscape(high) + UnicodeEscape(low);
    }
  }

  lemma EscapeCharIsAscii(c: char)
    ensures IsAscii(EscapeChar(c))
  {
    EscapeCodePointIsAscii(c as int);
  }

  lemma {:induction false} EscapeIsAscii(s: string)
    ensures IsAscii(Escape(s))
  {
    if s != "" {
      EscapeIsAscii(s[1..]);
      EscapeCharIsAscii(s[0]);
    }
  }

  // ---------------------------------------------------------------------------------------------
  // Reading a string back (section 7 of RFC 8259)

  function HexValue(c: char): int {
    if '0' <= c <= '9' then c as int - '0' as int else if 'a' <= c <= 'f' then c as int - 'a' as int + 10 else 0
  }

  function HexNumber(digits: string): int {
    if digits == "" then 0 else HexNumber(digits[..|digits| - 1]) * 16 + HexValue(digits[|digits| - 1])
  }

  predicate IsScalar(n: int) {
    0 <= n < 0xd800 || 0xe000 <= n < 0x11_0000
  }

  /** The character a two-letter escape stands for. */
  function ShortEscape(c: char): Option<char> {
    if c == '"' || c == '\\' || c == '/' then Some(c)
    else if c == 'n' then Some('\n') else if c == 'r' then Some('\r') else if c == 't' then Some('\t')
    else if c == 'b' then Some('\U{8}') else if c == 'f' then Some('\U{c}')
    else None
  }

  /** The first character of an escaped text, and how long its escape is. */
  function ReadChar(text: string): Option<(char, nat)>
    requires text != ""
  {
    if text[0] != '\\' then
      if text[0] == '"' || text[0] < ' ' then None else Some((text[0], 1))
    else if |text| < 2 then None
    else if text[1] != 'u' then
      if ShortEscape(text[1]).None? then None else Some((ShortEscape(text[1]).value, 2))
    else if |text| < 6 then None
    else
      var n := HexNumber(text[2..6]);
      if IsScalar(n) then Some((n as char, 6))
      else if |text| < 12 || text[6..8] != "\\u" then None
      else
        var code := 0x1_0000 + (n - 0xd800) * 1024 + (HexNumber(text[8..12]) - 0xdc00);
        if IsScalar(code) then Some((code as char, 12)) else None
  }

  function Unescape(text: string): Option<string>
    decreases |text|
  {
    if text == "" then Some("")
    else match ReadChar(text)
      case None => None
      case Some((c, n)) =>
        if n > |text| then None
        else match Unescape(text[n..])
          case None => None
          case Some(rest) => Some([c] + rest)
  }

  function Power16(width: nat): nat {
    if width == 0 then 1 else 16 * Power16(width - 1)
  }

  lemma {:induction false} HexRoundTrip(n: nat, width: nat)
    requires n < Power16(width)
    ensures HexNumber(HexDigits(n, width)) == n
  {
    if width > 0 {
      HexRoundTrip(n / 16, width - 1);
      assert HexDigits(n, width)[..width - 1] == HexDigits(n / 16, width - 1);
      assert HexValue(Hex(n % 16)) == n % 16;
    }
  }

  lemma FourDigits(n: nat, rest: string)
    requires n < 0x1_0000
    ensures var text := UnicodeEscape(n) + rest;
            |text| >= 6 && text[0] == '\\' && text[1] == 'u' && HexNumber(text[2..6]) == n && text[6..] == rest
  {
    assert Power16(4) == 0x1_0000 by {
      assert Power16(2) == 256;
    }
    HexRoundTrip(n, 4);
    assert (UnicodeEscape(n) + rest)[2..6] == HexDigits(n, 4);
  }

  lemma ReadBasic(n: nat, rest: string)
    requires n < 0x1_0000 && IsScalar(n)
    ensures ReadChar(UnicodeEscape(n) + rest) == Some((n as char, 6))
  {
    FourDigits(n, rest);
  }

  lemma ReadPair(n: nat, rest: string)
    requires 0x1_0000 <= n < 0x11_0000
    ensures ReadChar(EscapeCodePoint(n) + rest) == Some((n as char, 12)) && |EscapeCodePoint(n)| == 12
  {
    var high, low := 0xd800 + (n - 0x1_0000) / 1024, 0xdc00 + (n - 0x1_0000) % 1024;
    var tail := UnicodeEscape(low) + rest;
    var text := UnicodeEscape(high) + tail;
    assert EscapeCodePoint(n) + rest == text;
    FourDigits(high, tail);
    FourDigits(low, rest);
    assert text[6..8] == tail[..2] == "\\u" && text[8..12] == tail[2..6];
    assert 0x1_0000 + (high - 0xd800) * 1024 + (low - 0xdc00) == n;
  }

  predicate IsShort(c: char) {
    ' ' <= c <= '~' || c == '\n' || c == '\r' || c == '\t' || c == '\U{8}' || c == '\U{c}'
  }

  lemma ReadShort(c: char, rest: string)
    requires IsShort(c)
    ensures var e := EscapeChar(c); e != "" && ReadChar(e + rest) == Some((c, |e|))
  {
  }

  lemma ReadEscaped(c: char, rest: string)
    ensures var e := EscapeChar(c); e != "" && ReadChar(e + rest) == Some((c, |e|)) && (e + rest)[|e|..] == rest
  {
    if IsShort(c) {
      ReadShort(c, rest);
    } else if c as int < 0x1_0000 {
      ReadBasic(c as int, rest);
    } else {
      ReadPair(c as int, rest);
    }
  }

  /** What is written is read back. */
  lemma {:induction false} UnescapeEscape(s: string)
    ensures Unescape(Escape(s)) == Some(s)
  {
    if s != "" {
      UnescapeEscape(s[1..]);
      ReadEscaped(s[0], Escape(s[1..]));
      assert s == [s[0]] + s[1..];
    }
  }
}
