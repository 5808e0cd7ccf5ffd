/** Package URLs of tools/generate_node_sbom.py. Names and versions are the UTF-8 bytes that
    `urllib.parse.quote` encodes. */
module Purl {
  import opened Wrappers

  type Byte = b: int | 0 <= b < 256

  type Bytes = seq<Byte>

  const PREFIX := "pkg:npm/"

  /** Never quoted: letters, digits and `_.-~` (the unreserved characters of section 2.3 of RFC 3986). */
  predicate IsUnreserved(b: Byte) {
    var c := b as char;
    'A' <= c <= 'Z' || 'a' <= c <= 'z' || '0' <= c <= '9' || c == '_' || c == '.' || c == '-' || c == '~'
  }

  function HexDigit(n: int): char
    requires 0 <= n < 16
  {
    if n < 10 then '0' + n as char else 'A' + (n - 10) as char
  }

  function HexValue(c: char): Option<int> {
    if '0' <= c <= '9' then Some(c as int - '0' as int)
    else if 'A' <= c <= 'F' then Some(c as int - 'A' as int + 10)
    else if 'a' <= c <= 'f' then Some(c as int - 'a' as int + 10)
    else None
  }

  function QuoteByte(b: Byte, safe: char): string {
    if IsUnreserved(b) || b as char == safe then [b as char] else ['%', HexDigit(b / 16), HexDigit(b % 16)]
  }

  /** `quote(text, safe=...)` with one reserved character `safe` left literal. */
  function Quote(text: Bytes, safe: char): string {
    if text == [] then "" else QuoteByte(text[0], safe) + Quote(text[1..], safe)
  }

  /** `package_purl` */
  function PackagePurl(name: Bytes, version: Bytes): string {
    PREFIX + Quote(name, '/') + "@" + Quote(version, '+')
  }

  /** Percent-decoding (section 2.1 of RFC 3986). */
  function Unquote(text: string): Option<Bytes> {
    if text == "" then Some([])
    else if text[0] == '%' then
      if |text| < 3 || HexValue(text[1]).None? || HexValue(text[2]).None? || Unquote(text[3..]).None? then None
      else Some([HexValue(text[1]).value * 16 + HexValue(text[2]).value] + Unquote(text[3..]).value)
    else if text[0] as int >= 256 || Unquote(text[1..]).None? then None
    else Some([text[0] as int] + Unquote(text[1..]).value)
  }

  /** The text before and after the first `@`. */
  function SplitAt(text: string): Option<(string, string)> {
    if text == "" then None
    else if text[0] == '@' then Some(("", text[1..]))
    else match SplitAt(text[1..])
      case None => None
      case Some((before, after)) => Some(([text[0]] + before, after))
  }

  /** The name and version a package URL stands for. */
  function ParsePurl(purl: string): Option<(Bytes, Bytes)> {
    if !(PREFIX <= purl) then None
    else match SplitAt(purl[|PREFIX|..])
      case None => None
      case Some((name, version)) =>
        if Unquote(name).Some? && Unquote(version).Some? then Some((Unquote(name).value, Unquote(version).value))
        else None
  }

  lemma HexRoundTrip(n: int)
    requires 0 <= n < 16
    ensures HexValue(HexDigit(n)) == Some(n) && HexDigit(n) != '@'
  {
  }

  lemma UnquoteByte(b: Byte, safe: char, rest: string)
    requires (safe == '/' || safe == '+') && Unquote(rest).Some?
    ensures Unquote(QuoteByte(b, safe) + rest) == Some([b] + Unquote(rest).value)
  {
    var text := QuoteByte(b, safe) + rest;
    if IsUnreserved(b) || b as char == safe {
      assert text[1..] == rest;
    } else {
      HexRoundTrip(b / 16);
      HexRoundTrip(b % 16);
      assert text[3..] == rest;
    }
  }

  lemma {:induction false} UnquoteQuote(text: Bytes, safe: char)
    requires safe == '/' || safe == '+'
    ensures Unquote(Quote(text, safe)) == Some(text)
  {
    if text != [] {
      UnquoteQuote(text[1..], safe);
      UnquoteByte(text[0], safe, Quote(text[1..], safe));
      assert text == [text[0]] + text[1..];
    }
  }

  lemma {:induction false} QuoteHasNoAt(text: Bytes, safe: char)
    requires safe == '/' || safe == '+'
    ensures '@' !in Quote(text, safe)
  {
    if text != [] {
      QuoteHasNoAt(text[1..], safe);
      HexRoundTrip(text[0] / 16);
      HexRoundTrip(text[0] % 16);
    }
  }

  lemma {:induction false} SplitAtFirst(before: string, after: string)
    requires '@' !in before
    ensures SplitAt(before + "@" + after) == Some((before, after))
  {
    if before == "" {
      assert before + "@" + after == "@" + after;
    } else {
      assert (before + "@" + after)[1..] == before[1..] + "@" + after;
      assert before == [before[0]] + before[1..];
      SplitAtFirst(before[1..], after);
    }
  }

  /** Decoding recovers the package a reference was made from. */
  lemma PurlRoundTrip(name: Bytes, version: Bytes)
    ensures ParsePurl(PackagePurl(name, version)) == Some((name, version))
  {
    var before, after := Quote(name, '/'), Quote(version, '+');
    var purl := PackagePurl(name, version);
    assert purl == PREFIX + (before + "@" + after);
    assert purl[|PREFIX|..] == before + "@" + after;
    QuoteHasNoAt(name, '/');
    SplitAtFirst(before, after);
    UnquoteQuote(name, '/');
    UnquoteQuote(version, '+');
  }

  /** Distinct packages never share a reference. */
  lemma PurlInjective(name: Bytes, version: Bytes, name': Bytes, version': Bytes)
    requires PackagePurl(name, version) == PackagePurl(name', version')
    ensures name == name' && version == version'
  {
    PurlRoundTrip(name, version);
    PurlRoundTrip(name', version');
  }

  // ---------------------------------------------------------------------------------------------
  // What is quoted

  function Text(bytes: Bytes): string {
    seq(|bytes|, i requires 0 <= i < |bytes| => bytes[i] as char)
  }

  /** Letters, digits, `_.-~` and the safe character stay as they are. */
  lemma {:induction false} UnreservedStays(text: Bytes, safe: char)
    requires forall b | b in text :: IsUnreserved(b) || b as char == safe
    ensures Quote(text, safe) == Text(text)
  {
    if text != [] {
      assert text[0] in text && forall b | b in text[1..] :: b in text;
      UnreservedStays(text[1..], safe);
      assert Text(text) == [text[0] as char] + Text(text[1..]);
    }
  }

  predicate IsUpperHex(c: char) {
    '0' <= c <= '9' || 'A' <= c <= 'F'
  }

  /** Any other byte becomes a percent sign and two upper-case digits (section 2.1 of RFC 3986). */
  lemma OthersAreQuoted(b: Byte, safe: char)
    requires !(IsUnreserved(b) || b as char == safe)
    ensures var q := QuoteByte(b, safe);
            && |q| == 3 && q[0] == '%' && IsUpperHex(q[1]) && IsUpperHex(q[2])
            && HexValue(q[1]).value * 16 + HexValue(q[2]).value == b
  {
    HexRoundTrip(b / 16);
    HexRoundTrip(b % 16);
  }

  lemma {:induction false} QuoteAppend(a: Bytes, b: Bytes, safe: char)
    ensures Quote(a + b, safe) == Quote(a, safe) + Quote(b, safe)
  {
    if a == [] {
      assert a + b == b;
    } else {
      assert (a + b)[1..] == a[1..] + b;
      QuoteAppend(a[1..], b, safe);
    }
  }

  predicate IsPlain(b: Byte) {
    var c := b as char;
    'A' <= c <= 'Z' || 'a' <= c <= 'z' || '0' <= c <= '9' || c == '_' || c == '.' || c == '-' || c == '~'
  }

  predicate AllPlain(text: Bytes) {
    forall b | b in text :: IsPlain(b)
  }

  lemma PlainStays(text: Bytes, safe: char)
    requires AllPlain(text)
    ensures Quote(text, safe) == Text(text)
  {
    UnreservedStays(text, safe);
  }

  lemma QuoteCons(b: Byte, text: Bytes, safe: char)
    ensures Quote([b] + text, safe) == QuoteByte(b, safe) + Quote(text, safe)
  {
    assert ([b] + text)[1..] == text;
  }

  lemma ScopedName(scope: Bytes, name: Bytes)
    requires AllPlain(scope) && AllPlain(name)
    ensures Quote([64] + (scope + ([47] + name)), '/') == "%40" + (Text(scope) + ("/" + Text(name)))
  {
    QuoteCons(64, scope + ([47] + name), '/');
    QuoteAppend(scope, [47] + name, '/');
    QuoteCons(47, name, '/');
    PlainStays(scope, '/');
    PlainStays(name, '/');
  }

  /** A scoped package: `@` is quoted and `/` is not; in the version `+` is not. */
  lemma ScopedPurl(scope: Bytes, name: Bytes, version: Bytes)
    requires AllPlain(scope) && AllPlain(name) && forall b | b in version :: IsPlain(b) || b == 43
    ensures PackagePurl([64] + (scope + ([47] + name)), version) ==
            "pkg:npm/" + ("%40" + (Text(scope) + ("/" + Text(name)))) + "@" + Text(version)
  {
    ScopedName(scope, name);
    UnreservedStays(version, '+');
  }
}
