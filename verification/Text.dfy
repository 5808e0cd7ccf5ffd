/** Python string operations the tools rely on: whitespace, `split`, `join`, and string order. */
module Text {

  /** Characters for which `str.isspace` holds. */
  predicate IsSpace(c: char) {
    || '\t' <= c <= '\r' || '\U{1c}' <= c <= ' ' || c == '\U{85}' || c == '\U{a0}' || c == '\U{1680}'
    || '\U{2000}' <= c <= '\U{200a}' || c == '\U{2028}' || c == '\U{2029}' || c == '\U{202f}'
    || c == '\U{205f}' || c == '\U{3000}'
  }

  /** The ASCII ones are the controls 9 to 13 and 28 to 31, and the blank. */
  lemma AsciiSpaces(c: char)
    requires c < '\U{80}'
    ensures IsSpace(c) <==> c as int in {9, 10, 11, 12, 13, 28, 29, 30, 31, 32}
  {
  }

  predicate NoSpace(s: string) {
    forall c | c in s :: !IsSpace(c)
  }

  predicate IsWord(s: string) {
    s != "" && NoSpace(s)
  }

  predicate AllWords(words: seq<string>) {
    forall w | w in words :: IsWord(w)
  }

  /** The length of the longest prefix free of whitespace. */
  function WordLength(s: string): (n: nat)
    ensures n <= |s| && NoSpace(s[..n]) && (n < |s| ==> IsSpace(s[n]))
  {
    if s == "" || IsSpace(s[0]) then 0 else
      var n := 1 + WordLength(s[1..]);
      assert s[..n] == [s[0]] + s[1..][..n - 1];
      n
  }

  /** `s.split()` */
  function Split(s: string): (words: seq<string>)
    ensures AllWords(words)
    decreases |s|
  {
    if s == "" then []
    else if IsSpace(s[0]) then Split(s[1..])
    else [s[..WordLength(s)]] + Split(s[WordLength(s)..])
  }

  function Hex(n: int): (c: char)
    requires 0 <= n < 16
    ensures '0' <= c <= '9' || 'a' <= c <= 'f'
  {
    "0123456789abcdef"[n]
  }

  /** The last `width` digits of `n` in base sixteen. */
  function HexDigits(n: nat, width: nat): (digits: string)
    ensures |digits| == width && forall c | c in digits :: '0' <= c <= '9' || 'a' <= c <= 'f'
  {
    if width == 0 then "" else HexDigits(n / 16, width - 1) + [Hex(n % 16)]
  }

  /** `separator.join(parts)` for a one-character separator. */
  function Join(separator: char, parts: seq<string>): string {
    if parts == [] then "" else if |parts| == 1 then parts[0] else parts[0] + [separator] + Join(separator, parts[1..])
  }

  lemma {:induction false} WordLengthAt(word: string, rest: string)
    requires NoSpace(word) && (rest == "" || IsSpace(rest[0]))
    ensures WordLength(word + rest) == |word|
  {
    if word == "" {
      assert word + rest == rest;
    } else {
      assert (word + rest)[1..] == word[1..] + rest;
      WordLengthAt(word[1..], rest);
    }
  }

  /** Splitting recovers the words of a join. */
  lemma {:induction false} SplitJoin(words: seq<string>)
    requires AllWords(words)
    ensures Split(Join(' ', words)) == words
  {
    if words != [] {
      var rest := if |words| == 1 then "" else " " + Join(' ', words[1..]);
      assert Join(' ', words) == words[0] + rest;
      assert IsWord(words[0]) by { assert words[0] in words; }
      WordLengthAt(words[0], rest);
      assert (words[0] + rest)[..|words[0]|] == words[0] && (words[0] + rest)[|words[0]|..] == rest;
      if |words| > 1 {
        assert rest[1..] == Join(' ', words[1..]);
        SplitJoin(words[1..]);
      }
    }
  }

  /** A text is a blank or a word, and then more, whatever follows behind a blank. */
  lemma SplitStep(a: string, b: string) returns (first: seq<string>, n: nat)
    requires a != "" && (b == "" || IsSpace(b[0]))
    ensures 0 < n <= |a|
    ensures Split(a) == first + Split(a[n..]) && Split(a + b) == first + Split(a[n..] + b)
  {
    if IsSpace(a[0]) {
      first, n := [], 1;
      assert (a + b)[1..] == a[1..] + b;
    } else {
      n := WordLength(a);
      first := [a[..n]];
      assert a + b == a[..n] + (a[n..] + b);
      WordLengthAt(a[..n], a[n..] + b);
      assert (a + b)[..n] == a[..n] && (a + b)[n..] == a[n..] + b;
    }
  }

  lemma Reassociate<T>(x: seq<T>, y: seq<T>, z: seq<T>)
    ensures x + (y + z) == (x + y) + z
  {
  }

  /** A blank between two texts separates their words. */
  lemma {:induction false} SplitAppend(a: string, b: string)
    requires b == "" || IsSpace(b[0])
    ensures Split(a + b) == Split(a) + Split(b)
    decreases |a|
  {
    if a == "" {
      assert a + b == b;
    } else {
      var first, n := SplitStep(a, b);
      SplitAppend(a[n..], b);
      Reassociate(first, Split(a[n..]), Split(b));
    }
  }
}
