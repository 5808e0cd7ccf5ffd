/** SHA-256 digests as the tools write them. */
module HexDigests {

  predicate IsHexDigit(c: char) {
    '0' <= c <= '9' || 'a' <= c <= 'f'
  }

  /** `^[0-9a-f]{64}$` */
  predicate IsSha256(s: string) {
    |s| == 64 && forall c | c in s :: IsHexDigit(c)
  }

  lemma HexDigitIff(c: char)
    ensures IsHexDigit(c) <==> c in "0123456789abcdef"
  {
    if '0' <= c <= '9' {
      assert "0123456789abcdef"[c as int - 48] == c;
    }
    if 'a' <= c <= 'f' {
      assert "0123456789abcdef"[c as int - 87] == c;
    }
  }

  /** Sixty-four digits of base sixteen, in lower case. */
  lemma Sha256Iff(s: string)
    ensures IsSha256(s) <==> |s| == 64 && forall c | c in s :: c in "0123456789abcdef"
  {
    forall c: char ensures IsHexDigit(c) <==> c in "0123456789abcdef" {
      HexDigitIff(c);
    }
  }
}
