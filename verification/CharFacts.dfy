/** Characters: the bytes that UTF-8 spells them with (section 3 of RFC 3629), and which of them are spaces. */
module CharFacts {
  import opened Basics
  import opened Text
  import opened Utf8
  import opened Formulas

  /** The code point that a byte sequence stands for. */
  function Decoded(b: string): int {
    if |b| == 1 then b[0] as int
    else if |b| == 2 then (b[0] as int - 0xc0) * 64 + (b[1] as int - 0x80)
    else if |b| == 3 then ((b[0] as int - 0xe0) * 64 + (b[1] as int - 0x80)) * 64 + (b[2] as int - 0x80)
    else if |b| == 4 then
      (((b[0] as int - 0xf0) * 64 + (b[1] as int - 0x80)) * 64 + (b[2] as int - 0x80)) * 64 + (b[3] as int - 0x80)
    else 0
  }

  predicate Continuation(c: char) {
    0x80 <= c as int <= 0xbf
  }

  /** Bytes in the ranges of the table of RFC 3629, and no longer than needed. */
  predicate WellEncoded(b: string) {
    || (|b| == 1 && b[0] as int <= 0x7f)
    || (|b| == 2 && 0xc2 <= b[0] as int <= 0xdf && Continuation(b[1]))
    || (|b| == 3 && 0xe0 <= b[0] as int <= 0xef && Continuation(b[1]) && Continuation(b[2]) && Decoded(b) >= 0x800)
    || (|b| == 4 && 0xf0 <= b[0] as int <= 0xf4 && Continuation(b[1]) && Continuation(b[2]) && Continuation(b[3])
        && Decoded(b) >= 0x1_0000)
  }

  /** The bytes of a character stand for it, are well encoded, and are as many as its width says. */
  lemma BytesOfChar(c: char)
    ensures WellEncoded(ByteChars(c)) && Decoded(ByteChars(c)) == c as int && |ByteChars(c)| == CharWidth(c)
  {
    var n := c as int;
    Digits64(n);
    Digits64(n / 64);
    Digits64(n / 4096);
  }

  lemma Digits64(n: nat)
    ensures n == n / 64 * 64 + n % 64 && n / 64 / 64 == n / 4096 && n / 4096 / 64 == n / 262144
  {
  }

  /** The characters with the White_Space property. */
  const SPACES: set<int> := {
    0x9, 0xa, 0xb, 0xc, 0xd, 0x20, 0x85, 0xa0, 0x1680,
    0x2000, 0x2001, 0x2002, 0x2003, 0x2004, 0x2005, 0x2006, 0x2007, 0x2008, 0x2009, 0x200a,
    0x2028, 0x2029, 0x202f, 0x205f, 0x3000}

  lemma SpacesAre(c: char)
    ensures IsSpace(c) <==> c as int in SPACES
  {
  }
}
