/** Cell addresses: bijective base-26 column letters followed by a decimal row, both
    held in 32-bit unsigned integers that wrap. */
module Addresses {
  import opened Basics
  import opened Text

  const TWO_32: nat := 0x1_0000_0000

  type Coord = (nat, nat)  // column, row; both counted from 1

  // ------------------------------------------------------------ columns

  function LetterValue(c: char): (v: nat)
    requires IsUpper(c)
    ensures 1 <= v <= 26
  {
    c as int - 'A' as int + 1
  }

  function Letter(d: nat): (c: char)
    requires d < 26
    ensures IsUpper(c) && LetterValue(c) == d + 1
  {
    ('A' as int + d) as char
  }

  /** Number of a column spelled in letters, without any bound. */
  function ColumnNumber(s: string): nat
    requires All(s, IsUpper)
  {
    if s == "" then 0 else ColumnNumber(s[..|s|-1]) * 26 + LetterValue(s[|s|-1])
  }

  function ColumnLetters(n: nat): (s: string)
    ensures All(s, IsUpper)
  {
    if n == 0 then "" else ColumnLetters((n - 1) / 26) + [Letter((n - 1) % 26)]
  }

  lemma {:induction false} ColumnRoundTrip(n: nat)
    ensures ColumnNumber(ColumnLetters(n)) == n
  {
    if n > 0 {
      ColumnRoundTrip((n - 1) / 26);
      var s := ColumnLetters(n);
      assert s[..|s|-1] == ColumnLetters((n - 1) / 26);
    }
  }

  lemma {:induction false} ColumnCanonical(s: string)
    requires All(s, IsUpper)
    ensures ColumnLetters(ColumnNumber(s)) == s
    ensures ColumnNumber(s) == 0 <==> s == ""
  {
    if s != "" {
      var n := |s| - 1;
      ColumnCanonical(s[..n]);
      assert s == s[..n] + [s[n]];
      var d := LetterValue(s[n]) - 1;
      assert ColumnNumber(s) - 1 == ColumnNumber(s[..n]) * 26 + d;
    }
  }

  // ------------------------------------------------------------ parsing and printing

  /** Decimal digits with an optional plus sign, if the value fits. */
  function ParseU32(s: string): Option<nat> {
    var t := if s != "" && s[0] == '+' then s[1..] else s;
    if t != "" && All(t, IsDigit) && DecimalValue(t) < TWO_32 then Some(DecimalValue(t)) else None
  }

  function ParseAddr(addr: string): Option<Coord> {
    var s := ToUpper(addr);
    var i := Span(s, IsAlpha);
    UpperLetters(addr, i);
    var col := ColumnNumber(s[..i]) % TWO_32;
    var row := ParseU32(s[i..]);
    if row.None? || col == 0 || row.value == 0 then None else Some((col, row.value))
  }

  lemma UpperLetters(addr: string, i: nat)
    requires i <= |addr| && forall j :: 0 <= j < i ==> IsAlpha(ToUpper(addr)[j])
    ensures All(ToUpper(addr)[..i], IsUpper)
  {
  }

  function AddrOf(col: nat, row: nat): string {
    ColumnLetters(col) + Decimal(row)
  }

  predicate InRange(c: Coord) {
    0 < c.0 < TWO_32 && 0 < c.1 < TWO_32
  }

  lemma ParsedInRange(a: string)
    ensures ParseAddr(a).Some? ==> InRange(ParseAddr(a).value)
  {
    hide ColumnNumber, DecimalValue;
  }

  /** Letters of any case and digits, leading zeros allowed: what a cell reference looks like. */
  predicate CellRef(letters: string, digits: string) {
    && letters != "" && All(letters, IsAlpha) && All(ToUpper(letters), IsUpper)
    && ColumnNumber(ToUpper(letters)) < TWO_32
    && digits != "" && All(digits, IsDigit) && 0 < DecimalValue(digits) < TWO_32
  }

  lemma ParseCellRef(letters: string, digits: string)
    requires CellRef(letters, digits)
    ensures ParseAddr(letters + digits) == Some((ColumnNumber(ToUpper(letters)), DecimalValue(digits)))
    ensures ToUpper(letters + digits) == ColumnLetters(ColumnNumber(ToUpper(letters))) + digits
  {
    hide DecimalValue, ColumnNumber, ColumnLetters, Span;
    var up := ToUpper(letters);
    assert ToUpper(letters + digits) == up + digits;
    assert !IsAlpha(digits[0]);
    SpanOf(up, digits, IsAlpha);
    ColumnCanonical(up);
    assert (up + digits)[..|up|] == up && (up + digits)[|up|..] == digits;
    assert digits[0] != '+';
  }

  /** One cell spelled in two ways. */
  lemma TwoSpellings()
    ensures CellRef("A", "1") && CellRef("A", "01") && ToUpper("A") == "A" && ColumnNumber("A") == 1
    ensures DecimalValue("1") == 1 && DecimalValue("01") == 1 && CanonicalDecimal("1") && !CanonicalDecimal("01")
    ensures ParseAddr("A1") == Some((1, 1)) && ParseAddr("A01") == Some((1, 1))
    ensures ColumnLetters(1) == "A" && AddrOf(1, 1) == "A1"
  {
    assert ToUpper("A") == "A";
    assert "A"[..0] == "" && ColumnNumber("A") == 1;
    assert "01"[..1] == "0" && "0"[..0] == "" && "1"[..0] == "";
    assert DecimalValue("0") == 0 && DecimalValue("1") == 1 && DecimalValue("01") == 1;
    assert All("A", IsAlpha) && All("A", IsUpper);
    assert All("1", IsDigit) && All("01", IsDigit);
    assert "A" + "1" == "A1" && "A" + "01" == "A01";
    hide ParseAddr;
    ParseCellRef("A", "1");
    ParseCellRef("A", "01");
    ColumnCanonical("A");
    DecimalCanonical("1");
  }

  /** Parsing undoes printing over the whole range of both coordinates. */
  lemma ParsePrint(col: nat, row: nat)
    requires InRange((col, row))
    ensures ParseAddr(AddrOf(col, row)) == Some((col, row))
    ensures ToUpper(AddrOf(col, row)) == AddrOf(col, row)
  {
    hide Decimal, ColumnNumber, ColumnLetters, ParseAddr, DecimalValue;
    var letters := ColumnLetters(col);
    ColumnRoundTrip(col);
    ColumnCanonical(letters);
    DecimalRoundTrip(row);
    assert ToUpper(letters) == letters;
    ParseCellRef(letters, Decimal(row));
  }

  /** Upper-case letters, then digits without a leading zero, both in range. */
  predicate CanonicalAddr(s: string) {
    var i := Span(s, IsAlpha);
    && 0 < i && All(s[..i], IsUpper) && ColumnNumber(s[..i]) < TWO_32
    && CanonicalDecimal(s[i..]) && s[i] != '0' && DecimalValue(s[i..]) < TWO_32
  }

  /** Printing undoes parsing on canonical addresses, which are exactly the printed ones. */
  lemma PrintParse(s: string)
    ensures CanonicalAddr(s) ==>
              var p := ParseAddr(s); p.Some? && InRange(p.value) && AddrOf(p.value.0, p.value.1) == s
    ensures CanonicalAddr(s) <==> exists c, r :: InRange((c, r)) && s == AddrOf(c, r)
  {
    hide Decimal, DecimalValue, ColumnNumber, ColumnLetters, ParseAddr, AddrOf;
    if CanonicalAddr(s) {
      var c, r := CanonicalParts(s);
      ParsePrint(c, r);
    }
    forall c, r | InRange((c, r)) && s == AddrOf(c, r) ensures CanonicalAddr(s) {
      PrintedIsCanonical(c, r);
    }
  }

  lemma CanonicalParts(s: string) returns (c: nat, r: nat)
    requires CanonicalAddr(s)
    ensures InRange((c, r)) && s == AddrOf(c, r)
  {
    var i := Span(s, IsAlpha);
    c, r := ColumnNumber(s[..i]), DecimalValue(s[i..]);
    ColumnCanonical(s[..i]);
    DecimalCanonical(s[i..]);
    assert s == s[..i] + s[i..];
  }

  lemma PrintedIsCanonical(c: nat, r: nat)
    requires InRange((c, r))
    ensures CanonicalAddr(AddrOf(c, r))
  {
    hide Decimal, DecimalValue, ColumnNumber, ColumnLetters, Span;
    var a, d := ColumnLetters(c), Decimal(r);
    DecimalRoundTrip(r);
    ColumnRoundTrip(c);
    ColumnCanonical(a);
    SpanOf(a, d, IsAlpha);
    assert (a + d)[..|a|] == a && (a + d)[|a|..] == d;
  }

  lemma PrintInjective(c: nat, r: nat, c': nat, r': nat)
    requires InRange((c, r)) && InRange((c', r')) && AddrOf(c, r) == AddrOf(c', r')
    ensures c == c' && r == r'
  {
    ParsePrint(c, r);
    ParsePrint(c', r');
  }

  // ------------------------------------------------------------ the loops of the source

  lemma WrapStep(n: nat, d: nat)
    ensures ((n % TWO_32) * 26 + d) % TWO_32 == (n * 26 + d) % TWO_32
  {
    var q := n / TWO_32;
    assert n * 26 + d == ((n % TWO_32) * 26 + d) + (q * 26) * TWO_32;
    WrapMultiple((n % TWO_32) * 26 + d, q * 26);
  }

  lemma {:induction false} WrapMultiple(x: nat, k: nat)
    ensures (x + k * TWO_32) % TWO_32 == x % TWO_32
  {
    if k > 0 {
      WrapMultiple(x, k - 1);
      assert x + k * TWO_32 == (x + (k - 1) * TWO_32) + TWO_32;
    }
  }

  method ParseAddress(addr: string) returns (r: Option<Coord>)
    ensures r == ParseAddr(addr)
  {
    var s := ToUpper(addr);
    var cols, i := 0, 0;
    ghost var n := Span(s, IsAlpha);
    UpperLetters(addr, n);
    while i < |s| && IsAlpha(s[i])
      invariant 0 <= i <= n
      invariant cols == ColumnNumber(s[..i]) % TWO_32
    {
      assert i < n && IsUpper(s[..n][i]);
      assert s[..i+1][..i] == s[..i];
      WrapStep(ColumnNumber(s[..i]), LetterValue(s[i]));
      cols := (cols * 26 + LetterValue(s[i])) % TWO_32;
      i := i + 1;
    }
    assert i == n;
    var row := ParseU32(s[i..]);
    if row.None? || cols == 0 || row.value == 0 {
      return None;
    }
    return Some((cols, row.value));
  }

  method PrintAddress(col: nat, row: nat) returns (s: string)
    ensures s == AddrOf(col, row)
  {
    var n := col;
    s := "";
    while n > 0
      invariant ColumnLetters(n) + s == ColumnLetters(col)
    {
      var rem := (n - 1) % 26;
      assert ColumnLetters(n) + s == ColumnLetters((n - 1) / 26) + ([Letter(rem)] + s);
      s := [Letter(rem)] + s;
      n := (n - 1) / 26;
    }
    s := s + Decimal(row);
  }
}
