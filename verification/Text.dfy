/** The pieces of the standard string library that the sheet engine relies on.
    Letter case is that of ASCII. */
module Text {
  import opened Basics

  predicate IsUpper(c: char) { 'A' <= c <= 'Z' }
  predicate IsLower(c: char) { 'a' <= c <= 'z' }
  predicate IsAlpha(c: char) { IsUpper(c) || IsLower(c) }
  predicate IsDigit(c: char) { '0' <= c <= '9' }
  predicate IsAscii(c: char) { c as int < 0x80 }

  /** The White_Space property of Unicode. */
  predicate IsSpace(c: char) {
    var n := c as int;
    || 0x09 <= n <= 0x0d || n == 0x20 || n == 0x85 || n == 0xa0 || n == 0x1680
    || 0x2000 <= n <= 0x200a || n == 0x2028 || n == 0x2029 || n == 0x202f || n == 0x205f || n == 0x3000
  }

  predicate All(s: string, p: char -> bool) {
    forall i :: 0 <= i < |s| ==> p(s[i])
  }

  function ToUpperChar(c: char): char {
    if IsLower(c) then (c as int - 32) as char else c
  }

  function ToLowerChar(c: char): char {
    if IsUpper(c) then (c as int + 32) as char else c
  }

  function ToUpper(s: string): (t: string)
    ensures |t| == |s|
  {
    seq(|s|, i requires 0 <= i < |s| => ToUpperChar(s[i]))
  }

  function ToLower(s: string): (t: string)
    ensures |t| == |s|
  {
    seq(|s|, i requires 0 <= i < |s| => ToLowerChar(s[i]))
  }

  lemma UpperTwice(s: string)
    ensures ToUpper(ToUpper(s)) == ToUpper(s)
  {
  }

  function TrimStart(s: string, p: char -> bool): (t: string)
    ensures |t| <= |s| && (t != "" ==> !p(t[0]))
    ensures t == s[|s| - |t|..]
  {
    if s != "" && p(s[0]) then TrimStart(s[1..], p) else s
  }

  function TrimEnd(s: string, p: char -> bool): (t: string)
    ensures t <= s && (t != "" ==> !p(t[|t|-1]))
  {
    if s != "" && p(s[|s|-1]) then TrimEnd(s[..|s|-1], p) else s
  }

  function Trim(s: string): string {
    TrimEnd(TrimStart(s, IsSpace), IsSpace)
  }

  /** First index of `c`, or the length. */
  function IndexOf(s: string, c: char): (i: nat)
    ensures i <= |s| && (i < |s| ==> s[i] == c)
    ensures forall j :: 0 <= j < i ==> s[j] != c
  {
    if s == "" || s[0] == c then 0 else 1 + IndexOf(s[1..], c)
  }

  /** Length of the longest prefix whose characters satisfy `p`. */
  function Span(s: string, p: char -> bool): (n: nat)
    ensures n <= |s| && (n < |s| ==> !p(s[n]))
    ensures forall j :: 0 <= j < n ==> p(s[j])
  {
    if s == "" || !p(s[0]) then 0 else 1 + Span(s[1..], p)
  }

  lemma {:induction false} SpanOf(a: string, b: string, p: char -> bool)
    requires All(a, p) && (b != "" ==> !p(b[0]))
    ensures Span(a + b, p) == |a|
  {
    if a == "" {
      assert a + b == b;
    } else {
      assert (a + b)[1..] == a[1..] + b;
      SpanOf(a[1..], b, p);
    }
  }

  lemma {:induction false} IndexOfPast(a: string, c: char, b: string)
    requires forall j :: 0 <= j < |a| ==> a[j] != c
    ensures IndexOf(a + [c] + b, c) == |a|
  {
    if a == "" {
      assert a + [c] + b == [c] + b;
    } else {
      assert (a + [c] + b)[1..] == a[1..] + [c] + b;
      IndexOfPast(a[1..], c, b);
    }
  }

  lemma {:induction false} IndexOfNone(s: string, c: char)
    requires forall j :: 0 <= j < |s| ==> s[j] != c
    ensures IndexOf(s, c) == |s|
  {
    if s != "" { IndexOfNone(s[1..], c); }
  }

  // ------------------------------------------------------------ substrings

  predicate StartsWith(s: string, p: string) {
    p <= s
  }

  /** First index at which `p` occurs, if it does. */
  function Find(s: string, p: string): (r: Option<nat>)
    ensures r.Some? ==> r.value + |p| <= |s| && StartsWith(s[r.value..], p)
  {
    if StartsWith(s, p) then Some(0)
    else if s == "" then None
    else
      var r := Find(s[1..], p);
      if r.None? then None
      else
        assert s[1..][r.value..] == s[r.value+1..];
        Some(r.value + 1)
  }

  function Shifted(r: Option<nat>, n: nat): Option<nat> {
    if r.None? then None else Some(n + r.value)
  }

  lemma FindLater(s: string, p: string)
    requires s != "" && !StartsWith(s, p)
    ensures Find(s, p) == Shifted(Find(s[1..], p), 1)
  {
  }

  lemma FindAtStart(s: string, p: string)
    requires StartsWith(s, p)
    ensures Find(s, p) == Some(0)
  {
  }

  // ------------------------------------------------------------ decimal numbers

  function Digit(d: nat): (c: char)
    requires d < 10
    ensures IsDigit(c) && c as int - '0' as int == d
  {
    ('0' as int + d) as char
  }

  function Decimal(n: nat): (s: string)
    ensures s != ""
  {
    if n < 10 then [Digit(n)] else Decimal(n / 10) + [Digit(n % 10)]
  }

  function DecimalValue(s: string): nat
    requires All(s, IsDigit)
  {
    if s == "" then 0 else 10 * DecimalValue(s[..|s|-1]) + (s[|s|-1] as int - '0' as int)
  }

  /** Digits without a leading zero, except for zero itself. */
  predicate CanonicalDecimal(s: string) {
    s != "" && All(s, IsDigit) && (s[0] == '0' ==> |s| == 1)
  }

  lemma {:induction false} DecimalRoundTrip(n: nat)
    ensures CanonicalDecimal(Decimal(n)) && DecimalValue(Decimal(n)) == n
    ensures n > 0 ==> Decimal(n)[0] != '0'
  {
    if n >= 10 {
      DecimalRoundTrip(n / 10);
      var s := Decimal(n);
      assert s[..|s|-1] == Decimal(n / 10);
      assert s[0] == Decimal(n / 10)[0];
    }
  }

  lemma {:induction false} DecimalCanonical(s: string)
    requires CanonicalDecimal(s)
    ensures Decimal(DecimalValue(s)) == s
    ensures s[0] != '0' ==> DecimalValue(s) > 0
  {
    var n := |s| - 1;
    assert s == s[..n] + [s[n]];
    if n == 0 {
      assert s[..n] == "";
    } else {
      DecimalCanonical(s[..n]);
    }
  }

  /** Leading zeros only ever shorten. */
  lemma {:induction false} DecimalShortest(s: string)
    requires s != "" && All(s, IsDigit)
    ensures |Decimal(DecimalValue(s))| <= |s|
    ensures Decimal(DecimalValue(s)) == s <==> CanonicalDecimal(s)
    ensures Decimal(DecimalValue(s)) != s ==> |Decimal(DecimalValue(s))| < |s|
  {
    if CanonicalDecimal(s) {
      DecimalCanonical(s);
    } else {
      DropLeadingZero(s);
      assert |s| > 1;
      DecimalShortest(s[1..]);
    }
  }

  lemma {:induction false} DropLeadingZero(s: string)
    requires s != "" && All(s, IsDigit) && s[0] == '0'
    ensures DecimalValue(s[1..]) == DecimalValue(s)
  {
    var n := |s| - 1;
    if n > 0 {
      DropLeadingZero(s[..n]);
      assert s[1..][..n-1] == s[..n][1..];
    }
  }
}
