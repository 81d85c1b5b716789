/** Rewriting the row numbers in a formula's text when rows move. */
module Formulas {
  import opened Basics
  import opened Text
  import opened Addresses

  /** New number of row `r` when `delta` rows appear (or -delta disappear) at `at`. */
  function MoveRow(r: nat, at: nat, delta: int): nat {
    if delta > 0 && r >= at then (r + delta) % TWO_32
    else if delta < 0 && r > at then (r + delta) % TWO_32
    else r
  }

  function MovedDigits(ds: string, at: nat, delta: int): string
    requires All(ds, IsDigit)
  {
    if ds != "" && DecimalValue(ds) < TWO_32 then Decimal(MoveRow(DecimalValue(ds), at, delta)) else ds
  }

  /** The UTF-8 bytes of a character, each taken as a character of its own. */
  function ByteChars(c: char): (s: string)
    ensures s != "" && (IsAscii(c) ==> s == [c])
  {
    var n := c as int;
    var tail := (x: nat) => (0x80 + x % 64) as char;
    if n < 0x80 then [c]
    else if n < 0x800 then [(0xc0 + n / 64) as char, tail(n)]
    else if n < 0x1_0000 then [(0xe0 + n / 4096) as char, tail(n / 64), tail(n)]
    else [(0xf0 + n / 262144) as char, tail(n / 4096), tail(n / 64), tail(n)]
  }

  /** Letters followed by digits count as a reference; anything else is copied byte by byte. */
  function ShiftRows(f: string, at: nat, delta: int): string
    decreases |f|
  {
    if f == "" then ""
    else if IsAlpha(f[0]) then
      var a := Span(f, IsAlpha);
      var d := Span(f[a..], IsDigit);
      DigitsAfter(f, a, d);
      f[..a] + MovedDigits(f[a..a+d], at, delta) + ShiftRows(f[a+d..], at, delta)
    else
      ByteChars(f[0]) + ShiftRows(f[1..], at, delta)
  }

  lemma DigitsAfter(f: string, a: nat, d: nat)
    requires a <= |f| && d <= |f[a..]| && forall j :: 0 <= j < d ==> IsDigit(f[a..][j])
    ensures All(f[a..a+d], IsDigit)
  {
    assert f[a..a+d] == f[a..][..d];
  }

  /** Scans the letters from `start`, then the digits behind them. */
  method ScanToken(f: string, start: nat) returns (mid: nat, end: nat)
    requires start < |f| && IsAlpha(f[start])
    ensures start < mid <= end <= |f|
    ensures forall j :: start <= j < mid ==> IsAlpha(f[j])
    ensures mid < |f| ==> !IsAlpha(f[mid])
    ensures forall j :: mid <= j < end ==> IsDigit(f[j])
    ensures end < |f| ==> !IsDigit(f[end])
  {
    mid := start;
    while mid < |f| && IsAlpha(f[mid])
      invariant start <= mid <= |f| && forall j :: start <= j < mid ==> IsAlpha(f[j])
    {
      mid := mid + 1;
    }
    end := mid;
    while end < |f| && IsDigit(f[end])
      invariant mid <= end <= |f| && forall j :: mid <= j < end ==> IsDigit(f[j])
    {
      end := end + 1;
    }
  }

  method ShiftFormulaRows(f: string, at: nat, delta: int) returns (out: string)
    ensures out == ShiftRows(f, at, delta)
  {
    hide ShiftRows, MovedDigits;
    out := "";
    var i := 0;
    assert f[0..] == f;
    while i < |f|
      invariant 0 <= i <= |f|
      invariant out + ShiftRows(f[i..], at, delta) == ShiftRows(f, at, delta)
    {
      if IsAlpha(f[i]) {
        var mid, end := ScanToken(f, i);
        TokenAt(f, i, mid, end, at, delta);
        out := out + (f[i..mid] + MovedDigits(f[mid..end], at, delta));
        i := end;
      } else {
        CopyAt(f, i, at, delta);
        out := out + ByteChars(f[i]);
        i := i + 1;
      }
    }
    CopyNothing(f[|f|..], at, delta);
  }

  lemma CopyAt(f: string, i: nat, at: nat, delta: int)
    requires i < |f| && !IsAlpha(f[i])
    ensures ShiftRows(f[i..], at, delta) == ByteChars(f[i]) + ShiftRows(f[i+1..], at, delta)
  {
    assert f[i..][1..] == f[i+1..];
  }

  lemma CopyNothing(f: string, at: nat, delta: int)
    ensures f == "" ==> ShiftRows(f, at, delta) == ""
  {
  }

  /** The token the scan finds at `start` is the one the specification cuts off there. */
  lemma TokenAt(f: string, start: nat, mid: nat, end: nat, at: nat, delta: int)
    requires start < mid <= end <= |f|
    requires forall j :: start <= j < mid ==> IsAlpha(f[j])
    requires mid < |f| ==> !IsAlpha(f[mid])
    requires forall j :: mid <= j < end ==> IsDigit(f[j])
    requires end < |f| ==> !IsDigit(f[end])
    ensures All(f[mid..end], IsDigit)
    ensures ShiftRows(f[start..], at, delta)
         == f[start..mid] + MovedDigits(f[mid..end], at, delta) + ShiftRows(f[end..], at, delta)
  {
    hide MovedDigits;
    assert f[start..] == f[start..mid] + f[mid..end] + f[end..];
    Token(f[start..mid], f[mid..end], f[end..], at, delta);
  }

  /** One token: letters `l`, digits `d`, and a rest that cannot extend either. */
  lemma Token(l: string, d: string, rest: string, at: nat, delta: int)
    requires l != "" && All(l, IsAlpha) && All(d, IsDigit)
    requires rest != "" ==> !IsDigit(rest[0]) && (d == "" ==> !IsAlpha(rest[0]))
    ensures ShiftRows(l + d + rest, at, delta) == l + MovedDigits(d, at, delta) + ShiftRows(rest, at, delta)
  {
    hide MovedDigits;
    var f := l + d + rest;
    assert f == l + (d + rest);
    SpanOf(l, d + rest, IsAlpha);
    assert f[..|l|] == l && f[|l|..] == d + rest;
    SpanOf(d, rest, IsDigit);
    assert f[|l|..|l|+|d|] == d && f[|l|+|d|..] == rest;
  }

  // ------------------------------------------------------------ undoing an inserted row

  /** Every row number that the text refers to is spelled without leading zeros and, if it
      moves when a row appears at `k`, still fits afterwards. */
  predicate Restorable(f: string, k: nat)
    decreases |f|
  {
    if f == "" then true
    else if IsAlpha(f[0]) then
      var a := Span(f, IsAlpha);
      var d := Span(f[a..], IsDigit);
      DigitsAfter(f, a, d);
      RestorableDigits(f[a..a+d], k) && Restorable(f[a+d..], k)
    else
      Restorable(f[1..], k)
  }

  predicate RestorableDigits(ds: string, k: nat)
    requires All(ds, IsDigit)
  {
    ds == "" || DecimalValue(ds) >= TWO_32
    || (CanonicalDecimal(ds) && (DecimalValue(ds) < k || DecimalValue(ds) + 1 < TWO_32))
  }

  lemma DigitsThereAndBack(ds: string, k: nat)
    requires All(ds, IsDigit) && 0 < k
    ensures All(MovedDigits(ds, k, 1), IsDigit) && (MovedDigits(ds, k, 1) == "" <==> ds == "")
    ensures var back := MovedDigits(MovedDigits(ds, k, 1), k, -1);
            && (back == ds <==> RestorableDigits(ds, k))
            && (back != ds ==> |back| < |ds|)
  {
    hide Decimal, DecimalValue;
    if ds != "" && DecimalValue(ds) < TWO_32 {
      var v := DecimalValue(ds);
      var w := MoveRow(v, k, 1);
      DecimalRoundTrip(w);
      DecimalShortest(ds);
      if v >= k && v + 1 == TWO_32 {
        assert MoveRow(w, k, -1) == 0;
        MaxRowIsLong(ds);
      } else {
        assert MoveRow(w, k, -1) == v;
      }
    }
  }

  lemma MaxRowIsLong(ds: string)
    requires ds != "" && All(ds, IsDigit) && DecimalValue(ds) == TWO_32 - 1
    ensures |Decimal(0)| < |ds|
  {
  }

  /** ASCII text keeps its first character, so a rewritten token cannot run into the rest. */
  lemma FirstCharKept(f: string, at: nat, delta: int)
    requires All(f, IsAscii)
    ensures ShiftRows(f, at, delta) == "" <==> f == ""
    ensures f != "" ==> ShiftRows(f, at, delta)[0] == f[0]
  {
    hide MovedDigits;
  }

  /** Of ASCII text: deleting the row just inserted restores it exactly when it is restorable; otherwise
      the result is shorter than the original. */
  lemma {:induction false} AsciiThereAndBack(f: string, k: nat)
    requires All(f, IsAscii) && 0 < k
    ensures var back := ShiftRows(ShiftRows(f, k, 1), k, -1);
            && (back == f <==> Restorable(f, k))
            && (back != f ==> |back| < |f|)
    decreases |f|
  {
    hide MovedDigits, RestorableDigits;
    if f == "" {
    } else if IsAlpha(f[0]) {
      var a := Span(f, IsAlpha);
      var d := Span(f[a..], IsDigit);
      DigitsAfter(f, a, d);
      var l, ds, rest := f[..a], f[a..a+d], f[a+d..];
      assert f == l + ds + rest;
      assert f[a..][d..] == rest;
      AsciiThereAndBack(rest, k);
      DigitsThereAndBack(ds, k);
      TokenThereAndBack(l, ds, rest, k);
      ConcatCompare(l, ds, rest, MovedDigits(MovedDigits(ds, k, 1), k, -1), ShiftRows(ShiftRows(rest, k, 1), k, -1));
    } else {
      var rest := f[1..];
      assert f == [f[0]] + rest;
      AsciiThereAndBack(rest, k);
      var g := ShiftRows(rest, k, 1);
      assert ([f[0]] + g)[1..] == g;
      ConcatCompare([f[0]], "", rest, "", ShiftRows(g, k, -1));
    }
  }

  lemma TokenThereAndBack(l: string, d: string, rest: string, k: nat)
    requires l != "" && All(l, IsAlpha) && All(d, IsDigit) && 0 < k && All(rest, IsAscii)
    requires rest != "" ==> !IsDigit(rest[0]) && (d == "" ==> !IsAlpha(rest[0]))
    requires All(MovedDigits(d, k, 1), IsDigit)
    ensures ShiftRows(ShiftRows(l + d + rest, k, 1), k, -1)
         == l + MovedDigits(MovedDigits(d, k, 1), k, -1) + ShiftRows(ShiftRows(rest, k, 1), k, -1)
  {
    hide MovedDigits, ShiftRows;
    DigitsThereAndBack(d, k);
    FirstCharKept(rest, k, 1);
    Token(l, d, rest, k, 1);
    Token(l, MovedDigits(d, k, 1), ShiftRows(rest, k, 1), k, -1);
  }

  /** Two concatenations whose pieces are equal or strictly shorter. */
  lemma ConcatCompare(l: string, a: string, b: string, a': string, b': string)
    requires (a' != a ==> |a'| < |a|) && (b' != b ==> |b'| < |b|)
    ensures l + a' + b' == l + a + b <==> a' == a && b' == b
    ensures l + a' + b' != l + a + b ==> |l + a' + b'| < |l + a + b|
  {
  }

  // ------------------------------------------------------------ text outside ASCII

  /** Number of characters outside ASCII. */
  function Wide(s: string): nat {
    if s == "" then 0 else (if IsAscii(s[0]) then 0 else 1) + Wide(s[1..])
  }

  lemma {:induction false} WideConcat(a: string, b: string)
    ensures Wide(a + b) == Wide(a) + Wide(b)
  {
    if a == "" {
      assert a + b == b;
    } else {
      assert (a + b)[1..] == a[1..] + b;
      WideConcat(a[1..], b);
    }
  }

  lemma {:induction false} WideAscii(s: string)
    ensures Wide(s) == 0 <==> All(s, IsAscii)
  {
    if s != "" {
      WideAscii(s[1..]);
      assert All(s, IsAscii) <==> IsAscii(s[0]) && All(s[1..], IsAscii);
    }
  }

  lemma WideBytes(c: char)
    ensures IsAscii(c) ==> Wide(ByteChars(c)) == 0
    ensures !IsAscii(c) ==> Wide(ByteChars(c)) >= 2
  {
    var s := ByteChars(c);
    if IsAscii(c) {
      assert s[1..] == "";
    } else {
      assert s == [s[0], s[1]] + s[2..];
      WideConcat([s[0], s[1]], s[2..]);
      assert [s[0], s[1]][1..] == [s[1]] && [s[1]][1..] == "";
    }
  }

  lemma MovedDigitsAscii(ds: string, at: nat, delta: int)
    requires All(ds, IsDigit)
    ensures All(MovedDigits(ds, at, delta), IsAscii)
  {
    if ds != "" && DecimalValue(ds) < TWO_32 {
      DecimalRoundTrip(MoveRow(DecimalValue(ds), at, delta));
    }
  }

  /** Rewriting spells each character outside ASCII as several. */
  lemma {:induction false} WideGrows(f: string, at: nat, delta: int)
    ensures Wide(ShiftRows(f, at, delta)) >= Wide(f)
    ensures Wide(f) > 0 ==> Wide(ShiftRows(f, at, delta)) > Wide(f)
    decreases |f|
  {
    hide MovedDigits, ByteChars, Wide, DecimalValue;
    if f != "" {
      if IsAlpha(f[0]) {
        var a := Span(f, IsAlpha);
        var d := Span(f[a..], IsDigit);
        DigitsAfter(f, a, d);
        var l, ds, rest := f[..a], f[a..a+d], f[a+d..];
        var ds' := MovedDigits(ds, at, delta);
        assert f == l + ds + rest;
        MovedDigitsAscii(ds, at, delta);
        WideAscii(l);
        WideAscii(ds);
        WideAscii(ds');
        WideConcat(l + ds, rest);
        WideConcat(l, ds);
        WideConcat(l + ds', ShiftRows(rest, at, delta));
        WideConcat(l, ds');
        WideGrows(rest, at, delta);
      } else {
        assert f == [f[0]] + f[1..];
        WideConcat([f[0]], f[1..]);
        WideConcat(ByteChars(f[0]), ShiftRows(f[1..], at, delta));
        WideBytes(f[0]);
        WideOne(f[0]);
        WideGrows(f[1..], at, delta);
      }
    } else {
      WideAscii(f);
    }
  }

  lemma WideOne(c: char)
    ensures Wide([c]) == if IsAscii(c) then 0 else 1
  {
    assert [c][1..] == "";
  }

  /** Deleting the row just inserted restores a formula's text exactly when it is ASCII and restorable. */
  lemma ShiftThereAndBack(f: string, k: nat)
    requires 0 < k
    ensures ShiftRows(ShiftRows(f, k, 1), k, -1) == f <==> All(f, IsAscii) && Restorable(f, k)
  {
    hide ShiftRows, Restorable, Wide;
    WideAscii(f);
    if All(f, IsAscii) {
      AsciiThereAndBack(f, k);
    } else {
      WideGrows(f, k, 1);
      WideGrows(ShiftRows(f, k, 1), k, -1);
    }
  }
}
