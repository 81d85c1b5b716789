/** Which texts are cell addresses, and how columns and numbers count up. */
module AddressForms {
  import opened Basics
  import opened Text
  import opened Addresses

  // ------------------------------------------------------------ counting up

  /** The column behind this one: A, B, ..., Z, AA, AB, ... */
  function NextColumn(s: string): string {
    if s == "" then "A"
    else if s[|s|-1] < 'Z' then s[..|s|-1] + [s[|s|-1] + 1 as char]
    else NextColumn(s[..|s|-1]) + "A"
  }

  lemma {:induction false} ColumnsCountUp(s: string)
    requires All(s, IsUpper)
    ensures All(NextColumn(s), IsUpper) && ColumnNumber(NextColumn(s)) == ColumnNumber(s) + 1
    ensures ColumnNumber("") == 0
  {
    var t := NextColumn(s);
    if s == "" {
      assert "A"[..0] == "";
    } else {
      var n := |s| - 1;
      if s[n] < 'Z' {
        assert t[..n] == s[..n] && t[n] == s[n] + 1 as char;
      } else {
        ColumnsCountUp(s[..n]);
        assert t[..|t|-1] == NextColumn(s[..n]);
      }
    }
  }

  /** The number behind this one: 0, 1, ..., 9, 10, 11, ... */
  function NextNumber(s: string): string {
    if s == "" then "1"
    else if s[|s|-1] < '9' then s[..|s|-1] + [s[|s|-1] + 1 as char]
    else NextNumber(s[..|s|-1]) + "0"
  }

  lemma {:induction false} NumbersCountUp(s: string)
    requires All(s, IsDigit)
    ensures All(NextNumber(s), IsDigit) && DecimalValue(NextNumber(s)) == DecimalValue(s) + 1
    ensures DecimalValue("") == 0
  {
    var t := NextNumber(s);
    if s == "" {
      assert "1"[..0] == "";
    } else {
      var n := |s| - 1;
      if s[n] < '9' {
        assert t[..n] == s[..n] && t[n] == s[n] + 1 as char;
      } else {
        NumbersCountUp(s[..n]);
        assert t[..|t|-1] == NextNumber(s[..n]);
      }
    }
  }

  // ------------------------------------------------------------ the form of an address

  /** Letters, perhaps a plus sign, and digits. */
  predicate Formed(s: string, letters: string, sign: string, digits: string) {
    && s == letters + sign + digits && (sign == "" || sign == "+")
    && All(letters, IsAlpha) && digits != "" && All(digits, IsDigit)
  }

  lemma UpperOfLetters(letters: string)
    requires All(letters, IsAlpha)
    ensures All(ToUpper(letters), IsUpper)
  {
  }

  lemma UpperTail(sign: string, digits: string)
    requires (sign == "" || sign == "+") && All(digits, IsDigit)
    ensures ToUpper(sign + digits) == sign + digits
  {
  }

  lemma UpperConcat(a: string, b: string)
    ensures ToUpper(a + b) == ToUpper(a) + ToUpper(b)
  {
  }

  lemma NumberDenotes(sign: string, digits: string)
    requires (sign == "" || sign == "+") && digits != "" && All(digits, IsDigit)
    ensures ParseU32(sign + digits) == if DecimalValue(digits) < TWO_32 then Some(DecimalValue(digits)) else None
    ensures !IsAlpha((sign + digits)[0])
  {
    hide DecimalValue;
    var t := sign + digits;
    if sign == "+" {
      assert t[1..] == digits;
    } else {
      assert t == digits && t[0] != '+';
    }
  }

  lemma NumberIsFormed(t: string) returns (sign: string, digits: string)
    requires ParseU32(t).Some?
    ensures t == sign + digits && (sign == "" || sign == "+") && digits != "" && All(digits, IsDigit)
  {
    hide DecimalValue;
    if t != "" && t[0] == '+' {
      sign, digits := "+", t[1..];
    } else {
      sign, digits := "", t;
    }
  }

  /** Such a text denotes column and row, unless one of them is 0 or the row is too large for 32 bits; the
      column wraps. */
  lemma FormedDenotes(s: string, letters: string, sign: string, digits: string)
    requires Formed(s, letters, sign, digits)
    ensures All(ToUpper(letters), IsUpper)
    ensures var c, r := ColumnNumber(ToUpper(letters)) % TWO_32, DecimalValue(digits);
            ParseAddr(s) == if c == 0 || r == 0 || r >= TWO_32 then None else Some((c, r))
  {
    hide ColumnNumber, DecimalValue, Span, ToUpper, ParseU32;
    UpperOfLetters(letters);
    UpperTail(sign, digits);
    NumberDenotes(sign, digits);
    var up, tail := ToUpper(letters), sign + digits;
    assert s == letters + tail;
    UpperConcat(letters, tail);
    SpanOf(up, tail, IsAlpha);
    assert (up + tail)[..|up|] == up && (up + tail)[|up|..] == tail;
  }

  /** Upper-casing does not make a digit or a plus sign. */
  lemma UpperKeepsTail(t: string, sign: string, digits: string)
    requires ToUpper(t) == sign + digits && (sign == "" || sign == "+") && All(digits, IsDigit)
    ensures t == sign + digits
  {
    forall i | 0 <= i < |t| ensures t[i] == (sign + digits)[i] {
      assert ToUpper(t)[i] == ToUpperChar(t[i]);
      if i >= |sign| { assert (sign + digits)[i] == digits[i - |sign|]; }
    }
  }

  lemma LowerLetters(a: string)
    requires All(ToUpper(a), IsAlpha)
    ensures All(a, IsAlpha)
  {
    forall i | 0 <= i < |a| ensures IsAlpha(a[i]) { assert ToUpper(a)[i] == ToUpperChar(a[i]); }
  }

  /** No other text is an address. */
  lemma AddressIsFormed(s: string) returns (letters: string, sign: string, digits: string)
    requires ParseAddr(s).Some?
    ensures Formed(s, letters, sign, digits)
  {
    hide ColumnNumber, DecimalValue, ToUpper, ParseU32;
    var n := Span(ToUpper(s), IsAlpha);
    letters := s[..n];
    var tail := s[n..];
    assert s == letters + tail;
    UpperConcat(letters, tail);
    assert ToUpper(s)[..n] == ToUpper(letters) && ToUpper(s)[n..] == ToUpper(tail);
    assert All(ToUpper(letters), IsAlpha);
    LowerLetters(letters);
    sign, digits := NumberIsFormed(ToUpper(tail));
    UpperKeepsTail(tail, sign, digits);
  }
}
