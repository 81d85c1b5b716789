/** Formulas that a row insertion makes mean something else, outside the conditions under which it does not. */
module Misreadings {
  import opened Basics
  import opened Text
  import opened Ordered
  import opened Addresses
  import opened Formulas
  import opened Sheets
  import opened Calc
  import opened CallText
  import opened RowMeaning

  lemma CompactSum(at: Ref)
    ensures Spelled(OfCell("SUM", at), COMPACT) == "=SUM(" + at.Spelled() + ")"
    ensures Spaced(COMPACT) && AsciiLayout(COMPACT)
    ensures ToUpper("SUM") == "SUM" && All("SUM", IsAlpha)
  {
    hide Ref.Spelled;
    assert "=" + ("" + "SUM" + "" + "(") == "=SUM(";
  }

  /** A leading zero: the formula gives zero although A1 has a value, and means A1 once a row is inserted. */
  lemma LeadingZeroMisread(num: Numbers, cell: Cell)
    ensures var cells := map["A1" := cell];
            && EvalFormula(num, cells, "=SUM(A01)") == num.format(0.0)
            && ShiftRows("=SUM(A01)", 1, 1) == ShiftRows("=SUM(A1)", 1, 1)
            && EvalFormula(num, Restructured(cells, InsertRow(1)), ShiftRows("=SUM(A01)", 1, 1))
               == EvalFormula(num, cells, "=SUM(A1)") == num.format(CellNum(num, cells, "A1"))
  {
    hide EvalFormula, ShiftRows, Restructured, CellNum, Spelled, ParseAddr, CanonicalAddr, ColumnNumber, ColumnLetters,
      DecimalValue, Decimal, Total, ToUpper, Spaced, AsciiLayout;
    var cells := map["A1" := cell];
    var zero, one := Ref("A", "01"), Ref("A", "1");
    var callZero, callOne := OfCell("SUM", zero), OfCell("SUM", one);
    TwoSpellings();
    CompactSum(zero);
    CompactSum(one);
    PrintParse("A1");
    assert InRange((1, 1));
    assert zero.Spelled() == "A01" && one.Spelled() == "A1" == one.Key();
    assert "=SUM(" + "A01" + ")" == "=SUM(A01)" && "=SUM(" + "A1" + ")" == "=SUM(A1)";
    ShiftCall(callZero, COMPACT, 1);
    ShiftCall(callOne, COMPACT, 1);
    assert zero.Moved(1) == one.Moved(1);
    EvalSpelled(num, cells, callZero, COMPACT);
    EvalSpelled(num, cells, callOne, COMPACT);
    OtherSpelling(num, cells, callZero);
    BlankSum(num, callZero);
    RowInsertOnCanonicalKeys(num, cells, 1, callOne, COMPACT);
    SingleTotal(num, cells, one.Key());
  }

  lemma BlankSum(num: Numbers, call: Call)
    requires ValidCall(call) && call.OfCell? && ToUpper(call.name) == "SUM"
    ensures CallValue(num, map[], call) == num.format(0.0)
  {
    hide CellRef, Ref.Key;
    SingleTotal(num, map[], call.at.Key());
  }

  const NO_BREAK_SPACE: char := '\U{a0}'

  /** The space is rewritten byte by byte, and the rest of its bytes is no space any more. */
  lemma NonAsciiShift()
    ensures ShiftRows("=SUM(" + [NO_BREAK_SPACE] + "A1)", 1, 1) == "=SUM(" + ['\U{c2}', NO_BREAK_SPACE] + "A2)"
  {
    hide ShiftRows, ColumnNumber, ColumnLetters, DecimalValue, ParseAddr, AddrOf, ToUpper, Spelled, ByteChars;
    var one := Ref("A", "1");
    TwoSpellings();
    CompactSum(one);
    var arg := [NO_BREAK_SPACE] + "A1)";
    assert "=SUM(" + [NO_BREAK_SPACE] + "A1)" == "=" + ("SUM" + "" + ("(" + arg));
    ShiftInert("=", "SUM" + "" + ("(" + arg), 1);
    Token("SUM", "", "(" + arg, 1, 1);
    ShiftNothing(1);
    ShiftInert("(", arg, 1);
    SpaceBytes("A1)");
    assert "A1)" == one.Spelled() + ")";
    ShiftRef(one, ")", 1);
    ShiftInert(")", "", 1);
    assert ")" + "" == ")";
    RowTwo();
    assert one.Moved(1).Spelled() == "A2";
  }

  lemma RowTwo()
    ensures MovedDigits("1", 1, 1) == "2"
  {
    TwoSpellings();
    assert Decimal(2) == "2";
  }

  lemma SpaceBytes(rest: string)
    ensures ShiftRows([NO_BREAK_SPACE] + rest, 1, 1) == ['\U{c2}', NO_BREAK_SPACE] + ShiftRows(rest, 1, 1)
  {
    assert ([NO_BREAK_SPACE] + rest)[1..] == rest;
    assert ByteChars(NO_BREAK_SPACE) == ['\U{c2}', NO_BREAK_SPACE];
  }

  lemma SumOfText(num: Numbers, cells: Cells, arg: string)
    requires arg != "" && !IsSpace(arg[0]) && !IsSpace(arg[|arg|-1]) && arg[|arg|-1] != ')' && ':' !in arg
    requires ToUpper(arg) !in cells
    ensures EvalFormula(num, cells, "=SUM(" + arg + ")") == num.format(0.0)
  {
    hide CallParts, Trim, IndexOf, Total, IsSpace;
    CompactSum(Ref("", ""));
    ParseCall(COMPACT, "SUM", arg);
    assert "" + ("=" + ("" + "SUM" + "" + "(" + arg + ")")) + "" == "=SUM(" + arg + ")";
    TrimAround("", arg, "");
    assert "" + arg + "" == arg;
    IndexOfNone(arg, ':');
    UpperTwice(arg);
    SingleTotal(num, cells, ToUpper(arg));
    BlankWeight(num, Sum, cells, ToUpper(arg));
  }

  /** Spacing outside ASCII: the formula means A1, and nothing at all once a row is inserted. */
  lemma NonAsciiSpaceMisread(num: Numbers, cell: Cell)
    ensures var cells, text := map["A1" := cell], "=SUM(" + [NO_BREAK_SPACE] + "A1)";
            && EvalFormula(num, cells, text) == num.format(CellNum(num, cells, "A1"))
            && EvalFormula(num, Restructured(cells, InsertRow(1)), ShiftRows(text, 1, 1)) == num.format(0.0)
  {
    hide EvalFormula, ShiftRows, CellNum, ParseAddr, ColumnNumber, ColumnLetters, DecimalValue, Decimal, Total,
      Restructured, ToUpper, Spelled, Spaced, AddrOf;
    var cells, one := map["A1" := cell], Ref("A", "1");
    var call, y := OfCell("SUM", one), COMPACT.(lead := [NO_BREAK_SPACE]);
    TwoSpellings();
    CompactSum(one);
    SpacedSum(one);
    assert one.Spelled() == "A1" == one.Key();
    assert "=SUM(" + ([NO_BREAK_SPACE] + "A1" + ")") == "=SUM(" + [NO_BREAK_SPACE] + "A1)";
    EvalSpelled(num, cells, call, y);
    SingleTotal(num, cells, one.Key());
    NonAsciiShift();
    var arg := ['\U{c2}', NO_BREAK_SPACE] + "A2";
    assert "=SUM(" + ['\U{c2}', NO_BREAK_SPACE] + "A2)" == "=SUM(" + arg + ")";
    NotThere(cells, arg);
    SumOfText(num, Restructured(cells, InsertRow(1)), arg);
  }

  lemma SpacedSum(at: Ref)
    ensures var y := COMPACT.(lead := [NO_BREAK_SPACE]);
            Spaced(y) && Spelled(OfCell("SUM", at), y) == "=SUM(" + ([NO_BREAK_SPACE] + at.Spelled() + ")")
  {
    hide Ref.Spelled;
    assert "=" + ("" + "SUM" + "" + "(") == "=SUM(";
  }

  lemma NotThere(cells: Cells, arg: string)
    requires arg == ['\U{c2}', NO_BREAK_SPACE] + "A2" && forall k :: k in cells ==> k == "A1"
    ensures ToUpper(arg) == arg && arg !in Restructured(cells, InsertRow(1))
  {
    hide ParseAddr, AddrOf, Rekeyed, ColumnLetters, Decimal;
    TwoSpellings();
    if arg in Restructured(cells, InsertRow(1)) {
      var k := RekeyedFrom(cells, SortedKeys(cells.Keys), InsertRow(1), arg);
      ParsePrint(1, 2);
      assert ParseAddr(arg) == Some((1, 2));
      NotAnAddress(arg);
    }
  }

  lemma NotAnAddress(arg: string)
    requires |arg| > 0 && arg[0] == '\U{c2}'
    ensures ParseAddr(arg) == None
  {
    var s := ToUpper(arg);
    assert s[0] == arg[0] && Span(s, IsAlpha) == 0;
    assert s[..0] == "";
  }
}
