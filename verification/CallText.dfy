/** The text of SUM, COUNT and ROUND formulas: how a row insertion rewrites it, and what it evaluates to. */
module CallText {
  import opened Basics
  import opened Text
  import opened Addresses
  import opened Formulas
  import opened Sheets
  import opened Calc

  // ------------------------------------------------------------ formula texts

  /** A reference in any letter case, its row number spelled with any digits. */
  datatype Ref = Ref(letters: string, digits: string) {
    predicate Valid() { CellRef(letters, digits) }
    function Spelled(): string { letters + digits }
    function Column(): nat requires Valid() { ColumnNumber(ToUpper(letters)) }
    function Row(): nat requires Valid() { DecimalValue(digits) }
    /** The key that a single cell is looked up under. */
    function Key(): string requires Valid() { ColumnLetters(Column()) + digits }
    function Moved(k: nat): Ref requires Valid() { Ref(letters, MovedDigits(digits, k, 1)) }
    /** The same cell, its row spelled without leading zeros. */
    function Plain(): Ref requires Valid() { Ref(letters, Decimal(Row())) }
  }

  /** A call in any letter case: an aggregate of one cell or of a range between two corners,
      or a ROUND of a cell with an optional second argument. */
  datatype Call =
    | OfCell(name: string, at: Ref)
    | OfRange(name: string, start: Ref, end: Ref)
    | OfRound(name: string, at: Ref, digits: Option<string>)

  /** Spaces around the formula, its name and its reference. */
  datatype Layout = Layout(
    before: string, afterSign: string, afterName: string, lead: string, trail: string, after: string)

  const COMPACT: Layout := Layout("", "", "", "", "", "")

  predicate Spaces(s: string) {
    All(s, IsSpace)
  }

  predicate Spaced(y: Layout) {
    && Spaces(y.before) && Spaces(y.afterSign) && Spaces(y.afterName)
    && Spaces(y.lead) && Spaces(y.trail) && Spaces(y.after)
  }

  predicate AsciiLayout(y: Layout) {
    && All(y.before, IsAscii) && All(y.afterSign, IsAscii) && All(y.afterName, IsAscii)
    && All(y.lead, IsAscii) && All(y.trail, IsAscii) && All(y.after, IsAscii)
  }

  function Reference(call: Call): string {
    match call
    case OfRange(_, start, end) => start.Spelled() + ":" + end.Spelled()
    case _ => call.at.Spelled()
  }

  function Tail(call: Call): string {
    if call.OfRound? && call.digits.Some? then "," + call.digits.value else ""
  }

  function Arguments(call: Call, y: Layout): string {
    y.lead + Reference(call) + y.trail + Tail(call)
  }

  function Spelled(call: Call, y: Layout): string {
    y.before + ("=" + (y.afterSign + call.name + y.afterName + "(" + Arguments(call, y) + ")")) + y.after
  }

  predicate IsAggregate(name: string) {
    ToUpper(name) == "SUM" || ToUpper(name) == "COUNT"
  }

  /** Second arguments without letters: those a row insertion leaves alone. */
  predicate PlainDigits(d: string) {
    All(d, IsAscii) && (forall i :: 0 <= i < |d| ==> !IsAlpha(d[i])) && (d != "" ==> d[|d|-1] != ')')
  }

  predicate ValidCall(call: Call) {
    && call.name != "" && All(call.name, IsAlpha)
    && match call
       case OfCell(name, at) => IsAggregate(name) && at.Valid()
       case OfRange(name, start, end) => IsAggregate(name) && start.Valid() && end.Valid()
       case OfRound(name, at, digits) =>
         ToUpper(name) == "ROUND" && at.Valid() && (digits.Some? ==> PlainDigits(digits.value))
  }

  function MovedCall(call: Call, k: nat): Call
    requires ValidCall(call)
  {
    match call
    case OfCell(name, at) => OfCell(name, at.Moved(k))
    case OfRange(name, start, end) => OfRange(name, start.Moved(k), end.Moved(k))
    case OfRound(name, at, digits) => OfRound(name, at.Moved(k), digits)
  }

  /** The call with its references spelled without leading zeros. */
  function PlainCall(call: Call): Call
    requires ValidCall(call)
  {
    match call
    case OfCell(name, at) => OfCell(name, at.Plain())
    case OfRange(name, start, end) => OfRange(name, start.Plain(), end.Plain())
    case OfRound(name, at, digits) => OfRound(name, at.Plain(), digits)
  }

  // ------------------------------------------------------------ rewriting the text

  lemma ShiftRef(at: Ref, rest: string, k: nat)
    requires at.Valid() && (rest != "" ==> !IsDigit(rest[0]))
    ensures ShiftRows(at.Spelled() + rest, k, 1) == at.Moved(k).Spelled() + ShiftRows(rest, k, 1)
  {
    hide DecimalValue, ShiftRows, ColumnNumber;
    Token(at.letters, at.digits, rest, k, 1);
  }

  lemma ShiftOne(c: char, rest: string, k: nat)
    requires IsAscii(c) && !IsAlpha(c)
    ensures ShiftRows([c] + rest, k, 1) == [c] + ShiftRows(rest, k, 1)
  {
    assert ([c] + rest)[1..] == rest;
  }

  /** Text that rewriting copies as it is. */
  predicate Inert(d: string) {
    All(d, IsAscii) && forall i :: 0 <= i < |d| ==> !IsAlpha(d[i])
  }

  lemma {:induction false} ShiftInert(d: string, rest: string, k: nat)
    requires Inert(d)
    ensures ShiftRows(d + rest, k, 1) == d + ShiftRows(rest, k, 1)
    decreases |d|
  {
    hide ShiftRows;
    if d == "" {
      assert d + rest == rest;
    } else {
      ShiftOne(d[0], d[1..] + rest, k);
      ShiftInert(d[1..], rest, k);
      assert d + rest == [d[0]] + (d[1..] + rest);
      assert d == [d[0]] + d[1..];
    }
  }

  lemma SpacesInert(s: string)
    requires Spaces(s) && All(s, IsAscii)
    ensures Inert(s) && forall i :: 0 <= i < |s| ==> !IsDigit(s[i])
  {
  }

  lemma ShiftReference(call: Call, rest: string, k: nat)
    requires ValidCall(call) && (rest != "" ==> !IsDigit(rest[0]))
    ensures ShiftRows(Reference(call) + rest, k, 1) == Reference(MovedCall(call, k)) + ShiftRows(rest, k, 1)
  {
    hide ShiftRows, CellRef, Ref.Spelled, Ref.Moved;
    if call.OfRange? {
      var s, e := call.start.Spelled(), call.end.Spelled();
      var s', e' := call.start.Moved(k).Spelled(), call.end.Moved(k).Spelled();
      ShiftRef(call.end, rest, k);
      ShiftInert(":", e + rest, k);
      ShiftRef(call.start, ":" + (e + rest), k);
      assert s + ":" + e + rest == s + (":" + (e + rest));
      assert s' + ":" + e' + ShiftRows(rest, k, 1) == s' + (":" + (e' + ShiftRows(rest, k, 1)));
    } else {
      ShiftRef(call.at, rest, k);
    }
  }

  lemma ClosingInert(call: Call, y: Layout)
    requires ValidCall(call) && Spaced(y) && AsciiLayout(y)
    ensures var t := Closing(call, y); Inert(t) && t != "" && !IsDigit(t[0])
  {
    SpacesInert(y.trail);
    SpacesInert(y.after);
  }

  function Head(y: Layout): string { y.before + "=" + y.afterSign }
  function Opening(y: Layout): string { y.afterName + "(" + y.lead }
  function Closing(call: Call, y: Layout): string { y.trail + Tail(call) + ")" + y.after }

  lemma SpelledParts(call: Call, y: Layout)
    ensures Spelled(call, y) == Head(y) + (call.name + (Opening(y) + (Reference(call) + Closing(call, y))))
  {
    hide Reference, Tail;
  }

  /** Rewriting the text of a call moves its references and nothing else. */
  lemma ShiftCall(call: Call, y: Layout, k: nat)
    requires ValidCall(call) && Spaced(y) && AsciiLayout(y)
    ensures ShiftRows(Spelled(call, y), k, 1) == Spelled(MovedCall(call, k), y)
  {
    hide ShiftRows, Reference, ValidCall, Inert, MovedCall, Spelled, Head, Opening, Tail;
    var open, ref, t := Opening(y), Reference(call), Closing(call, y);
    CallName(call);
    MovedShape(call, k);
    SpelledParts(call, y);
    SpelledParts(MovedCall(call, k), y);
    LayoutInert(y);
    ClosingInert(call, y);
    ShiftInert(t, "", k);
    ShiftNothing(k);
    assert t + "" == t;
    ShiftReference(call, t, k);
    ShiftInert(open, ref + t, k);
    Token(call.name, "", open + (ref + t), k, 1);
    assert call.name + "" == call.name;
    ShiftInert(Head(y), call.name + (open + (ref + t)), k);
  }

  lemma ShiftNothing(k: nat)
    ensures ShiftRows("", k, 1) == "" && MovedDigits("", k, 1) == ""
  {
  }

  lemma MovedShape(call: Call, k: nat)
    requires ValidCall(call)
    ensures var moved := MovedCall(call, k); moved.name == call.name && Tail(moved) == Tail(call)
  {
  }

  lemma LayoutInert(y: Layout)
    requires Spaced(y) && AsciiLayout(y)
    ensures Inert(Head(y)) && Inert(Opening(y)) && Opening(y) != ""
    ensures !IsDigit(Opening(y)[0]) && !IsAlpha(Opening(y)[0])
  {
    SpacesInert(y.before);
    SpacesInert(y.afterSign);
    SpacesInert(y.afterName);
    SpacesInert(y.lead);
  }

  lemma CallName(call: Call)
    requires ValidCall(call)
    ensures call.name != "" && All(call.name, IsAlpha)
  {
  }

  // ------------------------------------------------------------ reading the text

  lemma {:induction false} TrimStartPast(a: string, s: string, p: char -> bool)
    requires All(a, p) && (s != "" ==> !p(s[0]))
    ensures TrimStart(a + s, p) == s
    decreases |a|
  {
    if a == "" {
      assert a + s == s;
    } else {
      assert (a + s)[1..] == a[1..] + s;
      TrimStartPast(a[1..], s, p);
    }
  }

  lemma {:induction false} TrimEndPast(s: string, b: string, p: char -> bool)
    requires All(b, p) && (s != "" ==> !p(s[|s|-1]))
    ensures TrimEnd(s + b, p) == s
    decreases |b|
  {
    if b == "" {
      assert s + b == s;
    } else {
      var n := |b| - 1;
      assert (s + b)[|s| + n] == b[n];
      assert (s + b)[..|s| + n] == s + b[..n];
      TrimEndPast(s, b[..n], p);
    }
  }

  /** Trimming removes the spaces around a text. */
  lemma TrimAround(a: string, s: string, b: string)
    requires Spaces(a) && Spaces(b) && s != "" && !IsSpace(s[0]) && !IsSpace(s[|s|-1])
    ensures Trim(a + s + b) == s
  {
    hide IsSpace, TrimStart, TrimEnd;
    assert a + s + b == a + (s + b);
    TrimStartPast(a, s + b, IsSpace);
    TrimEndPast(s, b, IsSpace);
  }

  lemma NoSpaceInWord(s: string)
    requires forall i :: 0 <= i < |s| ==> IsAlpha(s[i]) || IsDigit(s[i])
    ensures forall i :: 0 <= i < |s| ==> !IsSpace(s[i])
  {
  }

  lemma RefText(at: Ref)
    requires at.Valid()
    ensures var s := at.Spelled();
            && |s| >= 2 && (forall i :: 0 <= i < |s| ==> IsAlpha(s[i]) || IsDigit(s[i]))
            && IsAlpha(s[0]) && IsDigit(s[|s|-1])
            && ParseAddr(s) == Some((at.Column(), at.Row())) && ToUpper(s) == at.Key()
  {
    hide DecimalValue, ParseAddr, ColumnNumber, ColumnLetters;
    ParseCellRef(at.letters, at.digits);
  }

  lemma ReferenceText(call: Call)
    requires ValidCall(call)
    ensures var s := Reference(call);
            && |s| >= 2 && (forall i :: 0 <= i < |s| ==> IsAlpha(s[i]) || IsDigit(s[i]) || s[i] == ':')
            && IsAlpha(s[0]) && IsDigit(s[|s|-1]) && !IsSpace(s[0]) && !IsSpace(s[|s|-1])
  {
    hide CellRef, Ref.Spelled, ParseAddr, Ref.Key, Ref.Column, Ref.Row, ToUpper;
    if call.OfRange? {
      RefText(call.start);
      RefText(call.end);
    } else {
      RefText(call.at);
    }
  }

  lemma UpperSpaces(s: string)
    requires Spaces(s)
    ensures ToUpper(s) == s && forall i :: 0 <= i < |s| ==> s[i] != '(' && s[i] != '='
  {
  }

  lemma UpperName(y: Layout, name: string, rest: string)
    requires Spaced(y) && name != "" && All(name, IsAlpha)
    ensures var up, n := ToUpper(y.afterSign + name + y.afterName + "(" + rest), |y.afterSign + name + y.afterName|;
            IndexOf(up, '(') == n && Trim(up[..n]) == ToUpper(name)
  {
    hide Trim, IndexOf, Spaces, IsSpace;
    UpperSpaces(y.afterSign);
    UpperSpaces(y.afterName);
    var pre, tail := y.afterSign + ToUpper(name) + y.afterName, ToUpper(rest);
    assert ToUpper(y.afterSign + name + y.afterName + "(" + rest) == pre + ['('] + tail;
    IndexOfPast(pre, '(', tail);
    assert (pre + ['('] + tail)[..|pre|] == pre;
    NoSpaceInWord(ToUpper(name));
    TrimAround(y.afterSign, ToUpper(name), y.afterName);
  }

  lemma ParseCall(y: Layout, name: string, args: string)
    requires Spaced(y) && name != "" && All(name, IsAlpha) && (args != "" ==> args[|args|-1] != ')')
    ensures CallParts(y.before + ("=" + (y.afterSign + name + y.afterName + "(" + args + ")")) + y.after)
         == Some((ToUpper(name), args))
  {
    hide Trim, TrimStart, TrimEnd, IndexOf, ToUpper, Spaces, IsSpace;
    var body := y.afterSign + name + y.afterName + "(" + args + ")";
    var core := ['='] + body;
    EndsNoSpace();
    TrimAround(y.before, core, y.after);
    UpperSpaces(y.afterSign);
    assert body[0] != '=';
    TrimStartPast("=", body, IsEqualSign);
    assert body == y.afterSign + name + y.afterName + "(" + (args + ")");
    UpperName(y, name, args + ")");
    assert body[|y.afterSign + name + y.afterName| + 1..] == args + [')'];
    TrimEndPast(args, ")", IsClosing);
  }

  lemma EndsNoSpace()
    ensures !IsSpace('=') && !IsSpace(')')
  {
  }

  // ------------------------------------------------------------ what a call means

  function AggregateOf(name: string): Aggregate {
    if ToUpper(name) == "COUNT" then Count else Sum
  }

  function Operands(call: Call): seq<string>
    requires ValidCall(call)
  {
    match call
    case OfRange(_, a, b) =>
      Grid(Min(a.Column(), b.Column()), Max(a.Column(), b.Column()), Min(a.Row(), b.Row()), Max(a.Row(), b.Row()))
    case _ => [call.at.Key()]
  }

  function Places(digits: Option<string>): nat {
    RoundDigits([""] + if digits.None? then [] else SplitArgs(digits.value))
  }

  function CallValue(num: Numbers, cells: Cells, call: Call): string
    requires ValidCall(call)
  {
    match call
    case OfRound(_, _, digits) => num.format(RoundTo(Total(num, Sum, cells, Operands(call)), Places(digits)))
    case _ => num.format(Total(num, AggregateOf(call.name), cells, Operands(call)))
  }

  lemma ArgumentsText(call: Call, y: Layout)
    requires ValidCall(call) && Spaced(y)
    ensures var args := Arguments(call, y); args != "" && args[|args|-1] != ')'
    ensures !call.OfRound? ==> Trim(Arguments(call, y)) == Reference(call)
  {
    hide Reference, Trim, CellRef, IsSpace;
    ReferenceText(call);
    SpaceNotClosing(y.trail);
    if !call.OfRound? {
      TrimAround(y.lead, Reference(call), y.trail);
      assert Arguments(call, y) == y.lead + Reference(call) + y.trail;
    }
  }

  lemma SpaceNotClosing(s: string)
    requires Spaces(s)
    ensures forall i :: 0 <= i < |s| ==> s[i] != ')' && s[i] != '(' && s[i] != ',' && s[i] != '"'
  {
  }

  lemma TwoEnds(s: string, e: string)
    requires (forall i :: 0 <= i < |s| ==> s[i] != ':') && (forall i :: 0 <= i < |e| ==> e[i] != ':')
    ensures IndexOf(s + ":" + e, ':') == |s| && RangeEnds(s + ":" + e) == (s, e)
  {
    hide IndexOf;
    IndexOfPast(s, ':', e);
    IndexOfNone(e, ':');
    assert (s + ":" + e)[..|s|] == s && (s + ":" + e)[|s|+1..] == e && e[..|e|] == e;
  }

  lemma CellText(at: Ref)
    requires at.Valid()
    ensures ExpandRange(at.Spelled()) == [at.Key()]
  {
    hide Ref.Spelled, ParseAddr, Ref.Key, Ref.Column, Ref.Row, IndexOf;
    RefText(at);
    IndexOfNone(at.Spelled(), ':');
  }

  lemma CornersText(a: Ref, b: Ref)
    requires a.Valid() && b.Valid()
    ensures ExpandRange(a.Spelled() + ":" + b.Spelled())
         == Grid(Min(a.Column(), b.Column()), Max(a.Column(), b.Column()), Min(a.Row(), b.Row()), Max(a.Row(), b.Row()))
  {
    hide Ref.Spelled, ParseAddr, Ref.Key, Ref.Column, Ref.Row, IndexOf, Grid, RangeEnds, ToUpper;
    RefText(a);
    RefText(b);
    TwoEnds(a.Spelled(), b.Spelled());
  }

  lemma RangeText(call: Call)
    requires ValidCall(call) && !call.OfRound?
    ensures ExpandRange(Reference(call)) == Operands(call) && Operands(call) != []
  {
    hide CellRef, Ref.Spelled, Ref.Key, Ref.Column, Ref.Row, ExpandRange, Grid;
    match call
    case OfCell(_, at) => CellText(at);
    case OfRange(_, a, b) =>
      CornersText(a, b);
      GridNotEmpty(Min(a.Column(), b.Column()), Max(a.Column(), b.Column()), Min(a.Row(), b.Row()),
                   Max(a.Row(), b.Row()));
  }

  lemma GridNotEmpty(c: nat, cEnd: nat, lo: nat, hi: nat)
    requires c <= cEnd && lo <= hi
    ensures Grid(c, cEnd, lo, hi) != []
  {
  }

  lemma {:induction false} SplitWord(w: string, cur: string, rest: string)
    requires forall i :: 0 <= i < |w| ==> w[i] != ')' && w[i] != '(' && w[i] != ',' && w[i] != '"'
    ensures SplitFrom(w + rest, cur, 0, false) == SplitFrom(rest, cur + w, 0, false)
    decreases |w|
  {
    hide Trim;
    if w == "" {
      assert w + rest == rest && cur + w == cur;
    } else {
      assert (w + rest)[1..] == w[1..] + rest;
      SplitWord(w[1..], cur + [w[0]], rest);
      assert cur + [w[0]] + w[1..] == cur + w;
    }
  }

  lemma RoundArguments(call: Call, y: Layout)
    requires ValidCall(call) && call.OfRound? && Spaced(y)
    ensures SplitArgs(Arguments(call, y))
         == [call.at.Spelled()] + if call.digits.None? then [] else SplitArgs(call.digits.value)
    ensures Trim(call.at.Spelled()) == call.at.Spelled()
  {
    hide CellRef, Ref.Spelled, Trim, IsSpace;
    var s, w := call.at.Spelled(), y.lead + call.at.Spelled() + y.trail;
    ReferenceText(call);
    SpaceNotClosing(y.lead);
    SpaceNotClosing(y.trail);
    SplitWord(w, "", Tail(call));
    assert "" + w == w;
    TrimAround(y.lead, s, y.trail);
    TrimAround("", s, "");
    assert "" + s + "" == s;
    if call.digits.Some? {
      assert ("," + call.digits.value)[1..] == call.digits.value;
    }
  }

  /** Evaluating the text of a call gives its meaning, however it is spaced. */
  lemma EvalSpelled(num: Numbers, cells: Cells, call: Call, y: Layout)
    requires ValidCall(call) && Spaced(y)
    ensures EvalFormula(num, cells, Spelled(call, y)) == CallValue(num, cells, call)
  {
    hide Arguments, EvalCall, CallValue, ValidCall, CallParts, Spaced;
    CallName(call);
    ArgumentsText(call, y);
    ParseCall(y, call.name, Arguments(call, y));
    if call.OfRound? {
      EvalRound(num, cells, call, y);
    } else {
      EvalAggregate(num, cells, call, y);
    }
  }

  lemma EvalAggregate(num: Numbers, cells: Cells, call: Call, y: Layout)
    requires ValidCall(call) && !call.OfRound? && Spaced(y)
    ensures EvalCall(num, cells, ToUpper(call.name), Arguments(call, y)) == CallValue(num, cells, call)
  {
    hide Trim, ExpandRange, Operands, Total, Arguments, ToUpper, CellRef, Spaced, Reference;
    ArgumentsText(call, y);
    RangeText(call);
  }

  lemma EvalRound(num: Numbers, cells: Cells, call: Call, y: Layout)
    requires ValidCall(call) && call.OfRound? && Spaced(y)
    ensures EvalCall(num, cells, ToUpper(call.name), Arguments(call, y)) == CallValue(num, cells, call)
  {
    hide Trim, SplitArgs, CellRef, RoundTo, Ref.Spelled, ParseAddr, AddrOf, RoundDigits, Ref.Key, Total, CellNum,
      Arguments, Spaced;
    var s := call.at.Spelled();
    var more := if call.digits.None? then [] else SplitArgs(call.digits.value);
    RoundArguments(call, y);
    SameCell(num, cells, call.at);
    SingleTotal(num, cells, call.at.Key());
    SameDigits(s, "", more);
    assert ([s] + more)[0] == s;
    assert "ROUND"[0] != "COUNT"[0];
  }

  lemma SameCell(num: Numbers, cells: Cells, at: Ref)
    requires at.Valid()
    ensures CellNum(num, cells, at.Spelled()) == CellNum(num, cells, at.Key())
  {
    hide ParseAddr, Ref.Spelled, Ref.Key, Ref.Column, Ref.Row;
    RefText(at);
    UpperTwice(at.Spelled());
  }

  lemma SameDigits(x: string, y: string, more: seq<string>)
    ensures RoundDigits([x] + more) == RoundDigits([y] + more)
  {
    if more != [] {
      assert ([x] + more)[1] == more[0] && ([y] + more)[1] == more[0];
    }
  }

  lemma SingleTotal(num: Numbers, cells: Cells, a: string)
    ensures forall agg :: Total(num, agg, cells, [a]) == Weight(num, agg, cells, a)
    ensures Total(num, Sum, cells, [a]) == CellNum(num, cells, a)
  {
  }
}
