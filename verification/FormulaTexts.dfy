/** Formula texts at the edges: no call, an unknown function, a bad range, too few arguments, extra signs. */
module FormulaTexts {
  import opened Basics
  import opened Text
  import opened Addresses
  import opened Sheets
  import opened Calc
  import opened CallText
  import opened FormulaValues
  import opened FormulaConditions

  // ------------------------------------------------------------ no call, no function, no range

  lemma StartStep(s: string, p: char -> bool)
    ensures s != "" && p(s[0]) ==> TrimStart(s, p) == TrimStart(s[1..], p)
    ensures s == "" || !p(s[0]) ==> TrimStart(s, p) == s
  {
  }

  lemma {:induction false} StartChars(s: string, p: char -> bool, c: char)
    requires c !in s
    ensures c !in TrimStart(s, p)
  {
    hide TrimStart;
    StartStep(s, p);
    if s != "" && p(s[0]) {
      assert forall i :: 0 <= i < |s[1..]| ==> s[1..][i] == s[i+1];
      StartChars(s[1..], p, c);
    }
  }

  lemma EndChars(s: string, p: char -> bool, c: char)
    requires c !in s
    ensures c !in TrimEnd(s, p)
  {
    hide TrimEnd;
    var u := TrimEnd(s, p);
    assert forall i :: 0 <= i < |u| ==> u[i] == s[i];
  }

  lemma UpperParenthesis(t: string)
    ensures forall i :: 0 <= i < |t| ==> (ToUpper(t)[i] == '(' <==> t[i] == '(')
  {
  }

  /** Text without a parenthesis is no call and gives nothing. */
  lemma NoCall(num: Numbers, cells: Cells, f: string)
    requires '(' !in f
    ensures EvalFormula(num, cells, f) == ""
  {
    hide IsSpace, EvalCall, TrimStart, TrimEnd, ToUpper, IndexOf;
    StartChars(f, IsSpace, '(');
    EndChars(TrimStart(f, IsSpace), IsSpace, '(');
    StartChars(Trim(f), IsEqualSign, '(');
    var t := TrimStart(Trim(f), IsEqualSign);
    UpperParenthesis(t);
    IndexOfNone(ToUpper(t), '(');
  }

  /** A call of `name` with the given text between its parentheses. */
  function CallOf(y: Layout, name: string, arg: string): string {
    y.before + ("=" + (y.afterSign + name + y.afterName + "(" + arg + ")")) + y.after
  }

  predicate CallShape(y: Layout, name: string, arg: string) {
    Spaced(y) && name != "" && All(name, IsAlpha) && (arg != "" ==> arg[|arg|-1] != ')')
  }

  /** Functions that are read with arguments of their own. */
  predicate Special(name: string) {
    name == "IF" || name == "COUNT" || name == "COUNTIF" || name == "ROUND"
  }

  predicate Known(name: string) {
    Special(name) || name == "SUM" || name == "AVERAGE" || name == "AVG" || name == "MIN" || name == "MAX"
  }

  /** A function that does not exist gives nothing. */
  lemma UnknownFunction(num: Numbers, cells: Cells, y: Layout, name: string, arg: string)
    requires CallShape(y, name, arg) && !Known(ToUpper(name)) && IndexOf(Trim(arg), ':') == |Trim(arg)|
    ensures EvalFormula(num, cells, CallOf(y, name, arg)) == ""
  {
    hide CallParts, ToUpper, Trim, IndexOf, Spaced;
    ParseCall(y, name, arg);
  }

  predicate NoColon(s: string) {
    ':' !in s
  }

  /** Two corners of which one is no address make a range without cells: its count is zero, and every other
      function of ranges, existing or not, gives the text 0. */
  lemma BadRange(num: Numbers, cells: Cells, y: Layout, name: string, arg: string, left: string, right: string)
    requires CallShape(y, name, arg) && arg == left + ":" + right && Trim(arg) == arg
    requires NoColon(left) && NoColon(right) && (ParseAddr(left).None? || ParseAddr(right).None?)
    ensures !Special(ToUpper(name)) ==> EvalFormula(num, cells, CallOf(y, name, arg)) == "0"
    ensures ToUpper(name) == "COUNT" ==> EvalFormula(num, cells, CallOf(y, name, arg)) == num.format(0.0)
  {
    hide CallParts, ToUpper, Trim, ParseAddr, ExpandRange, EvalCall, CallOf, Special, CallShape, NoColon;
    CallIs(y, name, arg);
    NoCells(left, right);
    NoCellsValue(num, cells, ToUpper(name), arg);
  }

  lemma NoCells(left: string, right: string)
    requires NoColon(left) && NoColon(right) && (ParseAddr(left).None? || ParseAddr(right).None?)
    ensures ExpandRange(left + ":" + right) == []
  {
    hide ToUpper, IndexOf, ParseAddr, Grid;
    var arg := left + ":" + right;
    IndexOfPast(left, ':', right);
    IndexOfNone(right, ':');
    assert arg[..|left|] == left && arg[|left|+1..] == right && right[..|right|] == right;
  }

  lemma NoCellsValue(num: Numbers, cells: Cells, name: string, arg: string)
    requires ExpandRange(Trim(arg)) == []
    ensures !Special(name) ==> EvalCall(num, cells, name, arg) == "0"
    ensures name == "COUNT" ==> EvalCall(num, cells, name, arg) == num.format(0.0)
  {
    hide Trim, ExpandRange, SplitArgs;
  }

  /** What follows a second colon does not count. */
  lemma ThirdCorner(left: string, right: string, rest: string)
    requires NoColon(left) && NoColon(right)
    ensures ExpandRange(left + ":" + (right + ":" + rest)) == ExpandRange(left + ":" + right)
  {
    hide ToUpper, IndexOf, ParseAddr, Grid;
    var arg, arg' := left + ":" + right, left + ":" + (right + ":" + rest);
    IndexOfPast(left, ':', right);
    IndexOfPast(left, ':', right + ":" + rest);
    IndexOfPast(right, ':', rest);
    IndexOfNone(right, ':');
    assert arg[..|left|] == left && arg[|left|+1..] == right && right[..|right|] == right;
    assert arg'[..|left|] == left && arg'[|left|+1..] == right + ":" + rest && (right + ":" + rest)[..|right|] == right;
  }

  // ------------------------------------------------------------ extra signs

  /** Leading equal signs are dropped, however many there are. */
  lemma ExtraEqualSign(num: Numbers, cells: Cells, f: string)
    requires f != "" ==> !IsSpace(f[0])
    ensures EvalFormula(num, cells, "=" + f) == EvalFormula(num, cells, f)
  {
    hide IsSpace, EvalCall, IndexOf, ToUpper, TrimEnd, TrimStart, Trim;
    SignDropped(f);
  }

  lemma SignDropped(f: string)
    requires f != "" ==> !IsSpace(f[0])
    ensures TrimStart(Trim("=" + f), IsEqualSign) == TrimStart(Trim(f), IsEqualSign)
  {
    hide IsSpace, TrimEnd, TrimStart;
    StartKept(f);
    TrimEndSign(f);
    SignFirst(TrimEnd(f, IsSpace));
  }

  lemma StartKept(f: string)
    requires f != "" ==> !IsSpace(f[0])
    ensures TrimStart("=" + f, IsSpace) == "=" + f && TrimStart(f, IsSpace) == f
  {
    hide IsSpace, TrimStart;
    EndsNoSpace();
    var s := "=" + f;
    assert s[0] == '=';
    StartStep(s, IsSpace);
    StartStep(f, IsSpace);
  }

  lemma SignFirst(t: string)
    ensures TrimStart("=" + t, IsEqualSign) == TrimStart(t, IsEqualSign)
  {
    hide TrimStart;
    var s := "=" + t;
    assert s[0] == '=' && s[1..] == t;
    StartStep(s, IsEqualSign);
  }

  lemma {:induction false} TrimEndSign(f: string)
    ensures TrimEnd("=" + f, IsSpace) == "=" + TrimEnd(f, IsSpace)
    decreases |f|
  {
    hide IsSpace;
    EndsNoSpace();
    var s := "=" + f;
    if f == "" {
      assert s[0] == '=';
    } else {
      assert s[|s|-1] == f[|f|-1] && s[..|s|-1] == "=" + f[..|f|-1];
      TrimEndSign(f[..|f|-1]);
    }
  }

  lemma {:induction false} TrimStartMore(f: string, g: string, p: char -> bool, k: nat)
    requires k < |f| && !p(f[k])
    ensures TrimStart(f + g, p) == TrimStart(f, p) + g
    decreases |f|
  {
    hide TrimStart;
    var s := f + g;
    assert s[0] == f[0];
    StartStep(s, p);
    StartStep(f, p);
    if p(f[0]) {
      assert s[1..] == f[1..] + g;
      TrimStartMore(f[1..], g, p, k - 1);
    }
  }

  /** Closing parentheses at the end do not count, however many there are. */
  lemma ExtraParenthesis(num: Numbers, cells: Cells, f: string, k: nat)
    requires k < |f| && f[k] == '(' && !IsSpace(f[|f|-1])
    ensures EvalFormula(num, cells, f + ")") == EvalFormula(num, cells, f)
  {
    hide EvalCall, CallParts, IsSpace;
    PartsMore(f, k);
  }

  lemma PartsMore(f: string, k: nat)
    requires k < |f| && f[k] == '(' && !IsSpace(f[|f|-1])
    ensures CallParts(f + ")") == CallParts(f)
  {
    hide IsSpace, TrimStart, TrimEnd, Trim, Cut;
    PartsAreCut(f);
    PartsAreCut(f + ")");
    TrimMore(f);
    var j := OpeningLeft(f, k);
    TrimStartMore(Trim(f), ")", IsEqualSign, j);
    var i := OpeningAfterSigns(Trim(f), j);
    CutMore(TrimStart(Trim(f), IsEqualSign), i);
  }

  /** Name and argument text of a trimmed formula without its equal sign. */
  function Cut(t: string): Option<(string, string)> {
    var i := IndexOf(ToUpper(t), '(');
    if i == |t| then None else Some((Trim(ToUpper(t)[..i]), TrimEnd(t[i+1..], IsClosing)))
  }

  lemma PartsAreCut(f: string)
    ensures CallParts(f) == Cut(TrimStart(Trim(f), IsEqualSign))
  {
    hide TrimStart, TrimEnd, Trim, IndexOf, ToUpper;
  }

  lemma CutMore(t: string, i: nat)
    requires i < |t| && t[i] == '('
    ensures Cut(t + ")") == Cut(t)
  {
    hide TrimEnd, Trim, IndexOf, ToUpper;
    SplitMore(t, i);
  }

  lemma EndKept(s: string, p: char -> bool)
    requires s != "" && !p(s[|s|-1])
    ensures TrimEnd(s, p) == s
  {
  }

  lemma TrimMore(f: string)
    requires f != "" && !IsSpace(f[|f|-1])
    ensures Trim(f) == TrimStart(f, IsSpace) && Trim(f + ")") == Trim(f) + ")"
  {
    hide IsSpace, TrimStart, TrimEnd;
    TrimStartMore(f, ")", IsSpace, |f| - 1);
    LastKept(f);
    ClosingKept(TrimStart(f, IsSpace));
  }

  lemma LastKept(f: string)
    requires f != "" && !IsSpace(f[|f|-1])
    ensures TrimEnd(TrimStart(f, IsSpace), IsSpace) == TrimStart(f, IsSpace)
  {
    hide IsSpace, TrimStart, TrimEnd;
    StartSpares(f, |f| - 1, IsSpace);
    var s := TrimStart(f, IsSpace);
    assert s[|s|-1] == f[|f|-1];
    EndKept(s, IsSpace);
  }

  lemma ClosingKept(s: string)
    ensures TrimEnd(s + ")", IsSpace) == s + ")"
  {
    hide IsSpace, TrimEnd;
    EndsNoSpace();
    EndKept(s + ")", IsSpace);
  }

  /** Name and arguments are cut at the same place. */
  lemma SplitMore(t: string, i: nat)
    requires i < |t| && t[i] == '('
    ensures var n := IndexOf(ToUpper(t), '(');
            && n < |t| && IndexOf(ToUpper(t + ")"), '(') == n
            && ToUpper(t + ")")[..n] == ToUpper(t)[..n]
            && TrimEnd((t + ")")[n+1..], IsClosing) == TrimEnd(t[n+1..], IsClosing)
  {
    hide IndexOf, ToUpper, TrimEnd;
    UpperMore(t);
    UpperParenthesis(t);
    IndexMore(ToUpper(t), ")", '(', i);
    var n := IndexOf(ToUpper(t), '(');
    assert (t + ")")[n+1..] == t[n+1..] + ")" && (ToUpper(t) + ")")[..n] == ToUpper(t)[..n];
    TrimEndOnce(t[n+1..]);
  }

  lemma TrimEndOnce(s: string)
    ensures TrimEnd(s + ")", IsClosing) == TrimEnd(s, IsClosing)
  {
    assert (s + ")")[..|s|] == s;
  }

  lemma UpperMore(t: string)
    ensures ToUpper(t + ")") == ToUpper(t) + ")"
  {
  }

  /** The parenthesis of `f` survives the trimming. */
  lemma OpeningLeft(f: string, k: nat) returns (j: nat)
    requires k < |f| && f[k] == '(' && !IsSpace(f[|f|-1])
    ensures j < |Trim(f)| && Trim(f)[j] == '('
  {
    hide IsSpace, TrimStart, Trim;
    NoSpaceParenthesis();
    TrimMore(f);
    StartSpares(f, k, IsSpace);
    j := k - (|f| - |Trim(f)|);
  }

  lemma OpeningAfterSigns(s: string, j: nat) returns (i: nat)
    requires j < |s| && s[j] == '('
    ensures var t := TrimStart(s, IsEqualSign); i < |t| && t[i] == '('
  {
    hide TrimStart;
    StartSpares(s, j, IsEqualSign);
    i := j - (|s| - |TrimStart(s, IsEqualSign)|);
  }

  lemma NoSpaceParenthesis()
    ensures !IsSpace('(')
  {
  }

  lemma {:induction false} StartSpares(s: string, k: nat, p: char -> bool)
    requires k < |s| && !p(s[k])
    ensures |s| - |TrimStart(s, p)| <= k
  {
    hide TrimStart;
    StartStep(s, p);
    if p(s[0]) { StartSpares(s[1..], k - 1, p); }
  }

  lemma {:induction false} IndexMore(s: string, g: string, c: char, k: nat)
    requires k < |s| && s[k] == c
    ensures IndexOf(s + g, c) == IndexOf(s, c) < |s|
  {
    assert (s + g)[0] == s[0];
    if s[0] != c {
      assert (s + g)[1..] == s[1..] + g;
      IndexMore(s[1..], g, c, k - 1);
    }
  }

  // ------------------------------------------------------------ arguments

  lemma NamesUpper()
    ensures ToUpper("IF") == "IF" && ToUpper("COUNTIF") == "COUNTIF" && ToUpper("ROUND") == "ROUND"
    ensures All("IF", IsAlpha) && All("COUNTIF", IsAlpha) && All("ROUND", IsAlpha)
  {
  }

  lemma CompactCall(name: string, arg: string)
    ensures CallOf(COMPACT, name, arg) == "=" + name + "(" + arg + ")" && Spaced(COMPACT)
  {
    assert "" + ("=" + ("" + name + "" + "(" + arg + ")")) + "" == "=" + name + "(" + arg + ")";
  }

  lemma NothingTrimmed()
    ensures Trim("") == ""
  {
  }

  lemma OneArgument(w: string)
    requires w == "" || Word(w)
    ensures SplitArgs(w) == if w == "" then [] else [w]
  {
    hide IsSpace, Trim, WithoutQuotes, IsArgument;
    if w == "" {
      NothingTrimmed();
    } else {
      PlainState(w);
      TrimWord(w);
      assert JoinedArgs([w]) == w && [w][..0] == [];
      SplitJoined([w]);
    }
  }

  /** IF and COUNTIF give nothing without a second argument, and ROUND without a first. */
  lemma TooFewArguments(num: Numbers, cells: Cells, w: string)
    requires w == "" || Word(w)
    ensures EvalFormula(num, cells, "=" + "IF" + "(" + w + ")") == ""
    ensures EvalFormula(num, cells, "=" + "COUNTIF" + "(" + w + ")") == ""
    ensures EvalFormula(num, cells, "=" + "ROUND" + "(" + "" + ")") == ""
  {
    hide CallParts, SplitArgs, IsSpace, EvalCond, EvalAtom, CountIf, Trim, ToUpper, CallOf;
    NamesUpper();
    CompactCall("IF", w);
    CompactCall("COUNTIF", w);
    CompactCall("ROUND", "");
    OneArgument(w);
    OneArgument("");
    CallIs(COMPACT, "IF", w);
    CallIs(COMPACT, "COUNTIF", w);
    CallIs(COMPACT, "ROUND", "");
  }

  lemma CallIs(y: Layout, name: string, arg: string)
    requires CallShape(y, name, arg)
    ensures CallParts(CallOf(y, name, arg)) == Some((ToUpper(name), arg))
  {
    hide CallParts, ToUpper, Spaced;
    ParseCall(y, name, arg);
  }

  /** Text in apostrophes stands for itself. */
  lemma IfOfLiteral(num: Numbers, cells: Cells, a: string, t: string)
    requires Word(a) && (forall i :: 0 <= i < |t| ==> t[i] != ',' && t[i] != '"' && t[i] != '(' && t[i] != ')')
    ensures EvalFormula(num, cells, "=" + "IF" + "(" + (a + "," + ("'" + t + "'")) + ")") ==
            if Truth(num, Meaning(num, cells, a)) then t else ""
  {
    hide CallParts, EvalAtom, EvalCond, Meaning, IsSpace, SplitArgs, Trim, WithoutQuotes, IsArgument, Truth, ToUpper,
      CallOf;
    var q := "'" + t + "'";
    var raw, args := a + "," + q, [a, q];
    NamesUpper();
    PlainState(a);
    PlainState(q);
    TrimWord(a);
    LiteralAtom(num, cells, t);
    assert args[1..] == [q] && JoinedArgs([q]) == q && JoinedArgs(args) == raw;
    SplitJoined(args);
    assert args[..1] == [a] && ReadArgs([a]) == [a];
    CompactCall("IF", raw);
    CallIs(COMPACT, "IF", raw);
    ConditionOfWord(num, cells, a);
    NoAtom(num, cells);
  }

  /** Apostrophes around a criterion do not count. */
  lemma CountIfApostrophes(num: Numbers, cells: Cells, ref: string, op: string, w: string)
    requires Word(ref) && Criterion(op, w)
    ensures EvalFormula(num, cells, "=" + "COUNTIF" + "(" + (ref + "," + ("'" + (op + w) + "'")) + ")")
         == EvalFormula(num, cells, "=" + "COUNTIF" + "(" + (ref + "," + (op + w)) + ")")
  {
    hide CallParts, IsSpace, SplitArgs, Trim, CountIf, ToUpper, CallOf, Unquoted, ExpandRange, Criterion;
    NamesUpper();
    CriterionText(op, w);
    var s := op + w;
    var t := "'" + s + "'";
    ApostrophesDropped(op, w);
    CountIfPair(ref, s);
    CountIfPair(ref, t);
    CompactCall("COUNTIF", ref + "," + s);
    CompactCall("COUNTIF", ref + "," + t);
    CallIs(COMPACT, "COUNTIF", ref + "," + s);
    CallIs(COMPACT, "COUNTIF", ref + "," + t);
  }

  lemma CountIfPair(ref: string, s: string)
    requires Word(ref) && Unsplit(s) && s != "" && Trim(s) == s
    ensures SplitArgs(ref + "," + s) == [ref, s] && (ref + "," + s)[|ref + "," + s| - 1] != ')'
  {
    hide IsSpace, SplitArgs, Trim, WithoutQuotes, IsArgument;
    var args := [ref, s];
    PlainState(ref);
    PlainState(s);
    TrimWord(ref);
    assert args[1..] == [s] && JoinedArgs([s]) == s && JoinedArgs(args) == ref + "," + s;
    SplitJoined(args);
    assert args[..1] == [ref] && ReadArgs([ref]) == [ref];
  }

  lemma ApostrophesDropped(op: string, w: string)
    requires Criterion(op, w)
    ensures var t := "'" + (op + w) + "'"; Unsplit(t) && t != "" && Trim(t) == t && Unquoted(t) == op + w
  {
    hide IsSpace, Trim, Unquoted;
    CriterionUnsplit(op, w);
    var s := op + w;
    assert s[|s|-1] == w[|w|-1] && s[0] == if op == "" then w[0] else op[0];
    UnquotedBetween(s, '\'');
    assert "'" + s + "'" == ['\''] + s + ['\''];
  }

  lemma LiteralAtom(num: Numbers, cells: Cells, t: string)
    ensures var q := "'" + t + "'"; Trim(q) == q && EvalAtom(num, cells, q) == t
  {
    hide Trim, ParseAddr;
    var q := "'" + t + "'";
    TrimWord(q);
    assert q[1..|q|-1] == t;
  }

  /** A negative second argument of ROUND asks for no places. */
  lemma RoundNegative(num: Numbers, cells: Cells, name: string, at: Ref, n: nat, y: Layout, x: real)
    returns (z: real, units: int)
    requires name != "" && All(name, IsAlpha) && ToUpper(name) == "ROUND" && at.Valid() && Spaced(y)
    requires CountsAs(num, cells, at.Key(), x)
    ensures PlainDigits("-" + Decimal(n))
    ensures EvalFormula(num, cells, Spelled(OfRound(name, at, Some("-" + Decimal(n))), y)) == num.format(z)
    ensures IsRounded(x, 0, z, units)
  {
    hide EvalFormula, CellNum, CellRef, Spelled, Spaced, CountsAs, RoundTo, IsRounded, Decimal, Total;
    NegativePlaces(n);
    EvalSpelled(num, cells, OfRound(name, at, Some("-" + Decimal(n))), y);
    SingleTotal(num, cells, at.Key());
    KeyUpper(at);
    NumberIs(num, cells, at.Key(), x);
    z := RoundTo(x, 0);
    units := RoundToIs(x, 0);
  }

  lemma NegativePlaces(n: nat)
    ensures PlainDigits("-" + Decimal(n)) && Places(Some("-" + Decimal(n))) == 0
  {
    hide DecimalValue, Decimal, Trim, SplitArgs, IsSpace;
    var d := "-" + Decimal(n);
    DecimalRoundTrip(n);
    DigitsTrimmed(Decimal(n));
    assert d[|d|-1] == Decimal(n)[|Decimal(n)|-1] && d[1..] == Decimal(n);
    DigitsPlain(Decimal(n));
    OneArgument(d);
    TrimWord(d);
    assert ([""] + [d])[1] == d;
  }

  lemma DigitsPlain(d: string)
    requires d != "" && All(d, IsDigit)
    ensures Word("-" + d) && PlainDigits("-" + d)
  {
    var s := "-" + d;
    assert forall i :: 0 <= i < |s| ==> s[i] == '-' || IsDigit(s[i]);
  }
}
