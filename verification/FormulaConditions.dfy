/** What IF and COUNTIF evaluate to. */
module FormulaConditions {
  import opened Basics
  import opened Text
  import opened LetterCase
  import opened Addresses
  import opened Sheets
  import opened Calc
  import opened CallText
  import opened FormulaValues

  // ------------------------------------------------------------ comparisons

  /** How numbers compare; two that differ by less than a billionth are equal. */
  predicate NumbersRelated(op: string, l: real, r: real) {
    if op == ">" then l > r
    else if op == "<" then l < r
    else if op == ">=" then l >= r
    else if op == "<=" then l <= r
    else if op == "=" then -0.000000001 < l - r < 0.000000001
    else !(-0.000000001 < l - r < 0.000000001)
  }

  /** How texts compare when one of them is no number: equal, different, or not at all. */
  predicate TextsRelated(op: string, l: string, r: string) {
    (op == "=" && l == r) || ((op == "<>" || op == "!=") && l != r)
  }

  predicate Related(num: Numbers, op: string, l: string, r: string) {
    if num.parse(l).Some? && num.parse(r).Some? then NumbersRelated(op, num.parse(l).value, num.parse(r).value)
    else TextsRelated(op, l, r)
  }

  predicate IsComparison(op: string) {
    op == ">=" || op == "<=" || op == "<>" || op == "!=" || op == "=" || op == ">" || op == "<"
  }

  lemma OpsDiffer()
    ensures ">" != "<" && ">" != "=" && "<" != "=" && ">=" != "<=" && ">=" != "<>" && ">=" != "!=" && "<=" != "<>"
    ensures "<=" != "!=" && "<>" != "!="
  {
    assert ">"[0] != "<"[0] && ">"[0] != "="[0] && "<"[0] != "="[0] && ">="[0] != "<="[0] && ">="[0] != "<>"[0];
    assert ">="[0] != "!="[0] && "<="[1] != "<>"[1] && "<="[0] != "!="[0] && "<>"[0] != "!="[0];
  }

  lemma CompareIs(num: Numbers, l: string, op: string, r: string)
    requires IsComparison(op)
    ensures Compare(num, l, op, r) == Related(num, op, l, r)
  {
    OpsDiffer();
  }

  // ------------------------------------------------------------ words

  predicate Mark(c: char) {
    c == '<' || c == '>' || c == '=' || c == '!'
  }

  /** Text that is one piece of an argument list: no comparison sign, comma, quote or parenthesis in it, no
      space or apostrophe at its ends. */
  predicate Word(w: string) {
    && w != "" && !IsSpace(w[0]) && !IsSpace(w[|w|-1]) && w[0] != '\'' && w[|w|-1] != '\''
    && forall i :: 0 <= i < |w| ==> !Mark(w[i]) && w[i] != ',' && w[i] != '"' && w[i] != '(' && w[i] != ')'
  }

  /** What a word stands for: a number, the text of a cell, or itself. */
  function Meaning(num: Numbers, cells: Cells, w: string): string {
    if num.parse(w).Some? then num.format(num.parse(w).value)
    else if ParseAddr(w).None? then w
    else if ToUpper(w) in cells then cells[ToUpper(w)].value
    else ""
  }

  lemma TrimWord(w: string)
    requires w != "" && !IsSpace(w[0]) && !IsSpace(w[|w|-1])
    ensures Trim(w) == w
  {
    hide Trim, IsSpace;
    TrimAround("", w, "");
    assert "" + w + "" == w;
  }

  lemma AtomIs(num: Numbers, cells: Cells, w: string)
    requires Word(w)
    ensures EvalAtom(num, cells, w) == Meaning(num, cells, w)
  {
    hide ParseAddr, Trim, ToUpper, IsSpace;
    TrimWord(w);
    assert w[0] != '"';
  }

  lemma {:induction false} PlainState(w: string)
    requires forall i :: 0 <= i < |w| ==> w[i] != ',' && w[i] != '"' && w[i] != '(' && w[i] != ')'
    ensures IsArgument(w) && WithoutQuotes(w) == w
  {
    if w != "" {
      PlainState(w[1..]);
      assert w == [w[0]] + w[1..];
    }
  }

  // ------------------------------------------------------------ finding the comparison

  predicate OccursAt(s: string, p: string, i: nat) {
    i + |p| <= |s| && s[i..i+|p|] == p
  }

  lemma {:induction false} FindAbsent(s: string, p: string)
    requires p != "" && forall i: nat :: !OccursAt(s, p, i)
    ensures Find(s, p) == None
    decreases |s|
  {
    assert !OccursAt(s, p, 0);
    if s != "" {
      forall i: nat ensures !OccursAt(s[1..], p, i) {
        assert !OccursAt(s, p, i + 1);
        if i + |p| <= |s| - 1 { assert s[1..][i..i+|p|] == s[i+1..i+1+|p|]; }
      }
      FindAbsent(s[1..], p);
    }
  }

  lemma {:induction false} FindHere(a: string, p: string, b: string)
    requires p != "" && forall i :: 0 <= i < |a| ==> a[i] != p[0]
    ensures Find(a + p + b, p) == Some(|a|)
    decreases |a|
  {
    hide Find;
    var s := a + p + b;
    if a == "" {
      assert s == p + b;
      FindAtStart(s, p);
    } else {
      assert s[0] == a[0] && s[1..] == a[1..] + p + b;
      FindLater(s, p);
      FindHere(a[1..], p, b);
    }
  }

  /** The comparisons that come before `op` in the list of those looked for. */
  predicate Earlier(o: string, op: string) {
    IsComparison(o) && IsComparison(op) && o != op && (|o| == 2 || (|op| == 1 && (o == "=" || op == "<")))
  }

  lemma EarlierAbsent(a: string, op: string, b: string, o: string)
    requires Earlier(o, op) && (forall i :: 0 <= i < |a| ==> !Mark(a[i])) && (forall i :: 0 <= i < |b| ==> !Mark(b[i]))
    ensures Find(a + op + b, o) == None
  {
    var s := a + op + b;
    assert Mark(o[0]) && Mark(o[|o|-1]);
    forall i: nat ensures !OccursAt(s, o, i) {
      if i + |o| <= |s| {
        assert s[i..i+|o|][0] == s[i] && s[i..i+|o|][|o|-1] == s[i+|o|-1];
        assert |o| == |op| && i == |a| ==> s[i..i+|o|] == op;
      }
    }
    FindAbsent(s, o);
  }

  lemma {:induction false} CondAt(num: Numbers, cells: Cells, c: string, ops: seq<string>, k: nat)
    requires k < |ops| && (forall j :: 0 <= j < k ==> Find(c, ops[j]) == None) && Find(c, ops[k]).Some?
    ensures var i := Find(c, ops[k]).value;
            EvalCond(num, cells, c, ops) ==
            Compare(num, EvalAtom(num, cells, c[..i]), ops[k], EvalAtom(num, cells, c[i + |ops[k]|..]))
    decreases k
  {
    hide Find, EvalAtom, Compare;
    if k > 0 {
      assert Find(c, ops[0]) == None;
      CondAt(num, cells, c, ops[1..], k - 1);
    }
  }

  function Rank(op: string): nat
    requires IsComparison(op)
  {
    if op == ">=" then 0 else if op == "<=" then 1 else if op == "<>" then 2 else if op == "!=" then 3
    else if op == "=" then 4 else if op == ">" then 5 else 6
  }

  lemma Ranked(op: string, j: nat)
    requires IsComparison(op) && j <= Rank(op)
    ensures COMPARISONS[Rank(op)] == op && IsComparison(COMPARISONS[j])
            && (j < Rank(op) ==> Earlier(COMPARISONS[j], op))
  {
    OpsDiffer();
  }

  /** Text without comparison sign, comma, quote or parenthesis. */
  predicate Piece(s: string) {
    forall i :: 0 <= i < |s| ==> !Mark(s[i]) && s[i] != ',' && s[i] != '"' && s[i] != '(' && s[i] != ')'
  }

  lemma SpacedPieces(a: string, x: string, z: string, b: string)
    requires Word(a) && Word(b) && Spaces(x) && Spaces(z)
    ensures Piece(a + x) && Piece(z + b) && (a + x)[0] == a[0] && (z + b)[|z + b| - 1] == b[|b|-1]
  {
    PieceOfSpaces(x);
    PieceOfSpaces(z);
  }

  lemma PieceOfSpaces(x: string)
    requires Spaces(x)
    ensures Piece(x)
  {
    forall i | 0 <= i < |x| ensures IsSpace(x[i]) {}
  }

  lemma SpacedAtoms(num: Numbers, cells: Cells, w: string, x: string)
    requires Word(w) && Spaces(x)
    ensures EvalAtom(num, cells, w + x) == Meaning(num, cells, w) == EvalAtom(num, cells, x + w)
  {
    hide ParseAddr, Trim, ToUpper, IsSpace;
    TrimAround("", w, x);
    TrimAround(x, w, "");
    assert "" + w + x == w + x && x + w + "" == x + w;
    assert w[0] != '"';
  }

  lemma ComparisonFound(l: string, op: string, r: string)
    requires Piece(l) && Piece(r) && IsComparison(op)
    ensures var c := l + op + r;
            && COMPARISONS[Rank(op)] == op && Find(c, op) == Some(|l|)
            && (forall j: nat :: j < Rank(op) ==> Find(c, COMPARISONS[j]) == None)
            && c[..|l|] == l && c[|l| + |op|..] == r
  {
    hide Find;
    var c := l + op + r;
    forall j: nat | j < Rank(op) ensures Find(c, COMPARISONS[j]) == None {
      Ranked(op, j);
      EarlierAbsent(l, op, r, COMPARISONS[j]);
    }
    Ranked(op, Rank(op));
    assert Mark(op[0]);
    FindHere(l, op, r);
  }

  /** A condition between two words, spaces or not, compares what they stand for. */
  lemma ConditionIs(num: Numbers, cells: Cells, a: string, x: string, op: string, z: string, b: string)
    requires Word(a) && Word(b) && Spaces(x) && Spaces(z) && IsComparison(op)
    ensures EvalCond(num, cells, (a + x) + op + (z + b), COMPARISONS)
         == Related(num, op, Meaning(num, cells, a), Meaning(num, cells, b))
  {
    hide Find, EvalAtom, Meaning, Related, IsSpace, EvalCond, Compare, Piece, Spaces;
    SpacedPieces(a, x, z, b);
    ComparisonFound(a + x, op, z + b);
    CondAt(num, cells, (a + x) + op + (z + b), COMPARISONS, Rank(op));
    SpacedAtoms(num, cells, a, x);
    SpacedAtoms(num, cells, b, z);
    CompareIs(num, Meaning(num, cells, a), op, Meaning(num, cells, b));
  }

  // ------------------------------------------------------------ IF

  lemma IfName()
    ensures All("IF", IsAlpha) && ToUpper("IF") == "IF"
  {
  }

  function IfText(l: string, op: string, r: string, yes: string, no: string): string {
    "=IF(" + (l + op + r + "," + (yes + "," + no)) + ")"
  }

  /** IF gives what its second or its third argument stands for, as the comparison of the first holds or not. */
  lemma IfChooses(num: Numbers, cells: Cells, a: string, x: string, op: string, z: string, b: string, yes: string,
                  no: string)
    requires Word(a) && Word(b) && Word(yes) && Word(no) && Spaces(x) && Spaces(z) && IsComparison(op)
    ensures EvalFormula(num, cells, IfText(a + x, op, z + b, yes, no)) ==
            if Related(num, op, Meaning(num, cells, a), Meaning(num, cells, b)) then Meaning(num, cells, yes)
            else Meaning(num, cells, no)
  {
    hide CallParts, EvalAtom, EvalCond, Meaning, Related, IsSpace, SplitArgs, Trim, ReadArgs, Piece, Spaces;
    var c := (a + x) + op + (z + b);
    IfName();
    SpacedPieces(a, x, z, b);
    IfArgs(a + x, op, z + b, yes, no);
    var raw := c + "," + (yes + "," + no);
    SpacedCompact();
    ParseCall(COMPACT, "IF", raw);
    assert "" + ("=" + ("" + "IF" + "" + "(" + raw + ")")) + "" == "=IF(" + raw + ")";
    ConditionIs(num, cells, a, x, op, z, b);
    AtomIs(num, cells, yes);
    AtomIs(num, cells, no);
  }

  lemma SpacedCompact()
    ensures Spaced(COMPACT)
  {
  }

  lemma IfArgs(a: string, op: string, b: string, yes: string, no: string)
    requires Piece(a) && Piece(b) && Word(yes) && Word(no) && IsComparison(op)
    requires a != "" && b != "" && !IsSpace(a[0]) && !IsSpace(b[|b|-1])
    ensures SplitArgs(a + op + b + "," + (yes + "," + no)) == [a + op + b, yes, no] && Trim(a + op + b) == a + op + b
    ensures var raw := a + op + b + "," + (yes + "," + no); raw != "" && raw[|raw|-1] != ')'
  {
    hide Trim, IsSpace, SplitArgs, WithoutQuotes, IsArgument;
    var c := a + op + b;
    var args := [c, yes, no];
    PlainState(c);
    PlainState(yes);
    PlainState(no);
    TrimWord(c);
    TrimWord(yes);
    TrimWord(no);
    assert args[1..] == [yes, no] && args[1..][1..] == [no];
    assert JoinedArgs([no]) == no && JoinedArgs([yes, no]) == yes + "," + no;
    assert JoinedArgs(args) == c + "," + (yes + "," + no);
    SplitJoined(args);
    assert args[..2] == [c, yes];
    assert ReadArgs([c, yes]) == [c, yes];
  }

  lemma {:induction false} CondNone(num: Numbers, cells: Cells, c: string, ops: seq<string>)
    requires forall j :: 0 <= j < |ops| ==> Find(c, ops[j]) == None
    ensures EvalCond(num, cells, c, ops) == EvalCond(num, cells, c, [])
  {
    hide Find, EvalAtom, Compare;
    if ops != [] {
      assert Find(c, ops[0]) == None;
      CondNone(num, cells, c, ops[1..]);
    }
  }

  /** A word counts as true if it stands for a number other than zero, or for text that is no number and not empty. */
  predicate Truth(num: Numbers, v: string) {
    if num.parse(v).Some? then num.parse(v).value != 0.0 else v != ""
  }

  lemma ConditionOfWord(num: Numbers, cells: Cells, a: string)
    requires Word(a)
    ensures EvalCond(num, cells, a, COMPARISONS) == Truth(num, Meaning(num, cells, a))
  {
    hide Find, EvalAtom, Meaning, IsSpace;
    forall j | 0 <= j < |COMPARISONS| ensures Find(a, COMPARISONS[j]) == None {
      forall i: nat ensures !OccursAt(a, COMPARISONS[j], i) {
        assert Mark(COMPARISONS[j][0]);
        if i + |COMPARISONS[j]| <= |a| { assert a[i..i+|COMPARISONS[j]|][0] == a[i]; }
      }
      FindAbsent(a, COMPARISONS[j]);
    }
    CondNone(num, cells, a, COMPARISONS);
    AtomIs(num, cells, a);
  }

  /** IF with a bare condition, and without a third argument. */
  lemma IfOfWord(num: Numbers, cells: Cells, a: string, yes: string)
    requires Word(a) && Word(yes)
    ensures EvalFormula(num, cells, "=IF(" + (a + "," + yes) + ")") ==
            if Truth(num, Meaning(num, cells, a)) then Meaning(num, cells, yes) else ""
  {
    hide CallParts, EvalAtom, EvalCond, Meaning, IsSpace, SplitArgs, Trim, WithoutQuotes, IsArgument, Truth;
    var raw, args := a + "," + yes, [a, yes];
    IfName();
    PlainState(a);
    PlainState(yes);
    TrimWord(a);
    TrimWord(yes);
    assert args[1..] == [yes] && JoinedArgs([yes]) == yes && JoinedArgs(args) == raw;
    SplitJoined(args);
    assert args[..1] == [a] && ReadArgs([a]) == [a];
    ParseCall(COMPACT, "IF", raw);
    SpacedCompact();
    assert "" + ("=" + ("" + "IF" + "" + "(" + raw + ")")) + "" == "=IF(" + raw + ")";
    ConditionOfWord(num, cells, a);
    AtomIs(num, cells, yes);
    NoAtom(num, cells);
  }

  lemma NoAtom(num: Numbers, cells: Cells)
    ensures EvalAtom(num, cells, "") == ""
  {
  }

  // ------------------------------------------------------------ COUNTIF

  /** The text of the cell under `key`, empty if there is none. */
  function TextAt(cells: Cells, key: string): string {
    if key in cells then cells[key].value else ""
  }

  /** A criterion is a comparison and a word, or a word alone. */
  predicate Criterion(op: string, w: string) {
    Word(w) && (op == "" || IsComparison(op))
  }

  /** A cell meets a comparison with a word, or equals the word but for its case. */
  predicate Meets(num: Numbers, value: string, op: string, w: string) {
    if op == "" then SameIgnoringCase(value, w) else Related(num, op, value, w)
  }

  lemma {:induction false} MatchAt(num: Numbers, value: string, criteria: string, ops: seq<string>, k: nat)
    requires k < |ops| && (forall j :: 0 <= j < k ==> !StartsWith(criteria, ops[j])) && StartsWith(criteria, ops[k])
    ensures CountIfMatch(num, value, criteria, ops) == Compare(num, value, ops[k], Unquoted(Trim(criteria[|ops[k]|..])))
    decreases k
  {
    hide Compare, Unquoted, Trim;
    if k > 0 {
      assert !StartsWith(criteria, ops[0]);
      MatchAt(num, value, criteria, ops[1..], k - 1);
    }
  }

  lemma {:induction false} MatchNone(num: Numbers, value: string, criteria: string, ops: seq<string>)
    requires forall j :: 0 <= j < |ops| ==> !StartsWith(criteria, ops[j])
    ensures CountIfMatch(num, value, criteria, ops) == (value == criteria || ToLower(value) == ToLower(criteria))
  {
    if ops != [] {
      assert !StartsWith(criteria, ops[0]);
      MatchNone(num, value, criteria, ops[1..]);
    }
  }

  lemma UnquotedWord(w: string)
    requires Word(w)
    ensures Unquoted(w) == w && Unquoted(Trim(w)) == w
  {
    hide IsSpace, Trim, TrimStart, TrimEnd;
    TrimWord(w);
    NoQuotes(w);
  }

  lemma NoQuotes(s: string)
    requires s != "" && s[0] != '"' && s[|s|-1] != '"' && s[0] != '\'' && s[|s|-1] != '\''
    ensures Unquoted(s) == s
  {
    hide TrimStart, TrimEnd;
    StripNone(s, IsDoubleQuote);
    StripNone(s, IsSingleQuote);
  }

  lemma MatchIs(num: Numbers, value: string, op: string, w: string)
    requires Criterion(op, w)
    ensures CountIfMatch(num, value, op + w, COMPARISONS) == Meets(num, value, op, w)
  {
    hide CountIfMatch, Compare, Unquoted, Trim, IsSpace, Related, ToLower;
    var s := op + w;
    if op == "" {
      assert s == w;
      forall j | 0 <= j < |COMPARISONS| ensures !StartsWith(w, COMPARISONS[j]) { assert Mark(COMPARISONS[j][0]); }
      MatchNone(num, value, w, COMPARISONS);
      LowerSame(value, w);
      LowerSame(value, value);
    } else {
      forall j: nat | j < Rank(op) ensures !StartsWith(s, COMPARISONS[j]) {
        Ranked(op, j);
        NotEarlier(op, w, COMPARISONS[j]);
      }
      Ranked(op, Rank(op));
      assert s[..|op|] == op && s[|op|..] == w;
      MatchAt(num, value, s, COMPARISONS, Rank(op));
      UnquotedWord(w);
      CompareIs(num, value, op, w);
    }
  }

  /** Spaces before the word of a criterion and quotes around it do not count. */
  lemma MatchQuoted(num: Numbers, value: string, op: string, x: string, q: char, w: string)
    requires IsComparison(op) && Word(w) && Spaces(x) && (q == '\'' || q == '"')
    ensures CountIfMatch(num, value, op + (x + ([q] + w + [q])), COMPARISONS) == Related(num, op, value, w)
  {
    hide CountIfMatch, Compare, Unquoted, Trim, IsSpace, Related, ToLower;
    var v := x + ([q] + w + [q]);
    var s := op + v;
    PieceOfSpaces(x);
    assert s[..|op|] == op && s[|op|..] == v && !Mark(v[0]);
    forall j: nat | j < Rank(op) ensures !StartsWith(s, COMPARISONS[j]) {
      Ranked(op, j);
      NotEarlier(op, v, COMPARISONS[j]);
    }
    Ranked(op, Rank(op));
    MatchAt(num, value, s, COMPARISONS, Rank(op));
    assert w[0] != '"' && w[|w|-1] != '"';
    UnquotedBetween(w, q);
    NoSpaceQuote();
    TrimAround(x, [q] + w + [q], "");
    assert x + ([q] + w + [q]) + "" == v;
    CompareIs(num, value, op, w);
  }

  lemma StripBoth(w: string, q: char, p: char -> bool)
    requires w != "" && p(q) && !p(w[0]) && !p(w[|w|-1])
    ensures TrimEnd(TrimStart([q] + w + [q], p), p) == w
  {
    hide TrimStart, TrimEnd;
    assert [q] + w + [q] == [q] + (w + [q]);
    TrimStartPast([q], w + [q], p);
    TrimEndPast(w, [q], p);
  }

  lemma StripNone(v: string, p: char -> bool)
    requires v != "" && !p(v[0]) && !p(v[|v|-1])
    ensures TrimEnd(TrimStart(v, p), p) == v
  {
    hide TrimStart, TrimEnd;
    assert "" + v == v && v + "" == v;
    TrimStartPast("", v, p);
    TrimEndPast(v, "", p);
  }

  lemma UnquotedBetween(w: string, q: char)
    requires w != "" && w[0] != '"' && w[|w|-1] != '"' && w[0] != '\'' && w[|w|-1] != '\'' && (q == '\'' || q == '"')
    ensures var v := [q] + w + [q]; Trim(v) == v && Unquoted(v) == w
  {
    hide IsSpace, TrimStart, TrimEnd;
    NoSpaceQuote();
    var v := [q] + w + [q];
    StripNone(v, IsSpace);
    if q == '"' {
      StripBoth(w, q, IsDoubleQuote);
      StripNone(w, IsSingleQuote);
    } else {
      StripNone(v, IsDoubleQuote);
      StripBoth(w, q, IsSingleQuote);
    }
  }

  lemma NoSpaceQuote()
    ensures !IsSpace('"') && !IsSpace('\'')
  {
  }

  lemma NotEarlier(op: string, v: string, o: string)
    requires v != "" && !Mark(v[0]) && Earlier(o, op)
    ensures !StartsWith(op + v, o)
  {
    var s := op + v;
    if |o| <= |s| {
      assert |o| == 2 && |op| == 1 ==> s[1] == v[0];
      assert |o| == |op| ==> s[..|o|] == op;
      assert |o| == 1 ==> s[0] == op[0];
    }
  }

  /** The coordinates of the rectangle whose text meets the criterion. */
  ghost function Meeting(num: Numbers, cells: Cells, c1: nat, c2: nat, r1: nat, r2: nat, op: string, w: string)
    : set<Coord>
  {
    set at | at in Rect(c1, c2, r1, r2) && Meets(num, TextAt(cells, AddrOf(at.0, at.1)), op, w)
  }

  lemma MeetingColumn(num: Numbers, cells: Cells, c: nat, lo: nat, hi: nat, op: string, w: string)
    requires lo <= hi
    ensures var rest := Meeting(num, cells, c, c, lo + 1, hi, op, w);
            |Meeting(num, cells, c, c, lo, hi, op, w)| ==
            |rest| + if Meets(num, TextAt(cells, AddrOf(c, lo)), op, w) then 1 else 0
  {
    hide AddrOf, Meets, TextAt, Rect;
    RectColumn(c, lo, hi);
    var here, rest := Meeting(num, cells, c, c, lo, hi, op, w), Meeting(num, cells, c, c, lo + 1, hi, op, w);
    if Meets(num, TextAt(cells, AddrOf(c, lo)), op, w) {
      assert here == rest + {(c, lo)} && (c, lo) !in rest;
    } else {
      assert here == rest;
    }
  }

  lemma MeetingGrid(num: Numbers, cells: Cells, c: nat, cEnd: nat, lo: nat, hi: nat, op: string, w: string)
    requires c <= cEnd
    ensures |Meeting(num, cells, c, cEnd, lo, hi, op, w)| ==
            |Meeting(num, cells, c, c, lo, hi, op, w)| + |Meeting(num, cells, c + 1, cEnd, lo, hi, op, w)|
  {
    hide AddrOf, Meets, TextAt, Rect;
    RectGrid(c, cEnd, lo, hi);
    var here, rest := Meeting(num, cells, c, c, lo, hi, op, w), Meeting(num, cells, c + 1, cEnd, lo, hi, op, w);
    assert Meeting(num, cells, c, cEnd, lo, hi, op, w) == here + rest && here !! rest;
  }

  lemma MeetingNone(num: Numbers, cells: Cells, c: nat, cEnd: nat, lo: nat, hi: nat, op: string, w: string)
    requires lo > hi || c > cEnd
    ensures Meeting(num, cells, c, cEnd, lo, hi, op, w) == {}
  {
    hide AddrOf, Meets, TextAt, Rect;
    RectHas(c, cEnd, lo, hi);
  }

  lemma RawIs(cells: Cells, key: string)
    requires ToUpper(key) == key
    ensures CellRaw(cells, key) == TextAt(cells, key)
  {
  }

  lemma {:induction false} CountIfColumn(num: Numbers, cells: Cells, c: nat, lo: nat, hi: nat, op: string, w: string)
    requires 0 < c < TWO_32 && 0 < lo && hi < TWO_32 && Criterion(op, w) && Trim(op + w) == op + w
    ensures CountIf(num, cells, GridColumn(c, lo, hi), op + w) == |Meeting(num, cells, c, c, lo, hi, op, w)|
    decreases hi + 1 - lo
  {
    hide AddrOf, Meets, CountIfMatch, CellRaw, TextAt, Trim, Meeting;
    if lo <= hi {
      MeetingColumn(num, cells, c, lo, hi, op, w);
      CountIfColumn(num, cells, c, lo + 1, hi, op, w);
      ParsePrint(c, lo);
      RawIs(cells, AddrOf(c, lo));
      MatchIs(num, TextAt(cells, AddrOf(c, lo)), op, w);
      var addrs := GridColumn(c, lo, hi);
      assert addrs[0] == AddrOf(c, lo) && addrs[1..] == GridColumn(c, lo + 1, hi);
    } else {
      MeetingNone(num, cells, c, c, lo, hi, op, w);
    }
  }

  lemma {:induction false} CountIfJoined(num: Numbers, cells: Cells, a: seq<string>, b: seq<string>, criteria: string)
    ensures CountIf(num, cells, a + b, criteria) == CountIf(num, cells, a, criteria) + CountIf(num, cells, b, criteria)
  {
    hide CountIfMatch, CellRaw, Trim;
    if a == [] {
      assert a + b == b;
    } else {
      assert (a + b)[1..] == a[1..] + b;
      CountIfJoined(num, cells, a[1..], b, criteria);
    }
  }

  lemma {:induction false} CountIfGrid(num: Numbers, cells: Cells, c: nat, cEnd: nat, lo: nat, hi: nat, op: string,
                                       w: string)
    requires 0 < c && cEnd < TWO_32 && 0 < lo && hi < TWO_32 && Criterion(op, w) && Trim(op + w) == op + w
    ensures CountIf(num, cells, Grid(c, cEnd, lo, hi), op + w) == |Meeting(num, cells, c, cEnd, lo, hi, op, w)|
    decreases cEnd + 1 - c
  {
    hide AddrOf, Meets, CountIfMatch, CellRaw, TextAt, GridColumn, Trim, Criterion, Meeting;
    if c <= cEnd {
      hide CountIf;
      MeetingGrid(num, cells, c, cEnd, lo, hi, op, w);
      CountIfColumn(num, cells, c, lo, hi, op, w);
      CountIfGrid(num, cells, c + 1, cEnd, lo, hi, op, w);
      CountIfJoined(num, cells, GridColumn(c, lo, hi), Grid(c + 1, cEnd, lo, hi), op + w);
    } else {
      MeetingNone(num, cells, c, cEnd, lo, hi, op, w);
    }
  }

  function CountIfText(p: Ref, q: Ref, op: string, w: string): string {
    "=COUNTIF(" + (Reference(OfRange("SUM", p, q)) + "," + ("\"" + (op + w) + "\"")) + ")"
  }

  lemma CountIfName()
    ensures All("COUNTIF", IsAlpha) && ToUpper("COUNTIF") == "COUNTIF" && All("SUM", IsAlpha) && ToUpper("SUM") == "SUM"
  {
  }

  predicate Framed(s: string) {
    s != "" && !IsSpace(s[0]) && !IsSpace(s[|s|-1])
  }

  predicate Unsplit(s: string) {
    forall i :: 0 <= i < |s| ==> s[i] != ',' && s[i] != '"' && s[i] != '(' && s[i] != ')'
  }

  lemma CriterionUnsplit(op: string, w: string)
    requires Criterion(op, w)
    ensures Unsplit(op + w)
  {
    hide IsSpace;
  }

  lemma CriterionFramed(op: string, w: string)
    requires Criterion(op, w)
    ensures Framed(op + w)
  {
    hide IsSpace;
    var s := op + w;
    assert s[|s|-1] == w[|w|-1] && s[0] == if op == "" then w[0] else op[0];
    NoMarkSpace(s[0]);
  }

  lemma CriterionText(op: string, w: string)
    requires Criterion(op, w)
    ensures var s := op + w; Unsplit(s) && s != "" && Trim(s) == s && Unquoted(s) == s
  {
    hide IsSpace, Trim, TrimStart, TrimEnd, Unquoted;
    var s := op + w;
    CriterionUnsplit(op, w);
    CriterionFramed(op, w);
    TrimWord(s);
    assert s[|s|-1] == w[|w|-1] && s[0] == if op == "" then w[0] else op[0];
    NoQuotes(s);
  }

  lemma NoMarkSpace(c: char)
    ensures Mark(c) ==> !IsSpace(c)
  {
  }

  lemma {:induction false} InQuotes(s: string, rest: string, depth: int)
    requires forall i :: 0 <= i < |s| ==> s[i] != '"'
    ensures ScanState(s + rest, depth, true) == ScanState(rest, depth, true)
    decreases |s|
  {
    if s == "" {
      assert s + rest == rest;
    } else {
      assert (s + rest)[0] == s[0] && (s + rest)[1..] == s[1..] + rest;
      InQuotes(s[1..], rest, depth);
    }
  }

  lemma {:induction false} QuotesDropped(s: string, rest: string)
    requires forall i :: 0 <= i < |s| ==> s[i] != '"'
    ensures WithoutQuotes(s + rest) == s + WithoutQuotes(rest)
    decreases |s|
  {
    if s == "" {
      assert s + rest == rest;
    } else {
      assert (s + rest)[0] == s[0] && (s + rest)[1..] == s[1..] + rest;
      QuotesDropped(s[1..], rest);
    }
  }

  lemma QuotedArgument(s: string)
    requires forall i :: 0 <= i < |s| ==> s[i] != '"'
    ensures var t := "\"" + s + "\""; IsArgument(t) && WithoutQuotes(t) == s
  {
    var t := "\"" + s + "\"";
    assert t[1..] == s + "\"";
    InQuotes(s, "\"", 0);
    QuotesDropped(s, "\"");
    assert "\""[1..] == "";
    assert s + "" == s;
  }

  lemma CountIfArgs(p: Ref, q: Ref, op: string, w: string)
    requires p.Valid() && q.Valid() && Criterion(op, w)
    ensures var ref := Reference(OfRange("SUM", p, q)); var raw := ref + "," + ("\"" + (op + w) + "\"");
            && SplitArgs(raw) == [ref, op + w] && raw[|raw|-1] != ')' && Trim(ref) == ref
            && Trim(op + w) == op + w && Unquoted(op + w) == op + w
  {
    hide Trim, IsSpace, SplitArgs, WithoutQuotes, IsArgument, Reference, CellRef, Criterion, Unquoted;
    var ref, quoted := Reference(OfRange("SUM", p, q)), "\"" + (op + w) + "\"";
    CountIfName();
    ReferenceText(OfRange("SUM", p, q));
    PlainState(ref);
    TrimWord(ref);
    CriterionText(op, w);
    QuotedArgument(op + w);
    var args := [ref, quoted];
    assert args[1..] == [quoted];
    assert JoinedArgs([quoted]) == quoted && JoinedArgs(args) == ref + "," + quoted;
    SplitJoined(args);
    assert args[..1] == [ref];
    assert ReadArgs([ref]) == [ref];
  }

  /** COUNTIF is the number of coordinates of the rectangle whose text meets the criterion. */
  lemma CountIfIsSize(num: Numbers, cells: Cells, p: Ref, q: Ref, op: string, w: string)
    requires p.Valid() && q.Valid() && Criterion(op, w)
    ensures var counted := Meeting(num, cells, Min(p.Column(), q.Column()), Max(p.Column(), q.Column()),
                                   Min(p.Row(), q.Row()), Max(p.Row(), q.Row()), op, w);
            EvalFormula(num, cells, CountIfText(p, q, op, w)) == num.format(|counted| as real)
  {
    hide CallParts, IsSpace, SplitArgs, Trim, CellRef, Ref.Column, Ref.Row, Grid, CountIf, ExpandRange, Unquoted,
      Reference, Meeting, Criterion;
    var ref := Reference(OfRange("SUM", p, q));
    var raw := ref + "," + ("\"" + (op + w) + "\"");
    CountIfName();
    CountIfArgs(p, q, op, w);
    ParseCall(COMPACT, "COUNTIF", raw);
    SpacedCompact();
    assert "" + ("=" + ("" + "COUNTIF" + "" + "(" + raw + ")")) + "" == "=COUNTIF(" + raw + ")";
    CallText.RangeText(OfRange("SUM", p, q));
    RefInRange(p);
    RefInRange(q);
    CountIfGrid(num, cells, Min(p.Column(), q.Column()), Max(p.Column(), q.Column()),
                Min(p.Row(), q.Row()), Max(p.Row(), q.Row()), op, w);
  }
}
