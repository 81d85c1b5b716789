/** Which cells a formula reads: those that its text refers to, and no others. */
module ReadSets {
  import opened Basics
  import opened Text
  import opened Addresses
  import opened Sheets
  import opened Calc
  import opened CallText
  import opened FormulaValues
  import opened FormulaConditions
  import opened Recalc

  lemma UpperAll(addrs: seq<string>)
    requires forall i :: 0 <= i < |addrs| ==> ToUpper(addrs[i]) == addrs[i]
    ensures Upper(addrs) == set a | a in addrs
  {
  }

  lemma OperandsUpper(call: Call, i: nat)
    requires ValidCall(call) && i < |Operands(call)|
    ensures ToUpper(Operands(call)[i]) == Operands(call)[i]
  {
    hide AddrOf, Grid, CellRef, Ref.Column, Ref.Row, Ref.Key, ToUpper, InRect;
    if call.OfRange? {
      var key := Operands(call)[i];
      assert Operands(call) == Addrs(call.start, call.end);
      AddrsAre(call.start, call.end, key);
      var c: nat, r: nat :| InRect(call.start, call.end, (c, r)) && key == AddrOf(c, r);
      RectInRange(call.start, call.end, (c, r));
    } else {
      KeyUpper(call.at);
    }
  }

  /** A SUM, COUNT or ROUND call reads exactly the cells of its operands. */
  lemma CallReadsOperands(num: Numbers, call: Call, y: Layout)
    requires ValidCall(call) && Spaced(y)
    ensures Reads(num, Spelled(call, y)) == set a | a in Operands(call)
  {
    hide Arguments, CallParts, Spaced, Operands, ExpandRange, SplitArgs, Trim, CellRef, CondReads, AtomReads, Upper,
      Reference, Ref.Spelled;
    CallName(call);
    ArgumentsText(call, y);
    ParseCall(y, call.name, Arguments(call, y));
    forall i | 0 <= i < |Operands(call)| ensures ToUpper(Operands(call)[i]) == Operands(call)[i] {
      OperandsUpper(call, i);
    }
    if call.OfRound? {
      RoundArguments(call, y);
      RoundReads(call);
    } else {
      CallText.RangeText(call);
      UpperAll(Operands(call));
    }
  }

  lemma RoundReads(call: Call)
    requires ValidCall(call) && call.OfRound?
    ensures {ToUpper(call.at.Spelled())} == set a | a in Operands(call)
  {
    hide CellRef, Ref.Spelled, Ref.Key, ToUpper;
    RefText(call.at);
  }

  /** The cell that a word refers to, if it is an address and no number. */
  function Referred(num: Numbers, w: string): set<string> {
    if num.parse(w).None? && ParseAddr(w).Some? then {ToUpper(w)} else {}
  }

  lemma AtomReadsWord(num: Numbers, w: string)
    requires Word(w)
    ensures AtomReads(num, w) == Referred(num, w)
  {
    hide ParseAddr, Trim, ToUpper, IsSpace;
    TrimWord(w);
  }

  lemma {:induction false} CondReadsAt(num: Numbers, c: string, ops: seq<string>, k: nat)
    requires k < |ops| && (forall j :: 0 <= j < k ==> Find(c, ops[j]) == None) && Find(c, ops[k]).Some?
    ensures var i := Find(c, ops[k]).value;
            CondReads(num, c, ops) == AtomReads(num, c[..i]) + AtomReads(num, c[i + |ops[k]|..])
    decreases k
  {
    hide Find, AtomReads;
    if k > 0 {
      assert Find(c, ops[0]) == None;
      CondReadsAt(num, c, ops[1..], k - 1);
    }
  }

  /** IF reads the cells that its words refer to. */
  lemma IfReadsWords(num: Numbers, a: string, op: string, b: string, yes: string, no: string)
    requires Word(a) && Word(b) && Word(yes) && Word(no) && IsComparison(op)
    ensures Reads(num, IfText(a, op, b, yes, no)) ==
            Referred(num, a) + Referred(num, b) + Referred(num, yes) + Referred(num, no)
  {
    hide CallParts, AtomReads, CondReads, IsSpace, SplitArgs, Trim, Find, Referred;
    var c := a + op + b;
    IfName();
    IfArgs(a, op, b, yes, no);
    var raw := c + "," + (yes + "," + no);
    ParseCall(COMPACT, "IF", raw);
    SpacedCompact();
    assert "" + ("=" + ("" + "IF" + "" + "(" + raw + ")")) + "" == "=IF(" + raw + ")";
    ComparisonFound(a, op, b);
    CondReadsAt(num, c, COMPARISONS, Rank(op));
    AtomReadsWord(num, a);
    AtomReadsWord(num, b);
    AtomReadsWord(num, yes);
    AtomReadsWord(num, no);
  }
}
