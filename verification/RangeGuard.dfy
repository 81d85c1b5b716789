/** Which edits the protection of a tab and of its ranges blocks. */
module RangeGuard {
  import opened Basics
  import opened Text
  import opened Addresses
  import opened Sheets
  import opened Calc
  import opened CallText
  import opened FormulaValues
  import opened Workbook
  import opened WorkbookRuns
  import opened Protection

  // ------------------------------------------------------------ protected tabs

  /** On a protected tab exactly the operations that edit cells are blocked, and on any other none but the
      edits of single cells. A stale index blocks nothing. */
  lemma TabGuard(b: Book, op: SheetOp)
    ensures b.active < |b.sheets| && b.sheets[b.active].protected ==> (BlockedByProtect(b, op) <==> EditsCells(op))
    ensures b.active >= |b.sheets| || (!b.sheets[b.active].protected && !EditsOneCell(op)) ==> !BlockedByProtect(b, op)
  {
    hide InRanges;
  }

  // ------------------------------------------------------------ protected ranges

  /** An edit of the cell at `addr` on a tab whose protected ranges are `ranges`. */
  predicate Blocks(b: Book, op: SheetOp, ranges: seq<string>)
    requires EditsOneCell(op) && b.active < |b.sheets|
  {
    var tab := b.sheets[b.active].(protected := false, protectedRanges := ranges);
    BlockedByProtect(b.(sheets := b.sheets[b.active := tab]), op)
  }

  /** A list of ranges blocks what any of them blocks. */
  lemma ListBlocks(b: Book, op: SheetOp, ranges: seq<string>)
    requires EditsOneCell(op) && b.active < |b.sheets|
    ensures Blocks(b, op, ranges) <==> exists i :: 0 <= i < |ranges| && Blocks(b, op, [ranges[i]])
  {
    hide ParseCorners, InCorners, ParseAddr;
    if Blocks(b, op, ranges) {
      var i :| 0 <= i < |ranges| && ParseCorners(ranges[i]).Some?
               && InCorners(ParseAddr(op.addr).value, ParseCorners(ranges[i]).value);
      assert [ranges[i]][0] == ranges[i];
      assert Blocks(b, op, [ranges[i]]);
    }
    forall i | 0 <= i < |ranges| && Blocks(b, op, [ranges[i]]) ensures Blocks(b, op, ranges) {
      assert [ranges[i]][0] == ranges[i];
    }
  }

  lemma OneBlocks(b: Book, op: SheetOp, range: string)
    requires EditsOneCell(op) && b.active < |b.sheets|
    ensures Blocks(b, op, [range]) <==>
            && ParseAddr(op.addr).Some? && ParseCorners(range).Some?
            && InCorners(ParseAddr(op.addr).value, ParseCorners(range).value)
  {
    hide ParseCorners, InCorners, ParseAddr;
    assert [range][0] == range;
  }

  /** A reference in capitals, and what it denotes. */
  lemma UpperRef(at: Ref)
    requires at.Valid()
    ensures var up := ToUpper(at.Spelled());
            && ParseAddr(up) == Some((at.Column(), at.Row())) && up != "" && !IsSpace(up[0]) && !IsSpace(up[|up|-1])
            && forall i :: 0 <= i < |up| ==> up[i] != ':'
  {
    hide ParseAddr, Ref.Column, Ref.Row, Ref.Key, CellRef, IsSpace;
    var s := at.Spelled();
    RefText(at);
    UpperTwice(s);
    SameParse(s);
    UpperWord(s);
    NoSpaceInWord(ToUpper(s));
  }

  lemma SameParse(s: string)
    ensures ParseAddr(ToUpper(s)) == ParseAddr(s)
  {
    UpperTwice(s);
  }

  lemma UpperWord(s: string)
    requires forall i :: 0 <= i < |s| ==> IsAlpha(s[i]) || IsDigit(s[i])
    ensures forall i :: 0 <= i < |s| ==> (IsAlpha(ToUpper(s)[i]) || IsDigit(ToUpper(s)[i])) && ToUpper(s)[i] != ':'
  {
  }

  /** Two corners with spaces around them. */
  function SpacedRange(a: Ref, q: Ref, s1: string, s2: string, s3: string, s4: string): string {
    s1 + a.Spelled() + s2 + ":" + (s3 + q.Spelled() + s4)
  }

  lemma CornersParsed(a: Ref, q: Ref, s1: string, s2: string, s3: string, s4: string)
    requires a.Valid() && q.Valid() && Spaces(s1) && Spaces(s2) && Spaces(s3) && Spaces(s4)
    ensures ParseCorners(SpacedRange(a, q, s1, s2, s3, s4)) == Some(((a.Column(), a.Row()), (q.Column(), q.Row())))
  {
    hide ParseAddr, Ref.Column, Ref.Row, Ref.Key, CellRef, IsSpace, Trim, IndexOf, ToUpper, Ref.Spelled;
    var left, right := ToUpper(a.Spelled()), ToUpper(q.Spelled());
    UpperRef(a);
    UpperRef(q);
    RefText(a);
    RefText(q);
    NoSpaceInWord(a.Spelled());
    NoSpaceInWord(q.Spelled());
    var core := a.Spelled() + s2 + ":" + (s3 + q.Spelled());
    TrimAround(s1, core, s4);
    assert SpacedRange(a, q, s1, s2, s3, s4) == s1 + core + s4;
    UpperCore(a.Spelled(), s2, s3, q.Spelled());
    var up := left + s2 + ":" + (s3 + right);
    SpaceNoColon(s2);
    IndexOfPast(left + s2, ':', s3 + right);
    assert up[..|left + s2|] == left + s2 && up[|left + s2| + 1..] == s3 + right;
    TrimAround("", left, s2);
    TrimAround(s3, right, "");
    assert "" + left + s2 == left + s2 && s3 + right + "" == s3 + right;
  }

  lemma SpaceNoColon(s: string)
    requires Spaces(s)
    ensures forall i :: 0 <= i < |s| ==> s[i] != ':'
  {
  }

  lemma UpperCore(x: string, s: string, t: string, y: string)
    requires Spaces(s) && Spaces(t)
    ensures ToUpper(x + s + ":" + (t + y)) == ToUpper(x) + s + ":" + (t + ToUpper(y))
  {
    hide Spaces;
    UpperSpaces(s);
    UpperSpaces(t);
  }

  /** A range with two corners blocks an edit exactly when the address of its coordinate is one that the range
      expands to, whichever corners are given and however they are spaced. */
  lemma RangeBlocks(b: Book, op: SheetOp, a: Ref, q: Ref, s1: string, s2: string, s3: string, s4: string)
    requires EditsOneCell(op) && b.active < |b.sheets|
    requires a.Valid() && q.Valid() && Spaces(s1) && Spaces(s2) && Spaces(s3) && Spaces(s4)
    ensures Blocks(b, op, [SpacedRange(a, q, s1, s2, s3, s4)]) <==>
            var at := ParseAddr(op.addr);
            at.Some? && AddrOf(at.value.0, at.value.1) in ExpandRange(a.Spelled() + ":" + q.Spelled())
  {
    hide ParseAddr, Ref.Column, Ref.Row, Ref.Key, CellRef, AddrOf, ExpandRange, Ref.Spelled, ParseCorners,
      SpacedRange, Blocks, Spaces, Grid;
    CornersParsed(a, q, s1, s2, s3, s4);
    OneBlocks(b, op, SpacedRange(a, q, s1, s2, s3, s4));
    CornersText(a, q);
    var at := ParseAddr(op.addr);
    if at.Some? {
      ParsedInRange(op.addr);
      InAddrs(a, q, at.value);
      RectIs(a, q, at.value);
    }
  }

  lemma InAddrs(a: Ref, q: Ref, at: Coord)
    requires a.Valid() && q.Valid() && InRange(at)
    ensures AddrOf(at.0, at.1) in Addrs(a, q) <==> InRect(a, q, at)
  {
    hide AddrOf, Grid, CellRef, Ref.Column, Ref.Row, InRect;
    AddrsAre(a, q, AddrOf(at.0, at.1));
    if c: nat, r: nat :| InRect(a, q, (c, r)) && AddrOf(at.0, at.1) == AddrOf(c, r) {
      RectInRange(a, q, (c, r));
      PrintInjective(at.0, at.1, c, r);
    }
  }

  /** A range of one cell blocks edits of that cell, and no other. */
  lemma CellBlocks(b: Book, op: SheetOp, a: Ref, s1: string, s2: string)
    requires EditsOneCell(op) && b.active < |b.sheets| && a.Valid() && Spaces(s1) && Spaces(s2)
    ensures Blocks(b, op, [s1 + a.Spelled() + s2]) <==> ParseAddr(op.addr) == ParseAddr(a.Spelled())
  {
    hide ParseAddr, Ref.Column, Ref.Row, Ref.Key, CellRef, IsSpace, Trim, IndexOf, ToUpper, Ref.Spelled, Blocks;
    RefText(a);
    UpperRef(a);
    NoSpaceInWord(a.Spelled());
    TrimAround(s1, a.Spelled(), s2);
    IndexOfNone(ToUpper(a.Spelled()), ':');
    OneBlocks(b, op, s1 + a.Spelled() + s2);
  }

  /** A range one of whose corners is no address blocks nothing. */
  lemma BadCornerBlocksNothing(b: Book, op: SheetOp, x: string, y: string)
    requires EditsOneCell(op) && b.active < |b.sheets|
    requires forall i :: 0 <= i < |x| ==> x[i] != ':' && !IsSpace(x[i])
    requires forall i :: 0 <= i < |y| ==> !IsSpace(y[i])
    requires x != "" && y != "" && (ParseAddr(x).None? || ParseAddr(y).None?)
    ensures !Blocks(b, op, [x + ":" + y])
  {
    hide ParseAddr, IsSpace, Trim, IndexOf, ToUpper, Blocks;
    OneBlocks(b, op, x + ":" + y);
    var s := x + ":" + y;
    TrimAround("", s, "");
    assert "" + s + "" == s;
    UpperPair(x, y);
    IndexOfPast(ToUpper(x), ':', ToUpper(y));
    var up := ToUpper(x) + ":" + ToUpper(y);
    assert up[..|x|] == ToUpper(x) && up[|x|+1..] == ToUpper(y);
    TrimAround("", ToUpper(x), "");
    TrimAround("", ToUpper(y), "");
    assert "" + ToUpper(x) + "" == ToUpper(x) && "" + ToUpper(y) + "" == ToUpper(y);
    SameParse(x);
    SameParse(y);
  }

  lemma UpperPair(x: string, y: string)
    requires (forall i :: 0 <= i < |x| ==> x[i] != ':' && !IsSpace(x[i]))
             && (forall i :: 0 <= i < |y| ==> !IsSpace(y[i]))
    ensures ToUpper(x + ":" + y) == ToUpper(x) + ":" + ToUpper(y)
    ensures forall i :: 0 <= i < |x| ==> ToUpper(x)[i] != ':' && !IsSpace(ToUpper(x)[i])
    ensures forall i :: 0 <= i < |y| ==> !IsSpace(ToUpper(y)[i])
  {
    forall c: char | !IsSpace(c) ensures !IsSpace(ToUpperChar(c)) {}
  }
}
