/** The order that sorting puts rows in, read off the cells of the result. */
module SortOrder {
  import opened Basics
  import opened Text
  import opened LetterCase
  import opened Ordered
  import opened Addresses
  import opened Sheets
  import opened Coordinates
  import opened RowSort

  /** The first place where `a` and `b` differ decides: there `a` ends, or has the smaller character. */
  predicate SmallerAt(a: string, b: string, i: nat) {
    && i <= |a| && i < |b| && a[..i] == b[..i]
    && (i == |a| || a[i] < b[i])
  }

  lemma {:induction false} LessIs(a: string, b: string)
    ensures Less(a, b) <==> exists i :: SmallerAt(a, b, i)
  {
    if Less(a, b) {
      var i := FirstDifference(a, b);
      assert SmallerAt(a, b, i);
    }
    forall i: nat | SmallerAt(a, b, i) ensures Less(a, b) { SmallerIsLess(a, b, i); }
  }

  lemma {:induction false} FirstDifference(a: string, b: string) returns (i: nat)
    requires Less(a, b)
    ensures SmallerAt(a, b, i)
  {
    if a == "" || a[0] < b[0] {
      i := 0;
    } else {
      var j := FirstDifference(a[1..], b[1..]);
      i := j + 1;
      assert a[..i] == [a[0]] + a[1..][..j] && b[..i] == [b[0]] + b[1..][..j];
    }
  }

  lemma {:induction false} SmallerIsLess(a: string, b: string, i: nat)
    requires SmallerAt(a, b, i)
    ensures Less(a, b)
  {
    if i > 0 {
      assert a[0] == a[..i][0] == b[..i][0] == b[0];
      assert a[1..][..i-1] == a[..i][1..] && b[1..][..i-1] == b[..i][1..];
      SmallerIsLess(a[1..], b[1..], i - 1);
    }
  }

  /** What a row is sorted by: the formula at the column, or else the value, in lower case; empty without a cell. */
  function SortText(cells: Cells, col: nat, r: nat): string {
    var cell := CellOf(cells, col, r);
    if cell.None? then ""
    else Lowered(if cell.value.formula != "" then cell.value.formula else cell.value.value)
  }

  lemma KeyIs(row: Row, cells: Cells, col: nat, r: nat)
    requires CellOf(cells, col, r) == InRow(row, col)
    ensures SortKey(row, col) == SortText(cells, col, r)
  {
    hide AddrOf, ToLower, Lowered;
    if col in row {
      LoweredIs(if row[col].formula != "" then row[col].formula else row[col].value);
    }
  }

  lemma {:induction false} LastRowUsed(keys: seq<string>) returns (k: string)
    requires MaxRowOf(keys) > 0
    ensures k in keys && ParseAddr(k).Some? && ParseAddr(k).value.1 == MaxRowOf(keys)
  {
    hide ParseAddr;
    var n := |keys| - 1;
    var at := ParseAddr(keys[n]);
    if at.Some? && at.value.1 == MaxRowOf(keys) {
      k := keys[n];
    } else {
      k := LastRowUsed(keys[..n]);
    }
  }

  /** The last row considered is the last one that has a cell. */
  lemma LastRowHasCell(cells: Cells) returns (c: nat)
    requires MaxRow(cells) > 0
    ensures Shown(cells, c, MaxRow(cells)).Some?
  {
    hide ParseAddr, MaxRowOf, LastKey, Ascending;
    var k := LastRowUsed(SortedKeys(cells.Keys));
    c := ParseAddr(k).value.0;
    HolderSpec(cells, (c, MaxRow(cells)));
  }

  /** `was` lists the rows 1 to n, each once. */
  ghost predicate Permutation(was: seq<nat>) {
    && (forall i :: 0 <= i < |was| ==> 1 <= was[i] <= |was|)
    && (forall i, j :: 0 <= i < j < |was| ==> was[i] != was[j])
  }

  /** Row `r` of the result is the old row `was[r-1]`, cell by cell; below there is nothing, before or after. */
  ghost predicate RowsMoved(cells: Cells, out: Cells, was: seq<nat>) {
    && (forall c: nat, r: nat :: InRange((c, r)) ==>
          CellOf(out, c, r) == if r <= |was| then Shown(cells, c, was[r-1]) else None)
    && (forall c: nat, r: nat :: r > |was| ==> Shown(cells, c, r) == None)
  }

  /** The texts that rows are sorted by ascend, or descend, and rows with equal texts keep their old order. */
  ghost predicate SortedBy(out: Cells, was: seq<nat>, col: nat, ascending: bool) {
    forall i, j :: 1 <= i < j <= |was| ==> RowsInOrder(out, was, col, ascending, i, j)
  }

  predicate RowsInOrder(out: Cells, was: seq<nat>, col: nat, ascending: bool, i: nat, j: nat)
    requires 1 <= i < j <= |was|
  {
    var a, b := SortText(out, col, i), SortText(out, col, j);
    && (if ascending then !Less(b, a) else !Less(a, b))
    && (a == b ==> was[i-1] < was[j-1])
  }

  function Indices(s: seq<Numbered>): (was: seq<nat>)
    ensures |was| == |s|
  {
    seq(|s|, i requires 0 <= i < |s| => s[i].index)
  }

  /** Sorting any sheet by a column: the rows down to the last one in use are permuted whole, ordered by the
      text at that column of the result, and stable. */
  lemma SortSpecification(cells: Cells, col: nat, ascending: bool) returns (was: seq<nat>)
    requires 0 < col < TWO_32
    ensures Permutation(was) && RowsMoved(cells, SortedRows(cells, col, ascending), was)
    ensures SortedBy(SortedRows(cells, col, ascending), was, col, ascending)
    ensures |was| > 0 ==> exists c: nat :: Shown(cells, c, |was|).Some?
  {
    hide RowAt, StableSort, PlacedAll, AddrOf, MaxRow, Shown, SortedRows, AllCanonical, SortText, Less, RowsMoved,
      InOrder;
    var s, out := NewOrder(cells, col, ascending), SortedRows(cells, col, ascending);
    was := Indices(s);
    NewOrderShape(cells, col, ascending);
    SortPermutesRows(cells, col, ascending);
    MovedRows(cells, s, out);
    if |was| > 0 {
      var c := LastRowHasCell(cells);
    }
    forall i: nat, j: nat | 1 <= i < j <= |was| ensures RowsInOrder(out, was, col, ascending, i, j) {
      OrderOf(s, i - 1, j - 1, col, ascending);
      TextOfRow(cells, s, out, col, i);
      TextOfRow(cells, s, out, col, j);
      LessTotal(SortText(out, col, i), SortText(out, col, j));
    }
  }

  lemma MovedRows(cells: Cells, s: seq<Numbered>, out: Cells)
    requires forall c: nat, r: nat :: InRange((c, r)) ==> CellOf(out, c, r) == Source(cells, s, c, r)
    requires forall c: nat, r: nat :: r == 0 || r > |s| ==> Shown(cells, c, r) == None
    ensures RowsMoved(cells, out, Indices(s))
  {
    hide Shown, CellOf;
  }

  lemma TextOfRow(cells: Cells, s: seq<Numbered>, out: Cells, col: nat, r: nat)
    requires InRange((col, r)) && r <= |s| && s[r-1].row == RowAt(cells, s[r-1].index)
    requires CellOf(out, col, r) == Source(cells, s, col, r)
    ensures SortKey(s[r-1].row, col) == SortText(out, col, r)
  {
    hide RowAt, Shown, SortText, SortKey, CellOf;
    RowAtShown(cells, s[r-1].index, col);
    KeyIs(s[r-1].row, out, col, r);
  }
}
