/** Sorting whole rows by the text of one column. */
module RowSort {
  import opened Basics
  import opened Text
  import opened Ordered
  import opened Addresses
  import opened Sheets
  import opened Coordinates

  type Row = map<nat, Cell>  // by column

  datatype Numbered = Numbered(index: nat, row: Row)

  // ------------------------------------------------------------ rows of a sheet

  function MaxRowOf(keys: seq<string>): nat {
    if keys == [] then 0
    else
      var at := ParseAddr(keys[|keys|-1]);
      Max(MaxRowOf(keys[..|keys|-1]), if at.Some? then at.value.1 else 0)
  }

  function MaxRow(cells: Cells): nat {
    MaxRowOf(SortedKeys(cells.Keys))
  }

  function RowFrom(cells: Cells, keys: seq<string>, r: nat): Row
    requires forall k :: k in keys ==> k in cells
  {
    if keys == [] then map[]
    else
      var n := |keys| - 1;
      var acc, at := RowFrom(cells, keys[..n], r), ParseAddr(keys[n]);
      if at.Some? && at.value.1 == r then acc[at.value.0 := cells[keys[n]]] else acc
  }

  function RowAt(cells: Cells, r: nat): Row {
    RowFrom(cells, SortedKeys(cells.Keys), r)
  }

  function Rows(cells: Cells, n: nat): seq<Numbered> {
    if n == 0 then [] else Rows(cells, n - 1) + [Numbered(n, RowAt(cells, n))]
  }

  // ------------------------------------------------------------ the sort

  function SortKey(row: Row, col: nat): string {
    if col !in row then ""
    else ToLower(if row[col].formula != "" then row[col].formula else row[col].value)
  }

  predicate Before(a: Numbered, b: Numbered, col: nat, ascending: bool) {
    if ascending then Less(SortKey(a.row, col), SortKey(b.row, col)) else Less(SortKey(b.row, col), SortKey(a.row, col))
  }

  /** Inserts behind everything that is not greater. */
  function InsertSorted(s: seq<Numbered>, x: Numbered, col: nat, ascending: bool): seq<Numbered> {
    if s != [] && Before(x, s[|s|-1], col, ascending) then
      InsertSorted(s[..|s|-1], x, col, ascending) + [s[|s|-1]]
    else s + [x]
  }

  function StableSort(s: seq<Numbered>, col: nat, ascending: bool): seq<Numbered> {
    if s == [] then [] else InsertSorted(StableSort(s[..|s|-1], col, ascending), s[|s|-1], col, ascending)
  }

  // ------------------------------------------------------------ writing rows back

  predicate ValidColumns(row: Row) {
    forall c :: c in row ==> 0 < c < TWO_32
  }

  /** The cells of a row placed at number `r`; each address names its column. */
  function Placed(row: Row, r: nat): Cells {
    map a | a in (set c | c in row :: AddrOf(c, r)) && ParseAddr(a).Some? && ParseAddr(a).value.0 in row
      :: row[ParseAddr(a).value.0]
  }

  function PlacedAll(rows: seq<Numbered>): Cells {
    if rows == [] then map[] else PlacedAll(rows[..|rows|-1]) + Placed(rows[|rows|-1].row, |rows|)
  }

  function SortedRows(cells: Cells, col: nat, ascending: bool): Cells {
    PlacedAll(StableSort(Rows(cells, MaxRow(cells)), col, ascending))
  }

  // ------------------------------------------------------------ methods

  method FindMaxRow(cells: Cells) returns (n: nat)
    ensures n == MaxRow(cells)
  {
    hide ParseAddr;
    n := 0;
    var keys := SortedKeys(cells.Keys);
    for i := 0 to |keys|
      invariant n == MaxRowOf(keys[..i])
    {
      assert keys[..i+1][..i] == keys[..i];
      var at := ParseAddress(keys[i]);
      if at.Some? {
        n := Max(n, at.value.1);
      }
    }
    assert keys[..|keys|] == keys;
  }

  method CollectRow(cells: Cells, r: nat) returns (row: Row)
    ensures row == RowAt(cells, r)
  {
    hide ParseAddr, Ascending, SortedKeys;
    row := map[];
    var keys := SortedKeys(cells.Keys);
    for i := 0 to |keys|
      invariant row == RowFrom(cells, keys[..i], r)
    {
      assert keys[..i+1][..i] == keys[..i];
      var at := ParseAddress(keys[i]);
      if at.Some? && at.value.1 == r {
        row := row[at.value.0 := cells[keys[i]]];
      }
    }
    assert keys[..|keys|] == keys;
  }

  method SortRows(cells: Cells, col: nat, ascending: bool) returns (next: Cells)
    ensures next == SortedRows(cells, col, ascending)
  {
    hide RowAt, StableSort, Placed;
    var max := FindMaxRow(cells);
    var rows: seq<Numbered> := [];
    for r := 1 to max + 1
      invariant rows == Rows(cells, r - 1)
    {
      var row := CollectRow(cells, r);
      rows := rows + [Numbered(r, row)];
    }
    rows := StableSort(rows, col, ascending);
    next := map[];
    for j := 0 to |rows|
      invariant next == PlacedAll(rows[..j])
    {
      assert rows[..j+1][..j] == rows[..j];
      next := next + Placed(rows[j].row, j + 1);
    }
    assert rows[..|rows|] == rows;
  }

  // ------------------------------------------------------------ order and stability

  /** Sorted by key; rows with the same key keep their original order. */
  predicate Precedes(a: Numbered, b: Numbered, col: nat, ascending: bool) {
    Before(a, b, col, ascending) || (!Before(b, a, col, ascending) && a.index < b.index)
  }

  ghost predicate InOrder(s: seq<Numbered>, col: nat, ascending: bool) {
    forall i, j :: 0 <= i < j < |s| ==> Precedes(s[i], s[j], col, ascending)
  }

  /** Every index in `s` is below `n`. */
  predicate IndexBelow(s: seq<Numbered>, n: nat) {
    forall i :: 0 <= i < |s| ==> s[i].index < n
  }

  lemma PrecedesTransitive(a: Numbered, b: Numbered, c: Numbered, col: nat, ascending: bool)
    requires Precedes(a, b, col, ascending) && Precedes(b, c, col, ascending)
    ensures Precedes(a, c, col, ascending)
  {
    hide Less, SortKey;
    var x, y, z := SortKey(a.row, col), SortKey(b.row, col), SortKey(c.row, col);
    LessTotal(x, y);
    LessTotal(y, z);
    LessTotal(x, z);
    if Less(x, y) && Less(y, z) { LessTransitive(x, y, z); }
    if Less(z, y) && Less(y, x) { LessTransitive(z, y, x); }
    LessIrreflexive(x);
  }

  lemma AppendInOrder(s: seq<Numbered>, x: Numbered, col: nat, ascending: bool)
    requires InOrder(s, col, ascending) && forall i :: 0 <= i < |s| ==> Precedes(s[i], x, col, ascending)
    ensures InOrder(s + [x], col, ascending)
  {
    hide Precedes;
  }

  lemma PrefixInOrder(s: seq<Numbered>, n: nat, col: nat, ascending: bool)
    requires n <= |s| && InOrder(s, col, ascending)
    ensures InOrder(s[..n], col, ascending)
  {
    hide Precedes;
  }

  lemma {:induction false} InsertMembers(s: seq<Numbered>, x: Numbered, col: nat, ascending: bool)
    ensures forall y :: y in InsertSorted(s, x, col, ascending) <==> y in s || y == x
    ensures |InsertSorted(s, x, col, ascending)| == |s| + 1
  {
    hide Before;
    if s != [] && Before(x, s[|s|-1], col, ascending) {
      var n := |s| - 1;
      InsertMembers(s[..n], x, col, ascending);
      assert s == s[..n] + [s[n]];
    }
  }

  lemma {:induction false} InsertInOrder(s: seq<Numbered>, x: Numbered, col: nat, ascending: bool)
    requires InOrder(s, col, ascending) && IndexBelow(s, x.index)
    ensures InOrder(InsertSorted(s, x, col, ascending), col, ascending)
  {
    hide Before, InOrder;
    var n := |s| - 1;
    if s != [] && Before(x, s[n], col, ascending) {
      PrefixInOrder(s, n, col, ascending);
      InsertInOrder(s[..n], x, col, ascending);
      var t := InsertSorted(s[..n], x, col, ascending);
      InsertMembers(s[..n], x, col, ascending);
      forall i | 0 <= i < |t| ensures Precedes(t[i], s[n], col, ascending) {
        assert t[i] in t;
        if t[i] != x {
          var j :| 0 <= j < n && s[..n][j] == t[i];
          OrderOf(s, j, n, col, ascending);
        }
      }
      AppendInOrder(t, s[n], col, ascending);
    } else {
      forall i | 0 <= i < |s| ensures Precedes(s[i], x, col, ascending) {
        if i < n {
          OrderOf(s, i, n, col, ascending);
          PrecedesTransitive(s[i], s[n], x, col, ascending);
        }
      }
      AppendInOrder(s, x, col, ascending);
    }
  }

  lemma OrderOf(s: seq<Numbered>, i: nat, j: nat, col: nat, ascending: bool)
    requires InOrder(s, col, ascending) && i < j < |s|
    ensures Precedes(s[i], s[j], col, ascending)
  {
  }

  /** Numbered 1, 2, 3, ... */
  predicate Consecutive(s: seq<Numbered>) {
    forall i :: 0 <= i < |s| ==> s[i].index == i + 1
  }

  /** The sort permutes the rows and puts them in order. */
  lemma {:induction false} SortInOrder(s: seq<Numbered>, col: nat, ascending: bool)
    requires Consecutive(s)
    ensures InOrder(StableSort(s, col, ascending), col, ascending)
    ensures |StableSort(s, col, ascending)| == |s|
    ensures forall y :: y in StableSort(s, col, ascending) <==> y in s
  {
    hide Before, InOrder, InsertSorted;
    if s == [] {
      NothingInOrder(col, ascending);
    } else {
      var n := |s| - 1;
      assert s == s[..n] + [s[n]];
      SortInOrder(s[..n], col, ascending);
      var t := StableSort(s[..n], col, ascending);
      forall i | 0 <= i < |t| ensures t[i].index < s[n].index {
        assert t[i] in t;
        var j :| 0 <= j < n && s[..n][j] == t[i];
      }
      InsertInOrder(t, s[n], col, ascending);
      InsertMembers(t, s[n], col, ascending);
    }
  }

  lemma NothingInOrder(col: nat, ascending: bool)
    ensures InOrder([], col, ascending)
  {
  }

  /** Rows that are in order already are left as they are. */
  lemma {:induction false} SortOfSorted(s: seq<Numbered>, col: nat, ascending: bool)
    requires InOrder(s, col, ascending)
    ensures StableSort(s, col, ascending) == s
  {
    hide Less, SortKey;
    if s != [] {
      var n := |s| - 1;
      PrefixInOrder(s, n, col, ascending);
      SortOfSorted(s[..n], col, ascending);
      assert s == s[..n] + [s[n]];
      if n > 0 {
        OrderOf(s, n - 1, n, col, ascending);
        LessTotal(SortKey(s[n].row, col), SortKey(s[n-1].row, col));
      }
    }
  }

  // ------------------------------------------------------------ cell by cell

  function InRow(row: Row, c: nat): Option<Cell> {
    if c in row then Some(row[c]) else None
  }

  lemma {:induction false} RowFromLookup(cells: Cells, keys: seq<string>, r: nat, c: nat)
    requires forall k :: k in keys ==> k in cells
    ensures var k := LastKey(keys, (c, r));
            && (k.Some? ==> k.value in cells)
            && InRow(RowFrom(cells, keys, r), c) == if k.None? then None else Some(cells[k.value])
  {
    hide ParseAddr;
    if keys != [] {
      RowFromLookup(cells, keys[..|keys|-1], r, c);
    }
  }

  lemma RowAtShown(cells: Cells, r: nat, c: nat)
    ensures InRow(RowAt(cells, r), c) == Shown(cells, c, r)
  {
    hide RowFrom, Ascending, LastKey, ParseAddr;
    RowFromLookup(cells, SortedKeys(cells.Keys), r, c);
  }

  lemma RowAtLookup(cells: Cells, r: nat, c: nat)
    requires AllCanonical(cells) && 0 < r < TWO_32
    ensures InRow(RowAt(cells, r), c) == if 0 < c < TWO_32 then CellOf(cells, c, r) else None
  {
    hide CanonicalAddr, AddrOf, RowAt, Shown;
    RowAtShown(cells, r, c);
    ShownCanonical(cells, r, c);
  }

  lemma {:induction false} RowFromValid(cells: Cells, keys: seq<string>, r: nat)
    requires forall k :: k in keys ==> k in cells
    ensures ValidColumns(RowFrom(cells, keys, r))
  {
    hide ParseAddr;
    if keys != [] {
      RowFromValid(cells, keys[..|keys|-1], r);
      ParsedInRange(keys[|keys|-1]);
    }
  }

  lemma RowAtValid(cells: Cells, r: nat)
    ensures ValidColumns(RowAt(cells, r))
  {
    hide RowFrom, ValidColumns, Ascending;
    RowFromValid(cells, SortedKeys(cells.Keys), r);
  }

  lemma PlacedLookup(row: Row, r: nat, c: nat, j: nat)
    requires ValidColumns(row) && 0 < r < TWO_32 && InRange((c, j))
    ensures CellOf(Placed(row, r), c, j) == if j == r then InRow(row, c) else None
  {
    hide AddrOf, ParseAddr;
    ParsePrint(c, j);
    if c in row && j == r {
      assert AddrOf(c, r) in (set x | x in row :: AddrOf(x, r));
    }
    if AddrOf(c, j) in Placed(row, r) {
      var x :| x in row && AddrOf(x, r) == AddrOf(c, j);
      PrintInjective(x, r, c, j);
    }
  }

  lemma PlacedCanonical(row: Row, r: nat)
    requires ValidColumns(row) && 0 < r < TWO_32
    ensures AllCanonical(Placed(row, r))
  {
    hide AddrOf, ParseAddr, CanonicalAddr;
    forall a | a in Placed(row, r) ensures CanonicalAddr(a) {
      var x :| x in row && AddrOf(x, r) == a;
      PrintedIsCanonical(x, r);
    }
  }

  ghost predicate AllValid(rows: seq<Numbered>) {
    |rows| < TWO_32 && forall i :: 0 <= i < |rows| ==> ValidColumns(rows[i].row)
  }

  lemma {:induction false} PlacedAllLookup(rows: seq<Numbered>, c: nat, j: nat)
    requires AllValid(rows) && InRange((c, j))
    ensures CellOf(PlacedAll(rows), c, j) == if j <= |rows| then InRow(rows[j-1].row, c) else None
  {
    hide AddrOf, Placed;
    if rows != [] {
      var n := |rows| - 1;
      PlacedAllLookup(rows[..n], c, j);
      PlacedLookup(rows[n].row, n + 1, c, j);
    }
  }

  lemma {:induction false} PlacedAllCanonical(rows: seq<Numbered>)
    requires AllValid(rows)
    ensures AllCanonical(PlacedAll(rows))
  {
    hide AddrOf, Placed, CanonicalAddr;
    if rows != [] {
      var n := |rows| - 1;
      PlacedAllCanonical(rows[..n]);
      PlacedCanonical(rows[n].row, n + 1);
    }
  }

  lemma {:induction false} MaxRowOfBound(keys: seq<string>)
    ensures MaxRowOf(keys) < TWO_32
    ensures forall k :: k in keys && ParseAddr(k).Some? ==> ParseAddr(k).value.1 <= MaxRowOf(keys)
  {
    hide ParseAddr;
    if keys != [] {
      var n := |keys| - 1;
      MaxRowOfBound(keys[..n]);
      assert keys == keys[..n] + [keys[n]];
      ParsedInRange(keys[n]);
    }
  }

  lemma MaxRowBound(cells: Cells, c: nat, r: nat)
    requires InRange((c, r))
    ensures MaxRow(cells) < TWO_32
    ensures r > MaxRow(cells) ==> CellOf(cells, c, r) == None
  {
    hide ParseAddr, AddrOf, MaxRowOf, Ascending;
    MaxRowOfBound(SortedKeys(cells.Keys));
    ParsePrint(c, r);
  }

  lemma {:induction false} RowsShape(cells: Cells, n: nat)
    requires n < TWO_32
    ensures |Rows(cells, n)| == n && Consecutive(Rows(cells, n)) && AllValid(Rows(cells, n))
    ensures forall i :: 0 <= i < n ==> Rows(cells, n)[i].row == RowAt(cells, i + 1)
  {
    hide RowAt;
    if n > 0 {
      RowsShape(cells, n - 1);
      RowAtValid(cells, n);
    }
  }

  /** The rows in their new order, each with the number it had. */
  function NewOrder(cells: Cells, col: nat, ascending: bool): seq<Numbered> {
    StableSort(Rows(cells, MaxRow(cells)), col, ascending)
  }

  lemma NewOrderShape(cells: Cells, col: nat, ascending: bool)
    ensures var s := NewOrder(cells, col, ascending);
            && |s| == MaxRow(cells) < TWO_32 && InOrder(s, col, ascending) && AllValid(s)
            && (forall i :: 0 <= i < |s| ==> 1 <= s[i].index <= |s| && s[i].row == RowAt(cells, s[i].index))
            && forall r :: 1 <= r <= |s| ==> Occurs(s, r)
  {
    hide RowAt, Rows, StableSort, MaxRow, InOrder;
    MaxRowBound(cells, 1, 1);
    var n := MaxRow(cells);
    RowsShape(cells, n);
    SortInOrder(Rows(cells, n), col, ascending);
    var s := NewOrder(cells, col, ascending);
    forall i | 0 <= i < |s|
      ensures 1 <= s[i].index <= n && s[i].row == RowAt(cells, s[i].index) && ValidColumns(s[i].row)
    {
      assert s[i] in s;
      var j :| 0 <= j < n && Rows(cells, n)[j] == s[i];
    }
    forall r | 1 <= r <= n ensures Occurs(s, r) {
      assert Rows(cells, n)[r-1] in s;
    }
  }

  ghost predicate Occurs(s: seq<Numbered>, r: int) {
    exists i :: 0 <= i < |s| && s[i].index == r
  }

  /** The cell that belongs at row `r` when the rows are put in the order `s`. */
  function Source(cells: Cells, s: seq<Numbered>, c: nat, r: nat): Option<Cell> {
    if 0 < r <= |s| then Shown(cells, c, s[r-1].index) else None
  }

  /** Sorting moves whole rows of any sheet: row `j` of the result is, column by column, the row that the
      new order puts there, under canonical addresses. Each row number occurs exactly once in that order,
      so no coordinate is lost, duplicated or moved to another column; equal keys keep their order. */
  lemma SortPermutesRows(cells: Cells, col: nat, ascending: bool)
    ensures var s, out := NewOrder(cells, col, ascending), SortedRows(cells, col, ascending);
            && AllCanonical(out)
            && InOrder(s, col, ascending)
            && (forall i, j :: 0 <= i < j < |s| ==> s[i].index != s[j].index)
            && (forall r :: 1 <= r <= |s| <==> Occurs(s, r))
            && (forall c: nat, r: nat :: InRange((c, r)) ==> CellOf(out, c, r) == Source(cells, s, c, r))
            && (forall c: nat, r: nat :: r == 0 || r > |s| ==> Shown(cells, c, r) == None)
  {
    hide RowAt, AllCanonical, InOrder, StableSort, PlacedAll, AddrOf, MaxRow, CellOf, Shown;
    var s := NewOrder(cells, col, ascending);
    NewOrderShape(cells, col, ascending);
    PlacedAllCanonical(s);
    forall i, j | 0 <= i < j < |s| ensures s[i].index != s[j].index {
      OrderOf(s, i, j, col, ascending);
      if s[i].index == s[j].index {
        NotBeforeItself(s[i], s[j], col, ascending);
      }
    }
    forall c: nat, r: nat | InRange((c, r))
      ensures CellOf(SortedRows(cells, col, ascending), c, r) == Source(cells, s, c, r)
    {
      PlacedAllLookup(s, c, r);
      if r <= |s| {
        RowAtShown(cells, s[r-1].index, c);
      }
    }
    forall c: nat, r: nat | r == 0 || r > |s| ensures Shown(cells, c, r) == None {
      NothingBelow(cells, c, r);
    }
  }

  lemma NothingBelow(cells: Cells, c: nat, r: nat)
    requires r == 0 || r > MaxRow(cells)
    ensures Shown(cells, c, r) == None
  {
    hide ParseAddr, MaxRowOf, Ascending, LastKey;
    MaxRowOfBound(SortedKeys(cells.Keys));
    var k := Holder(cells, (c, r));
    if k.Some? {
      ParsedInRange(k.value);
    }
  }

  lemma NotBeforeItself(a: Numbered, b: Numbered, col: nat, ascending: bool)
    requires a.index == b.index && a.row == b.row
    ensures !Precedes(a, b, col, ascending)
  {
    LessIrreflexive(SortKey(a.row, col));
  }

  lemma SortedRowAt(cells: Cells, col: nat, ascending: bool, j: nat)
    requires 0 < j <= MaxRow(cells)
    ensures |NewOrder(cells, col, ascending)| == MaxRow(cells) < TWO_32
    ensures AllCanonical(SortedRows(cells, col, ascending))
    ensures RowAt(SortedRows(cells, col, ascending), j) == NewOrder(cells, col, ascending)[j-1].row
  {
    hide RowAt, AllCanonical, InOrder, StableSort, PlacedAll, AddrOf, MaxRow;
    var s, out := NewOrder(cells, col, ascending), SortedRows(cells, col, ascending);
    NewOrderShape(cells, col, ascending);
    PlacedAllCanonical(s);
    var x, y := RowAt(out, j), s[j-1].row;
    forall c: nat ensures InRow(x, c) == InRow(y, c) {
      RowAtLookup(out, j, c);
      if 0 < c < TWO_32 { PlacedAllLookup(s, c, j); }
    }
    SameRows(x, y);
  }

  lemma SameRows(x: Row, y: Row)
    requires forall c: nat :: InRow(x, c) == InRow(y, c)
    ensures x == y
  {
    forall c ensures c in x <==> c in y { assert InRow(x, c) == InRow(y, c); }
    forall c | c in x ensures x[c] == y[c] { assert InRow(x, c) == InRow(y, c); }
  }

  lemma MaxRowNoLarger(cells: Cells, col: nat, ascending: bool)
    ensures MaxRow(SortedRows(cells, col, ascending)) <= MaxRow(cells) < TWO_32
  {
    hide RowAt, StableSort, PlacedAll, AddrOf, CanonicalAddr, ParseAddr;
    var s, out := NewOrder(cells, col, ascending), SortedRows(cells, col, ascending);
    NewOrderShape(cells, col, ascending);
    PlacedAllCanonical(s);
    var keys := SortedKeys(out.Keys);
    forall k | k in keys ensures ParseAddr(k).Some? && ParseAddr(k).value.1 <= MaxRow(cells) {
      PrintParse(k);
      var at := ParseAddr(k).value;
      PlacedAllLookup(s, at.0, at.1);
      assert CellOf(out, at.0, at.1) != None;
    }
    MaxRowOfLeast(keys, MaxRow(cells));
  }

  lemma {:induction false} MaxRowOfLeast(keys: seq<string>, n: nat)
    requires forall k :: k in keys && ParseAddr(k).Some? ==> ParseAddr(k).value.1 <= n
    ensures MaxRowOf(keys) <= n
  {
    hide ParseAddr;
    if keys != [] {
      assert keys[|keys|-1] in keys;
      MaxRowOfLeast(keys[..|keys|-1], n);
    }
  }

  /** Sorting a sorted sheet changes nothing. */
  lemma SortIdempotent(cells: Cells, col: nat, ascending: bool)
    ensures var out := SortedRows(cells, col, ascending); SortedRows(out, col, ascending) == out
  {
    hide RowAt, AllCanonical, StableSort, PlacedAll, AddrOf, MaxRow, Rows, Less, SortKey, CellOf;
    var out := SortedRows(cells, col, ascending);
    var s := NewOrder(cells, col, ascending);
    NewOrderShape(cells, col, ascending);
    PlacedAllCanonical(s);
    MaxRowNoLarger(cells, col, ascending);
    var n := MaxRow(out);
    RowsShape(out, n);
    var rows := Rows(out, n);
    forall i | 0 <= i < n ensures rows[i].row == s[i].row {
      SortedRowAt(cells, col, ascending, i + 1);
    }
    forall i, j | 0 <= i < j < n ensures Precedes(rows[i], rows[j], col, ascending) {
      OrderOf(s, i, j, col, ascending);
      LessTotal(SortKey(s[i].row, col), SortKey(s[j].row, col));
    }
    SortOfSorted(rows, col, ascending);
    PlacedAllCanonical(rows);
    forall c: nat, r: nat | InRange((c, r)) ensures CellOf(PlacedAll(rows), c, r) == CellOf(out, c, r) {
      PlacedAllLookup(rows, c, r);
      MaxRowBound(out, c, r);
      if r <= n { RowAtLookup(out, r, c); }
    }
    SameByCells(PlacedAll(rows), out);
  }
}
