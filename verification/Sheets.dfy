/** The cells of a sheet, and rows and columns coming and going. */
module Sheets {
  import opened Basics
  import opened Text
  import opened Ordered
  import opened Addresses
  import opened Formulas

  datatype Cell = Cell(
    value: string, formula: string, format: string,
    bold: bool, align: string, wrap: bool, border: bool, borderSides: string, note: string)

  const EMPTY_CELL: Cell := Cell("", "", "", false, "", false, false, "", "")

  type Cells = map<string, Cell>

  function CellOr(cells: Cells, key: string): Cell {
    if key in cells then cells[key] else EMPTY_CELL
  }

  datatype Move = InsertRow(row: nat) | DeleteRow(row: nat) | InsertCol(col: nat) | DeleteCol(col: nat)

  /** Where a coordinate goes; a deleted row or column goes nowhere. */
  function MovedCoord(m: Move, at: Coord): Option<Coord> {
    var (c, r) := at;
    match m
    case InsertRow(row) => Some((c, if r >= row then (r + 1) % TWO_32 else r))
    case DeleteRow(row) => if r == row then None else Some((c, if r > row then r - 1 else r))
    case InsertCol(col) => Some((if c >= col then (c + 1) % TWO_32 else c, r))
    case DeleteCol(col) => if c == col then None else Some((if c > col then c - 1 else c, r))
  }

  /** Keys that are not addresses stay where they are. */
  function MovedKey(m: Move, key: string): Option<string> {
    var at := ParseAddr(key);
    if at.None? then Some(key)
    else
      var to := MovedCoord(m, at.value);
      if to.None? then None else Some(AddrOf(to.value.0, to.value.1))
  }

  function MovedCell(m: Move, key: string, cell: Cell): Cell {
    if ParseAddr(key).None? || cell.formula == "" then cell
    else match m
      case InsertRow(row) => cell.(formula := ShiftRows(cell.formula, row, 1))
      case DeleteRow(row) => cell.(formula := ShiftRows(cell.formula, row, -1))
      case _ => cell
  }

  /** Entries are moved in key order; when two land on one key the later one stays. */
  function Rekeyed(cells: Cells, keys: seq<string>, m: Move): Cells
    requires forall k :: k in keys ==> k in cells
  {
    if keys == [] then map[]
    else
      var n := |keys| - 1;
      var acc := Rekeyed(cells, keys[..n], m);
      var to := MovedKey(m, keys[n]);
      if to.None? then acc else acc[to.value := MovedCell(m, keys[n], cells[keys[n]])]
  }

  function Restructured(cells: Cells, m: Move): Cells {
    Rekeyed(cells, SortedKeys(cells.Keys), m)
  }

  method Restructure(cells: Cells, m: Move) returns (next: Cells)
    ensures next == Restructured(cells, m)
  {
    hide MovedKey, MovedCell, SortedKeys, Ascending;
    next := map[];
    var keys := SortedKeys(cells.Keys);
    for i := 0 to |keys|
      invariant next == Rekeyed(cells, keys[..i], m)
    {
      assert keys[..i+1][..i] == keys[..i];
      var to := MovedKey(m, keys[i]);
      if to.Some? {
        next := next[to.value := MovedCell(m, keys[i], cells[keys[i]])];
      }
    }
    assert keys[..|keys|] == keys;
  }

  // ------------------------------------------------------------ what moved where

  /** No two of these keys land on the same one. */
  ghost predicate Separate(keys: set<string>, m: Move) {
    forall a, b :: a in keys && b in keys && MovedKey(m, a) == MovedKey(m, b) && MovedKey(m, a).Some? ==> a == b
  }

  lemma {:induction false} RekeyedLookup(cells: Cells, keys: seq<string>, m: Move)
    requires (forall k :: k in keys ==> k in cells) && Separate(cells.Keys, m)
    ensures forall k :: k in keys && MovedKey(m, k).Some? ==>
              MovedKey(m, k).value in Rekeyed(cells, keys, m)
    ensures forall k :: k in keys && MovedKey(m, k).Some? ==>
              Rekeyed(cells, keys, m)[MovedKey(m, k).value] == MovedCell(m, k, cells[k])
    ensures forall x :: x in Rekeyed(cells, keys, m) ==> exists k :: k in keys && MovedKey(m, k) == Some(x)
  {
    hide MovedKey, MovedCell;
    if keys != [] {
      var n := |keys| - 1;
      RekeyedLookup(cells, keys[..n], m);
      assert keys == keys[..n] + [keys[n]];
      var acc, all := Rekeyed(cells, keys[..n], m), Rekeyed(cells, keys, m);
      forall x | x in all ensures exists k :: k in keys && MovedKey(m, k) == Some(x) {
        if MovedKey(m, keys[n]) == Some(x) {
          assert keys[n] in keys;
        } else {
          var k :| k in keys[..n] && MovedKey(m, k) == Some(x);
          assert k in keys;
        }
      }
    }
  }

  lemma RestructuredLookup(cells: Cells, m: Move)
    requires Separate(cells.Keys, m)
    ensures forall k :: k in cells && MovedKey(m, k).Some? ==>
              MovedKey(m, k).value in Restructured(cells, m)
    ensures forall k :: k in cells && MovedKey(m, k).Some? ==>
              Restructured(cells, m)[MovedKey(m, k).value] == MovedCell(m, k, cells[k])
    ensures forall x :: x in Restructured(cells, m) ==> exists k :: k in cells && MovedKey(m, k) == Some(x)
  {
    hide MovedKey, MovedCell, Rekeyed;
    RekeyedLookup(cells, SortedKeys(cells.Keys), m);
  }

  /** Keys that are addresses are spelled canonically and stay in range when they move. */
  ghost predicate Movable(cells: Cells, m: Move) {
    forall k :: k in cells && ParseAddr(k).Some? ==>
      && CanonicalAddr(k)
      && (MovedCoord(m, ParseAddr(k).value).Some? ==> InRange(MovedCoord(m, ParseAddr(k).value).value))
  }

  function Undo(m: Move): Move
    requires m.InsertRow? || m.InsertCol?
  {
    match m
    case InsertRow(row) => DeleteRow(row)
    case InsertCol(col) => DeleteCol(col)
  }

  /** Deleting what was inserted sends every key back. */
  lemma KeyThereAndBack(cells: Cells, m: Move, k: string)
    requires (m.InsertRow? && 0 < m.row) || (m.InsertCol? && 0 < m.col)
    requires Movable(cells, m) && k in cells
    ensures MovedKey(m, k).Some? && MovedKey(Undo(m), MovedKey(m, k).value) == Some(k)
    ensures ParseAddr(MovedKey(m, k).value).Some? <==> ParseAddr(k).Some?
  {
    hide ParseAddr, AddrOf, CanonicalAddr;
    if ParseAddr(k).Some? {
      PrintParse(k);
      var to := MovedCoord(m, ParseAddr(k).value).value;
      ParsePrint(to.0, to.1);
    }
  }

  lemma InsertSeparates(cells: Cells, m: Move)
    requires (m.InsertRow? && 0 < m.row) || (m.InsertCol? && 0 < m.col)
    requires Movable(cells, m)
    ensures Separate(cells.Keys, m)
  {
    hide MovedKey, Movable, Undo;
    forall a, b | a in cells && b in cells && MovedKey(m, a) == MovedKey(m, b) && MovedKey(m, a).Some? ensures a == b {
      KeyThereAndBack(cells, m, a);
      KeyThereAndBack(cells, m, b);
    }
  }

  /** Inserting and then deleting a row or column brings every cell back to its key. */
  lemma CellsThereAndBack(cells: Cells, m: Move)
    requires (m.InsertRow? && 0 < m.row) || (m.InsertCol? && 0 < m.col)
    requires Movable(cells, m)
    ensures var back := Restructured(Restructured(cells, m), Undo(m));
            && back.Keys == cells.Keys
            && forall k :: k in cells ==> back[k] == MovedCell(Undo(m), MovedKey(m, k).value, MovedCell(m, k, cells[k]))
  {
    hide MovedKey, MovedCell, Movable, Undo, Restructured;
    forall k | k in cells
      ensures MovedKey(m, k).Some? && MovedKey(Undo(m), MovedKey(m, k).value) == Some(k)
    {
      KeyThereAndBack(cells, m, k);
    }
    InsertSeparates(cells, m);
    RestructuredLookup(cells, m);
    var mid := Restructured(cells, m);
    assert Separate(mid.Keys, Undo(m)) by {
      forall a, b | a in mid && b in mid && MovedKey(Undo(m), a) == MovedKey(Undo(m), b) ensures a == b {
        var ka :| ka in cells && MovedKey(m, ka) == Some(a);
        var kb :| kb in cells && MovedKey(m, kb) == Some(b);
      }
    }
    RestructuredLookup(mid, Undo(m));
    var back := Restructured(mid, Undo(m));
    forall k | k in back ensures k in cells {
      var x :| x in mid && MovedKey(Undo(m), x) == Some(k);
      var y :| y in cells && MovedKey(m, y) == Some(x);
    }
  }

  // ------------------------------------------------------------ exactly when nothing is lost

  lemma {:induction false} RekeyedFrom(cells: Cells, keys: seq<string>, m: Move, x: string) returns (k: string)
    requires (forall k :: k in keys ==> k in cells) && x in Rekeyed(cells, keys, m)
    ensures k in cells && MovedKey(m, k) == Some(x)
  {
    hide MovedKey, MovedCell;
    var n := |keys| - 1;
    if MovedKey(m, keys[n]) == Some(x) {
      k := keys[n];
    } else {
      k := RekeyedFrom(cells, keys[..n], m, x);
    }
  }

  /** A key that deleting a row or column leaves behind is canonical, and could have moved before. */
  lemma LeftByDelete(m: Move, x: string, k: string)
    requires (m.InsertRow? && 0 < m.row) || (m.InsertCol? && 0 < m.col)
    requires MovedKey(Undo(m), x) == Some(k) && ParseAddr(k).Some?
    ensures CanonicalAddr(k) && InRange(MovedCoord(m, ParseAddr(k).value).value)
  {
    hide ParseAddr, AddrOf, CanonicalAddr;
    ParsedInRange(x);
    var to := MovedCoord(Undo(m), ParseAddr(x).value).value;
    PrintedIsCanonical(to.0, to.1);
    ParsePrint(to.0, to.1);
  }

  /** Only movable sheets can come back. */
  lemma RestoredIsMovable(cells: Cells, m: Move)
    requires (m.InsertRow? && 0 < m.row) || (m.InsertCol? && 0 < m.col)
    requires Restructured(Restructured(cells, m), Undo(m)) == cells
    ensures Movable(cells, m)
  {
    hide ParseAddr, MovedKey, Rekeyed, CanonicalAddr, Undo;
    var mid := Restructured(cells, m);
    forall k | k in cells && ParseAddr(k).Some?
      ensures CanonicalAddr(k) && InRange(MovedCoord(m, ParseAddr(k).value).value)
    {
      var x := RekeyedFrom(mid, SortedKeys(mid.Keys), Undo(m), k);
      LeftByDelete(m, x, k);
    }
  }

  /** Formula cells whose text a row insertion and deletion at `row` brings back. */
  ghost predicate FormulasRestorable(cells: Cells, row: nat) {
    forall k :: k in cells && ParseAddr(k).Some? ==>
      All(cells[k].formula, IsAscii) && Restorable(cells[k].formula, row)
  }

  lemma FormulaBack(cells: Cells, row: nat, k: string)
    requires 0 < row && Movable(cells, InsertRow(row)) && k in cells
    ensures var m, cell := InsertRow(row), cells[k];
            var back := MovedCell(DeleteRow(row), MovedKey(m, k).value, MovedCell(m, k, cell));
            back == cell <==> ParseAddr(k).None? || (All(cell.formula, IsAscii) && Restorable(cell.formula, row))
  {
    hide ParseAddr, MovedKey, ShiftRows, Restorable, Movable;
    KeyThereAndBack(cells, InsertRow(row), k);
    var f := cells[k].formula;
    if ParseAddr(k).Some? {
      ShiftThereAndBack(f, row);
      ShiftEmpty(f, row);
    }
  }

  lemma ShiftEmpty(f: string, row: nat)
    ensures f == "" <==> ShiftRows(f, row, 1) == ""
    ensures ShiftRows("", row, -1) == "" && Restorable("", row)
  {
    hide MovedDigits;
  }

  /** Deleting the row just inserted restores the whole sheet, formula texts included, exactly when every
      address among the keys is canonical and can move, and every formula is restorable ASCII text. */
  lemma RowThereAndBack(cells: Cells, row: nat)
    requires 0 < row
    ensures Restructured(Restructured(cells, InsertRow(row)), DeleteRow(row)) == cells <==>
            Movable(cells, InsertRow(row)) && FormulasRestorable(cells, row)
  {
    hide ParseAddr, MovedKey, MovedCell, Restorable, Movable, Restructured, All;
    var m := InsertRow(row);
    if Movable(cells, m) {
      CellsThereAndBack(cells, m);
      forall k | k in cells ensures MovedKey(m, k).Some? { KeyThereAndBack(cells, m, k); }
      forall k | k in cells
        ensures MovedCell(DeleteRow(row), MovedKey(m, k).value, MovedCell(m, k, cells[k])) == cells[k]
                <==> ParseAddr(k).None? || (All(cells[k].formula, IsAscii) && Restorable(cells[k].formula, row))
      {
        FormulaBack(cells, row, k);
      }
    } else if Restructured(Restructured(cells, m), DeleteRow(row)) == cells {
      RestoredIsMovable(cells, m);
    }
  }

  /** Deleting the column just inserted restores the sheet exactly when every address among the keys is
      canonical and can move; formulas are not rewritten at all. */
  lemma ColThereAndBack(cells: Cells, col: nat)
    requires 0 < col
    ensures Restructured(Restructured(cells, InsertCol(col)), DeleteCol(col)) == cells <==>
            Movable(cells, InsertCol(col))
  {
    hide ParseAddr, MovedKey, Movable, Restructured;
    var m := InsertCol(col);
    if Movable(cells, m) {
      CellsThereAndBack(cells, m);
      forall k | k in cells ensures MovedKey(m, k).Some? { KeyThereAndBack(cells, m, k); }
    } else if Restructured(Restructured(cells, m), DeleteCol(col)) == cells {
      RestoredIsMovable(cells, m);
    }
  }
}
