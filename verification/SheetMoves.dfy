/** Rows and columns coming and going, coordinate by coordinate. */
module SheetMoves {
  import opened Basics
  import opened Text
  import opened Ordered
  import opened Addresses
  import opened Formulas
  import opened Sheets
  import opened Coordinates
  import opened RowMeaning

  /** Where the cell at a coordinate of the result was before: nowhere for an inserted row or column, and
      nowhere for one that would have come from beyond the last. */
  function Origin(m: Move, at: Coord): Option<Coord> {
    var (c, r) := at;
    match m
    case InsertRow(k) => if r < k then Some((c, r)) else if r == k then None else Some((c, r - 1))
    case InsertCol(k) => if c < k then Some((c, r)) else if c == k then None else Some((c - 1, r))
    case DeleteRow(k) => if r < k then Some((c, r)) else if r + 1 < TWO_32 then Some((c, r + 1)) else None
    case DeleteCol(k) => if c < k then Some((c, r)) else if c + 1 < TWO_32 then Some((c + 1, r)) else None
  }

  predicate Counted(m: Move) {
    if m.InsertRow? || m.DeleteRow? then 0 < m.row else 0 < m.col
  }

  /** Column 0, where the last column wraps to, is no address. */
  lemma ColumnZero(r: nat)
    ensures ParseAddr(AddrOf(0, r)) == None
  {
    hide Decimal, DecimalValue;
    DecimalRoundTrip(r);
    var d := Decimal(r);
    assert ColumnLetters(0) == "" && "" + d == d;
    assert ToUpper(d) == d;
    assert !IsAlpha(d[0]);
    SpanOf("", d, IsAlpha);
    assert d[..0] == "";
  }

  lemma LandsAt(m: Move, at: Coord, key: string)
    requires Counted(m) && InRange(at)
    ensures MovedKey(m, key) == Some(AddrOf(at.0, at.1)) <==>
            Origin(m, at).Some? && ParseAddr(key) == Origin(m, at)
  {
    hide AddrOf, ParseAddr;
    ParsePrint(at.0, at.1);
    ParsedInRange(key);
    if ParseAddr(key).Some? {
      var to := MovedCoord(m, ParseAddr(key).value);
      if to.Some? {
        if to.value.1 == 0 {
          RowZero(to.value.0);
        } else if to.value.0 == 0 {
          ColumnZero(to.value.1);
        } else if AddrOf(to.value.0, to.value.1) == AddrOf(at.0, at.1) {
          PrintInjective(to.value.0, to.value.1, at.0, at.1);
        }
      }
    }
  }

  lemma {:induction false} LastLanding(keys: seq<string>, m: Move, at: Coord)
    requires Counted(m) && InRange(at)
    ensures LastMoved(keys, m, AddrOf(at.0, at.1)) ==
            if Origin(m, at).None? then None else LastKey(keys, Origin(m, at).value)
  {
    hide AddrOf, ParseAddr, MovedKey;
    if keys != [] {
      LastLanding(keys[..|keys|-1], m, at);
      LandsAt(m, at, keys[|keys|-1]);
    }
  }

  /** A moved cell: its formula is rewritten when rows move, and everything else stays. */
  predicate SameButFormula(m: Move, was: Cell, now: Cell) {
    && now == was.(formula := now.formula)
    && now.formula == match m
                      case InsertRow(k) => ShiftRows(was.formula, k, 1)
                      case DeleteRow(k) => ShiftRows(was.formula, k, -1)
                      case _ => was.formula
  }

  /** After inserting or deleting a row or column of any sheet, each coordinate has the cell of its origin. */
  lemma MovedByCoordinate(cells: Cells, m: Move, c: nat, r: nat)
    requires Counted(m) && InRange((c, r))
    ensures var now := CellOf(Restructured(cells, m), c, r);
            var was := if Origin(m, (c, r)).None? then None
                       else Shown(cells, Origin(m, (c, r)).value.0, Origin(m, (c, r)).value.1);
            (now.Some? <==> was.Some?) && (now.Some? ==> SameButFormula(m, was.value, now.value))
  {
    hide AddrOf, MovedKey, Rekeyed, ParseAddr, LastMoved, LastKey, Ascending, ShiftRows, Origin, MovedCell;
    var keys := SortedKeys(cells.Keys);
    LastLanding(keys, m, (c, r));
    RekeyedLast(cells, keys, m, AddrOf(c, r));
    var k := LastMoved(keys, m, AddrOf(c, r));
    if k.Some? {
      LandsAt(m, (c, r), k.value);
      LastKeySpec(keys, Origin(m, (c, r)).value);
      CellMoved(m, k.value, cells[k.value]);
    }
  }

  lemma CellMoved(m: Move, key: string, cell: Cell)
    requires ParseAddr(key).Some?
    ensures SameButFormula(m, cell, MovedCell(m, key, cell))
  {
    hide ParseAddr;
  }

  /** References in formulas: inserting moves those at or behind the row down, deleting moves those behind it
      up and leaves one to the deleted row alone; all are spelled without leading zeros. */
  lemma ReferenceMoved(letters: string, digits: string, rest: string, k: nat)
    requires CellRef(letters, digits) && (rest != "" ==> !IsDigit(rest[0]))
    ensures var r := DecimalValue(digits);
            ShiftRows(letters + digits + rest, k, 1) ==
            letters + Decimal(if r < k then r else if r + 1 == TWO_32 then 0 else r + 1) + ShiftRows(rest, k, 1)
    ensures var r := DecimalValue(digits);
            ShiftRows(letters + digits + rest, k, -1) ==
            letters + Decimal(if r <= k then r else r - 1) + ShiftRows(rest, k, -1)
  {
    hide ShiftRows, Decimal, DecimalValue, ColumnNumber;
    Token(letters, digits, rest, k, 1);
    Token(letters, digits, rest, k, -1);
  }
}
