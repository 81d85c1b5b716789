/** What each operation on a workbook writes. */
module WorkbookEffects {
  import opened Basics
  import opened Text
  import opened Addresses
  import opened Formulas
  import opened Sheets
  import opened Coordinates
  import opened Calc
  import opened Recalc
  import opened RowSort
  import opened Workbook
  import opened WorkbookRuns
  import opened SheetMoves

  /** The cell that was there, or a blank one. */
  function Before(cells: Cells, key: string): Cell {
    if key in cells then cells[key] else Cell("", "", "", false, "", false, false, "", "")
  }

  // ------------------------------------------------------------ single cells

  /** Setting a cell writes its value and formula under the key in capitals and keeps its format, style and
      note; with a formula the value is then computed. */
  lemma CellSet(num: Numbers, b: Book, addr: string, value: string, formula: string)
    ensures var was := Before(Normalized(b).cells, ToUpper(addr));
            var r := ApplySheetOp(num, b, SetCell(addr, value, formula));
            && ToUpper(addr) in r.cells
            && var now := r.cells[ToUpper(addr)];
            && now.formula == formula && (formula == "" ==> now.value == value)
            && now.format == was.format && now.bold == was.bold && now.align == was.align && now.wrap == was.wrap
            && now.border == was.border && now.borderSides == was.borderSides && now.note == was.note
  {
    hide Recalculated, Normalized, ToUpper, SameButResults;
    var n, key := Normalized(b), ToUpper(addr);
    NormalizedAgain(n);
    var edited := SetCellIn(n, addr, value, formula).cells;
    RecalculatedKeeps(num, edited);
    KeptCell(edited, Recalculated(num, edited), key);
  }

  lemma KeptCell(a: Cells, b: Cells, key: string)
    requires SameButResults(a, b) && key in a
    ensures key in b && b[key] == if a[key].formula == "" then a[key] else a[key].(value := b[key].value)
  {
  }

  /** Operations after which formulas are computed anew: all that may change what a formula reads. */
  predicate Recalculates(op: SheetOp) {
    op.SetCell? || op.ClearCell? || op.SortRange? || op.MoveCells? || op.SwitchSheet? || op.AddSheet?
    || op.ReorderSheet?
  }

  /** Afterwards every formula holds its value, if each reads only plain cells and earlier formula cells. */
  lemma FormulasSolved(num: Numbers, b: Book, op: SheetOp)
    requires Recalculates(op) && InKeyOrder(num, ApplySheetOp(num, b, op).cells)
    ensures Solved(num, ApplySheetOp(num, b, op).cells)
  {
    hide Recalculated, Normalized, ToUpper, Solved, InKeyOrder, SetCellIn, ClearCellIn, RowsSorted, CellsMoved,
      Switched, WithNewTab, Reordered, NewTabName, SameButResults;
    var n := Normalized(b);
    var edited := match op
      case SetCell(addr, value, formula) => SetCellIn(n, addr, value, formula).cells
      case ClearCell(addr) => ClearCellIn(n, addr).cells
      case SortRange(col, ascending) => RowsSorted(n, col, ascending).cells
      case MoveCells(m) => CellsMoved(n, m).cells
      case SwitchSheet(index) => Switched(n, index).cells
      case AddSheet(name) => WithNewTab(n, NewTabName(n, name)).cells
      case ReorderSheet(from, to) => Reordered(n, from, to).cells
      case _ => n.cells;
    RecalculatedKeeps(num, edited);
    OrderKept(num, edited, Recalculated(num, edited));
    OnePassSolves(num, edited);
  }

  lemma OrderKept(num: Numbers, a: Cells, b: Cells)
    requires SameButResults(a, b) && InKeyOrder(num, b)
    ensures InKeyOrder(num, a)
  {
    hide Reads;
    forall k ensures IsFormula(b, k) == IsFormula(a, k) && (k in a ==> b[k].formula == a[k].formula) {
      if k in a {}
    }
  }

  /** Clearing removes the cell; setting a format writes it, keeps the rest of the cell and all other cells. */
  lemma CellClearedOrFormatted(num: Numbers, b: Book, addr: string, format: string)
    ensures ToUpper(addr) !in ApplySheetOp(num, b, ClearCell(addr)).cells
    ensures var n, r := Normalized(b), ApplySheetOp(num, b, SetFormat(addr, format));
            && r.cells.Keys == n.cells.Keys + {ToUpper(addr)}
            && r.cells[ToUpper(addr)] == Before(n.cells, ToUpper(addr)).(format := format)
            && forall k :: k in n.cells && k != ToUpper(addr) ==> r.cells[k] == n.cells[k]
  {
    hide Recalculated, Normalized, ToUpper, SameButResults;
    var n := Normalized(b);
    NormalizedAgain(n);
    var edited := ClearCellIn(n, addr).cells;
    RecalculatedKeeps(num, edited);
    SameKeys(edited, Recalculated(num, edited));
  }

  lemma SameKeys(a: Cells, b: Cells)
    requires SameButResults(a, b)
    ensures a.Keys == b.Keys
  {
  }

  // ------------------------------------------------------------ styles

  predicate IsSide(c: char) {
    c == 't' || c == 'b' || c == 'l' || c == 'r'
  }

  /** Keeping the letters of sides: one by one, the others dropped. */
  lemma {:induction false} SidesKept(a: string, b: string, c: char)
    ensures SideLetters(a + b) == SideLetters(a) + SideLetters(b)
    ensures SideLetters([c]) == if IsSide(c) then [c] else ""
    ensures SideLetters("") == ""
    decreases |a|
  {
    assert [c][1..] == "";
    if a == "" {
      assert a + b == b;
    } else {
      assert (a + b)[1..] == a[1..] + b;
      SidesKept(a[1..], b, c);
    }
  }

  /** Each given field of a style is set. Borders: all sides or none for a flag, and given sides decide both. */
  predicate StyleGiven(was: Cell, p: StylePatch, now: Cell) {
    && now.value == was.value && now.formula == was.formula && now.format == was.format
    && now.bold == (if p.bold.Some? then p.bold.value else was.bold)
    && now.align == (if p.align.Some? then p.align.value else was.align)
    && now.wrap == (if p.wrap.Some? then p.wrap.value else was.wrap)
    && now.note == (if p.note.Some? then p.note.value else was.note)
    && (if p.borderSides.Some? then
          now.borderSides == SideLetters(p.borderSides.value) && now.border == (now.borderSides != "")
        else if p.border.Some? then
          && now.border == p.border.value
          && now.borderSides == if !p.border.value then ""
                                else if was.borderSides == "" then "tblr" else was.borderSides
        else now.border == was.border && now.borderSides == was.borderSides)
  }

  /** Styling writes the given fields of one cell, and keeps all other cells. */
  lemma CellStyled(num: Numbers, b: Book, addr: string, style: StylePatch)
    ensures var n, r := Normalized(b), ApplySheetOp(num, b, SetCellStyle(addr, style));
            && r.cells.Keys == n.cells.Keys + {ToUpper(addr)}
            && StyleGiven(Before(n.cells, ToUpper(addr)), style, r.cells[ToUpper(addr)])
            && forall k :: k in n.cells && k != ToUpper(addr) ==> r.cells[k] == n.cells[k]
  {
    hide Recalculated, Normalized, ToUpper, Styled, StyleGiven, SideLetters;
    var n := Normalized(b);
    NormalizedAgain(n);
    StyledGives(Before(n.cells, ToUpper(addr)), style);
  }

  lemma StyledGives(c: Cell, p: StylePatch)
    ensures StyleGiven(c, p, Styled(c, p))
  {
    hide SideLetters;
    if p.borderSides.Some? {
    } else if p.border.Some? {
    }
  }

  // ------------------------------------------------------------ rows and columns

  /** Inserting or deleting a row or column of the active tab: the cell at each coordinate is that of its
      origin, its formula rewritten and results computed anew. Inserting counts one more, up to the limit. */
  lemma CellsMovedByOp(num: Numbers, b: Book, m: Move, c: nat, r: nat)
    requires Counted(m) && InRange((c, r))
    ensures var n, after := Normalized(b), ApplySheetOp(num, b, MoveCells(m));
            var was := if Origin(m, (c, r)).None? then None
                       else Shown(n.cells, Origin(m, (c, r)).value.0, Origin(m, (c, r)).value.1);
            var now := CellOf(after.cells, c, r);
            && (now.Some? <==> was.Some?)
            && (now.Some? ==> SameButFormula(m, was.value.(value := now.value.value), now.value))
            && (now.Some? && now.value.formula == "" ==> now.value.value == was.value.value)
            && after.rows == (if !m.InsertRow? then n.rows else if n.rows < TWO_32 - 1 then n.rows + 1
                              else TWO_32 - 1)
            && after.cols == (if !m.InsertCol? then n.cols else if n.cols < TWO_32 - 1 then n.cols + 1
                              else TWO_32 - 1)
  {
    hide Recalculated, Normalized, Restructured, AddrOf, SameButResults, Origin, Shown, ShiftRows;
    var n := Normalized(b);
    NormalizedAgain(n);
    var moved := Restructured(n.cells, m);
    MovedByCoordinate(n.cells, m, c, r);
    RecalculatedKeeps(num, moved);
    SameKeys(moved, Recalculated(num, moved));
    if AddrOf(c, r) in moved {
      KeptCell(moved, Recalculated(num, moved), AddrOf(c, r));
    }
  }

  /** A row or column numbered 0 moves nothing. */
  lemma NothingMoved(num: Numbers, b: Book, m: Move)
    requires !Counted(m)
    ensures var n, r := Normalized(b), ApplySheetOp(num, b, MoveCells(m));
            SameButResults(n.cells, r.cells) && r.rows == n.rows && r.cols == n.cols
  {
    hide Recalculated, Normalized, Restructured, SameButResults;
    var n := Normalized(b);
    NormalizedAgain(n);
    RecalculatedKeeps(num, n.cells);
  }

  /** Sorting by a column sorts the active cells; results are then computed anew. */
  lemma RowsSortedByOp(num: Numbers, b: Book, col: nat, ascending: bool)
    ensures var n, r := Normalized(b), ApplySheetOp(num, b, SortRange(col, ascending));
            SameButResults(if col == 0 || MaxRow(n.cells) == 0 then n.cells else SortedRows(n.cells, col, ascending),
                           r.cells)
  {
    hide Recalculated, Normalized, SortedRows, MaxRow, SameButResults;
    var n := Normalized(b);
    NormalizedAgain(n);
    RecalculatedKeeps(num, n.cells);
    RecalculatedKeeps(num, SortedRows(n.cells, col, ascending));
  }

  // ------------------------------------------------------------ tabs

  /** Everything about a tab but the field that an operation is for. */
  predicate DataGiven(op: SheetOp, was: Tab, now: Tab) {
    match op
    case SetFilterCriteria(criteria) =>
      now.filterCriteria == criteria && was == now.(filterCriteria := was.filterCriteria)
    case ProtectSheet(protected) => now.protected == protected && was == now.(protected := was.protected)
    case FreezePanes(rows, cols) =>
      now.freezeRows == rows && now.freezeCols == cols
      && was == now.(freezeRows := was.freezeRows, freezeCols := was.freezeCols)
    case SetMerges(merges) => now.merges == merges && was == now.(merges := was.merges)
    case SetProtectedRanges(ranges) =>
      now.protectedRanges == ranges && was == now.(protectedRanges := was.protectedRanges)
    case SetCharts(charts) => now.charts == charts && was == now.(charts := was.charts)
    case SetScenarios(scenarios) => now.scenarios == scenarios && was == now.(scenarios := was.scenarios)
    case _ => true
  }

  predicate SetsData(op: SheetOp) {
    || op.SetFilterCriteria? || op.ProtectSheet? || op.FreezePanes? || op.SetMerges? || op.SetProtectedRanges?
    || op.SetCharts? || op.SetScenarios?
  }

  /** Setting a tab's data sets just that, on the active tab. */
  lemma DataSet(num: Numbers, b: Book, op: SheetOp)
    requires SetsData(op)
    ensures var n, r := Normalized(b), ApplySheetOp(num, b, op);
            && r.active == n.active && |r.sheets| == |n.sheets| && r.cells == n.cells
            && DataGiven(op, n.sheets[n.active], r.sheets[n.active])
  {
    hide Normalized;
    NormalizedAgain(Normalized(b));
  }

  /** Renaming names the tab at the index, if there is one. Adding appends an empty, unprotected tab under the
      given name, or under a numbered one if that is blank. */
  lemma TabNamed(num: Numbers, b: Book, index: nat, name: string)
    ensures var n, r := Normalized(b), ApplySheetOp(num, b, RenameSheet(index, name));
            && |r.sheets| == |n.sheets| && r.cells == n.cells && r.active == n.active
            && forall i :: 0 <= i < |n.sheets| ==>
                 r.sheets[i] == if i == index then n.sheets[i].(name := name) else n.sheets[i]
    ensures var n, r := Normalized(b), ApplySheetOp(num, b, AddSheet(name));
            && |r.sheets| == |n.sheets| + 1 && r.sheets[..|n.sheets|] == n.sheets && r.cells == map[]
            && var tab := r.sheets[|n.sheets|];
            && tab.cells == map[] && !tab.protected && tab.charts == [] && tab.merges == [] && tab.protectedRanges == []
            && tab.freezeRows == 0 && tab.freezeCols == 0 && tab.filterCriteria == None && tab.scenarios == None
            && tab.name == if Trim(name) == "" then "Sheet" + Decimal(|n.sheets| + 1) else name
  {
    hide Normalized, Recalculated, WithNewTab, Trim, Decimal;
    var n := Normalized(b);
    NormalizedAgain(n);
    NewTabShape(n, NewTabName(n, name));
    RecalculatedKeeps(num, map[]);
    assert Recalculated(num, map[]) == map[];
  }

  /** A reorder puts the tab at `from` to `to`, and keeps the others in their order. */
  lemma TabReordered(num: Numbers, b: Book, from: nat, to: nat)
    ensures var n, r := Normalized(b), ApplySheetOp(num, b, ReorderSheet(from, to));
            if from < |n.sheets| && to < |n.sheets| && from != to then
              && |r.sheets| == |n.sheets| && r.sheets[to] == n.sheets[from]
              && r.sheets[..to] + r.sheets[to+1..] == n.sheets[..from] + n.sheets[from+1..]
            else r.sheets == n.sheets && r.active == n.active
  {
    hide Normalized, Recalculated, ApplySheetOp;
    ReorderResult(num, b, from, to);
  }

  /** A workbook without tabs gets one named Sheet1 with its cells; one with tabs keeps them. */
  lemma FirstTab(b: Book)
    ensures var n := Normalized(b);
            && n.rows == b.rows && n.cols == b.cols
            && (b.sheets == [] ==>
                  && |n.sheets| == 1 && n.active == 0 && n.cells == b.cells && n.sheets[0].cells == b.cells
                  && n.sheets[0].name == "Sheet1" && !n.sheets[0].protected && n.sheets[0].protectedRanges == [])
            && (b.sheets != [] ==> |n.sheets| == |b.sheets|)
  {
  }
}
