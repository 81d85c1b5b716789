/** The mutable side of the workbook: tabs and active cells edited in place. */
module WorkbookEngine {
  import opened Basics
  import opened Text
  import opened Addresses
  import opened Sheets
  import opened Calc
  import opened Recalc
  import opened RowSort
  import opened Workbook
  import opened WorkbookRuns

  class EratSheet {
    var rows: nat
    var cols: nat
    var cells: Cells
    var sheets: seq<Tab>
    var active: nat

    function Value(): Book
      reads this
    {
      Book(rows, cols, cells, sheets, active)
    }

    constructor (b: Book)
      ensures Value() == b
    {
      rows, cols, cells, sheets, active := b.rows, b.cols, b.cells, b.sheets, b.active;
    }

    method SyncActiveFromTab()
      modifies this
      ensures Value() == Synced(old(Value()))
    {
      if sheets == [] {
        return;
      }
      if active >= |sheets| {
        active := 0;
      }
      cells := sheets[active].cells;
    }

    method FlushActiveToTab()
      modifies this
      ensures Value() == Flushed(old(Value()))
    {
      if sheets == [] {
        return;
      }
      if active >= |sheets| {
        active := 0;
      }
      sheets := sheets[active := sheets[active].(cells := cells)];
    }

    method NormalizeTabs()
      modifies this
      ensures Value() == Normalized(old(Value()))
    {
      if sheets == [] {
        sheets, active := [EmptyTab("Sheet1", cells)], 0;
      }
      if active >= |sheets| {
        active := 0;
      }
      if sheets[active].cells == map[] && cells != map[] {
        sheets := sheets[active := sheets[active].(cells := cells)];
      }
      SyncActiveFromTab();
    }

    /** Writes one entry to the active cells and to their tab. */
    method InsertCell(key: string, cell: Cell)
      requires active < |sheets|
      modifies this
      ensures Value() == Put(old(Value()), key, cell)
    {
      cells := cells[key := cell];
      sheets := sheets[active := sheets[active].(cells := sheets[active].cells[key := cell])];
    }

    method SetCellText(addr: string, value: string, formula: string)
      modifies this
      ensures Value() == SetCellIn(old(Value()), addr, value, formula)
    {
      hide Normalized, ToUpper;
      NormalizeTabs();
      var key := ToUpper(addr);
      InsertCell(key, CellOr(cells, key).(value := value, formula := formula));
    }

    method SetCellFormat(addr: string, format: string)
      modifies this
      ensures Value() == SetFormatIn(old(Value()), addr, format)
    {
      hide Normalized, ToUpper;
      NormalizeTabs();
      var key := ToUpper(addr);
      InsertCell(key, CellOr(cells, key).(format := format));
    }

    method SetStyle(addr: string, style: StylePatch)
      modifies this
      ensures Value() == SetStyleIn(old(Value()), addr, style)
    {
      hide Normalized, ToUpper, Styled;
      NormalizeTabs();
      var key := ToUpper(addr);
      InsertCell(key, Styled(CellOr(cells, key), style));
    }

    method RemoveCell(addr: string)
      modifies this
      ensures Value() == ClearCellIn(old(Value()), addr)
    {
      hide Normalized, ToUpper;
      NormalizeTabs();
      var key := ToUpper(addr);
      cells := cells - {key};
      sheets := sheets[active := sheets[active].(cells := sheets[active].cells - {key})];
    }

    method Switch(index: nat)
      modifies this
      ensures Value() == Switched(old(Value()), index)
    {
      hide Normalized;
      NormalizeTabs();
      if index >= |sheets| {
        return;
      }
      FlushActiveToTab();
      active := index;
      SyncActiveFromTab();
    }

    method AddTab(name: string)
      modifies this
      ensures Value() == WithNewTab(old(Value()), name)
    {
      hide Normalized;
      NormalizeTabs();
      FlushActiveToTab();
      sheets := sheets + [EmptyTab(name, map[])];
      active := |sheets| - 1;
      SyncActiveFromTab();
    }

    method RenameTab(index: nat, name: string)
      modifies this
      ensures Value() == Renamed(old(Value()), index, name)
    {
      hide Normalized;
      NormalizeTabs();
      if index < |sheets| {
        sheets := sheets[index := sheets[index].(name := name)];
      }
    }

    method ReorderTab(from: nat, to: nat)
      modifies this
      ensures Value() == Reordered(old(Value()), from, to)
    {
      hide Normalized, Synced;
      NormalizeTabs();
      if from >= |sheets| || to >= |sheets| || from == to {
        return;
      }
      FlushActiveToTab();
      var tab := sheets[from];
      sheets := sheets[..from] + sheets[from+1..];
      sheets := sheets[..to] + [tab] + sheets[to..];
      if active == from {
        active := to;
      } else if from < active && to >= active {
        active := active - 1;
      } else if from > active && to <= active {
        active := active + 1;
      }
      SyncActiveFromTab();
    }

    method MoveRowsOrColumns(m: Move)
      modifies this
      ensures Value() == CellsMoved(old(Value()), m)
    {
      hide Normalized, Restructured;
      NormalizeTabs();
      if (if m.InsertRow? || m.DeleteRow? then m.row else m.col) == 0 {
        return;
      }
      cells := Restructure(cells, m);
      FlushActiveToTab();
      if m.InsertRow? {
        rows := Bumped(rows);
      }
      if m.InsertCol? {
        cols := Bumped(cols);
      }
    }

    method SortRowsByCol(col: nat, ascending: bool)
      modifies this
      ensures Value() == RowsSorted(old(Value()), col, ascending)
    {
      hide Normalized, SortedRows, MaxRow;
      NormalizeTabs();
      if col == 0 {
        return;
      }
      var last := FindMaxRow(cells);
      if last == 0 {
        return;
      }
      cells := SortRows(cells, col, ascending);
      FlushActiveToTab();
    }

    method Recalculate(num: Numbers)
      modifies this
      ensures Value() == WithRecalc(num, old(Value()))
    {
      hide Recalculated;
      cells := RecalcLoop(num, cells);
    }

    method SetTab(tab: Tab)
      requires active < |sheets|
      modifies this
      ensures Value() == WithTab(old(Value()), tab)
    {
      sheets := sheets[active := tab];
    }

    /** Applies one operation; the active cells mirror their tab afterwards whatever the state before. */
    method Apply(num: Numbers, op: SheetOp)
      modifies this
      ensures Value() == ApplySheetOp(num, old(Value()), op)
      ensures Consistent(Value())
    {
      hide Normalized, SetCellIn, SetFormatIn, SetStyleIn, ClearCellIn, Switched, WithNewTab, Renamed, Reordered,
        CellsMoved, RowsSorted, WithRecalc, Consistent, Flushed;
      MirrorAfterAnyOp(num, Value(), op);
      NormalizeTabs();
      match op {
        case SetCell(addr, value, formula) =>
          SetCellText(addr, value, formula);
          Recalculate(num);
          FlushActiveToTab();
        case ClearCell(addr) =>
          RemoveCell(addr);
          Recalculate(num);
          FlushActiveToTab();
        case SwitchSheet(index) =>
          Switch(index);
          Recalculate(num);
        case AddSheet(name) =>
          AddTab(NewTabName(Value(), name));
          Recalculate(num);
        case SetFormat(addr, format) =>
          SetCellFormat(addr, format);
          FlushActiveToTab();
        case SetCellStyle(addr, style) =>
          SetStyle(addr, style);
          FlushActiveToTab();
        case SortRange(col, ascending) =>
          SortRowsByCol(col, ascending);
          Recalculate(num);
          FlushActiveToTab();
        case RenameSheet(index, name) => RenameTab(index, name);
        case ReorderSheet(from, to) =>
          ReorderTab(from, to);
          Recalculate(num);
        case MoveCells(m) =>
          MoveRowsOrColumns(m);
          Recalculate(num);
          FlushActiveToTab();
        case SetFilterCriteria(criteria) => SetTab(sheets[active].(filterCriteria := criteria));
        case ProtectSheet(protected) => SetTab(sheets[active].(protected := protected));
        case FreezePanes(rows, cols) => SetTab(sheets[active].(freezeRows := rows, freezeCols := cols));
        case SetMerges(merges) => SetTab(sheets[active].(merges := merges));
        case SetProtectedRanges(ranges) => SetTab(sheets[active].(protectedRanges := ranges));
        case SetCharts(charts) => SetTab(sheets[active].(charts := charts));
        case SetScenarios(scenarios) => SetTab(sheets[active].(scenarios := scenarios));
      }
    }
  }
}
