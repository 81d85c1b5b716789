/** A workbook: several tabs, one of which is mirrored into the active cells, edited by
    operations that arrive one at a time. */
module Workbook {
  import opened Basics
  import opened Text
  import opened Ordered
  import opened Addresses
  import opened Sheets
  import opened Calc
  import opened Recalc
  import opened RowSort

  datatype ChartSpec = ChartSpec(chartType: string, range: string, title: string)

  datatype Tab = Tab(
    name: string, cells: Cells, charts: seq<ChartSpec>, protected: bool, freezeRows: nat, freezeCols: nat,
    merges: seq<string>, protectedRanges: seq<string>, filterCriteria: Option<string>, scenarios: Option<string>)

  datatype Book = Book(rows: nat, cols: nat, cells: Cells, sheets: seq<Tab>, active: nat)

  datatype StylePatch = StylePatch(
    bold: Option<bool>, align: Option<string>, wrap: Option<bool>,
    border: Option<bool>, borderSides: Option<string>, note: Option<string>)

  datatype SheetOp =
    | SetCell(addr: string, value: string, formula: string)
    | ClearCell(addr: string)
    | SetFormat(addr: string, format: string)
    | SetCellStyle(addr: string, style: StylePatch)
    | SortRange(key: nat, ascending: bool)
    | SetFilterCriteria(criteria: Option<string>)
    | SwitchSheet(index: nat)
    | AddSheet(name: string)
    | RenameSheet(at: nat, newName: string)
    | ReorderSheet(from: nat, to: nat)
    | MoveCells(move: Move)
    | ProtectSheet(protected: bool)
    | FreezePanes(frozenRows: nat, frozenCols: nat)
    | SetMerges(merges: seq<string>)
    | SetProtectedRanges(ranges: seq<string>)
    | SetCharts(charts: seq<ChartSpec>)
    | SetScenarios(scenarios: Option<string>)

  function EmptyTab(name: string, cells: Cells): Tab {
    Tab(name, cells, [], false, 0, 0, [], [], None, None)
  }

  // ------------------------------------------------------------ the mirrored tab

  function Flushed(b: Book): Book {
    if b.sheets == [] then b
    else
      var a := if b.active >= |b.sheets| then 0 else b.active;
      b.(active := a, sheets := b.sheets[a := b.sheets[a].(cells := b.cells)])
  }

  function Synced(b: Book): Book {
    if b.sheets == [] then b
    else
      var a := if b.active >= |b.sheets| then 0 else b.active;
      b.(active := a, cells := b.sheets[a].cells)
  }

  /** At least one tab, a valid active one, seeded from the cells of single-sheet files. */
  function Normalized(b: Book): (r: Book)
    ensures r.active < |r.sheets| && r.cells == r.sheets[r.active].cells
  {
    var b1 := if b.sheets == [] then b.(sheets := [EmptyTab("Sheet1", b.cells)], active := 0) else b;
    var b2 := if b1.active >= |b1.sheets| then b1.(active := 0) else b1;
    var b3 := if b2.sheets[b2.active].cells == map[] && b2.cells != map[] then Flushed(b2) else b2;
    Synced(b3)
  }

  /** Writes one entry to the active cells and to their tab. */
  function Put(b: Book, key: string, cell: Cell): Book
    requires b.active < |b.sheets|
  {
    var tab := b.sheets[b.active];
    b.(cells := b.cells[key := cell], sheets := b.sheets[b.active := tab.(cells := tab.cells[key := cell])])
  }

  function SideLetters(s: string): string {
    if s == "" then "" else (if s[0] in "tblr" then [s[0]] else "") + SideLetters(s[1..])
  }

  function Styled(c: Cell, p: StylePatch): Cell {
    var c1 := c.(bold := p.bold.GetOr(c.bold), align := p.align.GetOr(c.align), wrap := p.wrap.GetOr(c.wrap));
    var c2 :=
      if p.border.None? then c1
      else if p.border.value then
        c1.(border := true, borderSides := if c1.borderSides == "" then "tblr" else c1.borderSides)
      else c1.(border := false, borderSides := "");
    var c3 :=
      if p.borderSides.None? then c2
      else
        var cleaned := SideLetters(p.borderSides.value);
        c2.(borderSides := cleaned, border := cleaned != "");
    c3.(note := p.note.GetOr(c3.note))
  }

  function WithTab(b: Book, tab: Tab): Book
    requires b.active < |b.sheets|
  {
    b.(sheets := b.sheets[b.active := tab])
  }

  function SetCellIn(b: Book, addr: string, value: string, formula: string): Book {
    var n := Normalized(b);
    var key := ToUpper(addr);
    Put(n, key, CellOr(n.cells, key).(value := value, formula := formula))
  }

  function SetFormatIn(b: Book, addr: string, format: string): Book {
    var n := Normalized(b);
    var key := ToUpper(addr);
    Put(n, key, CellOr(n.cells, key).(format := format))
  }

  function SetStyleIn(b: Book, addr: string, style: StylePatch): Book {
    var n := Normalized(b);
    var key := ToUpper(addr);
    Put(n, key, Styled(CellOr(n.cells, key), style))
  }

  function ClearCellIn(b: Book, addr: string): Book {
    var n := Normalized(b);
    var key := ToUpper(addr);
    var tab := n.sheets[n.active];
    n.(cells := n.cells - {key}, sheets := n.sheets[n.active := tab.(cells := tab.cells - {key})])
  }

  function Switched(b: Book, index: nat): Book {
    var n := Normalized(b);
    if index >= |n.sheets| then n else Synced(Flushed(n).(active := index))
  }

  function WithNewTab(b: Book, name: string): Book {
    var n := Flushed(Normalized(b));
    Synced(n.(sheets := n.sheets + [EmptyTab(name, map[])], active := |n.sheets|))
  }

  function Renamed(b: Book, index: nat, name: string): Book {
    var n := Normalized(b);
    if index < |n.sheets| then n.(sheets := n.sheets[index := n.sheets[index].(name := name)]) else n
  }

  function MoveElement<T>(s: seq<T>, from: nat, to: nat): (r: seq<T>)
    requires from < |s| && to < |s|
    ensures |r| == |s|
  {
    var rest := s[..from] + s[from+1..];
    rest[..to] + [s[from]] + rest[to..]
  }

  /** Where the element at `i` ends up. */
  function MovedIndex(i: nat, from: nat, to: nat): nat {
    if i == from then to
    else if from < i && to >= i then i - 1
    else if from > i && to <= i then i + 1
    else i
  }

  function Reordered(b: Book, from: nat, to: nat): Book {
    var n := Normalized(b);
    if from >= |n.sheets| || to >= |n.sheets| || from == to then n
    else
      var f := Flushed(n);
      Synced(f.(sheets := MoveElement(f.sheets, from, to), active := MovedIndex(f.active, from, to)))
  }

  function Bumped(n: nat): nat {
    Min(n + 1, TWO_32 - 1)
  }

  function CellsMoved(b: Book, m: Move): Book {
    var n := Normalized(b);
    var at := if m.InsertRow? || m.DeleteRow? then m.row else m.col;
    if at == 0 then n
    else
      var moved := Flushed(n.(cells := Restructured(n.cells, m)));
      moved.(rows := if m.InsertRow? then Bumped(moved.rows) else moved.rows,
             cols := if m.InsertCol? then Bumped(moved.cols) else moved.cols)
  }

  function RowsSorted(b: Book, col: nat, ascending: bool): Book {
    var n := Normalized(b);
    if col == 0 || MaxRow(n.cells) == 0 then n
    else Flushed(n.(cells := SortedRows(n.cells, col, ascending)))
  }

  function WithRecalc(num: Numbers, b: Book): Book {
    b.(cells := Recalculated(num, b.cells))
  }

  function NewTabName(b: Book, name: string): string {
    if Trim(name) == "" then "Sheet" + Decimal(|b.sheets| + 1) else name
  }

  function ApplySheetOp(num: Numbers, b: Book, op: SheetOp): Book {
    var n := Normalized(b);
    var tab := n.sheets[n.active];
    match op
    case SetCell(addr, value, formula) => Flushed(WithRecalc(num, SetCellIn(n, addr, value, formula)))
    case ClearCell(addr) => Flushed(WithRecalc(num, ClearCellIn(n, addr)))
    case SetFormat(addr, format) => Flushed(SetFormatIn(n, addr, format))
    case SetCellStyle(addr, style) => Flushed(SetStyleIn(n, addr, style))
    case SortRange(col, ascending) => Flushed(WithRecalc(num, RowsSorted(n, col, ascending)))
    case SwitchSheet(index) => WithRecalc(num, Switched(n, index))
    case AddSheet(name) => WithRecalc(num, WithNewTab(n, NewTabName(n, name)))
    case RenameSheet(index, name) => Renamed(n, index, name)
    case ReorderSheet(from, to) => WithRecalc(num, Reordered(n, from, to))
    case MoveCells(m) => Flushed(WithRecalc(num, CellsMoved(n, m)))
    case SetFilterCriteria(criteria) => WithTab(n, tab.(filterCriteria := criteria))
    case ProtectSheet(protected) => WithTab(n, tab.(protected := protected))
    case FreezePanes(rows, cols) => WithTab(n, tab.(freezeRows := rows, freezeCols := cols))
    case SetMerges(merges) => WithTab(n, tab.(merges := merges))
    case SetProtectedRanges(ranges) => WithTab(n, tab.(protectedRanges := ranges))
    case SetCharts(charts) => WithTab(n, tab.(charts := charts))
    case SetScenarios(scenarios) => WithTab(n, tab.(scenarios := scenarios))
  }

  // ------------------------------------------------------------ protection

  function ParseCorners(range: string): Option<(Coord, Coord)> {
    var s := ToUpper(Trim(range));
    var i := IndexOf(s, ':');
    var a := if i < |s| then Trim(s[..i]) else s;
    var b := if i < |s| then Trim(s[i+1..]) else s;
    var p, q := ParseAddr(a), ParseAddr(b);
    if p.None? || q.None? then None else Some((p.value, q.value))
  }

  predicate InCorners(at: Coord, corners: (Coord, Coord)) {
    var (p, q) := corners;
    Min(p.0, q.0) <= at.0 <= Max(p.0, q.0) && Min(p.1, q.1) <= at.1 <= Max(p.1, q.1)
  }

  predicate InRanges(addr: string, ranges: seq<string>) {
    ParseAddr(addr).Some?
    && exists i ::
         && 0 <= i < |ranges| && ParseCorners(ranges[i]).Some?
         && InCorners(ParseAddr(addr).value, ParseCorners(ranges[i]).value)
  }

  predicate ActiveProtected(b: Book) {
    b.active < |b.sheets| && b.sheets[b.active].protected
  }

  predicate BlockedByProtect(b: Book, op: SheetOp) {
    if ActiveProtected(b) then
      op.SetCell? || op.ClearCell? || op.SetFormat? || op.SetCellStyle? || op.SortRange? || op.MoveCells?
    else
      (op.SetCell? || op.ClearCell? || op.SetFormat? || op.SetCellStyle?)
      && b.active < |b.sheets| && InRanges(op.addr, b.sheets[b.active].protectedRanges)
  }
}
