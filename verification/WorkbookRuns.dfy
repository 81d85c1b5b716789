/** What every run of workbook operations keeps: the active cells mirror their tab, the other
    tabs are left alone, and protected cells stay as they are. */
module WorkbookRuns {
  import opened Basics
  import opened Text
  import opened Addresses
  import opened Sheets
  import opened Calc
  import opened Recalc
  import opened RowSort
  import opened SortCensus
  import opened Workbook

  // ------------------------------------------------------------ the active cells mirror a tab

  /** The active cells are those of their tab, except perhaps for formula results. */
  ghost predicate Consistent(b: Book) {
    b.active < |b.sheets| && SameButResults(b.sheets[b.active].cells, b.cells)
  }

  /** The active cells are exactly those of their tab. */
  predicate InStep(b: Book) {
    b.active < |b.sheets| && b.cells == b.sheets[b.active].cells
  }

  lemma NormalizedConsistent(b: Book)
    requires Consistent(b)
    ensures Normalized(b) == b.(cells := b.sheets[b.active].cells)
  {
    assert b.sheets[b.active].cells == map[] ==> b.cells == map[];
  }

  lemma NormalizedAgain(b: Book)
    requires InStep(b)
    ensures Normalized(b) == b
  {
  }

  predicate EditsCells(op: SheetOp) {
    op.SetCell? || op.ClearCell? || op.SetFormat? || op.SetCellStyle? || op.SortRange? || op.MoveCells?
  }

  lemma FlushedInStep(b: Book)
    requires InStep(b)
    ensures Flushed(b) == b
  {
    assert b.sheets[b.active := b.sheets[b.active]] == b.sheets;
  }

  /** Edits of cells change the active tab's cells and nothing else in the tabs. */
  lemma EditShape(num: Numbers, b: Book, op: SheetOp)
    requires EditsCells(op)
    ensures var n, r := Normalized(b), ApplySheetOp(num, b, op);
            && InStep(r) && r.active == n.active
            && r.sheets == n.sheets[n.active := n.sheets[n.active].(cells := r.cells)]
  {
    hide Recalculated, Restructured, SortedRows, Styled, ToUpper, MaxRow, Normalized;
    NormalizedAgain(Normalized(b));
  }

  lemma SwitchShape(n: Book, index: nat)
    requires InStep(n)
    ensures Switched(n, index) ==
            if index < |n.sheets| then n.(active := index, cells := n.sheets[index].cells) else n
  {
    NormalizedAgain(n);
    FlushedInStep(n);
  }

  lemma NewTabShape(n: Book, name: string)
    requires InStep(n)
    ensures WithNewTab(n, name) ==
            n.(sheets := n.sheets + [EmptyTab(name, map[])], active := |n.sheets|, cells := map[])
  {
    NormalizedAgain(n);
    FlushedInStep(n);
  }

  predicate Moves(b: Book, from: nat, to: nat) {
    from < |b.sheets| && to < |b.sheets| && from != to
  }

  lemma ReorderShape(n: Book, from: nat, to: nat)
    requires InStep(n)
    ensures Reordered(n, from, to) ==
            if Moves(n, from, to) then
              n.(sheets := MoveElement(n.sheets, from, to), active := MovedIndex(n.active, from, to))
            else n
  {
    hide MoveElement, MovedIndex;
    NormalizedAgain(n);
    FlushedInStep(n);
    if Moves(n, from, to) {
      MoveElementAt(n.sheets, from, to, n.active);
    }
  }

  /** After an operation on any workbook whatever, the active index is valid and the active
      cells mirror their tab: exactly, unless the operation switched or reordered tabs. */
  lemma MirrorAfterAnyOp(num: Numbers, b: Book, op: SheetOp)
    ensures Consistent(ApplySheetOp(num, b, op))
    ensures !op.SwitchSheet? && !op.ReorderSheet? ==> InStep(ApplySheetOp(num, b, op))
  {
    hide Recalculated, Normalized, Switched, Reordered, WithNewTab, MoveElement, MovedIndex, NewTabName;
    var n := Normalized(b);
    if EditsCells(op) {
      hide ApplySheetOp;
      EditShape(num, b, op);
    } else if op.SwitchSheet? {
      SwitchShape(n, op.index);
      RecalculatedKeeps(num, Switched(n, op.index).cells);
    } else if op.ReorderSheet? {
      ReorderShape(n, op.from, op.to);
      RecalculatedKeeps(num, n.cells);
      if Moves(n, op.from, op.to) {
        MoveElementAt(n.sheets, op.from, op.to, n.active);
      }
    } else if op.AddSheet? {
      NewTabShape(n, NewTabName(n, op.name));
      RecalculatedKeeps(num, map[]);
      assert Recalculated(num, map[]) == map[];
    } else {
      NormalizedAgain(n);
    }
  }

  // ------------------------------------------------------------ where each tab goes

  lemma MoveElementAt<T>(s: seq<T>, from: nat, to: nat, i: nat)
    requires from < |s| && to < |s| && i < |s|
    ensures MovedIndex(i, from, to) < |s| && MoveElement(s, from, to)[MovedIndex(i, from, to)] == s[i]
    ensures MovedIndex(MovedIndex(i, from, to), to, from) == i
  {
  }

  /** Moving a tab and moving it back restores the order: a reorder is a permutation. */
  lemma MoveElementBack<T>(s: seq<T>, from: nat, to: nat)
    requires from < |s| && to < |s|
    ensures MoveElement(MoveElement(s, from, to), to, from) == s
    ensures multiset(MoveElement(s, from, to)) == multiset(s)
  {
    var m := MoveElement(s, from, to);
    forall i | 0 <= i < |s| ensures MoveElement(m, to, from)[i] == s[i] {
      MoveElementAt(s, from, to, i);
      MoveElementAt(m, to, from, MovedIndex(i, from, to));
    }
    var rest := s[..from] + s[from+1..];
    assert s == s[..from] + [s[from]] + s[from+1..];
    assert rest == rest[..to] + rest[to..];
    assert multiset(s) == multiset(rest) + multiset{s[from]};
    assert multiset(m) == multiset(rest) + multiset{s[from]};
  }

  /** Position, after `op`, of the tab that was at `i`. */
  function PlaceAfter(b: Book, op: SheetOp, i: nat): nat {
    if op.ReorderSheet? && Moves(b, op.from, op.to) then MovedIndex(i, op.from, op.to) else i
  }

  /** What an operation may do to a tab that is `now` and was `was`. */
  predicate Affected(op: SheetOp, active: bool, was: Tab, now: Tab) {
    && (!active && !op.RenameSheet? ==> now == was)
    && (op.RenameSheet? ==> now == was.(name := now.name))
    && (EditsCells(op) ==> now == was.(cells := now.cells))
    && (!EditsCells(op) ==> now.cells == was.cells)
    && now.protected == (if active && op.ProtectSheet? then op.protected else was.protected)
    && now.protectedRanges == (if active && op.SetProtectedRanges? then op.ranges else was.protectedRanges)
  }

  predicate MovesTabs(op: SheetOp) {
    op.SwitchSheet? || op.ReorderSheet? || op.AddSheet?
  }

  lemma TabDataAfter(num: Numbers, b: Book, op: SheetOp, i: nat)
    requires InStep(b) && i < |b.sheets| && !EditsCells(op) && !MovesTabs(op)
    ensures var r := ApplySheetOp(num, b, op);
            |r.sheets| == |b.sheets| && Affected(op, i == b.active, b.sheets[i], r.sheets[i])
  {
    hide Normalized;
    NormalizedAgain(b);
  }

  lemma TabMovedAfter(num: Numbers, b: Book, op: SheetOp, i: nat)
    requires InStep(b) && i < |b.sheets| && MovesTabs(op)
    ensures var r, p := ApplySheetOp(num, b, op), PlaceAfter(b, op, i);
            && |r.sheets| == |b.sheets| + (if op.AddSheet? then 1 else 0)
            && p < |r.sheets| && r.sheets[p] == b.sheets[i]
  {
    hide Recalculated, Normalized, Switched, Reordered, WithNewTab, MoveElement, MovedIndex, NewTabName;
    NormalizedAgain(b);
    if op.SwitchSheet? {
      SwitchShape(b, op.index);
    } else if op.ReorderSheet? {
      ReorderShape(b, op.from, op.to);
      if Moves(b, op.from, op.to) {
        MoveElementAt(b.sheets, op.from, op.to, i);
      }
    } else {
      NewTabShape(b, NewTabName(b, op.name));
    }
  }

  lemma NormalizeFirst(num: Numbers, b: Book, op: SheetOp)
    ensures ApplySheetOp(num, Normalized(b), op) == ApplySheetOp(num, b, op)
  {
    hide Normalized, Recalculated, Restructured, SortedRows, Styled, ToUpper, MaxRow;
    NormalizedAgain(Normalized(b));
  }

  /** The tab that operations act on: the first one if the active index is stale. */
  function Acting(b: Book): nat {
    if b.active < |b.sheets| then b.active else 0
  }

  /** The acting tab is empty while there are active cells: the next operation fills it with them. */
  predicate Seeds(b: Book, i: nat)
    requires i < |b.sheets|
  {
    i == Acting(b) && b.sheets[i].cells == map[] && b.cells != map[]
  }

  /** What normalizing does to each tab. */
  lemma NormalizedTab(b: Book, i: nat)
    requires i < |b.sheets|
    ensures var n := Normalized(b);
            && |n.sheets| == |b.sheets| && n.active == Acting(b)
            && n.sheets[i] == if Seeds(b, i) then b.sheets[i].(cells := b.cells) else b.sheets[i]
  {
  }

  /** What `op` does to each tab of any workbook, once that is normalized: its cells change only when it
      is active and the operation edits cells, its protection only when it is active and the operation
      sets it, and an inactive tab loses nothing but perhaps its name. */
  lemma TabAfter(num: Numbers, b: Book, op: SheetOp, i: nat)
    requires i < |Normalized(b).sheets|
    ensures var n := Normalized(b); var r, p := ApplySheetOp(num, b, op), PlaceAfter(n, op, i);
            && |r.sheets| == |n.sheets| + (if op.AddSheet? then 1 else 0)
            && p < |r.sheets| && Affected(op, i == n.active, n.sheets[i], r.sheets[p])
  {
    hide ApplySheetOp, Normalized, MovedIndex, SameButResults;
    NormalizeFirst(num, b, op);
    var n := Normalized(b);
    if EditsCells(op) {
      EditShape(num, b, op);
    } else if MovesTabs(op) {
      TabMovedAfter(num, n, op, i);
    } else {
      TabDataAfter(num, n, op, i);
    }
  }

  /** Which tab is active afterwards: the chosen or added one, or else the same as before. */
  lemma ActiveAfter(num: Numbers, b: Book, op: SheetOp)
    ensures var n := Normalized(b);
            ApplySheetOp(num, b, op).active ==
            if op.SwitchSheet? && op.index < |n.sheets| then op.index
            else if op.AddSheet? then |n.sheets|
            else PlaceAfter(n, op, n.active)
  {
    hide Recalculated, Normalized, Switched, Reordered, WithNewTab, MoveElement, MovedIndex, SameButResults, NewTabName;
    var n := Normalized(b);
    if EditsCells(op) {
      hide ApplySheetOp;
      EditShape(num, b, op);
    } else if op.SwitchSheet? {
      SwitchShape(n, op.index);
    } else if op.ReorderSheet? {
      ReorderShape(n, op.from, op.to);
    } else if op.AddSheet? {
      NewTabShape(n, NewTabName(n, op.name));
    } else {
      NormalizedAgain(n);
    }
  }

  lemma ReorderResult(num: Numbers, b: Book, from: nat, to: nat)
    ensures var n, r := Normalized(b), ApplySheetOp(num, b, ReorderSheet(from, to));
            && r.sheets == (if Moves(n, from, to) then MoveElement(n.sheets, from, to) else n.sheets)
            && r.active == (if Moves(n, from, to) then MovedIndex(n.active, from, to) else n.active)
  {
    hide Recalculated, Normalized, Reordered, MoveElement, MovedIndex, SameButResults;
    ReorderShape(Normalized(b), from, to);
  }

  /** A reorder keeps the same tabs, and the opposite reorder puts them and the active one back. */
  lemma ReorderUndone(num: Numbers, b: Book, from: nat, to: nat)
    ensures var n, r := Normalized(b), ApplySheetOp(num, b, ReorderSheet(from, to));
            && multiset(r.sheets) == multiset(n.sheets)
            && var back := ApplySheetOp(num, r, ReorderSheet(to, from));
            back.sheets == n.sheets && back.active == n.active
  {
    hide ApplySheetOp, MoveElement, MovedIndex, SameButResults, Normalized;
    var n, r := Normalized(b), ApplySheetOp(num, b, ReorderSheet(from, to));
    MirrorAfterAnyOp(num, b, ReorderSheet(from, to));
    NormalizedConsistent(r);
    ReorderResult(num, b, from, to);
    ReorderResult(num, r, to, from);
    if Moves(n, from, to) {
      MoveElementBack(n.sheets, from, to);
      MoveElementAt(n.sheets, from, to, n.active);
    }
  }

  /** The sort operation keeps every cell exactly when it does nothing (no column, or no address in the
      sheet), or every key is an address and no two denote the same coordinate. */
  lemma SortOpLosesNothing(num: Numbers, b: Book, col: nat, ascending: bool)
    ensures var n := Normalized(b);
            |ApplySheetOp(num, b, SortRange(col, ascending)).cells| == |n.cells| <==>
            col == 0 || MaxRow(n.cells) == 0 || (AllAddresses(n.cells) && NoAliases(n.cells))
  {
    hide Recalculated, Normalized, SortedRows, MaxRow, AllAddresses, NoAliases;
    var n := Normalized(b);
    NormalizedAgain(n);
    SortLosesNothing(n.cells, col, ascending);
    RecalculatedSize(num, n.cells);
    RecalculatedSize(num, SortedRows(n.cells, col, ascending));
  }

  lemma RecalculatedSize(num: Numbers, cells: Cells)
    ensures |Recalculated(num, cells)| == |cells|
  {
    hide Recalculated;
    RecalculatedKeeps(num, cells);
    assert |Recalculated(num, cells)| == |Recalculated(num, cells).Keys| && |cells| == |cells.Keys|;
  }
}
