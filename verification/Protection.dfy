/** Protection over whole runs: what the guard keeps, and from which workbooks it does. */
module Protection {
  import opened Basics
  import opened Text
  import opened Addresses
  import opened Sheets
  import opened Calc
  import opened Recalc
  import opened Workbook
  import opened WorkbookRuns

  // ------------------------------------------------------------ guarded runs

  /** Operations that protection forbids are dropped before they are applied. */
  function Guarded(num: Numbers, b: Book, op: SheetOp): Book {
    if BlockedByProtect(b, op) then b else ApplySheetOp(num, b, op)
  }

  function Run(num: Numbers, b: Book, ops: seq<SheetOp>): Book {
    if ops == [] then b else Guarded(num, Run(num, b, ops[..|ops|-1]), ops[|ops|-1])
  }

  /** Position, after the run, of the tab that was at `i`. */
  function Track(num: Numbers, b: Book, ops: seq<SheetOp>, i: nat): nat {
    if ops == [] then i
    else
      var front := ops[..|ops|-1];
      PlaceAfter(Run(num, b, front), ops[|ops|-1], Track(num, b, front, i))
  }

  /** At some step of the run the tab that started at `i` is acted on and `release` holds of the operation. */
  predicate Released(num: Numbers, b: Book, ops: seq<SheetOp>, i: nat, release: SheetOp -> bool) {
    ops != [] &&
    var front, op := ops[..|ops|-1], ops[|ops|-1];
    || Released(num, b, front, i, release)
    || (Acting(Run(num, b, front)) == Track(num, b, front, i) && release(op))
  }

  lemma {:induction false} RunConsistent(num: Numbers, b: Book, ops: seq<SheetOp>)
    requires Consistent(b)
    ensures Consistent(Run(num, b, ops))
  {
    hide ApplySheetOp, BlockedByProtect, Consistent;
    if ops != [] {
      var front := Run(num, b, ops[..|ops|-1]);
      RunConsistent(num, b, ops[..|ops|-1]);
      MirrorAfterAnyOp(num, front, ops[|ops|-1]);
    }
  }

  lemma RunOne(num: Numbers, b: Book, op: SheetOp, i: nat, release: SheetOp -> bool)
    ensures Run(num, b, [op]) == Guarded(num, b, op) && Track(num, b, [op], i) == PlaceAfter(b, op, i)
    ensures Released(num, b, [op], i, release) <==> Acting(b) == i && release(op)
  {
    hide Guarded, PlaceAfter;
    assert [op][..0] == [];
  }

  // ------------------------------------------------------------ protected tabs

  predicate Unprotects(op: SheetOp) {
    op.ProtectSheet? && !op.protected
  }

  /** Normalizing will not reach the tab at `i` past the guard: the index is valid and the tab is not
      about to be filled from the active cells, or the index is stale and the tab is not the first. */
  predicate SafeStart(b: Book, i: nat)
    requires i < |b.sheets|
  {
    if b.active < |b.sheets| then i != b.active || b.sheets[i].cells != map[] || b.cells == map[]
    else i != 0
  }

  lemma ConsistentIsSafe(b: Book, i: nat)
    requires Consistent(b) && i < |b.sheets|
    ensures SafeStart(b, i) && !Seeds(b, i) && Acting(b) == b.active
  {
  }

  lemma ProtectedStep(num: Numbers, b: Book, op: SheetOp, i: nat)
    requires i < |b.sheets| && SafeStart(b, i) && b.sheets[i].protected && !(Acting(b) == i && Unprotects(op))
    ensures var r, p := Guarded(num, b, op), PlaceAfter(b, op, i);
            && p < |r.sheets| && r.sheets[p].protected && r.sheets[p].cells == b.sheets[i].cells
            && SafeStart(r, p)
  {
    hide ApplySheetOp, InRanges, Consistent, Normalized;
    if BlockedByProtect(b, op) {
      assert !op.ReorderSheet?;
    } else {
      NormalizedTab(b, i);
      TabAfter(num, b, op, i);
      MirrorAfterAnyOp(num, b, op);
      ConsistentIsSafe(ApplySheetOp(num, b, op), PlaceAfter(b, op, i));
    }
  }

  /** After the run, the tab that was at `i` is protected and has the cells it had. */
  predicate TabKept(num: Numbers, b: Book, ops: seq<SheetOp>, i: nat)
    requires i < |b.sheets|
  {
    var r, p := Run(num, b, ops), Track(num, b, ops, i);
    p < |r.sheets| && r.sheets[p].protected && r.sheets[p].cells == b.sheets[i].cells
  }

  /** From a safe start, a protected tab keeps every cell exactly and stays protected, wherever switches,
      additions and reorders take it, until an unprotect is applied to it. If the active cells mirrored
      their tab, those shown while it is active differ from it in formula results at most. */
  lemma {:induction false} ProtectedTabKept(num: Numbers, b: Book, ops: seq<SheetOp>, i: nat)
    requires i < |b.sheets| && SafeStart(b, i) && b.sheets[i].protected
    requires !Released(num, b, ops, i, Unprotects)
    ensures TabKept(num, b, ops, i) && SafeStart(Run(num, b, ops), Track(num, b, ops, i))
    ensures var r := Run(num, b, ops);
            Consistent(b) && r.active == Track(num, b, ops, i) ==> SameButResults(b.sheets[i].cells, r.cells)
  {
    hide ApplySheetOp, BlockedByProtect, PlaceAfter, SameButResults, Guarded, Unprotects, SafeStart;
    if ops != [] {
      var front, op := ops[..|ops|-1], ops[|ops|-1];
      ProtectedTabKept(num, b, front, i);
      ProtectedStep(num, Run(num, b, front), op, Track(num, b, front, i));
    }
    if Consistent(b) {
      RunConsistent(num, b, ops);
    }
  }

  /** With a stale index nothing is guarded, while the operation falls back to the first tab, protected or not. */
  lemma StaleIndexUnguarded(num: Numbers, b: Book, addr: string, format: string)
    requires b.sheets != [] && b.active >= |b.sheets|
    ensures !BlockedByProtect(b, SetFormat(addr, format))
    ensures var r := ApplySheetOp(num, b, SetFormat(addr, format));
            && |r.sheets| == |b.sheets| && r.sheets[0].protected == b.sheets[0].protected
            && ToUpper(addr) in r.sheets[0].cells && r.sheets[0].cells[ToUpper(addr)].format == format
  {
    hide ToUpper;
    NormalizedAgain(Normalized(b));
  }

  /** An empty tab under active cells is filled with them by any operation, here one that only freezes
      panes: it is not blocked, nor does it unprotect. */
  lemma SeedingUnguarded(num: Numbers, b: Book, i: nat)
    requires i < |b.sheets| && Seeds(b, i)
    ensures !BlockedByProtect(b, FreezePanes(1, 1))
    ensures var r := ApplySheetOp(num, b, FreezePanes(1, 1));
            |r.sheets| == |b.sheets| && r.sheets[i].cells == b.cells != map[] == b.sheets[i].cells
  {
    hide ApplySheetOp, Normalized;
    NormalizedTab(b, i);
    TabAfter(num, b, FreezePanes(1, 1), i);
  }

  lemma UnsafeStart(num: Numbers, b: Book, i: nat) returns (op: SheetOp)
    requires i < |b.sheets| && !SafeStart(b, i)
    ensures !Released(num, b, [op], i, Unprotects) && !TabKept(num, b, [op], i)
  {
    hide ApplySheetOp, InRanges, Normalized, ToUpper, Run, Track, Released;
    if b.active < |b.sheets| {
      op := FreezePanes(1, 1);
      SeedingUnguarded(num, b, i);
    } else {
      var key := ToUpper("A1");
      op := SetFormat("A1", CellOr(b.sheets[0].cells, key).format + "x");
      StaleIndexUnguarded(num, b, "A1", op.format);
    }
    RunOne(num, b, op, i, Unprotects);
  }

  /** Protection of a tab holds in every run that does not unprotect it exactly from the safe starts. */
  lemma ProtectionExact(num: Numbers, b: Book, i: nat)
    requires i < |b.sheets| && b.sheets[i].protected
    ensures (forall ops :: !Released(num, b, ops, i, Unprotects) ==> TabKept(num, b, ops, i)) <==> SafeStart(b, i)
  {
    hide Run, Track, Released, SafeStart, TabKept, Unprotects;
    if SafeStart(b, i) {
      forall ops | !Released(num, b, ops, i, Unprotects) ensures TabKept(num, b, ops, i) {
        ProtectedTabKept(num, b, ops, i);
      }
    } else {
      var op := UnsafeStart(num, b, i);
    }
  }

  // ------------------------------------------------------------ protected ranges

  /** The cell at `k`, its formula result aside. */
  function Skeleton(cells: Cells, k: string): Option<Cell> {
    if k !in cells then None
    else if cells[k].formula == "" then Some(cells[k])
    else Some(cells[k].(value := ""))
  }

  lemma SkeletonKept(a: Cells, b: Cells, k: string)
    requires SameButResults(a, b)
    ensures Skeleton(b, k) == Skeleton(a, k)
  {
  }

  lemma InRangesUpper(addr: string, ranges: seq<string>)
    ensures InRanges(ToUpper(addr), ranges) == InRanges(addr, ranges)
  {
    hide ParseCorners, InCorners, ColumnNumber, ParseU32;
    UpperTwice(addr);
    assert ParseAddr(ToUpper(addr)) == ParseAddr(addr);
  }

  predicate EditsOneCell(op: SheetOp) {
    op.SetCell? || op.ClearCell? || op.SetFormat? || op.SetCellStyle?
  }

  /** Editing one cell leaves every other cell as it is, formula results aside. */
  lemma OneCellEdited(num: Numbers, b: Book, op: SheetOp, k: string)
    requires EditsOneCell(op) && k != ToUpper(op.addr)
    ensures Skeleton(ApplySheetOp(num, b, op).cells, k) == Skeleton(Normalized(b).cells, k)
  {
    hide Recalculated, Styled, ToUpper, Normalized, SameButResults;
    var n := Normalized(b);
    NormalizedAgain(n);
    if op.SetCell? {
      var edited := SetCellIn(n, op.addr, op.value, op.formula).cells;
      RecalculatedKeeps(num, edited);
      SkeletonKept(edited, Recalculated(num, edited), k);
    } else if op.ClearCell? {
      var edited := ClearCellIn(n, op.addr).cells;
      RecalculatedKeeps(num, edited);
      SkeletonKept(edited, Recalculated(num, edited), k);
    }
  }

  predicate LiftsRanges(op: SheetOp) {
    op.SetProtectedRanges? || op.SortRange? || op.MoveCells?
  }

  /** The cell at `k` is not about to come from the active cells, and a stale index does not point past
      the guard: the tab is not the first, or the key is not one that an edit could write. */
  predicate RangeSafe(b: Book, i: nat, k: string)
    requires i < |b.sheets|
  {
    && (b.active < |b.sheets| || i != 0 || ToUpper(k) != k)
    && (Seeds(b, i) ==> k !in b.cells)
  }

  lemma ConsistentIsRangeSafe(b: Book, i: nat, k: string)
    requires Consistent(b) && i < |b.sheets|
    ensures RangeSafe(b, i, k)
  {
  }

  lemma RangeStep(num: Numbers, b: Book, op: SheetOp, i: nat, k: string)
    requires i < |b.sheets| && InRanges(k, b.sheets[i].protectedRanges) && RangeSafe(b, i, k)
    requires !(Acting(b) == i && LiftsRanges(op))
    ensures var r, p := Guarded(num, b, op), PlaceAfter(b, op, i);
            && p < |r.sheets| && r.sheets[p].protectedRanges == b.sheets[i].protectedRanges
            && Skeleton(r.sheets[p].cells, k) == Skeleton(b.sheets[i].cells, k) && RangeSafe(r, p, k)
  {
    hide ApplySheetOp, InRanges, Consistent, Normalized, ToUpper;
    if BlockedByProtect(b, op) {
      assert !op.ReorderSheet?;
    } else {
      var r, p := ApplySheetOp(num, b, op), PlaceAfter(b, op, i);
      NormalizedTab(b, i);
      TabAfter(num, b, op, i);
      MirrorAfterAnyOp(num, b, op);
      ConsistentIsRangeSafe(r, p, k);
      if Acting(b) == i && EditsOneCell(op) {
        InRangesUpper(op.addr, b.sheets[i].protectedRanges);
        UpperTwice(op.addr);
        OneCellEdited(num, b, op, k);
        EditShape(num, b, op);
      }
    }
  }

  /** After the run, the tab that was at `i` has the same protected ranges and the same cell at `k`,
      its formula result aside. */
  predicate RangeKept(num: Numbers, b: Book, ops: seq<SheetOp>, i: nat, k: string)
    requires i < |b.sheets|
  {
    var r, p := Run(num, b, ops), Track(num, b, ops, i);
    && p < |r.sheets| && r.sheets[p].protectedRanges == b.sheets[i].protectedRanges
    && Skeleton(r.sheets[p].cells, k) == Skeleton(b.sheets[i].cells, k)
  }

  /** A cell inside a protected range of a tab keeps everything but a formula result, until the
      tab's ranges are set anew or its rows or columns move: those are not guarded by ranges. */
  lemma {:induction false} ProtectedRangeKept(num: Numbers, b: Book, ops: seq<SheetOp>, i: nat, k: string)
    requires i < |b.sheets| && InRanges(k, b.sheets[i].protectedRanges) && RangeSafe(b, i, k)
    requires !Released(num, b, ops, i, LiftsRanges)
    ensures RangeKept(num, b, ops, i, k) && RangeSafe(Run(num, b, ops), Track(num, b, ops, i), k)
  {
    hide ApplySheetOp, BlockedByProtect, PlaceAfter, Guarded, LiftsRanges, InRanges, ToUpper, Skeleton, RangeSafe;
    if ops != [] {
      var front, op := ops[..|ops|-1], ops[|ops|-1];
      ProtectedRangeKept(num, b, front, i, k);
      RangeStep(num, Run(num, b, front), op, Track(num, b, front, i), k);
    }
  }

  lemma RangeUnsafe(num: Numbers, b: Book, i: nat, k: string) returns (op: SheetOp)
    requires i < |b.sheets| && !RangeSafe(b, i, k)
    ensures !Released(num, b, [op], i, LiftsRanges) && !RangeKept(num, b, [op], i, k)
  {
    hide ApplySheetOp, InRanges, Normalized, ToUpper, Run, Track, Released;
    if Seeds(b, i) && k in b.cells {
      op := FreezePanes(1, 1);
      SeedingUnguarded(num, b, i);
    } else {
      op := SetFormat(k, CellOr(b.sheets[0].cells, k).format + "x");
      StaleIndexUnguarded(num, b, k, op.format);
    }
    RunOne(num, b, op, i, LiftsRanges);
  }

  /** Range protection of a cell holds in every run that does not lift it exactly from such workbooks. */
  lemma RangeProtectionExact(num: Numbers, b: Book, i: nat, k: string)
    requires i < |b.sheets|
    ensures InRanges(k, b.sheets[i].protectedRanges) ==>
              ((forall ops :: !Released(num, b, ops, i, LiftsRanges) ==> RangeKept(num, b, ops, i, k))
               <==> RangeSafe(b, i, k))
  {
    hide Run, Track, Released, RangeSafe, RangeKept, LiftsRanges, InRanges;
    if !InRanges(k, b.sheets[i].protectedRanges) {
      return;
    }
    if RangeSafe(b, i, k) {
      forall ops | !Released(num, b, ops, i, LiftsRanges) ensures RangeKept(num, b, ops, i, k) {
        ProtectedRangeKept(num, b, ops, i, k);
      }
    } else {
      var op := RangeUnsafe(num, b, i, k);
    }
  }
}
