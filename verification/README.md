# ERA office core: a verified model

Dafny models of four parts of the ERA suite, with proofs about them:

* the **rich-text engine** of `era-docs-core`: blocks made of styled runs, edits at byte offsets, operational
  transformation of concurrent edits, and the operation log;
* the **spreadsheet engine** of `era-tables-core`: A1 addresses, rows and columns that come and go with formula
  text rewritten, recalculation, sorting, a workbook of tabs with protection, and worksheet XML;
* the **drive store**: folders, objects, versions, trash and locks kept in four maps;
* the **agent's event queue**: a bounded buffer with drop-oldest and re-queueing.

`dafny verify dfyconfig.toml` checks everything.

## How the model is built

Text is a sequence of Unicode scalar values and an offset is a count of UTF-8 bytes (section 3 of RFC 3629).
A block's run list is read as a flat sequence of (character, marks) pairs. Every edit of runs is a method proved
equal to the same edit of the flat sequence followed by run-length encoding, and canonical run lists are proved
unique, so that convergence is equality of documents.

Code that changes things in place is a class (`EradDocument`, `OpLog`, `EratSheet`, `MemoryStore`, `RingBuffer`) or a
method with a loop. Each such method equals a function of the old state, and the lemmas are about those functions.
Ids, blob keys, times, the outcome of sending a batch, number parsing and number formatting are parameters.

What single operations do is stated apart from how they do it, in `DocEffects`, `SheetMoves`, `WorkbookEffects`,
`FormulaValues`, `FormulaConditions`, `FormulaTexts`, `SortOrder`, `RangeGuard`, `XmlText` and `DriveEffects`: by laws,
by field or by coordinate, from the operation's arguments to the state afterwards.

Main results, one per component and then the rest:

* **Documents.** `Merge.MergeClosedForm` gives the outcome of any batch of concurrent insertions in closed form, and
  `Merge.BatchOrderIrrelevant` makes it independent of the order. `Convergence` and `SplitMerge` say exactly when two
  orders of insert/delete, insert/mark and insert/split meet.
* **Sheets.** `RowMeaning.RowInsertKeepsMeaning`: exactly when evaluating the rewritten formula text on the shifted sheet
  gives what the original gave. `Recalc.RepeatedRecalcSolves`: on an acyclic sheet, recalculating as often as there are
  formulas reaches the only solution. `SheetRoundTrip.RoundTripExact`: what survives writing and reading XML.
  `Protection.ProtectionExact`: protection over every run, and from which workbooks.
* **Drive.** `DriveRuns.RunSound`, `DriveEffects.BytesAreSubmitted` and `DriveLocks.LockExclusive`: invariants of every
  run of calls.
* **Queue.** `EventQueue.NothingUnaccounted`: conservation over every interleaving of pushes and flushes.

Where a promise of the code does not hold everywhere, the lemma states the exact condition:

* A marked range transformed against a deletion is misplaced when it reaches past the deletion and starts less than a
  deletion length behind it (`Transforms.MarksAfterDeleteExact`, with an instance in `MarksAfterDeleteMisplaced`).
* Insert and delete converge in text exactly when the caret is not strictly inside the deleted range, and as documents
  under the condition of `Convergence.InsertDeleteDocuments`, provided that offsets are character boundaries;
  `Convergence.MisalignedOrdersPart` and `MisalignedInsertsPart` show why that is needed.
* An insertion at the very start of a block that is split there, or marked from there, converges under the conditions
  `SplitMerge.SplitAgrees` and `Convergence.MarksAgree`.
* Undoing an inserted row restores the sheet exactly when its address keys are canonical and its formulas are ASCII text
  whose row numbers have no leading zeros and still fit 32 bits when moved (`Sheets.RowThereAndBack`).
* A single cell is looked up as it is spelled, but inserting a row respells it. So a reference with a leading zero may
  change its meaning (`RowMeaning.RowInsertOnCanonicalKeys`, with an instance in `Misreadings.LeadingZeroMisread`).
* Sorting keeps every cell exactly when all keys are addresses and no two denote one coordinate
  (`SortCensus.SortLosesNothing`).
* Protection is looked up before the workbook is normalized. With a valid active index it holds for every tab except an
  active one that is empty while there are active cells; with a stale index it holds for every tab except the first
  (`Protection.ProtectionExact`; the failing families are in `SeedingUnguarded` and `StaleIndexUnguarded`). After any
  applied operation it holds for all.
* A formula is escaped when it is written to XML but not unescaped when it is read, and it is trimmed. It survives
  exactly when it is plain (`SheetRoundTrip.FormulaSurvives`). Values always survive.
* The loop that re-queues a batch ends exactly when the batch fits into the buffer (`EventQueue.RequeueLoopEnds`).
* The access list of a new object ignores spaces at the end of the owner's id (`DriveAcl.NewObjectAccess`).

Three places where comments in the code say less or more than the code does; the model follows the code.
`tenant:members` compares the caller's tenant with itself (services/platform/drive/acl.go:84-92). Trashing and
restoring a locked object is open to every writer (services/platform/drive/memory_store.go:362-411). Range protection
does not stop sorting or moving rows and columns (crates/era-tables-core/src/sync.rs:261-267).

## Model

| member | source | states |
|---|---|---|
| `Utf8.FloorCharBoundary` | crates/era-docs-core/src/spans.rs:6-15 | The result is a character boundary at or before the offset, and the greatest one |
| `Utf8.CharsWithinAligned` | crates/era-docs-core/src/spans.rs:6-15 | An offset that is a boundary already stays where it is |
| `CharFacts.BytesOfChar` | crates/era-docs-core/src/spans.rs:6-15 | The UTF-8 bytes of a character decode to it, lie in the ranges of RFC 3629, and are as many as its width |
| `CharFacts.SpacesAre` | crates/era-tables-core/src/calc.rs:69-97 | Trimming removes the characters of the White_Space property, listed one by one |
| `Spans.PlainIsChars` | crates/era-docs-core/src/spans.rs:17-19 | The plain text of a run list is the text of its flat reading |
| `Spans.CoalesceAdjacent` | crates/era-docs-core/src/spans.rs:53-74 | The loop computes the maximal runs of the flat reading, or one empty plain run, or nothing for an empty list |
| `Spans.RunsOfFlat` | crates/era-docs-core/src/spans.rs:53-74 | Maximal runs read back as the same flat sequence and are canonical |
| `Spans.CanonicalUnique` | crates/era-docs-core/src/spans.rs:53-74 | Canonical run lists with equal flat readings are equal |
| `Spans.CoalescedFixesWellFormed` | crates/era-docs-core/src/spans.rs:53-74 | Coalescing keeps the flat reading and leaves a list alone exactly when it is well-formed |
| `SpanEdits.SplitAt` | crates/era-docs-core/src/spans.rs:78-111 | The cut falls on the floored character position, the flat reading is unchanged, and no empty run is created |
| `SpanEdits.SplitInlinesAt` | crates/era-docs-core/src/spans.rs:114-122 | The halves are the coalesced runs of the flat text before and after the caret |
| `SpanEdits.ApplyMarksRange` | crates/era-docs-core/src/spans.rs:176-191 | Marking runs equals patching exactly the characters of the floored range; `DocEffects.MarksSet` says what becomes of each mark |
| `SpanEdits.InsertTextPreserving` | crates/era-docs-core/src/spans.rs:195-225 | Inserting into runs equals splicing into the flat text with explicit or inherited marks |
| `SpanEdits.DeleteRangePreserving` | crates/era-docs-core/src/spans.rs:227-239 | Deleting from runs equals removing the floored range from the flat text |
| `DocEffects.MarksSet` | crates/era-docs-core/src/sync.rs:506-538 | In the floored range each given mark field reads as given, an empty text or zero size clears its mark, and a field not given reads as before; every other character, block and comment is unchanged |
| `DocEffects.BlockMarked` | crates/era-docs-core/src/sync.rs:539-570 | The seven marks of a whole-block operation on every character, the other marks as before |
| `DocEffects.TextEdited` | crates/era-docs-core/src/sync.rs:437-455 | The block's text is the old one with the text at the floored offset, or without the floored range; nothing else of the document changes |
| `DocEffects.StylesKept` | crates/era-docs-core/src/spans.rs:195-239 | Inserted text has the marks given, or else those of the character in front of it or of the first; every other character keeps its marks under insertion and deletion |
| `DocEffects.BlockFormatted` | crates/era-docs-core/src/sync.rs:571-632 | Each given format field is set, clearing a list resets its fields first, and retyping sets type and level; other fields and blocks stay |
| `DocEffects.BlockInserted` | crates/era-docs-core/src/sync.rs:466-472 | The block stands right behind the named one, or last |
| `DocEffects.BlockSplit` | crates/era-docs-core/src/sync.rs:473-488 | The two halves of the styled text, in the block and in a new one behind it with the same attributes but no list restart |
| `DocEffects.BlocksMerged` | crates/era-docs-core/src/sync.rs:489-505 | The predecessor keeps id and attributes and holds the styled text of both, one behind the other |
| `DocEffects.CommentsKept` | crates/era-docs-core/src/sync.rs:633-661 | A comment with a new id is appended unresolved, one with a known id is not; resolving marks the first with that id only |
| `DocEffects.MissingBlock` | crates/era-docs-core/src/sync.rs:435-662 | An operation on a block that is not there changes nothing |
| `DocEffects.TakenId` | crates/era-docs-core/src/sync.rs:473-488 | A split with an id that is taken changes nothing |
| `DocEffects.IdsStayDistinct` | crates/era-docs-core/src/sync.rs:435-662 | Blocks keep distinct ids under every operation, if an inserted block brings a new one |
| `Documents.ApplyKeepsWellFormed` | crates/era-docs-core/src/sync.rs:435-662 | Every operation keeps every block coalesced |
| `DocEngine.EradDocument.ApplyInPlace` | crates/era-docs-core/src/sync.rs:435-662 | Editing the document in place, operation by operation, equals the function on values that the convergence results are about |
| `DocEngine.EradDocument.SplitInPlace` | crates/era-docs-core/src/sync.rs:473-488 | Splits a block in place; an id that exists already changes nothing |
| `DocEngine.EradDocument.MergeInPlace` | crates/era-docs-core/src/sync.rs:489-505 | Joins a block to its predecessor in place |
| `Convergence.InsertDeleteConverge` | crates/era-docs-core/src/sync.rs:209-263 | Both orders give the same text if and only if nothing is inserted or the caret is not strictly inside the deletion; with explicit marks the documents are then equal |
| `Convergence.InsertDeleteDocuments` | crates/era-docs-core/src/sync.rs:209-263 | On a coalesced block, both orders give the same document if and only if the text agrees and the insertion carries marks, nothing is deleted, or the deletion does not change what the caret inherits |
| `Convergence.InsideParts` | crates/era-docs-core/src/sync.rs:209-263 | With the caret strictly inside: one order swallows the text, the other has it in place of the range |
| `Convergence.MisalignedOrdersPart` | crates/era-docs-core/src/sync.rs:209-263 | A concrete misaligned deletion on which the orders part |
| `Convergence.MisalignedInsertsPart` | crates/era-docs-core/src/sync.rs:183-208 | A concrete misaligned insertion that ends up behind a later one at the same place |
| `Convergence.UncoalescedOrdersPart` | crates/era-docs-core/src/sync.rs:264-288 | Why the block must be coalesced: an empty run behind the text makes insert and mark part |
| `Convergence.InsertMarkConverge` | crates/era-docs-core/src/sync.rs:264-288 | Both orders give the same document if and only if nothing is inserted or marked or the inserted text gets equal marks; inherited marks always do when caret or range start is past 0 |
| `Transforms.MarksAfterDeleteExact` | crates/era-docs-core/src/sync.rs:289-319 | The transformed range is the image of the original if and only if nothing is deleted, the range ends by the deletion's end, or it starts a deletion length behind it |
| `Transforms.MarksAfterDeleteMisplaced` | crates/era-docs-core/src/sync.rs:302-319 | Range [4,10) against deletion [0,3) gives [0,4) instead of [1,7) |
| `Transforms.MarksAfterDeleteInexact` | crates/era-docs-core/src/sync.rs:302-319 | What the transformed range is in every other case |
| `Transforms.DeletionPastInsert` | crates/era-docs-core/src/sync.rs:209-235 | The rewritten deletion takes the same bytes, and the new ones just if they are strictly inside |
| `Transforms.MarksPastInsert` | crates/era-docs-core/src/sync.rs:264-288 | The rewritten range marks the same bytes, and the new ones just if they are inside or at its end |
| `Transforms.CaretPastDeleteOrSplit` | crates/era-docs-core/src/sync.rs:236-356 | A caret goes where the byte behind it goes, and not past a split |
| `Transforms.PayloadKept` | crates/era-docs-core/src/sync.rs:181-385 | Only offsets are rewritten: kind, block, text, marks, fields and new id stay |
| `Transforms.OtherBlockUntouched` | crates/era-docs-core/src/sync.rs:181-385 | Against an operation on another block nothing is rewritten |
| `Transforms.Untransformed` | crates/era-docs-core/src/sync.rs:380-384 | The pairs of operations that have no transformation |
| `SplitMerge.SplitThenMerge` | crates/era-docs-core/src/sync.rs:473-505 | Splitting with a fresh id and merging back coalesces the block, and restores the document if and only if it was coalesced, at every offset |
| `SplitMerge.InsertSplitConverge` | crates/era-docs-core/src/sync.rs:330-379 | Insert and split give the same document in both orders if and only if the caret is not behind the split and, for a split at 0, the typed marks agree |
| `DocEngine.MergeConcurrent` | crates/era-docs-core/src/sync.rs:665-676 | The two nested loops compute the merge that the closed form is about |
| `Merge.TransformAllMoves` | crates/era-docs-core/src/sync.rs:183-208 | Transforming an insertion against all applied ones moves it by exactly the bytes inserted at or before its base position |
| `Merge.MergeClosedForm` | crates/era-docs-core/src/sync.rs:665-676 | Each base position holds all texts inserted there in batch order and then its own character; nothing else changes; with explicit marks the same for styled text |
| `Merge.BatchOrderIrrelevant` | crates/era-docs-core/src/sync.rs:183-208 | Any permutation that keeps the order of equal offsets gives the same text, and the same document when every insertion carries marks |
| `Merge.BatchOfTwo` | crates/era-docs-core/src/sync.rs:665-676 | A batch of two operations of any kind gives one of the two orders that the convergence results compare |
| `DocEngine.OpLog.Append` | crates/era-docs-core/src/sync.rs:394-397 | The log grows by one operation and its version stays the number of operations |
| `DocEngine.OpLog.Replay` | crates/era-docs-core/src/sync.rs:399-404 | Replaying applies the logged operations in order |
| `DocEngine.OpLog.OpsSince` | crates/era-docs-core/src/sync.rs:406-409 | The result is the end of the log with as many operations as the version lacks, and replaying it on the document of that version gives the document of the whole log, from any base |
| `DocEngine.CatchUp` | crates/era-docs-core/src/sync.rs:399-409 | A client at any version that replays what came since reaches the document of a full replay |
| `DocEngine.ReplayOne` | crates/era-docs-core/src/sync.rs:399-404 | A log of one operation applies it |
| `DocEngine.ReplayKeepsWellFormed` | crates/era-docs-core/src/sync.rs:399-404 | Every document reachable through the log keeps its blocks coalesced |
| `Addresses.ParseAddress` | crates/era-tables-core/src/model.rs:561-576 | The loop with its 32-bit wrap-around computes the value of the letters as one bijective base-26 number |
| `Addresses.PrintAddress` | crates/era-tables-core/src/model.rs:589-598 | The loop spells the column in bijective base 26, then the row |
| `Addresses.ParsePrint` | crates/era-tables-core/src/model.rs:561-598 | Parsing undoes printing for all 32-bit columns and rows from 1 |
| `Addresses.PrintParse` | crates/era-tables-core/src/calc.rs:3-28 | Printing undoes parsing on canonical addresses, and those are exactly the printed ones |
| `AddressForms.ColumnsCountUp` | crates/era-tables-core/src/model.rs:561-576 | The columns are A to Z, AA, AB and so on, each one more than the last |
| `AddressForms.NumbersCountUp` | crates/era-tables-core/src/model.rs:561-576 | Digit strings count up in decimal |
| `AddressForms.FormedDenotes` | crates/era-tables-core/src/model.rs:561-576 | Letters, perhaps a plus sign, and digits denote column and row, unless one is 0 or the row too large |
| `AddressForms.AddressIsFormed` | crates/era-tables-core/src/model.rs:561-576 | No other text is an address |
| `Calc.ExpandRangeLoop` | crates/era-tables-core/src/calc.rs:46-66 | The nested loops list the grid between the corners, in column order |
| `Calc.RangeIsRectangle` | crates/era-tables-core/src/calc.rs:46-66 | Each address of the rectangle is listed exactly once, whichever corners are given; without a colon there is one address, with a bad corner none |
| `Calc.SplitArgsLoop` | crates/era-tables-core/src/calc.rs:69-97 | The loop computes the split that `SplitJoined` characterizes |
| `Calc.SplitJoined` | crates/era-tables-core/src/calc.rs:69-97 | Splitting a list of arguments joined by commas gives them back, trimmed and without quotes, whatever parentheses and quoted commas they hold; only a blank last one is dropped |
| `FormulaValues.SumOfCell` | crates/era-tables-core/src/calc.rs:30-36 | SUM of one cell is the number it holds, and 0 if it holds none |
| `FormulaValues.SumChanges` | crates/era-tables-core/src/calc.rs:240-252 | Where one cell of a rectangle counts as z in place of x, its SUM is greater by z - x |
| `FormulaValues.SumOfNothing` | crates/era-tables-core/src/calc.rs:240-252 | SUM of a rectangle without numbers is 0 |
| `FormulaValues.CountIsSize` | crates/era-tables-core/src/calc.rs:198-208 | COUNT is the number of coordinates of the rectangle whose cell holds a number |
| `FormulaValues.AverageIsShare` | crates/era-tables-core/src/calc.rs:240-252 | AVERAGE is the SUM divided by the number of cells, blank ones included |
| `FormulaValues.ExtremeOfRange` | crates/era-tables-core/src/calc.rs:240-252 | MIN and MAX are numbers that some cell counts as and that no cell is beyond |
| `FormulaValues.RoundIsNearest` | crates/era-tables-core/src/calc.rs:225-238 | ROUND is a multiple of 10^-n within half of that from the cell's number, halves away from zero, n clamped to 0..10 |
| `FormulaValues.RoundToWhole` | crates/era-tables-core/src/calc.rs:225-238 | Without a second argument ROUND gives the nearest whole number |
| `FormulaConditions.IfChooses` | crates/era-tables-core/src/calc.rs:184-196 | IF gives what its second or third argument stands for, as the numbers or texts of its first compare, spaced or not |
| `FormulaConditions.IfOfWord` | crates/era-tables-core/src/calc.rs:116-142 | IF with a bare condition: a number other than 0 or text; nothing without a third argument |
| `FormulaConditions.CountIfIsSize` | crates/era-tables-core/src/calc.rs:210-222 | COUNTIF is the number of coordinates whose text meets the comparison, or equals the word but for its case |
| `FormulaConditions.MatchQuoted` | crates/era-tables-core/src/calc.rs:152-173 | Spaces before the word of a criterion and quotes around it do not count |
| `FormulaTexts.NoCall` | crates/era-tables-core/src/calc.rs:175-181 | Text without a parenthesis gives nothing |
| `FormulaTexts.UnknownFunction` | crates/era-tables-core/src/calc.rs:245-251 | A function that does not exist gives nothing |
| `FormulaTexts.BadRange` | crates/era-tables-core/src/calc.rs:240-244 | A range with a corner that is no address has no cells: 0 |
| `FormulaTexts.ThirdCorner` | crates/era-tables-core/src/calc.rs:46-66 | What follows a second colon of a range does not count |
| `FormulaTexts.ExtraEqualSign` | crates/era-tables-core/src/calc.rs:175-181 | All leading equal signs are dropped |
| `FormulaTexts.ExtraParenthesis` | crates/era-tables-core/src/calc.rs:175-181 | All closing parentheses at the end are dropped |
| `FormulaTexts.TooFewArguments` | crates/era-tables-core/src/calc.rs:184-229 | IF and COUNTIF with less than two arguments and ROUND with none give nothing |
| `FormulaTexts.IfOfLiteral` | crates/era-tables-core/src/calc.rs:99-114 | Text in apostrophes stands for itself |
| `FormulaTexts.CountIfApostrophes` | crates/era-tables-core/src/calc.rs:215-216 | Apostrophes around a criterion do not count |
| `FormulaTexts.RoundNegative` | crates/era-tables-core/src/calc.rs:225-238 | A negative number of places is none |
| `Formulas.ShiftFormulaRows` | crates/era-tables-core/src/model.rs:600-638 | The scanning loop equals token-by-token rewriting |
| `Formulas.ShiftThereAndBack` | crates/era-tables-core/src/model.rs:600-638 | Shifting down and up again restores a text if and only if it is ASCII and every moved row number is canonical and fits |
| `Sheets.Restructure` | crates/era-tables-core/src/model.rs:394-478 | The loop moves entries in key order, the later of two on one key staying |
| `Sheets.RestructuredLookup` | crates/era-tables-core/src/model.rs:394-478 | Where no two keys meet, the result holds exactly the moved cells under their moved keys |
| `Sheets.RowThereAndBack` | crates/era-tables-core/src/model.rs:394-438 | Deleting the inserted row restores the sheet, formula text included, if and only if all addresses among the keys are canonical and can move and every formula is restorable ASCII text |
| `Sheets.ColThereAndBack` | crates/era-tables-core/src/model.rs:440-478 | Deleting the inserted column restores the sheet if and only if all addresses among the keys are canonical and can move |
| `SheetMoves.MovedByCoordinate` | crates/era-tables-core/src/model.rs:394-478 | After inserting or deleting a row or column of any sheet, each coordinate has the cell of its origin, with its formula rewritten for rows |
| `SheetMoves.ReferenceMoved` | crates/era-tables-core/src/model.rs:600-638 | Inserting moves references at or behind the row down, deleting moves those behind it up and leaves one to the deleted row |
| `CallText.ShiftCall` | crates/era-tables-core/src/model.rs:600-638 | Rewriting the text of a call, spaces included, gives the text of the call with its references moved |
| `CallText.EvalSpelled` | crates/era-tables-core/src/calc.rs:175-253 | Evaluating the text of a SUM, COUNT or ROUND call, however spaced, gives the value of the call over its operands; `FormulaValues` says what that value is |
| `RowMeaning.RowInsertKeepsMeaning` | crates/era-tables-core/src/model.rs:394-414 | For every such call, sheet and inserted row, the rewritten formula on the shifted sheet has the value of the call read by coordinates, so it keeps its value if and only if that equals the value read by spelling |
| `RowMeaning.RowInsertOnCanonicalKeys` | crates/era-tables-core/src/model.rs:394-414 | With canonical keys a range always keeps its value; a single cell or ROUND keeps it if and only if its row has no leading zero or its cell gives what no cell would |
| `Misreadings.LeadingZeroMisread` | crates/era-tables-core/src/calc.rs:46-50 | The sum of A01 is zero before a row is inserted and the value of A1 after |
| `Misreadings.NonAsciiSpaceMisread` | crates/era-tables-core/src/model.rs:632-635 | A no-break space before A1 is rewritten as two characters, and the sum becomes zero |
| `Recalc.RecalcLoop` | crates/era-tables-core/src/calc.rs:256-269 | The loop computes one pass over the formulas in key order |
| `Recalc.EvalFrame` | crates/era-tables-core/src/calc.rs:175-253 | A formula's value depends only on the cells in its computed read set |
| `ReadSets.CallReadsOperands` | crates/era-tables-core/src/calc.rs:175-253 | A SUM, COUNT or ROUND call reads exactly the cells of its operands |
| `ReadSets.IfReadsWords` | crates/era-tables-core/src/calc.rs:99-142 | An IF reads exactly the cells that its words refer to |
| `Recalc.RecalculatedKeeps` | crates/era-tables-core/src/calc.rs:256-269 | A pass changes nothing but the values of formula cells |
| `Recalc.SolvedIsFixpoint` | crates/era-tables-core/src/calc.rs:256-269 | A sheet whose formula cells hold their values is left alone |
| `Recalc.OnePassSolves` | crates/era-tables-core/src/calc.rs:256-269 | If formulas read only plain cells and earlier formula cells, one pass solves the sheet and another changes nothing |
| `Recalc.RepeatedRecalcSolves` | crates/era-tables-core/src/calc.rs:256-269 | On an acyclic sheet, as many passes as formula cells reach a solution, and it is the only one |
| `Recalc.UniqueSolution` | crates/era-tables-core/src/calc.rs:175-269 | Two solutions of one acyclic sheet are equal |
| `RowSort.SortRows` | crates/era-tables-core/src/model.rs:496-543 | Collecting, sorting and writing back rows equals placing the stably sorted rows |
| `RowSort.FindMaxRow` | crates/era-tables-core/src/model.rs:487-495 | The loop finds the last row in use |
| `RowSort.SortPermutesRows` | crates/era-tables-core/src/model.rs:482-544 | On any sheet, each old row number occurs exactly once in the new order, rows move whole by coordinate, and the order is by lower-cased key with ties in their old order; `SortOrder.SortSpecification` reads the order off the cells |
| `SortOrder.SortSpecification` | crates/era-tables-core/src/model.rs:482-544 | On the cells of the result: the rows down to the last in use are permuted whole, the lower-cased formula or else value at the column ascends or descends, and rows with equal texts keep their old order |
| `SortOrder.LessIs` | crates/era-tables-core/src/model.rs:521-526 | Texts compare at their first difference, by character code |
| `RowSort.SortIdempotent` | crates/era-tables-core/src/model.rs:482-544 | Sorting a sorted sheet changes nothing, whatever its keys |
| `SortCensus.SortLosesNothing` | crates/era-tables-core/src/model.rs:496-543 | The sorted sheet has as many cells as before if and only if every key is an address and no two keys denote one coordinate |
| `SortCensus.AliasLosesCell` | crates/era-tables-core/src/model.rs:496-503 | Of two cells under A01 and A1 one is lost |
| `WorkbookRuns.SortOpLosesNothing` | crates/era-tables-core/src/model.rs:482-544 | The sort operation keeps every cell if and only if it does nothing or that condition holds |
| `WorkbookEngine.EratSheet.Apply` | crates/era-tables-core/src/sync.rs:125-242 | Applying an operation in place equals the function on values, and the active cells mirror their tab afterwards |
| `WorkbookEngine.EratSheet.NormalizeTabs` | crates/era-tables-core/src/model.rs:134-159 | There is a tab, the active index is valid, and the active cells are those of the tab or seed it |
| `WorkbookEngine.EratSheet.FlushActiveToTab` | crates/era-tables-core/src/model.rs:171-179 | Writes the active cells to their tab |
| `WorkbookEngine.EratSheet.SyncActiveFromTab` | crates/era-tables-core/src/model.rs:161-169 | Reads the active cells from their tab |
| `WorkbookEngine.EratSheet.SetCellText` | crates/era-tables-core/src/model.rs:181-198 | Sets value and formula under the upper-case key, keeping format and style, in both places |
| `WorkbookEngine.EratSheet.SetStyle` | crates/era-tables-core/src/model.rs:200-245 | Applies the given style fields to one cell in both places |
| `WorkbookEngine.EratSheet.RemoveCell` | crates/era-tables-core/src/model.rs:257-263 | Removes one cell in both places |
| `WorkbookEngine.EratSheet.Switch` | crates/era-tables-core/src/model.rs:265-273 | Saves the active tab and shows another; an index out of range changes nothing more |
| `WorkbookEngine.EratSheet.AddTab` | crates/era-tables-core/src/model.rs:275-292 | Saves the active tab, appends an empty one and shows it |
| `WorkbookEngine.EratSheet.ReorderTab` | crates/era-tables-core/src/model.rs:375-391 | Moves a tab and adjusts the active index |
| `WorkbookEngine.EratSheet.MoveRowsOrColumns` | crates/era-tables-core/src/model.rs:394-478 | Inserts or deletes a row or column in the active tab |
| `WorkbookEngine.EratSheet.SortRowsByCol` | crates/era-tables-core/src/model.rs:482-544 | Sorts the active tab's rows; column 0 and an empty sheet change nothing |
| `WorkbookRuns.MirrorAfterAnyOp` | crates/era-tables-core/src/sync.rs:125-242 | After any operation on any workbook the active index is valid and the active cells equal their tab's, formula results aside after a switch or reorder |
| `WorkbookRuns.TabAfter` | crates/era-tables-core/src/sync.rs:125-242 | On any workbook, once normalized, an operation changes cells of the active tab only, and only if it edits cells; protection changes only by its own operations; inactive tabs keep everything but a new name |
| `WorkbookRuns.ActiveAfter` | crates/era-tables-core/src/sync.rs:125-242 | The chosen or added tab becomes active; every other operation, a reorder included, leaves the same tab active |
| `WorkbookRuns.ReorderUndone` | crates/era-tables-core/src/model.rs:375-391 | A reorder permutes the tabs, and the opposite reorder restores tabs and active index |
| `WorkbookRuns.MoveElementBack` | crates/era-tables-core/src/model.rs:375-391 | Removing and inserting an element keeps the multiset, and moving it back restores the list |
| `WorkbookEffects.CellSet` | crates/era-tables-core/src/model.rs:181-198 | The cell under the key in capitals has the formula and, without one, the value, and keeps format, style and note |
| `LetterCase.UpperIs` | crates/era-tables-core/src/model.rs:181-184 | Capitals of ASCII letters; other characters stay |
| `WorkbookEffects.FormulasSolved` | crates/era-tables-core/src/sync.rs:128-228 | After each operation that recalculates, every formula holds its value, if formulas read only plain and earlier cells |
| `WorkbookEffects.CellClearedOrFormatted` | crates/era-tables-core/src/model.rs:247-263 | Clearing removes the cell; a format is written and the rest of the sheet stays |
| `WorkbookEffects.CellStyled` | crates/era-tables-core/src/model.rs:200-245 | Each given style field is set, borders as flag or sides, and the rest of the sheet stays |
| `WorkbookEffects.SidesKept` | crates/era-tables-core/src/model.rs:231-238 | Of given border sides the letters t, b, l and r are kept, in order |
| `WorkbookEffects.CellsMovedByOp` | crates/era-tables-core/src/model.rs:394-478 | The operation gives each coordinate the cell of its origin, results aside, and counts an inserted row or column |
| `WorkbookEffects.NothingMoved` | crates/era-tables-core/src/model.rs:394-478 | A row or column numbered 0 moves nothing |
| `WorkbookEffects.RowsSortedByOp` | crates/era-tables-core/src/sync.rs:179-183 | The sort operation sorts the active cells, results aside |
| `WorkbookEffects.DataSet` | crates/era-tables-core/src/sync.rs:184-241 | Each operation on a tab's data sets just that field of the active tab |
| `WorkbookEffects.TabNamed` | crates/era-tables-core/src/model.rs:275-373 | Renaming names the tab at the index; a new tab is empty and named as given, or numbered |
| `WorkbookEffects.TabReordered` | crates/era-tables-core/src/model.rs:375-391 | The tab at one index goes to the other, and the rest keep their order |
| `WorkbookEffects.FirstTab` | crates/era-tables-core/src/model.rs:134-151 | A workbook without tabs gets one named Sheet1 with its cells |
| `Protection.ProtectedTabKept` | crates/era-tables-core/src/sync.rs:246-268 | From a safe start, in any run that skips blocked operations a protected tab keeps every cell and its protection until it is unprotected, wherever reorders take it |
| `Protection.ProtectionExact` | crates/era-tables-core/src/sync.rs:246-268 | Protection of a tab holds in every run that does not unprotect it if and only if the start is safe: a valid index and a tab that is not about to be filled from the active cells, or a stale index and not the first tab |
| `Protection.SeedingUnguarded` | crates/era-tables-core/src/model.rs:153-158 | Freezing panes, which is never blocked, fills an empty protected tab from the active cells |
| `Protection.ProtectedRangeKept` | crates/era-tables-core/src/sync.rs:246-268 | In any such run a cell in a protected range keeps everything but a formula result until the ranges change or rows and columns move; `RangeGuard` says which cells a range holds |
| `Protection.RangeProtectionExact` | crates/era-tables-core/src/sync.rs:246-268 | This holds in every run that does not lift it if and only if the cell is not about to come from the active cells and no stale index lets an edit reach it |
| `Protection.StaleIndexUnguarded` | crates/era-tables-core/src/sync.rs:246-259 | With an active index out of range nothing is blocked although the first tab, protected or not, is edited |
| `Protection.InRangesUpper` | crates/era-tables-core/src/model.rs:337-351 | The range guard does not depend on letter case, as keys do not |
| `RangeGuard.TabGuard` | crates/era-tables-core/src/sync.rs:246-268 | A protected tab blocks exactly the operations that edit cells, any other tab none but edits of single cells |
| `RangeGuard.RangeBlocks` | crates/era-tables-core/src/model.rs:337-351 | A range with two corners blocks an edit exactly when the address of its coordinate is one that the range expands to, in either corner order and spacing |
| `RangeGuard.CellBlocks` | crates/era-tables-core/src/model.rs:578-587 | A range of one cell blocks edits of exactly that cell |
| `RangeGuard.ListBlocks` | crates/era-tables-core/src/model.rs:341-349 | A list of ranges blocks what any of them blocks |
| `RangeGuard.BadCornerBlocksNothing` | crates/era-tables-core/src/model.rs:578-587 | A range with a corner that is no address blocks nothing |
| `Xml.EscapeCharwise` | crates/era-tables-core/src/convert.rs:376-381 | Four replacement passes escape each special character exactly once |
| `Xml.UnescapeEscape` | crates/era-tables-core/src/convert.rs:376-388 | Unescaping undoes escaping on every text |
| `XmlText.EscapeOf` | crates/era-tables-core/src/convert.rs:376-381 | Escaping goes character by character with the predefined entities |
| `XmlText.OneCellWritten` | crates/era-tables-core/src/convert.rs:292-322 | The XML of a sheet of one cell, in full |
| `XmlText.DeclarationIs` | crates/era-tables-core/src/convert.rs:307-310 | The XML declaration |
| `XmlText.WorksheetIs` | crates/era-tables-core/src/convert.rs:307-310 | The worksheet element in the main namespace |
| `XmlText.ElementWithAttributes` | crates/era-tables-core/src/convert.rs:332-346 | An element with attributes is read like one without |
| `XmlText.ElementClosedOrMissing` | crates/era-tables-core/src/convert.rs:332-346 | An element that closes itself is empty text, and one that is missing none |
| `XmlText.SharedRead` | crates/era-tables-core/src/convert.rs:262-274 | A cell marked as shared is read as the string with that number, and as nothing beyond the table |
| `SheetXml.BuildWorksheetXml` | crates/era-tables-core/src/convert.rs:292-311 | The loops write the addresses grouped by row |
| `SheetXml.ParseSheetCells` | crates/era-tables-core/src/convert.rs:246-290 | The loop over chunks equals the recursive reading |
| `SheetRoundTrip.GroupedShape` | crates/era-tables-core/src/convert.rs:292-304 | Rows are written in ascending order, each address once and in its own row |
| `SheetRoundTrip.ElementText` | crates/era-tables-core/src/convert.rs:332-346 | The text of an element is found behind anything that does not open the same tag |
| `SheetRoundTrip.AttrOfBody` | crates/era-tables-core/src/convert.rs:324-330 | The address attribute of a written cell is read back |
| `SheetRoundTrip.ChunkRead` | crates/era-tables-core/src/convert.rs:246-322 | One written cell is read back with its value, whatever the value and the shared strings |
| `SheetRoundTrip.ReadWritten` | crates/era-tables-core/src/convert.rs:246-322 | Reading the XML of any sheet gives its addressed cells in writing order under upper-case keys |
| `SheetRoundTrip.FormulaSurvives` | crates/era-tables-core/src/convert.rs:254-261 | A formula comes back unchanged if and only if it is empty, or one equal sign before trimmed text without another in front and without special characters |
| `SheetRoundTrip.RoundTrip` | crates/era-tables-core/src/convert.rs:246-322 | Every non-empty addressed cell comes back under its key with its value, and no other, if and only if those keys are upper-case |
| `SheetRoundTrip.RoundTripExact` | crates/era-tables-core/src/convert.rs:246-322 | Values and formulas all come back unchanged if and only if every written cell has an upper-case key and a plain formula |
| `DriveAcl.NewObjectAccess` | services/platform/drive/acl.go:66-97 | A new object admits exactly its owner, spaces at the end of the id aside |
| `DriveEffects.RolesGrant` | services/platform/drive/acl.go:8-39 | Roles 1 and 3 let write, those and 2 let read, and no other |
| `DriveEffects.EntriesAdd` | services/platform/drive/acl.go:8-39 | A list lets in the owner and whoever one of its entries lets in |
| `DriveEffects.PrincipalsAre` | services/platform/drive/acl.go:66-88 | A user by id, a group by name, every caller with a tenant, and nobody else |
| `DriveEffects.NoKindNobody` | services/platform/drive/acl.go:66-88 | Text without a colon names nobody |
| `DriveStore.MemoryStore.ScanObjects` | services/platform/drive/memory_store.go:117-121 | The scan finds a duplicate exactly if there is one, in the trash or not |
| `DriveStore.MemoryStore.ScanLiveObjects` | services/platform/drive/memory_store.go:269-278 | The scan finds another live object of that name exactly if there is one |
| `DriveStore.MemoryStore.ScanLiveFolders` | services/platform/drive/memory_store.go:319-327 | The scan finds another live folder of that name exactly if there is one |
| `DriveStore.MemoryStore.CreateObject` | services/platform/drive/memory_store.go:95-133 | Updates the maps as the call on values does, version 1 and its bytes included |
| `DriveStore.MemoryStore.PutVersion` | services/platform/drive/memory_store.go:135-168 | Appends a version and moves the head, or changes nothing; the bytes are those of `DriveEffects.VersionPut` |
| `DriveStore.MemoryStore.UpdateAcl` | services/platform/drive/memory_store.go:205-218 | Replaces the access list, or changes nothing |
| `DriveStore.MemoryStore.UpdateObject` | services/platform/drive/memory_store.go:220-285 | Trashes, restores, or renames, moves, locks and unlocks, or changes nothing |
| `DriveStore.MemoryStore.TrashObject` | services/platform/drive/memory_store.go:362-381 | Marks an object trashed and remembers its folder |
| `DriveStore.MemoryStore.RestoreObject` | services/platform/drive/memory_store.go:383-411 | Puts a trashed object back, unless its name is taken |
| `DriveStore.MemoryStore.GetObjectData` | services/platform/drive/memory_store.go:170-192 | Succeeds exactly for readers with the head and the bytes under its key, none if there are none; in a sound store they are there and have the recorded size |
| `DriveStore.MemoryStore.CreateFolder` | services/platform/drive/memory_store.go:31-52 | Adds a folder, or changes nothing |
| `DriveStore.MemoryStore.UpdateFolder` | services/platform/drive/memory_store.go:287-332 | Trashes, restores, or renames and moves a folder, or changes nothing |
| `DriveStore.MemoryStore.TrashFolder` | services/platform/drive/memory_store.go:413-432 | Marks a folder trashed and remembers its parent |
| `DriveStore.MemoryStore.RestoreFolder` | services/platform/drive/memory_store.go:434-462 | Puts a trashed folder back, unless its name is taken |
| `DriveEffects.ObjectCreated` | services/platform/drive/memory_store.go:95-133 | When creating fails and with which error; the new object field by field, with the caller's bytes under its key |
| `DriveEffects.VersionPut` | services/platform/drive/memory_store.go:135-168 | When a new version fails and with which error; the caller's bytes under the new key, and what changes of the object |
| `DriveEffects.AclReplaced` | services/platform/drive/memory_store.go:205-218 | When replacing the list fails; otherwise just the list changes |
| `DriveEffects.ObjectEdited` | services/platform/drive/memory_store.go:228-285 | When renaming, moving, locking and unlocking fail and with which error; the object then has the trimmed name, the folder and the lock asked for |
| `DriveEffects.ObjectTrashed` | services/platform/drive/memory_store.go:362-381 | When trashing fails; otherwise the folder is remembered |
| `DriveEffects.ObjectRestored` | services/platform/drive/memory_store.go:383-411 | When restoring fails; otherwise the object is back in the remembered folder |
| `DriveEffects.FolderCreated` | services/platform/drive/memory_store.go:31-52 | When creating a folder fails; the new folder field by field |
| `DriveEffects.FolderEdited` | services/platform/drive/memory_store.go:295-332 | When renaming and moving a folder fail; the folder then has the name and parent asked for |
| `DriveEffects.FolderTrashedAndRestored` | services/platform/drive/memory_store.go:413-462 | When trashing and restoring a folder fail, and what they change |
| `DriveRuns.FailureChangesNothing` | services/platform/drive/memory_store.go:31-462 | A call that fails leaves the store as it was |
| `DriveRuns.PutVersionKeeps` | services/platform/drive/memory_store.go:135-168 | A new version keeps histories complete across the 32-bit wrap-around and alters nothing recorded |
| `DriveRuns.StepSound` | services/platform/drive/memory_store.go:31-462 | Every call keeps histories complete and live names unique, and loses nothing recorded |
| `DriveRuns.RunSound` | services/platform/drive/memory_store.go:31-462 | Over any run with fresh ids and keys: versions are 1 to n with the head last, recorded bytes never change, no two live objects or folders share a place and name |
| `DriveEffects.BytesAreSubmitted` | services/platform/drive/memory_store.go:95-168 | Over any fresh run, the stored bytes of each object's versions are those it had, followed by what the successful calls submitted for it, byte for byte and in order |
| `DriveLocks.LockStep` | services/platform/drive/memory_store.go:135-285 | A held lock is lost if and only if the call is a successful unlock by holder or owner; other principals' calls leave name, content, versions and lock alone |
| `DriveLocks.LockExclusive` | services/platform/drive/acl.go:41-64 | Over any run in which no unlock by holder or owner succeeds, the holder keeps the lock after every call, and every call by anyone else leaves name, content, versions and lock as the calls before it did |
| `DriveLocks.LockTaken` | services/platform/drive/memory_store.go:240-257 | A successful lock call makes the caller the holder, and nobody else was |
| `DriveLocks.TrashThenRestore` | services/platform/drive/memory_store.go:362-411 | Restoring what was just trashed always succeeds and returns the object but for the time of change |
| `DriveLocks.TrashThenRestoreFolder` | services/platform/drive/memory_store.go:413-462 | The same for folders |
| `EventQueue.RingBuffer.constructor` | crates/era-agent-core/src/buffer.rs:13-19 | An empty buffer of capacity at least one |
| `EventQueue.RingBuffer.Push` | crates/era-agent-core/src/buffer.rs:21-27 | Appends, dropping the oldest event when full |
| `EventQueue.RingBuffer.Drain` | crates/era-agent-core/src/buffer.rs:29-32 | Takes up to n events off the front |
| `EventQueue.RingBuffer.RequeueFront` | crates/era-agent-core/src/buffer.rs:35-46 | Puts a batch in front, dropping and counting exactly the excess of the oldest queued events |
| `EventQueue.RingBuffer.Flush` | crates/era-agent-core/src/orchestrator.rs:97-122 | A batch that fails or comes back leaves the buffer exactly as it was, nothing dropped; otherwise it has left the buffer |
| `EventQueue.RequeueLoopEnds` | crates/era-agent-core/src/buffer.rs:39-45 | Iterating the loop's step, the guard fails at some round if and only if the batch fits the capacity, first after the excess, and the re-queued buffer is the one reached then with the batch in front |
| `EventQueue.NothingUnaccounted` | crates/era-agent-core/src/orchestrator.rs:97-122 | Over any interleaving: pushed = queued + dropped + settled, the queue holds the latest events without a gap, and settled then queued is a subsequence of pushed |
| `EventQueue.OutageKeepsEvents` | crates/era-agent-core/src/sender.rs:56-65 | While every batch comes back and there is room, the queue grows by exactly what is pushed |
| `EventQueue.OnlyRetryAndThrottleGoBack` | crates/era-agent-core/src/sender.rs:61-66 | A batch stays queued exactly on failure or status 3 or 4; otherwise up to the batch size leaves from the front |
| `EventQueue.PushDropsAtMostOne` | crates/era-agent-core/src/buffer.rs:21-27 | A push drops one event, the oldest, and only when the buffer is full |

## Left out

- Letter case beyond ASCII: upper- and lower-casing change A-Z and a-z only.
- Saturation of byte offsets at the machine word, overflow of the log version and of the drop counter: these are unbounded here.
- Document fields other than blocks and comments, and block attributes other than the ones operations touch.
- Floating point: cell numbers are reals; number parsing and formatting are parameters; NaN and infinities do not occur.
- A formula argument that is a single lone quote character, on which the source panics; the model gives the empty text.
- Charts, filters and scenarios are opaque values.
- Convergence.InsertMarkConverge: character boundaries and coalesced blocks, which every operation leaves; likewise the results on insert/split and on batches of insertions.
- EventQueue.RingBuffer.RequeueFront: a batch larger than the capacity, on which the source never returns.
- Convergence of two deletions, of anything with a block merge, and of marks with a deletion beyond the image of the range: the source has no transform that would give it.
- Values of IF with literals inside its comparison; `FormulaConditions` and `FormulaTexts` cover words, numbers and cells there.
- Meaning of AVERAGE, MIN, MAX and COUNTIF under row insertion, where a blank inserted cell counts; of IF, where rewriting also changes letters followed by digits inside string literals; and meaning under row deletion.
- RowMeaning.RowInsertKeepsMeaning: calls with one reference as their argument and columns below 2^32; a reference to the last 32-bit row, which wraps to row 0 when it moves; spacing outside ASCII, which rewriting breaks as `Misreadings.NonAsciiSpaceMisread` shows.
- RowSort.SortRows: the source's loop over cells below the last row, which never finds one, is left out, and a row is written back as one map union.
- WorkbookEngine.EratSheet.SetStyle: the sequence of optional assignments is one function on the cell.
- The sheet's own operation log, merged ranges, freeze panes beyond storing them, and plain-text dumps.
- Workbook packaging, shared strings and relationships in XLSX, and ODS, PPTX, HTML and PDF conversion.
- Listing and searching in the drive, the PostgreSQL store, HTTP and JWT handling, and cycles of folders (only a folder that is its own parent is rejected).
- Mutual exclusion itself: each store call is one atomic step, as the mutex makes it.
- The transport to the gateway: its reply or failure is a parameter of the flush.
- Licensing, signatures, plugins, collectors, and the web front ends.
