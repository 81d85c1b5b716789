/** When two concurrent operations on one block meet again, whichever is applied first.
    Each result is an exact condition on the operations and the block they edit. */
module Convergence {
  import opened Basics
  import opened Utf8
  import opened Spans
  import opened SpanEdits
  import opened Documents
  import opened Transforms

  /** `first`, then `second` transformed against it. */
  function Both(d: Doc, first: DocOp, second: DocOp): Doc {
    ApplyOp(ApplyOp(d, first), TransformAgainst(second, first))
  }

  function TextOf(d: Doc): (t: seq<string>)
    ensures |t| == |d.blocks|
  {
    seq(|d.blocks|, i requires 0 <= i < |d.blocks| => BlockPlain(d.blocks[i].inlines))
  }

  /** Two writes to the same block are equal, or spell the same text, just when the runs do. */
  lemma SetInlinesCompare(d: Doc, id: string, a: seq<InlineSpan>, b: seq<InlineSpan>)
    requires HasBlock(d, id)
    ensures SetInlines(d, id, a) == SetInlines(d, id, b) <==> a == b
    ensures TextOf(SetInlines(d, id, a)) == TextOf(SetInlines(d, id, b)) <==> BlockPlain(a) == BlockPlain(b)
  {
    hide BlockPlain;
    var p := Position(d.blocks, id);
    var x, y := SetInlines(d, id, a), SetInlines(d, id, b);
    assert x.blocks[p].inlines == a && y.blocks[p].inlines == b;
    assert TextOf(x)[p] == BlockPlain(a) && TextOf(y)[p] == BlockPlain(b);
    if BlockPlain(a) == BlockPlain(b) {
      forall i | 0 <= i < |d.blocks| ensures TextOf(x)[i] == TextOf(y)[i] {}
    }
  }

  // ------------------------------------------------------------ insert and delete

  predicate InsertAndDelete(ins: DocOp, del: DocOp) {
    ins.OpInsertText? && del.OpDeleteRange? && ins.blockId == del.blockId
  }

  function InsertRuns(l: seq<InlineSpan>, ins: DocOp): seq<InlineSpan>
    requires ins.OpInsertText?
  {
    InsertText(l, ins.offset, ins.text, ins.marks)
  }

  function DeleteRuns(l: seq<InlineSpan>, del: DocOp): seq<InlineSpan>
    requires del.OpDeleteRange?
  {
    DeleteRange(l, del.start, del.end)
  }

  /** Runs of the block after the insertion and then the transformed deletion. */
  function InsertFirst(l: seq<InlineSpan>, ins: DocOp, del: DocOp): seq<InlineSpan>
    requires InsertAndDelete(ins, del)
  {
    DeleteRuns(InsertRuns(l, ins), TransformAgainst(del, ins))
  }

  function DeleteFirst(l: seq<InlineSpan>, ins: DocOp, del: DocOp): seq<InlineSpan>
    requires InsertAndDelete(ins, del)
  {
    InsertRuns(DeleteRuns(l, del), TransformAgainst(ins, del))
  }

  /** The two orders of one insertion and one deletion, on flat text. */
  lemma SplicesCommute<T>(f: seq<T>, k: nat, g: seq<T>, i: nat, j: nat)
    requires i < j <= |f| && k <= |f|
    ensures k <= i ==> Splice(Splice(f, k, k, g), i + |g|, j + |g|, []) == Splice(Splice(f, i, j, []), k, k, g)
    ensures j <= k ==> Splice(Splice(f, k, k, g), i, j, []) == Splice(Splice(f, i, j, []), k - (j - i), k - (j - i), g)
  {
  }

  /** Both orders reduce to splices of the flat sequence at these positions. */
  lemma OrdersAsSplices(l: seq<InlineSpan>, ins: DocOp, del: DocOp, i': nat, j': nat, k': nat)
    requires InsertAndDelete(ins, del) && ins.text != ""
    requires var l1 := InsertRuns(l, ins); var del' := TransformAgainst(del, ins);
             i' == Caret(l1, del'.start) && j' == Caret(l1, del'.end) && i' < j'
    requires k' == Caret(DeleteRuns(l, del), TransformAgainst(ins, del).offset)
    requires Caret(l, del.start) < Caret(l, del.end)
    ensures var k, i, j, n := Caret(l, ins.offset), Caret(l, del.start), Caret(l, del.end), |ins.text|;
            && |BlockPlain(l)| == |Flat(l)| && j' <= |Flat(l)| + n && k' <= |Flat(l)| - (j - i)
            && BlockPlain(InsertFirst(l, ins, del)) == Splice(Splice(BlockPlain(l), k, k, ins.text), i', j', "")
            && BlockPlain(DeleteFirst(l, ins, del)) == Splice(Splice(BlockPlain(l), i, j, ""), k', k', ins.text)
            && (ins.marks.Some? ==>
                  var g := Styled(ins.text, ins.marks.value.marks);
                  && InsertFirst(l, ins, del) == RunsOf(Splice(Splice(Flat(l), k, k, g), i', j', []))
                  && DeleteFirst(l, ins, del) == RunsOf(Splice(Splice(Flat(l), i, j, []), k', k', g)))
  {
    hide Flat, BlockPlain, Caret, RunsOf, Splice;
    var ins', del' := TransformAgainst(ins, del), TransformAgainst(del, ins);
    var l1, l2 := InsertRuns(l, ins), DeleteRuns(l, del);
    InsertEffect(l, ins.offset, ins.text, ins.marks);
    DeleteEffect(l, del.start, del.end);
    DeleteEffect(l1, del'.start, del'.end);
    InsertEffect(l2, ins'.offset, ins'.text, ins'.marks);
    SpliceLength(Flat(l), Caret(l, ins.offset), Caret(l, ins.offset),
                 Styled(ins.text, CaretMarks(l, Caret(l, ins.offset), ins.marks)));
    SpliceLength(Flat(l), Caret(l, del.start), Caret(l, del.end), []);
  }

  lemma SpliceLength<T>(f: seq<T>, i: nat, j: nat, g: seq<T>)
    requires i <= j <= |f|
    ensures |Splice(f, i, j, g)| == |f| - (j - i) + |g|
  {
  }

  predicate StrictlyInside(ins: DocOp, del: DocOp)
    requires ins.OpInsertText? && del.OpDeleteRange?
  {
    del.start < ins.offset < del.end
  }

  ghost predicate AlignedPair(l: seq<InlineSpan>, ins: DocOp, del: DocOp)
    requires InsertAndDelete(ins, del)
  {
    Aligned(l, ins.offset) && Aligned(l, del.start) && Aligned(l, del.end)
  }

  /** Positions that the two transformed operations name. */
  lemma CaretsOfTransformed(l: seq<InlineSpan>, ins: DocOp, del: DocOp)
    requires InsertAndDelete(ins, del) && ins.text != "" && AlignedPair(l, ins, del)
    requires del.start < del.end
    ensures var k, i, j, n := Caret(l, ins.offset), Caret(l, del.start), Caret(l, del.end), |ins.text|;
            var ins', del' := TransformAgainst(ins, del), TransformAgainst(del, ins);
            var l1, l2 := InsertRuns(l, ins), DeleteRuns(l, del);
            && i < j
            && (ins.offset <= del.start ==>
                  && k <= i && Caret(l1, del'.start) == i + n && Caret(l1, del'.end) == j + n
                  && Caret(l2, ins'.offset) == k)
            && (del.end <= ins.offset ==>
                  && j <= k && Caret(l1, del'.start) == i && Caret(l1, del'.end) == j
                  && Caret(l2, ins'.offset) == k - (j - i))
            && (StrictlyInside(ins, del) ==>
                  Caret(l1, del'.start) == i && Caret(l1, del'.end) == j + n)
  {
    hide Flat, BlockPlain, Caret, Aligned, InsertText, DeleteRange;
    AlignedOrder(l, del.start, del.end);
    AlignedOrder(l, del.start, ins.offset);
    AlignedOrder(l, ins.offset, del.end);
    CaretInserted(l, ins.offset, ins.text, ins.marks, del.start);
    CaretInserted(l, ins.offset, ins.text, ins.marks, del.end);
    CaretDeleted(l, del.start, del.end, ins.offset);
  }

  lemma NothingDeleted(l: seq<InlineSpan>, start: nat, end: nat)
    requires end <= start
    ensures DeleteRange(l, start, end) == l
  {
    CharsWithinMonotone(BlockPlain(l), end, start);
  }

  /** On one block: the text converges unless the caret is strictly inside the deleted
      range, and then the insertion survives in only one of the two orders. */
  lemma InsertDeleteRuns(l: seq<InlineSpan>, ins: DocOp, del: DocOp)
    requires InsertAndDelete(ins, del) && ins.text != "" && AlignedPair(l, ins, del)
    ensures BlockPlain(InsertFirst(l, ins, del)) == BlockPlain(DeleteFirst(l, ins, del)) <==> !StrictlyInside(ins, del)
    ensures ins.marks.Some? && !StrictlyInside(ins, del) ==> InsertFirst(l, ins, del) == DeleteFirst(l, ins, del)
  {
    hide Flat, BlockPlain, Caret, Aligned, InsertText, DeleteRange, RunsOf, Splice;
    if del.end <= del.start {
      NothingDeleted(l, del.start, del.end);
      NothingDeleted(InsertRuns(l, ins), TransformAgainst(del, ins).start, TransformAgainst(del, ins).end);
    } else {
      var ins', del' := TransformAgainst(ins, del), TransformAgainst(del, ins);
      var i', j' := Caret(InsertRuns(l, ins), del'.start), Caret(InsertRuns(l, ins), del'.end);
      var k, i, j := Caret(l, ins.offset), Caret(l, del.start), Caret(l, del.end);
      CaretsOfTransformed(l, ins, del);
      OrdersAsSplices(l, ins, del, i', j', Caret(DeleteRuns(l, del), ins'.offset));
      if StrictlyInside(ins, del) {
        SpliceLength(BlockPlain(l), k, k, ins.text);
        SpliceLength(Splice(BlockPlain(l), k, k, ins.text), i', j', "");
        SpliceLength(BlockPlain(l), i, j, "");
        var k' := Caret(DeleteRuns(l, del), ins'.offset);
        SpliceLength(Splice(BlockPlain(l), i, j, ""), k', k', ins.text);
      } else {
        SplicesCommute(BlockPlain(l), k, ins.text, i, j);
        if ins.marks.Some? {
          SplicesCommute(Flat(l), k, Styled(ins.text, ins.marks.value.marks), i, j);
        }
      }
    }
  }

  /** An insertion and a deletion in one block, at character boundaries of its text:
      both orders spell the same text exactly when nothing is inserted or the caret is
      not strictly inside the deleted range; with explicit marks the documents are equal. */
  lemma InsertDeleteConverge(d: Doc, ins: DocOp, del: DocOp)
    requires InsertAndDelete(ins, del) && HasBlock(d, ins.blockId)
    requires AlignedPair(InlinesOf(d, ins.blockId), ins, del)
    ensures TextOf(Both(d, ins, del)) == TextOf(Both(d, del, ins))
            <==> ins.text == "" || !StrictlyInside(ins, del)
    ensures ins.marks.Some? && (ins.text == "" || !StrictlyInside(ins, del))
            ==> Both(d, ins, del) == Both(d, del, ins)
  {
    hide Flat, BlockPlain, Caret, Aligned, InsertText, DeleteRange, SetInlines, InlinesOf, HasBlock, TextOf,
      AlignedPair;
    var id := ins.blockId;
    var l := InlinesOf(d, id);
    SetInlinesLaws(d, id, InsertRuns(l, ins));
    SetInlinesLaws(d, id, DeleteRuns(l, del));
    assert Both(d, ins, del) == SetInlines(d, id, InsertFirst(l, ins, del));
    assert Both(d, del, ins) == SetInlines(d, id, DeleteFirst(l, ins, del));
    SetInlinesCompare(d, id, InsertFirst(l, ins, del), DeleteFirst(l, ins, del));
    if ins.text == "" {
      InsertNothing(l, ins, del);
    } else {
      InsertDeleteRuns(l, ins, del);
    }
  }

  /** What the two orders give in the other case: the deletion swallows the text that is in already, or the text
      goes in where the range has been. */
  lemma InsideParts(d: Doc, ins: DocOp, del: DocOp)
    requires InsertAndDelete(ins, del) && HasBlock(d, ins.blockId) && ins.text != "" && StrictlyInside(ins, del)
    requires AlignedPair(InlinesOf(d, ins.blockId), ins, del)
    ensures var l := InlinesOf(d, ins.blockId); var plain := BlockPlain(l);
            var i, j := Caret(l, del.start), Caret(l, del.end);
            && i < j <= |plain|
            && BlockPlain(InlinesOf(Both(d, ins, del), ins.blockId)) == plain[..i] + plain[j..]
            && BlockPlain(InlinesOf(Both(d, del, ins), ins.blockId)) == plain[..i] + ins.text + plain[j..]
  {
    hide Flat, BlockPlain, Caret, Aligned, InsertText, DeleteRange, SetInlines, InlinesOf, HasBlock, AlignedPair,
      RunsOf;
    var id := ins.blockId;
    var l := InlinesOf(d, id);
    SetInlinesLaws(d, id, InsertRuns(l, ins));
    SetInlinesLaws(d, id, DeleteRuns(l, del));
    SetInlinesLaws(d, id, InsertFirst(l, ins, del));
    SetInlinesLaws(d, id, DeleteFirst(l, ins, del));
    assert Both(d, ins, del) == SetInlines(d, id, InsertFirst(l, ins, del));
    assert Both(d, del, ins) == SetInlines(d, id, DeleteFirst(l, ins, del));
    InsideRuns(l, ins, del);
  }

  lemma InsideRuns(l: seq<InlineSpan>, ins: DocOp, del: DocOp)
    requires InsertAndDelete(ins, del) && ins.text != "" && AlignedPair(l, ins, del) && StrictlyInside(ins, del)
    ensures var i, j, plain := Caret(l, del.start), Caret(l, del.end), BlockPlain(l);
            && i < j <= |plain|
            && BlockPlain(InsertFirst(l, ins, del)) == plain[..i] + plain[j..]
            && BlockPlain(DeleteFirst(l, ins, del)) == plain[..i] + ins.text + plain[j..]
  {
    hide Flat, BlockPlain, Caret, Aligned, InsertText, DeleteRange, RunsOf, Splice;
    var i, j, k, n := Caret(l, del.start), Caret(l, del.end), Caret(l, ins.offset), |ins.text|;
    CaretsOfTransformed(l, ins, del);
    CaretDeleted(l, del.start, del.end, del.start);
    OrdersAsSplices(l, ins, del, i, j + n, i);
    AlignedOrder(l, del.start, ins.offset);
    AlignedOrder(l, ins.offset, del.end);
    SplicesInside(BlockPlain(l), k, ins.text, i, j);
  }

  lemma SplicesInside<T>(f: seq<T>, k: nat, g: seq<T>, i: nat, j: nat)
    requires i < k < j <= |f|
    ensures Splice(Splice(f, k, k, g), i, j + |g|, []) == f[..i] + f[j..]
    ensures Splice(Splice(f, i, j, []), i, i, g) == f[..i] + g + f[j..]
  {
  }

  /** Marks inherited at position `k` of a coalesced block: those of the character before it, or of the first. */
  function Inherited(f: seq<Glyph>, k: nat): Marks
    requires k <= |f|
  {
    if f == [] then NO_MARKS else f[Max(0, k - 1)].marks
  }

  /** Deleting does not change what text typed at the caret inherits. */
  predicate InheritsSame(l: seq<InlineSpan>, ins: DocOp, del: DocOp)
    requires InsertAndDelete(ins, del)
  {
    var f, k, i, j := Flat(l), Caret(l, ins.offset), Caret(l, del.start), Caret(l, del.end);
    i < j && (k <= i || j <= k) ==>
      Inherited(f, k) == Inherited(Splice(f, i, j, []), if k <= i then k else k - (j - i))
  }

  lemma InheritedIs(l: seq<InlineSpan>, k: nat)
    requires WellFormed(l) && k <= |Flat(l)|
    ensures CaretMarks(l, k, None) == Inherited(Flat(l), k)
  {
    if Canonical(l) && l != [] {
      assert Flat(l) != [] by { assert l[0].text != ""; }
      InheritedMarks(l, k);
    } else if l != [] {
      assert Flat(l) == [];
    }
  }

  /** Off the deleted range, the orders agree just when the inserted text gets the same marks in both. */
  lemma OrdersByMarks(l: seq<InlineSpan>, ins: DocOp, del: DocOp)
    requires InsertAndDelete(ins, del) && ins.text != "" && AlignedPair(l, ins, del)
    requires del.start < del.end && !StrictlyInside(ins, del)
    ensures var l2, ins' := DeleteRuns(l, del), TransformAgainst(ins, del);
            InsertFirst(l, ins, del) == DeleteFirst(l, ins, del) <==>
            CaretMarks(l, Caret(l, ins.offset), ins.marks) == CaretMarks(l2, Caret(l2, ins'.offset), ins.marks)
  {
    hide Flat, BlockPlain, Caret, Aligned, RunsOf, Splice, CaretMarks;
    var ins', del' := TransformAgainst(ins, del), TransformAgainst(del, ins);
    var l1, l2 := InsertRuns(l, ins), DeleteRuns(l, del);
    var k, i, j, k' := Caret(l, ins.offset), Caret(l, del.start), Caret(l, del.end), Caret(l2, ins'.offset);
    var g := Styled(ins.text, CaretMarks(l, k, ins.marks));
    var g' := Styled(ins.text, CaretMarks(l2, k', ins.marks));
    CaretsOfTransformed(l, ins, del);
    InsertEffect(l, ins.offset, ins.text, ins.marks);
    DeleteEffect(l, del.start, del.end);
    DeleteEffect(l1, del'.start, del'.end);
    InsertEffect(l2, ins'.offset, ins'.text, ins'.marks);
    SplicesCommute(Flat(l), k, g, i, j);
    var f := Splice(Flat(l), i, j, []);
    assert InsertFirst(l, ins, del) == RunsOf(Splice(f, k', k', g));
    assert DeleteFirst(l, ins, del) == RunsOf(Splice(f, k', k', g'));
    RunsOfFlat(Splice(f, k', k', g));
    RunsOfFlat(Splice(f, k', k', g'));
    if InsertFirst(l, ins, del) == DeleteFirst(l, ins, del) {
      StyledInjective(f, k', ins.text, CaretMarks(l, k, ins.marks), CaretMarks(l2, k', ins.marks));
    }
  }

  lemma MarksByInheritance(l: seq<InlineSpan>, ins: DocOp, del: DocOp)
    requires WellFormed(l) && InsertAndDelete(ins, del) && ins.text != "" && ins.marks.None? && AlignedPair(l, ins, del)
    requires del.start < del.end && !StrictlyInside(ins, del)
    ensures var l2, ins' := DeleteRuns(l, del), TransformAgainst(ins, del);
            CaretMarks(l, Caret(l, ins.offset), None) == CaretMarks(l2, Caret(l2, ins'.offset), None) <==>
            InheritsSame(l, ins, del)
  {
    hide Flat, BlockPlain, Caret, Aligned, RunsOf, Splice, CaretMarks, WellFormed, Inherited;
    var l2, ins' := DeleteRuns(l, del), TransformAgainst(ins, del);
    var i, j := Caret(l, del.start), Caret(l, del.end);
    CaretsOfTransformed(l, ins, del);
    DeleteEffect(l, del.start, del.end);
    RunsOfFlat(Splice(Flat(l), i, j, []));
    RunsOfWellFormed(Splice(Flat(l), i, j, []));
    InheritedIs(l, Caret(l, ins.offset));
    InheritedIs(l2, Caret(l2, ins'.offset));
  }

  /** The same as whole documents, on a coalesced block: the orders agree exactly when nothing is inserted,
      or the caret is not strictly inside the deleted range and the text carries its marks, nothing is
      deleted, or the deletion leaves alone what the text inherits. */
  lemma InsertDeleteDocuments(d: Doc, ins: DocOp, del: DocOp)
    requires InsertAndDelete(ins, del) && HasBlock(d, ins.blockId) && WellFormed(InlinesOf(d, ins.blockId))
    requires AlignedPair(InlinesOf(d, ins.blockId), ins, del)
    ensures Both(d, ins, del) == Both(d, del, ins) <==>
            || ins.text == ""
            || (!StrictlyInside(ins, del)
                && (ins.marks.Some? || del.end <= del.start || InheritsSame(InlinesOf(d, ins.blockId), ins, del)))
  {
    hide Flat, BlockPlain, Caret, Aligned, InsertText, DeleteRange, SetInlines, InlinesOf, HasBlock, TextOf,
      AlignedPair, InheritsSame, WellFormed, CaretMarks;
    var id := ins.blockId;
    var l := InlinesOf(d, id);
    InsertDeleteConverge(d, ins, del);
    SetInlinesLaws(d, id, InsertRuns(l, ins));
    SetInlinesLaws(d, id, DeleteRuns(l, del));
    assert Both(d, ins, del) == SetInlines(d, id, InsertFirst(l, ins, del));
    assert Both(d, del, ins) == SetInlines(d, id, DeleteFirst(l, ins, del));
    SetInlinesCompare(d, id, InsertFirst(l, ins, del), DeleteFirst(l, ins, del));
    if ins.text == "" {
      InsertNothing(l, ins, del);
    } else if del.end <= del.start {
      NothingDeleted(l, del.start, del.end);
      NothingDeleted(InsertRuns(l, ins), TransformAgainst(del, ins).start, TransformAgainst(del, ins).end);
    } else if !StrictlyInside(ins, del) && ins.marks.None? {
      OrdersByMarks(l, ins, del);
      MarksByInheritance(l, ins, del);
    }
  }

  lemma InsertNothing(l: seq<InlineSpan>, ins: DocOp, del: DocOp)
    requires InsertAndDelete(ins, del) && ins.text == ""
    ensures InsertFirst(l, ins, del) == DeleteFirst(l, ins, del) == DeleteRuns(l, del)
  {
    assert ByteLen(ins.text) == 0;
  }

  /** Alignment matters: a range that starts inside a two-byte character moves a caret at its
      end by the raw byte count, and the orders part although the caret is not inside. */
  lemma MisalignedOrdersPart(l: seq<InlineSpan>, ins: DocOp, del: DocOp)
    requires BlockPlain(l) == ['\U{e9}', 'x']
    requires ins == OpInsertText("b", 2, "!", None) && del == OpDeleteRange("b", 1, 2)
    ensures !StrictlyInside(ins, del)
    ensures BlockPlain(InsertFirst(l, ins, del)) == "!x" && BlockPlain(DeleteFirst(l, ins, del)) == "x!"
  {
    hide BlockPlain, Flat, InsertText, DeleteRange;
    var plain := BlockPlain(l);
    assert plain[1..] == ['x'];
    assert CharsWithin(plain, 1) == 0 && CharsWithin(plain, 2) == 1;
    InsertEffect(l, 2, "!", None);
    DeleteEffect(l, 1, 2);
    var l1, l2 := InsertRuns(l, ins), DeleteRuns(l, del);
    var p1, p2 := BlockPlain(l1), BlockPlain(l2);
    assert p1 == ['\U{e9}', '!', 'x'] && p2 == "x";
    assert p1[1..] == ['!', 'x'];
    assert CharsWithin(p1, 1) == 0 && CharsWithin(p1, 2) == 1 && CharsWithin(p2, 1) == 1;
    assert ByteLen(ins.text) == 1;
    DeleteEffect(l1, 1, 2);
    InsertEffect(l2, 1, "!", None);
  }

  /** Likewise for two insertions: the first one, inside a two-byte character, lands before it, and the
      second, at that very place, is not moved behind it. */
  lemma MisalignedInsertsPart(l: seq<InlineSpan>, a: DocOp, b: DocOp)
    requires BlockPlain(l) == ['\U{e9}']
    requires a == OpInsertText("b", 1, "a", None) && b == OpInsertText("b", 0, "b", None)
    ensures Caret(l, a.offset) == Caret(l, b.offset) == 0
    ensures BlockPlain(InsertRuns(InsertRuns(l, a), TransformAgainst(b, a))) == "ba" + ['\U{e9}']
  {
    hide BlockPlain, Flat, InsertText;
    var plain := BlockPlain(l);
    assert CharsWithin(plain, 1) == 0 && CharsWithin(plain, 0) == 0;
    InsertEffect(l, 1, "a", None);
    var l1 := InsertRuns(l, a);
    assert CharsWithin(BlockPlain(l1), 0) == 0;
    InsertEffect(l1, 0, "b", None);
  }

  // ------------------------------------------------------------ insert and marks

  predicate InsertAndMark(ins: DocOp, mk: DocOp) {
    ins.OpInsertText? && mk.OpSetMarksRange? && ins.blockId == mk.blockId
  }

  function MarkRuns(l: seq<InlineSpan>, mk: DocOp): seq<InlineSpan>
    requires mk.OpSetMarksRange?
  {
    MarkRange(l, mk.start, mk.end, PatchOf(mk.fields))
  }

  lemma MarkEffect(l: seq<InlineSpan>, start: nat, end: nat, p: MarksPatch)
    requires Caret(l, start) < Caret(l, end)
    ensures var i, j := Caret(l, start), Caret(l, end); var out := MarkRange(l, start, end, p);
            && Flat(out) == PatchedRange(Flat(l), i, j, p) && BlockPlain(out) == BlockPlain(l)
            && Canonical(out) && out == RunsOf(PatchedRange(Flat(l), i, j, p)) && |Flat(out)| == |Flat(l)|
  {
    hide Flat, BlockPlain, RunsOf, Caret;
    var i, j := Caret(l, start), Caret(l, end);
    RunsOfFlat(PatchedRange(Flat(l), i, j, p));
    PlainIsChars(l);
    PlainIsChars(MarkRange(l, start, end, p));
    assert Chars(PatchedRange(Flat(l), i, j, p)) == Chars(Flat(l));
  }

  /** On canonical runs, inherited marks are those of the character before the caret, or of the first. */
  lemma InheritedMarks(l: seq<InlineSpan>, k: nat)
    requires Canonical(l) && k <= |Flat(l)| && Flat(l) != []
    ensures CaretMarks(l, k, None) == Flat(l)[Max(0, k - 1)].marks
  {
    assert l[..|l|-1] + [l[|l|-1]] == l;
    FlatSnoc(l[..|l|-1], l[|l|-1]);
  }

  /** Where the marked range, transformed past the insertion, starts and ends. */
  lemma MarkedCarets(l: seq<InlineSpan>, ins: DocOp, mk: DocOp)
    requires InsertAndMark(ins, mk) && ins.text != ""
    requires Aligned(l, ins.offset) && Aligned(l, mk.start) && Aligned(l, mk.end)
    ensures var l1 := InsertRuns(l, ins); var mk' := TransformAgainst(mk, ins);
            var i, j, n := Caret(l, mk.start), Caret(l, mk.end), |ins.text|;
            && mk' == OpSetMarksRange(mk.blockId, mk'.start, mk'.end, mk.fields)
            && (mk.end <= mk.start ==> Caret(l1, mk'.end) <= Caret(l1, mk'.start) && j <= i)
            && (mk.start < mk.end ==>
                  && i < j
                  && Caret(l1, mk'.start) == (if ins.offset <= mk.start then i + n else i)
                  && Caret(l1, mk'.end) == if ins.offset <= mk.end then j + n else j)
  {
    hide Flat, BlockPlain, Aligned, InsertText, CharsWithin, ByteLen;
    AlignedOrder(l, mk.start, mk.end);
    CaretInserted(l, ins.offset, ins.text, ins.marks, mk.start);
    CaretInserted(l, ins.offset, ins.text, ins.marks, mk.end);
    var mk' := TransformAgainst(mk, ins);
    if mk.end <= mk.start {
      CharsWithinMonotone(BlockPlain(InsertRuns(l, ins)), mk'.end, mk'.start);
    }
  }

  function Repaint(g: Glyph, p: MarksPatch): Glyph {
    Glyph(g.ch, ApplyPatch(g.marks, p))
  }

  lemma PatchedRangeAt(f: seq<Glyph>, i: nat, j: nat, p: MarksPatch)
    requires i <= j <= |f|
    ensures var r := PatchedRange(f, i, j, p);
            |r| == |f| && forall x :: 0 <= x < |f| ==> r[x] == if i <= x < j then Repaint(f[x], p) else f[x]
  {
    hide ApplyPatch;
  }

  lemma SpliceAt<T>(f: seq<T>, k: nat, g: seq<T>)
    requires k <= |f|
    ensures var r := Splice(f, k, k, g);
            && |r| == |f| + |g|
            && forall x :: 0 <= x < |r| ==> r[x] == if x < k then f[x] else if x < k + |g| then g[x - k] else f[x - |g|]
  {
  }

  /** Marking around an insertion: the inserted text is marked just when it fell into the range. */
  lemma PatchSpliceCommute(f: seq<Glyph>, k: nat, text: string, m: Marks, i: nat, j: nat, p: MarksPatch)
    requires i < j <= |f| && k <= |f|
    ensures var n := |text|; var u := Splice(f, k, k, Styled(text, m));
            PatchedRange(u, if k <= i then i + n else i, if k <= j then j + n else j, p)
            == Splice(PatchedRange(f, i, j, p), k, k, Styled(text, if i < k <= j then ApplyPatch(m, p) else m))
  {
    hide PatchedRange, ApplyPatch;
    var n, u := |text|, Splice(f, k, k, Styled(text, m));
    var i', j' := if k <= i then i + n else i, if k <= j then j + n else j;
    var m' := if i < k <= j then ApplyPatch(m, p) else m;
    SpliceAt(f, k, Styled(text, m));
    PatchedRangeAt(u, i', j', p);
    PatchedRangeAt(f, i, j, p);
    SpliceAt(PatchedRange(f, i, j, p), k, Styled(text, m'));
    var lhs, rhs := PatchedRange(u, i', j', p), Splice(PatchedRange(f, i, j, p), k, k, Styled(text, m'));
    forall x | 0 <= x < |u| ensures lhs[x] == rhs[x] {
      if k <= x < k + n {
        assert u[x] == Glyph(text[x - k], m);
      }
    }
  }

  lemma StyledInjective(f: seq<Glyph>, k: nat, text: string, m: Marks, m': Marks)
    requires k <= |f| && text != "" && Splice(f, k, k, Styled(text, m)) == Splice(f, k, k, Styled(text, m'))
    ensures m == m'
  {
    assert Splice(f, k, k, Styled(text, m))[k] == Glyph(text[0], m);
    assert Splice(f, k, k, Styled(text, m'))[k] == Glyph(text[0], m');
  }

  /** Marks that the inserted text ends up with in the two orders. */
  function MarksInsertFirst(l: seq<InlineSpan>, ins: DocOp, mk: DocOp): Marks
    requires InsertAndMark(ins, mk)
  {
    var m := CaretMarks(l, Caret(l, ins.offset), ins.marks);
    if mk.start < ins.offset <= mk.end then ApplyPatch(m, PatchOf(mk.fields)) else m
  }

  function MarksMarkFirst(l: seq<InlineSpan>, ins: DocOp, mk: DocOp): Marks
    requires InsertAndMark(ins, mk)
  {
    var l2 := MarkRuns(l, mk);
    CaretMarks(l2, Caret(l2, ins.offset), ins.marks)
  }

  /** The orders agree just when the inserted text gets the same marks in both. */
  lemma MarkOrders(l: seq<InlineSpan>, ins: DocOp, mk: DocOp)
    requires InsertAndMark(ins, mk) && ins.text != "" && mk.start < mk.end
    requires Aligned(l, ins.offset) && Aligned(l, mk.start) && Aligned(l, mk.end)
    ensures MarkRuns(InsertRuns(l, ins), TransformAgainst(mk, ins)) == InsertRuns(MarkRuns(l, mk), ins)
            <==> MarksInsertFirst(l, ins, mk) == MarksMarkFirst(l, ins, mk)
  {
    hide Flat, BlockPlain, Aligned, RunsOf, Splice, PatchedRange, CaretMarks, ApplyPatch, CharsWithin, PatchOf;
    var p := PatchOf(mk.fields);
    var k, i, j := Caret(l, ins.offset), Caret(l, mk.start), Caret(l, mk.end);
    var l1, l2, mk' := InsertRuns(l, ins), MarkRuns(l, mk), TransformAgainst(mk, ins);
    var m, mA, mB := CaretMarks(l, k, ins.marks), MarksInsertFirst(l, ins, mk), MarksMarkFirst(l, ins, mk);
    AlignedOrder(l, mk.start, ins.offset);
    AlignedOrder(l, mk.end, ins.offset);
    MarkedCarets(l, ins, mk);
    InsertEffect(l, ins.offset, ins.text, ins.marks);
    MarkEffect(l1, mk'.start, mk'.end, p);
    MarkEffect(l, mk.start, mk.end, p);
    PatchSpliceCommute(Flat(l), k, ins.text, m, i, j, p);
    var f := PatchedRange(Flat(l), i, j, p);
    assert MarkRuns(l1, mk') == RunsOf(Splice(f, k, k, Styled(ins.text, mA)));
    assert InsertRuns(l2, ins) == RunsOf(Splice(f, k, k, Styled(ins.text, mB)));
    RunsOfFlat(Splice(f, k, k, Styled(ins.text, mA)));
    RunsOfFlat(Splice(f, k, k, Styled(ins.text, mB)));
    if MarkRuns(l1, mk') == InsertRuns(l2, ins) {
      StyledInjective(f, k, ins.text, mA, mB);
    }
  }

  /** With explicit marks: converges unless the caret is in (start, end] and the patch changes them.
      With inherited marks: converges unless both the caret and the range start at 0 and the patch
      changes the marks of the first character. */
  predicate MarksAgree(l: seq<InlineSpan>, ins: DocOp, mk: DocOp)
    requires InsertAndMark(ins, mk)
  {
    var p := PatchOf(mk.fields);
    if ins.marks.Some? then
      !(mk.start < ins.offset <= mk.end) || ApplyPatch(ins.marks.value.marks, p) == ins.marks.value.marks
    else
      0 < ins.offset || 0 < mk.start || Flat(l) == [] || ApplyPatch(Flat(l)[0].marks, p) == Flat(l)[0].marks
  }

  lemma MarksAgreeExact(l: seq<InlineSpan>, ins: DocOp, mk: DocOp)
    requires WellFormed(l) && InsertAndMark(ins, mk) && mk.start < mk.end
    requires Aligned(l, ins.offset) && Aligned(l, mk.start) && Aligned(l, mk.end)
    ensures MarksInsertFirst(l, ins, mk) == MarksMarkFirst(l, ins, mk) <==> MarksAgree(l, ins, mk)
  {
    hide BlockPlain, Aligned, RunsOf, ApplyPatch, PatchOf, PatchedRange, CharsWithin, MarkRange, CaretMarks;
    var p := PatchOf(mk.fields);
    var k, i, j := Caret(l, ins.offset), Caret(l, mk.start), Caret(l, mk.end);
    AlignedOrder(l, mk.start, mk.end);
    AlignedOrder(l, mk.start, ins.offset);
    AlignedOrder(l, mk.end, ins.offset);
    AlignedZero(l, ins.offset);
    AlignedZero(l, mk.start);
    MarkEffect(l, mk.start, mk.end, p);
    PatchedRangeAt(Flat(l), i, j, p);
    if ins.marks.None? {
      InheritedMarks(l, k);
      InheritedMarks(MarkRuns(l, mk), k);
    } else {
      ExplicitMarks(l, k, ins.marks);
      ExplicitMarks(MarkRuns(l, mk), k, ins.marks);
    }
  }

  lemma ExplicitMarks(l: seq<InlineSpan>, k: nat, typing: Option<InlineSpan>)
    requires k <= |Flat(l)| && typing.Some?
    ensures CaretMarks(l, k, typing) == typing.value.marks
  {
  }

  lemma AlignedZero(l: seq<InlineSpan>, x: nat)
    requires Aligned(l, x)
    ensures x == 0 <==> Caret(l, x) == 0
  {
    AlignedCaret(l, x);
  }

  /** An insertion and a marking of one coalesced block, at character boundaries: the two
      orders give the same document exactly when nothing is inserted, nothing is marked, or
      the inserted text gets the same marks either way. */
  lemma InsertMarkConverge(d: Doc, ins: DocOp, mk: DocOp)
    requires InsertAndMark(ins, mk) && HasBlock(d, ins.blockId)
    requires WellFormed(InlinesOf(d, ins.blockId))
    requires var l := InlinesOf(d, ins.blockId); Aligned(l, ins.offset) && Aligned(l, mk.start) && Aligned(l, mk.end)
    ensures Both(d, ins, mk) == Both(d, mk, ins)
            <==> ins.text == "" || mk.end <= mk.start || MarksAgree(InlinesOf(d, ins.blockId), ins, mk)
  {
    hide Flat, BlockPlain, Caret, Aligned, InsertText, MarkRange, SetInlines, InlinesOf, HasBlock, MarksAgree, PatchOf,
         WellFormed, MarksInsertFirst, MarksMarkFirst;
    var id := ins.blockId;
    var l := InlinesOf(d, id);
    var a, b := MarkRuns(InsertRuns(l, ins), TransformAgainst(mk, ins)), InsertRuns(MarkRuns(l, mk), ins);
    SetInlinesLaws(d, id, InsertRuns(l, ins));
    SetInlinesLaws(d, id, MarkRuns(l, mk));
    assert Both(d, ins, mk) == SetInlines(d, id, a);
    assert Both(d, mk, ins) == SetInlines(d, id, b);
    SetInlinesCompare(d, id, a, b);
    if ins.text == "" || mk.end <= mk.start {
      NothingMarked(l, ins, mk);
    } else {
      MarkOrders(l, ins, mk);
      MarksAgreeExact(l, ins, mk);
    }
  }

  /** Coalescing matters: an empty bold run behind plain text lends its marks to text typed at the end, until
      marking another character coalesces it away. */
  lemma UncoalescedOrdersPart(l: seq<InlineSpan>, bold: Marks, ins: DocOp, mk: DocOp)
    requires bold != NO_MARKS && l == [PlainSpan("ab"), InlineSpan("", bold)]
    requires ins == OpInsertText("b", 2, "!", None) && mk.OpSetMarksRange? && mk.blockId == "b"
    requires mk.start == 0 && mk.end == 1
    ensures !WellFormed(l) && MarksAgree(l, ins, mk)
    ensures MarkRuns(InsertRuns(l, ins), TransformAgainst(mk, ins)) != InsertRuns(MarkRuns(l, mk), ins)
  {
    hide ApplyPatch, PatchOf, RunsOf, PatchedRange;
    ThreeOffsets(l, bold);
    assert !WellFormed(l) by { assert l[1].text == ""; }
    var p, l2 := PatchOf(mk.fields), MarkRuns(l, mk);
    MarkOrders(l, ins, mk);
    MarkEffect(l, 0, 1, p);
    PatchedRangeAt(Flat(l), 0, 1, p);
    assert Caret(l2, 2) == 2;
    InheritedMarks(l2, 2);
  }

  lemma ThreeOffsets(l: seq<InlineSpan>, bold: Marks)
    requires l == [PlainSpan("ab"), InlineSpan("", bold)]
    ensures BlockPlain(l) == "ab" && |Flat(l)| == 2 && Flat(l)[1] == Glyph('b', NO_MARKS)
    ensures Caret(l, 0) == 0 && Caret(l, 1) == 1 && Caret(l, 2) == 2
    ensures Aligned(l, 0) && Aligned(l, 1) && Aligned(l, 2)
  {
    assert l[1..] == [InlineSpan("", bold)] && l[1..][1..] == [];
    assert BlockPlain(l[1..]) == "" && Flat(l[1..]) == [];
    var s := "ab";
    assert s[1..] == "b" && s[1..][1..] == "";
    assert s[..0] == "" && s[..1] == "a" && s[..2] == "ab" && "a"[1..] == "";
    assert ByteLen(s[..0]) == 0 && ByteLen(s[..1]) == 1 && ByteLen(s[..2]) == 2;
  }

  lemma NothingMarked(l: seq<InlineSpan>, ins: DocOp, mk: DocOp)
    requires InsertAndMark(ins, mk) && (ins.text == "" || mk.end <= mk.start)
    requires Aligned(l, ins.offset) && Aligned(l, mk.start) && Aligned(l, mk.end)
    ensures MarkRuns(InsertRuns(l, ins), TransformAgainst(mk, ins)) == InsertRuns(MarkRuns(l, mk), ins)
  {
    hide Flat, BlockPlain, Aligned, RunsOf;
    if ins.text == "" {
      var mk' := TransformAgainst(mk, ins);
      if mk.end < mk.start {
        CharsWithinMonotone(BlockPlain(l), mk.end, mk.start);
      }
    } else {
      MarkedCarets(l, ins, mk);
    }
  }
}
