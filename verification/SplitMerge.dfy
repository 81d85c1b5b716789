/** Splitting a block: undone by merging, and concurrent with an insertion. */
module SplitMerge {
  import opened Basics
  import opened Utf8
  import opened Spans
  import opened SpanEdits
  import opened Documents
  import opened Transforms
  import opened Convergence

  /** The document with block `id` cut into `left` and a new block holding `right`. */
  function CutInto(d: Doc, id: string, newId: string, left: seq<InlineSpan>, right: seq<InlineSpan>): Doc
    requires HasBlock(d, id)
  {
    var p := Position(d.blocks, id);
    var b := d.blocks[p];
    d.(blocks := d.blocks[..p] + [b.(inlines := left), Block(newId, b.attrs.(listRestart := false), right)]
       + d.blocks[p+1..])
  }

  lemma CutPositions(d: Doc, id: string, newId: string, left: seq<InlineSpan>, right: seq<InlineSpan>)
    requires HasBlock(d, id) && !HasBlock(d, newId)
    ensures var c := CutInto(d, id, newId, left, right); var p := Position(d.blocks, id);
            && id != newId && Position(c.blocks, id) == p && Position(c.blocks, newId) == p + 1
            && c.blocks[p] == d.blocks[p].(inlines := left) && c.blocks[p+1].inlines == right
  {
    var c := CutInto(d, id, newId, left, right);
    var p := Position(d.blocks, id);
    assert forall q :: 0 <= q < |d.blocks| ==> d.blocks[q].id != newId;
    assert forall q :: 0 <= q < p ==> c.blocks[q] == d.blocks[q];
    PositionIs(c.blocks, id, p);
    PositionIs(c.blocks, newId, p + 1);
  }

  /** Merging the two pieces of a cut writes their concatenation back into the block. */
  lemma MergeCut(d: Doc, id: string, newId: string, left: seq<InlineSpan>, right: seq<InlineSpan>)
    requires HasBlock(d, id) && !HasBlock(d, newId)
    ensures MergeBlocks(CutInto(d, id, newId, left, right), newId, true) == SetInlines(d, id, Coalesced(left + right))
  {
    hide Coalesced;
    CutPositions(d, id, newId, left, right);
    var p := Position(d.blocks, id);
    var cut := CutInto(d, id, newId, left, right);
    assert cut.blocks[..p] == d.blocks[..p];
    assert cut.blocks[p+2..] == d.blocks[p+1..];
  }

  lemma NoRuns()
    ensures RunsOf([]) == []
  {
  }

  lemma MergeOfHalves(l: seq<InlineSpan>, offset: nat)
    ensures var (left, right) := SplitInlines(l, offset); Coalesced(left + right) == Coalesced(l)
  {
    hide Caret, RunsOf, Flat, WellFormed;
    var k := Caret(l, offset);
    var (left, right) := SplitInlines(l, offset);
    NoRuns();
    if Flat(l) == [] {
      assert left + right == Coalesced(l);
      CoalescedFixesWellFormed(l);
      CoalescedFixesWellFormed(Coalesced(l));
    } else {
      RunsOfFlat(Flat(l)[..k]);
      RunsOfFlat(Flat(l)[k..]);
      FlatConcat(left, right);
      assert Flat(l)[..k] + Flat(l)[k..] == Flat(l);
      RunsNonEmpty(l);
      RunsNonEmpty(left + right);
    }
  }

  /** Merging a freshly split block back gives the original with that block coalesced,
      so the document is restored exactly when the block was coalesced before. */
  lemma SplitThenMerge(d: Doc, id: string, offset: nat, newId: string)
    requires HasBlock(d, id) && !HasBlock(d, newId)
    ensures var back := ApplyOp(ApplyOp(d, OpSplitBlock(id, offset, newId)), OpMergeBlocks(newId, true));
            && back == SetInlines(d, id, Coalesced(InlinesOf(d, id)))
            && (back == d <==> WellFormed(InlinesOf(d, id)))
  {
    hide SplitInlines, Coalesced, WellFormed, SetInlines, MergeBlocks, TextOf;
    var l := InlinesOf(d, id);
    var (left, right) := SplitInlines(l, offset);
    assert ApplyOp(d, OpSplitBlock(id, offset, newId)) == CutInto(d, id, newId, left, right);
    MergeCut(d, id, newId, left, right);
    MergeOfHalves(l, offset);
    CoalescedFixesWellFormed(l);
    SetInlinesCompare(d, id, Coalesced(l), l);
    SetInlinesLaws(d, id, l);
  }

  // ------------------------------------------------------------ insert and split

  predicate InsertAndSplit(ins: DocOp, sp: DocOp) {
    ins.OpInsertText? && sp.OpSplitBlock? && ins.blockId == sp.blockId
  }

  /** Halves of the block after the insertion and then the transformed split. */
  function HalvesInsertFirst(l: seq<InlineSpan>, ins: DocOp, sp: DocOp): (seq<InlineSpan>, seq<InlineSpan>)
    requires InsertAndSplit(ins, sp)
  {
    SplitInlines(InsertRuns(l, ins), TransformAgainst(sp, ins).offset)
  }

  function HalvesSplitFirst(l: seq<InlineSpan>, ins: DocOp, sp: DocOp): (seq<InlineSpan>, seq<InlineSpan>)
    requires InsertAndSplit(ins, sp)
  {
    var (left, right) := SplitInlines(l, sp.offset);
    (InsertRuns(left, TransformAgainst(ins, sp)), right)
  }

  /** The insertion is at or before the split point, and either something precedes the split
      or the text typed into the emptied first half looks as it would have before the split. */
  predicate SplitAgrees(l: seq<InlineSpan>, ins: DocOp, sp: DocOp)
    requires InsertAndSplit(ins, sp)
  {
    || ins.text == ""
    || (&& ins.offset <= sp.offset
        && (|| 0 < sp.offset
            || l == []
            || (Flat(l) != [] && (ins.marks.Some? || Flat(l)[0].marks == NO_MARKS))))
  }

  lemma InsertFirstHalves(l: seq<InlineSpan>, ins: DocOp, sp: DocOp)
    requires InsertAndSplit(ins, sp) && ins.text != "" && Aligned(l, ins.offset) && Aligned(l, sp.offset)
    ensures var k, q := Caret(l, ins.offset), Caret(l, sp.offset);
            var u := Splice(Flat(l), k, k, Styled(ins.text, CaretMarks(l, k, ins.marks)));
            var c := if ins.offset <= sp.offset then q + |ins.text| else q;
            && c <= |u|
            && HalvesInsertFirst(l, ins, sp) == (RunsOf(u[..c]), RunsOf(u[c..]))
  {
    hide Flat, RunsOf, BlockPlain, Aligned, CaretMarks, CharsWithin, InsertText;
    InsertEffect(l, ins.offset, ins.text, ins.marks);
    CaretInserted(l, ins.offset, ins.text, ins.marks, sp.offset);
  }

  lemma CaretInHalf(l: seq<InlineSpan>, offset: nat, so: nat)
    requires offset <= so && Aligned(l, so)
    ensures Caret(RunsOf(Flat(l)[..Caret(l, so)]), offset) == Caret(l, offset) <= Caret(l, so)
  {
    hide Flat, RunsOf, BlockPlain, Aligned, CharsWithin;
    var q, plain := Caret(l, so), BlockPlain(l);
    var left := RunsOf(Flat(l)[..q]);
    RunsOfFlat(Flat(l)[..q]);
    PlainIsChars(left);
    PlainIsChars(l);
    AlignedCaret(l, so);
    assert BlockPlain(left) == plain[..q];
    assert plain[..q] + plain[q..] == plain;
    CharsWithinPrefix(plain[..q], plain[q..], offset);
    CharsWithinMonotone(plain, offset, so);
  }

  lemma SplitFirstHalves(l: seq<InlineSpan>, ins: DocOp, sp: DocOp)
    requires InsertAndSplit(ins, sp) && ins.text != "" && Aligned(l, sp.offset)
    ensures var q := Caret(l, sp.offset); var k := Caret(l, Min(ins.offset, sp.offset));
            var left := RunsOf(Flat(l)[..q]);
            && k <= q == |Flat(left)|
            && HalvesSplitFirst(l, ins, sp)
               == (RunsOf(Splice(Flat(l)[..q], k, k, Styled(ins.text, CaretMarks(left, k, ins.marks)))),
                   if Flat(l) == [] then Coalesced(l) else RunsOf(Flat(l)[q..]))
  {
    hide Flat, RunsOf, BlockPlain, Aligned, CaretMarks, CharsWithin;
    RunsOfFlat(Flat(l)[..Caret(l, sp.offset)]);
    CaretInHalf(l, Min(ins.offset, sp.offset), sp.offset);
  }

  /** Inherited marks do not change when text after the caret is cut away. */
  lemma MarksInHalf(l: seq<InlineSpan>, k: nat, q: nat, typing: Option<InlineSpan>)
    requires WellFormed(l) && k <= q <= |Flat(l)| && 0 < q
    ensures k <= |Flat(RunsOf(Flat(l)[..q]))|
    ensures CaretMarks(RunsOf(Flat(l)[..q]), k, typing) == CaretMarks(l, k, typing)
  {
    hide RunsOf, CaretMarks;
    RunsOfFlat(Flat(l)[..q]);
    if typing.Some? {
      ExplicitMarks(l, k, typing);
      ExplicitMarks(RunsOf(Flat(l)[..q]), k, typing);
    } else {
      InheritedMarks(l, k);
      InheritedMarks(RunsOf(Flat(l)[..q]), k);
    }
  }

  lemma RunsOfInjective(f: seq<Glyph>, g: seq<Glyph>)
    ensures RunsOf(f) == RunsOf(g) <==> f == g
  {
    RunsOfFlat(f);
    RunsOfFlat(g);
  }

  lemma SpliceHalves(f: seq<Glyph>, k: nat, q: nat, g: seq<Glyph>)
    requires k <= q <= |f|
    ensures var u := Splice(f, k, k, g);
            && q + |g| <= |u| && u[..q + |g|] == Splice(f[..q], k, k, g) && u[q + |g|..] == f[q..]
  {
  }

  /** Insertion at or before a split that keeps something in the first half. */
  lemma HalvesMeet(l: seq<InlineSpan>, ins: DocOp, sp: DocOp)
    requires WellFormed(l) && InsertAndSplit(ins, sp) && ins.text != ""
    requires Aligned(l, ins.offset) && Aligned(l, sp.offset) && ins.offset <= sp.offset && 0 < sp.offset
    ensures HalvesInsertFirst(l, ins, sp) == HalvesSplitFirst(l, ins, sp)
  {
    hide Flat, RunsOf, Aligned, CaretMarks, Caret, WellFormed, HalvesInsertFirst, HalvesSplitFirst, Splice;
    var k, q := Caret(l, ins.offset), Caret(l, sp.offset);
    InsertFirstHalves(l, ins, sp);
    SplitFirstHalves(l, ins, sp);
    AlignedZero(l, sp.offset);
    MarksInHalf(l, k, q, ins.marks);
    SpliceHalves(Flat(l), k, q, Styled(ins.text, CaretMarks(l, k, ins.marks)));
  }

  /** Insertion behind the split point: the two first halves differ in length. */
  lemma HalvesPart(l: seq<InlineSpan>, ins: DocOp, sp: DocOp)
    requires InsertAndSplit(ins, sp) && ins.text != ""
    requires Aligned(l, ins.offset) && Aligned(l, sp.offset) && ins.offset > sp.offset
    ensures HalvesInsertFirst(l, ins, sp) != HalvesSplitFirst(l, ins, sp)
  {
    hide Flat, RunsOf, Aligned, CaretMarks, Caret, HalvesInsertFirst, HalvesSplitFirst, Splice;
    var k, q := Caret(l, ins.offset), Caret(l, sp.offset);
    InsertFirstHalves(l, ins, sp);
    SplitFirstHalves(l, ins, sp);
    var u := Splice(Flat(l), k, k, Styled(ins.text, CaretMarks(l, k, ins.marks)));
    var v := Splice(Flat(l)[..q], q, q, Styled(ins.text, CaretMarks(RunsOf(Flat(l)[..q]), q, ins.marks)));
    SpliceLength(Flat(l)[..q], q, q, Styled(ins.text, CaretMarks(RunsOf(Flat(l)[..q]), q, ins.marks)));
    RunsOfInjective(u[..q], v);
  }

  /** A split at the very start leaves an empty first half to type into. */
  lemma HalvesAtStart(l: seq<InlineSpan>, ins: DocOp, sp: DocOp)
    requires WellFormed(l) && InsertAndSplit(ins, sp) && ins.text != "" && ins.offset == sp.offset == 0
    ensures HalvesInsertFirst(l, ins, sp) == HalvesSplitFirst(l, ins, sp) <==> SplitAgrees(l, ins, sp)
  {
    hide RunsOf, HalvesInsertFirst, HalvesSplitFirst, Splice, Aligned, BlockPlain, Caret;
    StartIsAligned(l);
    InsertFirstHalves(l, ins, sp);
    SplitFirstHalves(l, ins, sp);
    NoRuns();
    assert Flat(l)[..0] == [];
    var m, m' := CaretMarks(l, 0, ins.marks), CaretMarks([], 0, ins.marks);
    SpliceHalves(Flat(l), 0, 0, Styled(ins.text, m));
    assert Flat(l)[0..] == Flat(l);
    RunsOfInjective(Splice([], 0, 0, Styled(ins.text, m)), Splice([], 0, 0, Styled(ins.text, m')));
    if Splice([], 0, 0, Styled(ins.text, m)) == Splice([], 0, 0, Styled(ins.text, m')) {
      StyledInjective([], 0, ins.text, m, m');
    }
    RunsOfInjective(Flat(l), []);
  }

  lemma StartIsAligned(l: seq<InlineSpan>)
    ensures Aligned(l, 0) && Caret(l, 0) == 0
  {
    assert BlockPlain(l)[..0] == "";
  }

  /** An insertion and a split of one coalesced block, at character boundaries and with a
      fresh block id: the two orders give the same document exactly when `SplitAgrees`. */
  lemma InsertSplitConverge(d: Doc, ins: DocOp, sp: DocOp)
    requires InsertAndSplit(ins, sp) && HasBlock(d, ins.blockId) && !HasBlock(d, sp.newBlockId)
    requires var l := InlinesOf(d, ins.blockId);
             WellFormed(l) && Aligned(l, ins.offset) && Aligned(l, sp.offset)
    ensures Both(d, ins, sp) == Both(d, sp, ins) <==> SplitAgrees(InlinesOf(d, ins.blockId), ins, sp)
  {
    hide Aligned, WellFormed, HalvesInsertFirst, HalvesSplitFirst, SplitAgrees;
    var l := InlinesOf(d, ins.blockId);
    OrdersAsCuts(d, ins, sp);
    if ins.text == "" {
      NothingTyped(l, ins, sp);
    } else if ins.offset > sp.offset {
      HalvesPart(l, ins, sp);
      OutsideSplit(l, ins, sp);
    } else if sp.offset > 0 {
      HalvesMeet(l, ins, sp);
      InsideSplit(l, ins, sp);
    } else {
      HalvesAtStart(l, ins, sp);
    }
  }

  lemma NothingTyped(l: seq<InlineSpan>, ins: DocOp, sp: DocOp)
    requires InsertAndSplit(ins, sp) && ins.text == ""
    ensures HalvesInsertFirst(l, ins, sp) == HalvesSplitFirst(l, ins, sp) && SplitAgrees(l, ins, sp)
  {
    assert ByteLen(ins.text) == 0;
  }

  lemma OutsideSplit(l: seq<InlineSpan>, ins: DocOp, sp: DocOp)
    requires InsertAndSplit(ins, sp) && ins.text != "" && ins.offset > sp.offset
    ensures !SplitAgrees(l, ins, sp)
  {
  }

  lemma InsideSplit(l: seq<InlineSpan>, ins: DocOp, sp: DocOp)
    requires InsertAndSplit(ins, sp) && ins.offset <= sp.offset && 0 < sp.offset
    ensures SplitAgrees(l, ins, sp)
  {
  }

  /** Both orders cut the block; they agree just when the halves do. */
  lemma OrdersAsCuts(d: Doc, ins: DocOp, sp: DocOp)
    requires InsertAndSplit(ins, sp) && HasBlock(d, ins.blockId) && !HasBlock(d, sp.newBlockId)
    ensures var l := InlinesOf(d, ins.blockId);
            Both(d, ins, sp) == Both(d, sp, ins) <==> HalvesInsertFirst(l, ins, sp) == HalvesSplitFirst(l, ins, sp)
  {
    hide SplitInlines, InsertText, SetInlines, CutInto, SplitBlock, HasBlock, InlinesOf;
    var id, newId, l := ins.blockId, sp.newBlockId, InlinesOf(d, ins.blockId);
    var (a1, a2) := HalvesInsertFirst(l, ins, sp);
    var (b1, b2) := HalvesSplitFirst(l, ins, sp);
    var (left, right) := SplitInlines(l, sp.offset);
    CutAfterWrite(d, id, newId, InsertRuns(l, ins), a1, a2);
    SplitIsCut(SetInlines(d, id, InsertRuns(l, ins)), id, TransformAgainst(sp, ins).offset, newId);
    assert Both(d, ins, sp) == CutInto(d, id, newId, a1, a2);
    SplitIsCut(d, id, sp.offset, newId);
    WriteAfterCut(d, id, newId, left, right, b1);
    assert Both(d, sp, ins) == CutInto(d, id, newId, b1, b2);
    CutPositions(d, id, newId, a1, a2);
    CutPositions(d, id, newId, b1, b2);
  }

  lemma SplitIsCut(d: Doc, id: string, offset: nat, newId: string)
    requires HasBlock(d, id) && !HasBlock(d, newId)
    ensures var (left, right) := SplitInlines(InlinesOf(d, id), offset);
            SplitBlock(d, id, offset, newId) == CutInto(d, id, newId, left, right)
  {
    hide SplitInlines;
  }

  lemma CutAfterWrite(d: Doc, id: string, newId: string, l: seq<InlineSpan>, a1: seq<InlineSpan>, a2: seq<InlineSpan>)
    requires HasBlock(d, id) && !HasBlock(d, newId)
    ensures var d1 := SetInlines(d, id, l);
            && HasBlock(d1, id) && !HasBlock(d1, newId) && InlinesOf(d1, id) == l
            && CutInto(d1, id, newId, a1, a2) == CutInto(d, id, newId, a1, a2)
  {
    var d1 := SetInlines(d, id, l);
    SetInlinesLaws(d, id, l);
    assert forall q :: 0 <= q < |d.blocks| ==> d.blocks[q].id != newId;
    PositionIs(d1.blocks, newId, |d.blocks|);
  }

  lemma WriteAfterCut(d: Doc, id: string, newId: string, left: seq<InlineSpan>, right: seq<InlineSpan>,
                      b: seq<InlineSpan>)
    requires HasBlock(d, id) && !HasBlock(d, newId)
    ensures var c := CutInto(d, id, newId, left, right);
            && InlinesOf(c, id) == left
            && SetInlines(c, id, b) == CutInto(d, id, newId, b, right)
  {
    CutPositions(d, id, newId, left, right);
  }
}
