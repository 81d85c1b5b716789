/** Merging a batch of concurrent operations, and the closed form of a batch of insertions. */
module Merge {
  import opened Basics
  import opened Utf8
  import opened Spans
  import opened SpanEdits
  import opened Documents
  import opened Transforms
  import opened Weave
  import opened Convergence

  function TransformAll(op: DocOp, applied: seq<DocOp>): DocOp {
    if applied == [] then op
    else TransformAgainst(TransformAll(op, applied[..|applied|-1]), applied[|applied|-1])
  }

  /** Document reached and operations actually applied, after the whole batch. */
  function Merged(d: Doc, ops: seq<DocOp>): (r: (Doc, seq<DocOp>))
    ensures |r.1| == |ops|
  {
    if ops == [] then (d, [])
    else
      var (d', applied) := Merged(d, ops[..|ops|-1]);
      var t := TransformAll(ops[|ops|-1], applied);
      (ApplyOp(d', t), applied + [t])
  }

  // ------------------------------------------------------------ a batch of insertions

  /** Insertions into block `id`, all at character boundaries of its text `l`. */
  ghost predicate InsertBatch(l: seq<InlineSpan>, id: string, ops: seq<DocOp>) {
    forall i :: 0 <= i < |ops| ==> ops[i].OpInsertText? && ops[i].blockId == id && Aligned(l, ops[i].offset)
  }

  predicate AllInserts(ops: seq<DocOp>) {
    forall i :: 0 <= i < |ops| ==> ops[i].OpInsertText?
  }

  predicate AllMarked(ops: seq<DocOp>)
    requires AllInserts(ops)
  {
    forall i :: 0 <= i < |ops| ==> ops[i].marks.Some?
  }

  function TextEdit(l: seq<InlineSpan>, op: DocOp): Edit<char>
    requires op.OpInsertText?
  {
    Edit(Caret(l, op.offset), op.text)
  }

  function TextEdits(l: seq<InlineSpan>, ops: seq<DocOp>): seq<Edit<char>>
    requires AllInserts(ops)
  {
    if ops == [] then [] else TextEdits(l, ops[..|ops|-1]) + [TextEdit(l, ops[|ops|-1])]
  }

  function GlyphEdits(l: seq<InlineSpan>, ops: seq<DocOp>): seq<Edit<Glyph>>
    requires AllInserts(ops) && AllMarked(ops)
  {
    if ops == [] then []
    else
      var op := ops[|ops|-1];
      GlyphEdits(l, ops[..|ops|-1]) + [Edit(Caret(l, op.offset), Styled(op.text, op.marks.value.marks))]
  }

  /** Operation `op` moved past everything the batch `before` inserted at or before its position. */
  function Moved(l: seq<InlineSpan>, before: seq<DocOp>, op: DocOp): DocOp
    requires AllInserts(before) && op.OpInsertText?
  {
    OpInsertText(op.blockId, op.offset + BytesUpTo(TextEdits(l, before), Caret(l, op.offset)), op.text, op.marks)
  }

  /** Transforming against the applied operations one by one amounts to `Moved`. */
  lemma {:induction false} TransformAllMoves(d: Doc, l: seq<InlineSpan>, id: string, ops: seq<DocOp>, op: DocOp)
    requires InsertBatch(l, id, ops) && op.OpInsertText? && op.blockId == id && Aligned(l, op.offset)
    ensures TransformAll(op, Merged(d, ops).1) == Moved(l, ops, op)
  {
    hide ApplyOp, Aligned, Caret;
    if ops != [] {
      var n := |ops| - 1;
      var before, last := ops[..n], ops[n];
      var applied := Merged(d, before).1;
      TransformAllMoves(d, l, id, before, op);
      TransformAllMoves(d, l, id, before, last);
      assert Merged(d, ops).1 == applied + [Moved(l, before, last)];
      assert (applied + [Moved(l, before, last)])[..|applied|] == applied;
      MovedStep(l, before, last, op);
    }
  }

  /** Moved offsets compare as the original ones do. */
  lemma MovedStep(l: seq<InlineSpan>, before: seq<DocOp>, last: DocOp, op: DocOp)
    requires AllInserts(before) && op.OpInsertText? && last.OpInsertText? && op.blockId == last.blockId
    requires Aligned(l, op.offset) && Aligned(l, last.offset)
    ensures TransformAgainst(Moved(l, before, op), Moved(l, before, last)) == Moved(l, before + [last], op)
  {
    hide Aligned, Caret, ByteLen, BytesUpTo, TextEdits;
    var es, p, q := TextEdits(l, before), Caret(l, op.offset), Caret(l, last.offset);
    AlignedOrder(l, op.offset, last.offset);
    BytesUpToMonotone(es, Min(p, q), Max(p, q));
    TextEditsSnoc(l, before, last);
    BytesUpToSnoc(es, TextEdit(l, last), p);
  }

  /** A moved insertion lands exactly behind everything woven in at or before its position. */
  lemma MovedLands(l: seq<InlineSpan>, cur: seq<InlineSpan>, before: seq<DocOp>, op: DocOp)
    requires AllInserts(before) && op.OpInsertText? && Aligned(l, op.offset)
    requires BlockPlain(cur) == Woven(BlockPlain(l), TextEdits(l, before), 0)
    ensures Caret(l, op.offset) <= |BlockPlain(l)|
    ensures Caret(cur, Moved(l, before, op).offset) == Landing(TextEdits(l, before), 0, Caret(l, op.offset))
  {
    hide Aligned, ByteLen, Woven, Landing, BytesUpTo, BlockPlain, CharsWithin, TextEdits;
    var es, p, base := TextEdits(l, before), Caret(l, op.offset), BlockPlain(l);
    AlignedCaret(l, op.offset);
    LandingBytes(base, es, 0, p);
    BytesUpToIsBetween(es, p);
    assert base[0..p] == base[..p];
    CharsWithinAligned(BlockPlain(cur), Landing(es, 0, p));
  }

  lemma TextEditsSnoc(l: seq<InlineSpan>, ops: seq<DocOp>, op: DocOp)
    requires AllInserts(ops) && op.OpInsertText?
    ensures TextEdits(l, ops + [op]) == TextEdits(l, ops) + [TextEdit(l, op)]
  {
    assert (ops + [op])[..|ops|] == ops;
  }

  /** Text after one more moved insertion. */
  lemma WeaveText(l: seq<InlineSpan>, cur: seq<InlineSpan>, before: seq<DocOp>, op: DocOp)
    requires AllInserts(before) && op.OpInsertText? && Aligned(l, op.offset)
    requires BlockPlain(cur) == Woven(BlockPlain(l), TextEdits(l, before), 0)
    ensures BlockPlain(InsertText(cur, Moved(l, before, op).offset, op.text, op.marks))
         == Woven(BlockPlain(l), TextEdits(l, before + [op]), 0)
  {
    hide Aligned, ByteLen, Woven, Landing, BlockPlain, Caret, TextEdits, Splice;
    MovedLands(l, cur, before, op);
    TextEditsSnoc(l, before, op);
    WovenSnoc(BlockPlain(l), TextEdits(l, before), TextEdit(l, op), 0);
    if op.text == "" {
      NoSplice(BlockPlain(cur), Landing(TextEdits(l, before), 0, Caret(l, op.offset)));
    } else {
      InsertEffect(cur, Moved(l, before, op).offset, op.text, op.marks);
    }
  }

  lemma {:induction false} SameLengths(l: seq<InlineSpan>, ops: seq<DocOp>, p: nat)
    requires AllInserts(ops) && AllMarked(ops)
    ensures |At(GlyphEdits(l, ops), p)| == |At(TextEdits(l, ops), p)|
  {
    hide Caret;
    if ops != [] {
      var n := |ops| - 1;
      SameLengths(l, ops[..n], p);
      var op := ops[n];
      AtSnoc(GlyphEdits(l, ops[..n]), Edit(Caret(l, op.offset), Styled(op.text, op.marks.value.marks)), p);
      AtSnoc(TextEdits(l, ops[..n]), TextEdit(l, op), p);
    }
  }

  lemma {:induction false} SameLanding(l: seq<InlineSpan>, ops: seq<DocOp>, q: nat, p: nat)
    requires AllInserts(ops) && AllMarked(ops) && q <= p
    ensures Landing(GlyphEdits(l, ops), q, p) == Landing(TextEdits(l, ops), q, p)
    decreases p - q
  {
    SameLengths(l, ops, q);
    if q < p {
      SameLanding(l, ops, q + 1, p);
    }
  }

  /** Styled text after one more moved insertion that carries its own marks. */
  lemma WeaveGlyphs(l: seq<InlineSpan>, cur: seq<InlineSpan>, before: seq<DocOp>, op: DocOp)
    requires AllInserts(before) && op.OpInsertText? && Aligned(l, op.offset) && AllMarked(before) && op.marks.Some?
    requires BlockPlain(cur) == Woven(BlockPlain(l), TextEdits(l, before), 0)
    requires Flat(cur) == Woven(Flat(l), GlyphEdits(l, before), 0)
    ensures Flat(InsertText(cur, Moved(l, before, op).offset, op.text, op.marks))
         == Woven(Flat(l), GlyphEdits(l, before + [op]), 0)
  {
    hide Aligned, ByteLen, Woven, Landing, BlockPlain, Flat, Caret, TextEdits, Splice, Moved;
    MovedShape(l, before, op);
    var p, x := Caret(l, op.offset), Moved(l, before, op).offset;
    var g := Styled(op.text, op.marks.value.marks);
    MovedLands(l, cur, before, op);
    SameLanding(l, before, 0, p);
    assert (before + [op])[..|before|] == before;
    WovenSnoc(Flat(l), GlyphEdits(l, before), Edit(p, g), 0);
    if op.text == "" {
      NoSplice(Flat(cur), Landing(GlyphEdits(l, before), 0, p));
      assert g == [];
    } else {
      InsertEffect(cur, x, op.text, op.marks);
    }
  }

  predicate NothingInserted(ops: seq<DocOp>)
    requires AllInserts(ops)
  {
    forall i :: 0 <= i < |ops| ==> ops[i].text == ""
  }

  /** Whatever the order of the batch, each base position of the block holds the texts inserted
      there in batch order, then its own character; nothing else in the document changes. If every
      insertion carries marks, this is so for the styled text as well. */
  lemma {:induction false} MergeClosedForm(d: Doc, id: string, ops: seq<DocOp>)
    requires HasBlock(d, id) && InsertBatch(InlinesOf(d, id), id, ops)
    ensures var l, r := InlinesOf(d, id), Merged(d, ops).0;
            && HasBlock(r, id) && r == SetInlines(d, id, InlinesOf(r, id))
            && BlockPlain(InlinesOf(r, id)) == Woven(BlockPlain(l), TextEdits(l, ops), 0)
            && InlinesOf(r, id) == (if NothingInserted(ops) then l else RunsOf(Flat(InlinesOf(r, id))))
            && (AllMarked(ops) ==> Flat(InlinesOf(r, id)) == Woven(Flat(l), GlyphEdits(l, ops), 0))
  {
    hide Aligned, Woven, BlockPlain, Flat, Caret, TextEdits, GlyphEdits, Moved, InlinesOf, SetInlines, HasBlock,
      InsertText, RunsOf;
    var l := InlinesOf(d, id);
    if ops == [] {
      MergeNothing(d, id);
    } else {
      var n := |ops| - 1;
      var before, op := ops[..n], ops[n];
      assert ops == before + [op];
      MergeClosedForm(d, id, before);
      var d' := Merged(d, before).0;
      var cur := InlinesOf(d', id);
      TransformAllMoves(d, l, id, before, op);
      var t := Moved(l, before, op);
      MovedShape(l, before, op);
      var next := InsertText(cur, t.offset, op.text, op.marks);
      assert Merged(d, ops).0 == SetInlines(d', id, next);
      SetInlinesLaws(d, id, cur);
      SetInlinesLaws(d, id, next);
      WeaveText(l, cur, before, op);
      InsertedIsRuns(cur, t.offset, op.text, op.marks);
      if AllMarked(ops) {
        WeaveGlyphs(l, cur, before, op);
      }
    }
  }

  lemma MovedShape(l: seq<InlineSpan>, before: seq<DocOp>, op: DocOp)
    requires AllInserts(before) && op.OpInsertText?
    ensures Moved(l, before, op) == OpInsertText(op.blockId, Moved(l, before, op).offset, op.text, op.marks)
  {
  }

  lemma InsertedIsRuns(l: seq<InlineSpan>, offset: nat, text: string, typing: Option<InlineSpan>)
    ensures var out := InsertText(l, offset, text, typing);
            if text == "" then out == l else out == RunsOf(Flat(out))
  {
    hide RunsOf, Flat;
    var k := Caret(l, offset);
    RunsOfFlat(Splice(Flat(l), k, k, Styled(text, CaretMarks(l, k, typing))));
  }

  lemma MergeNothing(d: Doc, id: string)
    ensures Merged(d, []) == (d, [])
    ensures SetInlines(d, id, InlinesOf(d, id)) == d
    ensures var l := InlinesOf(d, id);
            && BlockPlain(l) == Woven(BlockPlain(l), TextEdits(l, []), 0)
            && Flat(l) == Woven(Flat(l), GlyphEdits(l, []), 0)
  {
    SetInlinesLaws(d, id, InlinesOf(d, id));
    WovenNothing(BlockPlain(InlinesOf(d, id)), 0);
    WovenNothing(Flat(InlinesOf(d, id)), 0);
  }

  lemma {:induction false} WovenNothing<T>(base: seq<T>, q: nat)
    requires q <= |base|
    ensures Woven(base, [], q) == base[q..]
    decreases |base| - q
  {
    if q < |base| {
      WovenNothing(base, q + 1);
    }
  }

  // ------------------------------------------------------------ order of the batch

  /** The operations of the batch at this very offset, in batch order. */
  function Select(ops: seq<DocOp>, offset: nat): seq<DocOp>
    requires AllInserts(ops)
    ensures AllInserts(Select(ops, offset))
  {
    if ops == [] then []
    else
      var n := |ops| - 1;
      Select(ops[..n], offset) + if ops[n].offset == offset then [ops[n]] else []
  }

  /** Same operations, and the same relative order among those that share an offset. */
  ghost predicate SameOrderPerOffset(a: seq<DocOp>, b: seq<DocOp>)
    requires AllInserts(a) && AllInserts(b)
  {
    forall o :: Select(a, o) == Select(b, o)
  }

  function Joined(ops: seq<DocOp>): string
    requires AllInserts(ops)
  {
    if ops == [] then "" else Joined(ops[..|ops|-1]) + ops[|ops|-1].text
  }

  function JoinedGlyphs(ops: seq<DocOp>): seq<Glyph>
    requires AllInserts(ops) && AllMarked(ops)
  {
    if ops == [] then []
    else JoinedGlyphs(ops[..|ops|-1]) + Styled(ops[|ops|-1].text, ops[|ops|-1].marks.value.marks)
  }

  lemma {:induction false} SelectMember(ops: seq<DocOp>, offset: nat)
    requires AllInserts(ops)
    ensures forall x :: x in Select(ops, offset) <==> x in ops && x.offset == offset
  {
    if ops != [] {
      var n := |ops| - 1;
      SelectMember(ops[..n], offset);
      assert ops == ops[..n] + [ops[n]];
    }
  }

  lemma SameMembers(a: seq<DocOp>, b: seq<DocOp>, x: DocOp)
    requires AllInserts(a) && AllInserts(b) && SameOrderPerOffset(a, b) && x in b
    ensures x in a
  {
    SelectMember(a, x.offset);
    SelectMember(b, x.offset);
  }

  lemma JoinedSnoc(ops: seq<DocOp>, op: DocOp)
    requires AllInserts(ops) && op.OpInsertText?
    ensures Joined(ops + [op]) == Joined(ops) + op.text
    ensures AllMarked(ops) && op.marks.Some? ==>
              JoinedGlyphs(ops + [op]) == JoinedGlyphs(ops) + Styled(op.text, op.marks.value.marks)
  {
    assert (ops + [op])[..|ops|] == ops;
  }

  /** What a batch inserts at a position depends only on the operations selected there. */
  lemma {:induction false} TextIsSelected(l: seq<InlineSpan>, id: string, ops: seq<DocOp>, offset: nat)
    requires InsertBatch(l, id, ops) && Aligned(l, offset)
    ensures At(TextEdits(l, ops), Caret(l, offset)) == Joined(Select(ops, offset))
  {
    hide Aligned, Caret, At, Joined;
    if ops == [] {
      NothingAt(l, Caret(l, offset));
    } else {
      var n := |ops| - 1;
      var before, op := ops[..n], ops[n];
      TextIsSelected(l, id, before, offset);
      AlignedOrder(l, op.offset, offset);
      AtSnoc(TextEdits(l, before), TextEdit(l, op), Caret(l, offset));
      JoinedSnoc(Select(before, offset), op);
      assert Select(before, offset) + [] == Select(before, offset);
      assert Joined(Select(before, offset)) + [] == Joined(Select(before, offset));
    }
  }

  lemma {:induction false} GlyphsAreSelected(l: seq<InlineSpan>, id: string, ops: seq<DocOp>, offset: nat)
    requires InsertBatch(l, id, ops) && Aligned(l, offset) && AllMarked(ops)
    ensures AllMarked(Select(ops, offset))
    ensures At(GlyphEdits(l, ops), Caret(l, offset)) == JoinedGlyphs(Select(ops, offset))
  {
    hide Aligned, Caret, At, JoinedGlyphs;
    if ops == [] {
      NothingAt(l, Caret(l, offset));
    } else {
      var n := |ops| - 1;
      var before, op := ops[..n], ops[n];
      var g := Styled(op.text, op.marks.value.marks);
      GlyphsAreSelected(l, id, before, offset);
      AlignedOrder(l, op.offset, offset);
      AtSnoc(GlyphEdits(l, before), Edit(Caret(l, op.offset), g), Caret(l, offset));
      JoinedSnoc(Select(before, offset), op);
      assert Select(before, offset) + [] == Select(before, offset);
      assert JoinedGlyphs(Select(before, offset)) + [] == JoinedGlyphs(Select(before, offset));
    }
  }

  lemma NothingAt(l: seq<InlineSpan>, p: nat)
    ensures At(TextEdits(l, []), p) == Joined(Select([], 0)) == ""
    ensures At(GlyphEdits(l, []), p) == JoinedGlyphs([]) == []
    ensures Joined([]) == ""
  {
  }

  lemma {:induction false} WovenByAt<T>(base: seq<T>, a: seq<Edit<T>>, b: seq<Edit<T>>, q: nat)
    requires q <= |base| && forall p :: q <= p <= |base| ==> At(a, p) == At(b, p)
    ensures Woven(base, a, q) == Woven(base, b, q)
    decreases |base| - q
  {
    hide At;
    if q < |base| {
      WovenByAt(base, a, b, q + 1);
    }
  }

  lemma SameWeave(l: seq<InlineSpan>, id: string, a: seq<DocOp>, b: seq<DocOp>)
    requires InsertBatch(l, id, a) && InsertBatch(l, id, b) && SameOrderPerOffset(a, b)
    ensures Woven(BlockPlain(l), TextEdits(l, a), 0) == Woven(BlockPlain(l), TextEdits(l, b), 0)
    ensures AllMarked(a) && AllMarked(b) ==> Woven(Flat(l), GlyphEdits(l, a), 0) == Woven(Flat(l), GlyphEdits(l, b), 0)
  {
    hide Flat, BlockPlain, TextEdits, GlyphEdits, Woven, At, Caret, Joined, JoinedGlyphs;
    PlainIsChars(l);
    forall p | 0 <= p <= |BlockPlain(l)|
      ensures At(TextEdits(l, a), p) == At(TextEdits(l, b), p)
      ensures AllMarked(a) && AllMarked(b) ==> At(GlyphEdits(l, a), p) == At(GlyphEdits(l, b), p)
    {
      var o := OffsetOf(l, p);
      TextIsSelected(l, id, a, o);
      TextIsSelected(l, id, b, o);
      if AllMarked(a) && AllMarked(b) {
        GlyphsAreSelected(l, id, a, o);
        GlyphsAreSelected(l, id, b, o);
      }
    }
    WovenByAt(BlockPlain(l), TextEdits(l, a), TextEdits(l, b), 0);
    if AllMarked(a) && AllMarked(b) {
      WovenByAt(Flat(l), GlyphEdits(l, a), GlyphEdits(l, b), 0);
    }
  }

  lemma OffsetOf(l: seq<InlineSpan>, p: nat) returns (o: nat)
    requires p <= |BlockPlain(l)|
    ensures Aligned(l, o) && Caret(l, o) == p
  {
    o := ByteLen(BlockPlain(l)[..p]);
    CharsWithinAligned(BlockPlain(l), p);
  }

  /** Reordering a batch of insertions without swapping two at the same offset changes no text,
      and no document at all when every insertion carries its marks. */
  lemma BatchOrderIrrelevant(d: Doc, id: string, a: seq<DocOp>, b: seq<DocOp>)
    requires HasBlock(d, id) && InsertBatch(InlinesOf(d, id), id, a) && InsertBatch(InlinesOf(d, id), id, b)
    requires SameOrderPerOffset(a, b)
    ensures TextOf(Merged(d, a).0) == TextOf(Merged(d, b).0)
    ensures AllMarked(a) ==> Merged(d, a).0 == Merged(d, b).0
  {
    hide Merged, Woven, BlockPlain, Flat, TextEdits, GlyphEdits, InlinesOf, SetInlines, HasBlock, TextOf, RunsOf,
      Aligned;
    var l := InlinesOf(d, id);
    MergeClosedForm(d, id, a);
    MergeClosedForm(d, id, b);
    SameWeave(l, id, a, b);
    SetInlinesCompare(d, id, InlinesOf(Merged(d, a).0, id), InlinesOf(Merged(d, b).0, id));
    if AllMarked(a) {
      forall i | 0 <= i < |b| ensures b[i].marks.Some? { SameMembers(a, b, b[i]); }
      SameEmptiness(a, b);
    }
  }

  lemma SameEmptiness(a: seq<DocOp>, b: seq<DocOp>)
    requires AllInserts(a) && AllInserts(b) && SameOrderPerOffset(a, b)
    ensures NothingInserted(a) == NothingInserted(b)
  {
    if NothingInserted(a) {
      forall i | 0 <= i < |b| ensures b[i].text == "" { SameMembers(a, b, b[i]); }
    }
    if NothingInserted(b) {
      forall i | 0 <= i < |a| ensures a[i].text == "" { SameMembers(b, a, a[i]); }
    }
  }

  /** A batch of one is applied as it is, and of two, whatever they are, in one of the two orders that
      `Convergence` compares. */
  lemma BatchOfTwo(d: Doc, a: DocOp, b: DocOp)
    ensures Merged(d, []).0 == d && Merged(d, [a]).0 == ApplyOp(d, a)
    ensures Merged(d, [a, b]).0 == ApplyOp(ApplyOp(d, a), TransformAgainst(b, a)) == Both(d, a, b)
  {
    hide ApplyOp, TransformAgainst;
    assert [a, b][..1] == [a] && [a][..0] == [];
    assert TransformAll(a, []) == a;
    assert Merged(d, [a]) == (ApplyOp(d, a), [] + [a]);
    assert [] + [a] == [a];
    assert TransformAll(b, [a]) == TransformAgainst(b, a);
  }
}
