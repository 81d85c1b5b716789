/** Operational transformation: rewriting an operation so that it can be applied
    after a concurrent one, and when the two orders meet again. */
module Transforms {
  import opened Basics
  import opened Utf8
  import opened Spans
  import opened SpanEdits
  import opened Documents

  /** Moves a range past a change of `delta` bytes at `at`; a range turned inside out collapses. */
  function ShiftRange(start: nat, end: nat, at: nat, delta: int): (nat, nat) {
    var shift := (x: nat) => if x < at then x else if x + delta < 0 then 0 else x + delta;
    var s, e := shift(start), shift(end);
    if s > e then (e, e) else (s, e)
  }

  /** Image of a marked range under a concurrent deletion, as the source clamps it. */
  function MarksAfterDelete(start: nat, end: nat, ds: nat, de: nat): (nat, nat) {
    var len := Max(0, de - ds);
    var (s, e) := ShiftRange(start, end, de, -len);
    var (s', e') :=
      if ds < e && de > s then
        if ds <= s && de >= e then (ds, ds)
        else if ds <= s then (ds, Max(0, e - len))
        else if de >= e then (s, ds)
        else (s, Max(0, e - len))
      else (s, e);
    (Min(s', e'), e')
  }

  predicate SameBlock(op: DocOp, other: DocOp) {
    && (op.OpInsertText? || op.OpDeleteRange? || op.OpSetMarksRange? || op.OpSplitBlock?)
    && (other.OpInsertText? || other.OpDeleteRange? || other.OpSplitBlock?)
    && op.blockId == other.blockId
  }

  /** Offset of an insertion or a split after `len` bytes went in at `at`. */
  function PastInsert(offset: nat, at: nat, len: nat): nat {
    if offset >= at then offset + len else offset
  }

  /** Rewrites `op` for a document to which the concurrent `other` has been applied. */
  function TransformAgainst(op: DocOp, other: DocOp): DocOp {
    if !SameBlock(op, other) then op
    else match (op, other)
      case (OpInsertText(id, offset, text, marks), OpInsertText(_, oo, ot, _)) =>
        OpInsertText(id, PastInsert(offset, oo, ByteLen(ot)), text, marks)
      case (OpDeleteRange(id, start, end), OpInsertText(_, oo, ot, _)) =>
        var len := ByteLen(ot);
        if oo <= start then OpDeleteRange(id, start + len, end + len)
        else if oo < end then OpDeleteRange(id, start, end + len)
        else op
      case (OpInsertText(id, offset, text, marks), OpDeleteRange(_, start, end)) =>
        var moved :=
          if offset >= end then Max(0, offset - Max(0, end - start))
          else if offset > start then start
          else offset;
        OpInsertText(id, moved, text, marks)
      case (OpSetMarksRange(id, start, end, fields), OpInsertText(_, oo, ot, _)) =>
        var (s, e) := ShiftRange(start, end, oo, ByteLen(ot));
        OpSetMarksRange(id, s, e, fields)
      case (OpSetMarksRange(id, start, end, fields), OpDeleteRange(_, ds, de)) =>
        var (s, e) := MarksAfterDelete(start, end, ds, de);
        OpSetMarksRange(id, s, e, fields)
      case (OpInsertText(id, offset, text, marks), OpSplitBlock(_, so, _)) =>
        if offset > so then OpInsertText(id, so, text, marks) else op
      case (OpSplitBlock(id, offset, newId), OpInsertText(_, oo, ot, _)) =>
        OpSplitBlock(id, PastInsert(offset, oo, ByteLen(ot)), newId)
      case _ => op
  }

  // ------------------------------------------------------------ carets under edits

  ghost predicate Aligned(l: seq<InlineSpan>, offset: nat) {
    IsCharBoundary(BlockPlain(l), offset)
  }

  lemma AlignedCaret(l: seq<InlineSpan>, offset: nat)
    requires Aligned(l, offset)
    ensures Caret(l, offset) <= |BlockPlain(l)| == |Flat(l)|
    ensures offset == ByteLen(BlockPlain(l)[..Caret(l, offset)])
  {
    PlainIsChars(l);
    var k :| 0 <= k <= |BlockPlain(l)| && offset == ByteLen(BlockPlain(l)[..k]);
    CharsWithinAligned(BlockPlain(l), k);
  }

  /** Aligned offsets and the character positions they name are ordered alike. */
  lemma AlignedOrder(l: seq<InlineSpan>, a: nat, b: nat)
    requires Aligned(l, a) && Aligned(l, b)
    ensures a < b <==> Caret(l, a) < Caret(l, b)
    ensures a == b <==> Caret(l, a) == Caret(l, b)
  {
    AlignedCaret(l, a);
    AlignedCaret(l, b);
    ByteLenOrder(BlockPlain(l), Caret(l, a), Caret(l, b));
  }

  lemma CharsSplice(f: seq<Glyph>, i: nat, j: nat, g: seq<Glyph>)
    requires i <= j <= |f|
    ensures Chars(Splice(f, i, j, g)) == Splice(Chars(f), i, j, Chars(g))
  {
  }

  lemma CharsLength(f: seq<Glyph>)
    ensures |Chars(f)| == |f| && Chars([]) == ""
  {
  }

  lemma NoSplice<T>(f: seq<T>, i: nat)
    requires i <= |f|
    ensures Splice(f, i, i, []) == f
  {
  }

  lemma InsertEffect(l: seq<InlineSpan>, offset: nat, text: string, typing: Option<InlineSpan>)
    requires text != ""
    ensures var k := Caret(l, offset); var out := InsertText(l, offset, text, typing);
            && Flat(out) == Splice(Flat(l), k, k, Styled(text, CaretMarks(l, k, typing)))
            && |BlockPlain(l)| == |Flat(l)|
            && BlockPlain(out) == Splice(BlockPlain(l), k, k, text)
            && Canonical(out)
  {
    hide Flat, BlockPlain, RunsOf, Caret, CaretMarks, Splice;
    var k := Caret(l, offset);
    var g := Styled(text, CaretMarks(l, k, typing));
    RunsOfFlat(Splice(Flat(l), k, k, g));
    PlainIsChars(l);
    PlainIsChars(InsertText(l, offset, text, typing));
    CharsSplice(Flat(l), k, k, g);
    assert Chars(g) == text;
  }

  lemma DeleteEffect(l: seq<InlineSpan>, start: nat, end: nat)
    ensures var i := Caret(l, start); var j := Max(i, Caret(l, end)); var out := DeleteRange(l, start, end);
            && Flat(out) == Splice(Flat(l), i, j, [])
            && |BlockPlain(l)| == |Flat(l)|
            && BlockPlain(out) == Splice(BlockPlain(l), i, j, "")
  {
    hide Flat, BlockPlain, RunsOf, Caret, Chars, Splice;
    var i := Caret(l, start);
    var j := Max(i, Caret(l, end));
    RunsOfFlat(Splice(Flat(l), i, j, []));
    PlainIsChars(l);
    CharsLength(Flat(l));
    NoSplice(Flat(l), i);
    NoSplice(BlockPlain(l), i);
    PlainIsChars(DeleteRange(l, start, end));
    CharsSplice(Flat(l), i, j, []);
  }

  lemma InsertedText(plain: string, k: nat, text: string)
    requires k <= |plain|
    ensures Splice(plain, k, k, text) == plain[..k] + text + plain[k..] && plain[..k] + plain[k..] == plain
  {
  }

  /** Where an aligned offset lands once text has gone in at an aligned caret. */
  lemma CaretInserted(l: seq<InlineSpan>, at: nat, text: string, typing: Option<InlineSpan>, x: nat)
    requires text != "" && Aligned(l, at)
    ensures var l' := InsertText(l, at, text, typing);
            && (x <= at ==> Caret(l', x) == Caret(l, x))
            && (x >= at ==> Caret(l', x + ByteLen(text)) == Caret(l, x) + |text|)
  {
    hide Flat, BlockPlain, ByteLen, CharsWithin, Aligned, InsertText, Canonical, CaretMarks, Styled, Splice;
    var plain, k := BlockPlain(l), Caret(l, at);
    InsertEffect(l, at, text, typing);
    AlignedCaret(l, at);
    InsertedText(plain, k, text);
    CaretsAfterInsert(plain[..k], text, plain[k..], x);
  }

  /** Where an aligned offset lands once an aligned range has gone. */
  lemma CaretDeleted(l: seq<InlineSpan>, start: nat, end: nat, x: nat)
    requires Aligned(l, start) && Aligned(l, end) && start <= end
    ensures var l' := DeleteRange(l, start, end);
            && (x <= start ==> Caret(l', x) == Caret(l, x))
            && (x >= end ==> Caret(l', x - (end - start)) == Caret(l, x) - (Caret(l, end) - Caret(l, start)))
  {
    hide Flat, BlockPlain, ByteLen, CharsWithin, Aligned, DeleteRange;
    var plain, i, j := BlockPlain(l), Caret(l, start), Caret(l, end);
    DeleteEffect(l, start, end);
    AlignedCaret(l, start);
    AlignedCaret(l, end);
    AlignedOrder(l, end, start);
    var a, m, b := plain[..i], plain[i..j], plain[j..];
    assert a + m == plain[..j];
    assert a + m + b == plain;
    assert Splice(plain, i, j, "") == a + b;
    ByteLenConcat(a, m);
    CaretsAfterDelete(a, m, b, x);
  }

  // ------------------------------------------------------------ marks against delete

  /** Where a position ends up when [ds, de) is deleted. */
  function ImageAfterDelete(x: nat, ds: nat, de: nat): nat {
    if de <= ds || x <= ds then x else if x >= de then x - (de - ds) else ds
  }

  /** The transformed range is the image of the original exactly when nothing is deleted, the
      range ends by the end of the deletion, or it starts a whole deletion length behind it:
      otherwise the source clamps bounds that it has already shifted. */
  lemma MarksAfterDeleteExact(start: nat, end: nat, ds: nat, de: nat)
    requires start < end
    ensures MarksAfterDelete(start, end, ds, de) == (ImageAfterDelete(start, ds, de), ImageAfterDelete(end, ds, de))
            <==> de <= ds || end <= de || start >= de + (de - ds)
  {
  }

  lemma MarksAfterDeleteMisplaced()
    ensures MarksAfterDelete(4, 10, 0, 3) == (0, 4)
    ensures (ImageAfterDelete(4, 0, 3), ImageAfterDelete(10, 0, 3)) == (1, 7)
  {
  }

  /** In all other cases this is what the source gives: the range starts at the deletion at the latest, and its
      end is moved by the deleted length twice, but not in front of the deletion. */
  lemma MarksAfterDeleteInexact(start: nat, end: nat, ds: nat, de: nat)
    requires start < end && ds < de < end && start < de + (de - ds)
    ensures var len := de - ds;
            MarksAfterDelete(start, end, ds, de) == (Min(start, ds), if end - len <= de then ds else end - 2 * len)
  {
  }

  // ------------------------------------------------------------ byte by byte

  /** A deletion past an insertion takes the bytes that it took before, and the new ones just if they
      went in strictly inside it. */
  lemma DeletionPastInsert(del: DocOp, ins: DocOp, x: nat)
    requires del.OpDeleteRange? && ins.OpInsertText? && del.blockId == ins.blockId
    ensures var t := TransformAgainst(del, ins);
            && t.OpDeleteRange?
            && (t.start <= x < t.end <==>
                  if x < ins.offset then del.start <= x < del.end
                  else if x < ins.offset + ByteLen(ins.text) then del.start < ins.offset < del.end
                  else del.start <= x - ByteLen(ins.text) < del.end)
  {
    hide ByteLen;
  }

  /** Likewise for a marked range, which also takes what is inserted at its end. */
  lemma MarksPastInsert(mark: DocOp, ins: DocOp, x: nat)
    requires mark.OpSetMarksRange? && ins.OpInsertText? && mark.blockId == ins.blockId
    ensures var t := TransformAgainst(mark, ins);
            && t.OpSetMarksRange?
            && (t.start <= x < t.end <==>
                  if x < ins.offset then mark.start <= x < mark.end
                  else if x < ins.offset + ByteLen(ins.text) then mark.start < ins.offset <= mark.end
                  else mark.start <= x - ByteLen(ins.text) < mark.end)
  {
    hide ByteLen;
  }

  /** A caret past a deletion stands where the byte behind it has gone, and past a split not behind its end. */
  lemma CaretPastDeleteOrSplit(ins: DocOp, other: DocOp)
    requires ins.OpInsertText? && (other.OpDeleteRange? || other.OpSplitBlock?) && ins.blockId == other.blockId
    ensures var t := TransformAgainst(ins, other);
            && t.OpInsertText?
            && (other.OpDeleteRange? ==> t.offset == ImageAfterDelete(ins.offset, other.start, other.end))
            && (other.OpSplitBlock? ==> t.offset == Min(ins.offset, other.offset))
  {
  }

  // ------------------------------------------------------------ what a transformation keeps

  /** Against an operation on another block nothing is rewritten. */
  lemma OtherBlockUntouched(op: DocOp, other: DocOp)
    requires (other.OpInsertText? || other.OpDeleteRange? || other.OpSplitBlock?) && !op.OpInsertBlock?
             && !op.OpAddComment? && !op.OpResolveComment? && op.blockId != other.blockId
    ensures TransformAgainst(op, other) == op
  {
  }

  /** Only offsets are ever rewritten: kind, block, text, marks, fields and new id stay. */
  lemma PayloadKept(op: DocOp, other: DocOp)
    ensures var t := TransformAgainst(op, other);
            match op
            case OpInsertText(id, _, text, marks) =>
              t.OpInsertText? && t.blockId == id && t.text == text && t.marks == marks
            case OpDeleteRange(id, _, _) => t.OpDeleteRange? && t.blockId == id
            case OpSetMarksRange(id, _, _, fields) => t.OpSetMarksRange? && t.blockId == id && t.fields == fields
            case OpSplitBlock(id, _, newId) => t.OpSplitBlock? && t.blockId == id && t.newBlockId == newId
            case _ => t == op
  {
  }

  /** The pairs without a transformation: deletions against deletions and splits, splits against deletions and
      splits, marks against splits, and anything against the other operations. */
  lemma Untransformed(op: DocOp, other: DocOp)
    requires || !(other.OpInsertText? || other.OpDeleteRange? || other.OpSplitBlock?)
             || (op.OpDeleteRange? && !other.OpInsertText?) || (op.OpSplitBlock? && !other.OpInsertText?)
             || (op.OpSetMarksRange? && other.OpSplitBlock?)
    ensures TransformAgainst(op, other) == op
  {
  }
}
