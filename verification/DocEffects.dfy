/** What each operation on a document does, field by field and character by character. */
module DocEffects {
  import opened Basics
  import opened Utf8
  import opened Spans
  import opened SpanEdits
  import opened Documents
  import opened Transforms
  import opened Convergence

  // ------------------------------------------------------------ marks

  /** A text that is not given leaves a mark alone, and an empty one clears it. */
  predicate TextGiven(was: Option<string>, given: Option<string>, now: Option<string>) {
    match given
    case None => now == was
    case Some(s) => if s == "" then now == None else now == Some(s)
  }

  predicate SizeGiven(was: Option<nat>, given: Option<nat>, now: Option<nat>) {
    match given
    case None => now == was
    case Some(n) => if n == 0 then now == None else now == Some(n)
  }

  predicate FlagGiven(was: bool, given: Option<bool>, now: bool) {
    if given.Some? then now == given.value else now == was
  }

  /** Each given field is set or cleared; each of the others reads as before. */
  predicate MarksGiven(was: Marks, f: MarkFields, now: Marks) {
    && FlagGiven(was.bold, f.bold, now.bold)
    && FlagGiven(was.italic, f.italic, now.italic)
    && FlagGiven(was.underline, f.underline, now.underline)
    && FlagGiven(was.strike, f.strike, now.strike)
    && TextGiven(was.linkUrl, f.linkUrl, now.linkUrl)
    && TextGiven(was.fontFamily, f.fontFamily, now.fontFamily)
    && SizeGiven(was.fontSizePt, f.fontSizePt, now.fontSizePt)
    && TextGiven(was.color, f.color, now.color)
    && TextGiven(was.highlight, f.highlight, now.highlight)
    && FlagGiven(was.superscript, f.superscript, now.superscript)
    && FlagGiven(was.subscript, f.subscript, now.subscript)
  }

  lemma PatchGives(m: Marks, f: MarkFields)
    ensures MarksGiven(m, f, ApplyPatch(m, PatchOf(f)))
  {
  }

  /** The characters between the floored offsets get the marks; the others, and all texts, stay. */
  ghost predicate RangeMarked(was: seq<Glyph>, f: MarkFields, i: nat, j: nat, now: seq<Glyph>) {
    && |now| == |was|
    && forall x :: 0 <= x < |was| ==>
         if i <= x < j then now[x].ch == was[x].ch && MarksGiven(was[x].marks, f, now[x].marks) else now[x] == was[x]
  }

  lemma RunsMarked(l: seq<InlineSpan>, start: nat, end: nat, f: MarkFields)
    ensures RangeMarked(Flat(l), f, Caret(l, start), Caret(l, end), Flat(MarkRange(l, start, end, PatchOf(f))))
  {
    hide Flat, BlockPlain, RunsOf, Caret, ApplyPatch, PatchOf, MarksGiven, PatchedRange;
    var i, j, p := Caret(l, start), Caret(l, end), PatchOf(f);
    if i < j {
      MarkEffect(l, start, end, p);
      PatchedRangeAt(Flat(l), i, j, p);
      forall x | 0 <= x < |Flat(l)| ensures MarksGiven(Flat(l)[x].marks, f, ApplyPatch(Flat(l)[x].marks, p)) {
        PatchGives(Flat(l)[x].marks, f);
      }
    }
  }

  /** Nothing but the runs of one block differs. */
  ghost predicate OnlyRuns(d: Doc, id: string, r: Doc) {
    && r.comments == d.comments && |r.blocks| == |d.blocks|
    && forall q :: 0 <= q < |d.blocks| ==>
         if q == Position(d.blocks, id) then r.blocks[q].id == d.blocks[q].id && r.blocks[q].attrs == d.blocks[q].attrs
         else r.blocks[q] == d.blocks[q]
  }

  lemma SetRunsOnly(d: Doc, id: string, l: seq<InlineSpan>)
    requires HasBlock(d, id)
    ensures OnlyRuns(d, id, SetInlines(d, id, l)) && InlinesOf(SetInlines(d, id, l), id) == l
  {
    hide Flat;
    SetInlinesLaws(d, id, l);
  }

  /** Marking a range of a block sets the given fields on the characters between the floored offsets, and
      leaves every other field, character and block alone. */
  lemma MarksSet(d: Doc, id: string, start: nat, end: nat, f: MarkFields)
    requires HasBlock(d, id)
    ensures var r := ApplyOp(d, OpSetMarksRange(id, start, end, f));
            var plain := BlockPlain(InlinesOf(d, id));
            && OnlyRuns(d, id, r)
            && RangeMarked(Flat(InlinesOf(d, id)), f, CharsWithin(plain, start), CharsWithin(plain, end),
                           Flat(InlinesOf(r, id)))
  {
    hide Flat, BlockPlain, MarkRange, PatchOf, SetInlines, InlinesOf, HasBlock, OnlyRuns, RangeMarked, CharsWithin;
    var l := InlinesOf(d, id);
    RunsMarked(l, start, end, f);
    SetRunsOnly(d, id, MarkRange(l, start, end, PatchOf(f)));
  }

  /** Marking a whole block: the seven given marks on every character, the others as before. */
  lemma BlockMarked(d: Doc, op: DocOp)
    requires op.OpSetInlineMarks? && HasBlock(d, op.blockId)
    ensures var was := Flat(InlinesOf(d, op.blockId)); var r := ApplyOp(d, op);
            var now := Flat(InlinesOf(r, op.blockId));
            && OnlyRuns(d, op.blockId, r)
            && RangeMarked(was, WholeFields(op), 0, |was|, now)
  {
    hide Flat, BlockPlain, MarkRange, SetInlines, InlinesOf, HasBlock, OnlyRuns, RangeMarked, CharsWithin, PatchOf,
      WholeFields;
    var l := InlinesOf(d, op.blockId);
    var end := ByteLen(BlockPlain(l));
    WholePatch(op);
    RunsMarked(l, 0, end, WholeFields(op));
    WholeRange(l);
    SetRunsOnly(d, op.blockId, MarkRange(l, 0, end, PatchOf(WholeFields(op))));
  }

  function WholeFields(op: DocOp): MarkFields
    requires op.OpSetInlineMarks?
  {
    MarkFields(Some(op.bold), Some(op.italic), Some(op.underline), Some(op.strike), op.linkUrl,
               None, None, None, None, Some(op.superscript), Some(op.subscript))
  }

  lemma WholePatch(op: DocOp)
    requires op.OpSetInlineMarks?
    ensures WholeBlockPatch(op) == PatchOf(WholeFields(op))
  {
  }

  lemma WholeRange(l: seq<InlineSpan>)
    ensures Caret(l, 0) == 0 && Caret(l, ByteLen(BlockPlain(l))) == |Flat(l)|
  {
    hide Flat;
    PlainIsChars(l);
    CharsWithinIsGreatest(BlockPlain(l), ByteLen(BlockPlain(l)));
  }

  // ------------------------------------------------------------ text

  /** Inserting puts the text at the floored offset of one block; deleting takes the floored range out. */
  lemma TextEdited(d: Doc, id: string, start: nat, end: nat, text: string, marks: Option<InlineSpan>)
    requires HasBlock(d, id)
    ensures var plain := BlockPlain(InlinesOf(d, id)); var k := CharsWithin(plain, start);
            var r := ApplyOp(d, OpInsertText(id, start, text, marks));
            OnlyRuns(d, id, r) && BlockPlain(InlinesOf(r, id)) == plain[..k] + text + plain[k..]
    ensures var plain := BlockPlain(InlinesOf(d, id)); var i, j := CharsWithin(plain, start), CharsWithin(plain, end);
            var r := ApplyOp(d, OpDeleteRange(id, start, end));
            OnlyRuns(d, id, r) && BlockPlain(InlinesOf(r, id)) == plain[..i] + plain[Max(i, j)..]
  {
    hide Flat, BlockPlain, InsertText, DeleteRange, SetInlines, InlinesOf, HasBlock, OnlyRuns, CharsWithin, Canonical;
    var l := InlinesOf(d, id);
    var plain := BlockPlain(l);
    if text == "" {
      NothingTyped(l, start, marks);
      assert plain[..CharsWithin(plain, start)] + text + plain[CharsWithin(plain, start)..] == plain;
    } else {
      InsertEffect(l, start, text, marks);
    }
    DeleteEffect(l, start, end);
    SetRunsOnly(d, id, InsertText(l, start, text, marks));
    SetRunsOnly(d, id, DeleteRange(l, start, end));
  }

  /** The marks of inserted text: those given, or else those of the character in front of it, or of the first
      one at the start. */
  predicate TypedMarks(l: seq<InlineSpan>, k: nat, given: Option<InlineSpan>, m: Marks) {
    && (given.Some? ==> m == given.value.marks)
    && (given.None? && l == [] ==> m == NO_MARKS)
    && (given.None? && Canonical(l) && Flat(l) != [] && k <= |Flat(l)| ==> m == Flat(l)[Max(0, k - 1)].marks)
  }

  /** All other characters keep their marks under insertion and deletion. */
  lemma StylesKept(d: Doc, id: string, start: nat, end: nat, text: string, given: Option<InlineSpan>) returns (m: Marks)
    requires HasBlock(d, id) && text != ""
    ensures var l := InlinesOf(d, id); var k := CharsWithin(BlockPlain(l), start);
            var now := Flat(InlinesOf(ApplyOp(d, OpInsertText(id, start, text, given)), id));
            && k <= |Flat(l)| && TypedMarks(l, k, given, m) && |now| == |Flat(l)| + |text|
            && now[..k] == Flat(l)[..k] && now[k + |text|..] == Flat(l)[k..]
            && forall i :: 0 <= i < |text| ==> now[k + i] == Glyph(text[i], m)
    ensures var l := InlinesOf(d, id); var plain := BlockPlain(l);
            var i, j := CharsWithin(plain, start), CharsWithin(plain, end);
            && Max(i, j) <= |Flat(l)|
            && Flat(InlinesOf(ApplyOp(d, OpDeleteRange(id, start, end)), id)) == Flat(l)[..i] + Flat(l)[Max(i, j)..]
  {
    hide Flat, BlockPlain, InsertText, DeleteRange, SetInlines, InlinesOf, HasBlock, CharsWithin, Canonical, CaretMarks,
      TypedMarks;
    var l := InlinesOf(d, id);
    var k := Caret(l, start);
    InsertEffect(l, start, text, given);
    DeleteEffect(l, start, end);
    SetInlinesLaws(d, id, InsertText(l, start, text, given));
    SetInlinesLaws(d, id, DeleteRange(l, start, end));
    m := CaretMarks(l, k, given);
    MarksTyped(l, k, given);
  }

  lemma MarksTyped(l: seq<InlineSpan>, k: nat, given: Option<InlineSpan>)
    requires k <= |Flat(l)|
    ensures TypedMarks(l, k, given, CaretMarks(l, k, given))
  {
    hide Flat, Canonical, NO_MARKS;
    if given.None? && Canonical(l) && Flat(l) != [] { InheritedMarks(l, k); }
  }

  lemma NothingTyped(l: seq<InlineSpan>, start: nat, marks: Option<InlineSpan>)
    ensures InsertText(l, start, "", marks) == l
  {
  }

  // ------------------------------------------------------------ blocks

  /** Nothing but the attributes of one block differs. */
  ghost predicate OnlyAttrs(d: Doc, id: string, r: Doc) {
    && r.comments == d.comments && |r.blocks| == |d.blocks|
    && forall q :: 0 <= q < |d.blocks| ==>
         if q == Position(d.blocks, id)
         then r.blocks[q].id == d.blocks[q].id && r.blocks[q].inlines == d.blocks[q].inlines
         else r.blocks[q] == d.blocks[q]
  }

  /** Each given field of a format is set; clearing the list resets type, marker, level and restart first. */
  predicate FormatGiven(was: BlockAttrs, f: FormatFields, now: BlockAttrs) {
    var clear := f.clearList == Some(true);
    && now.align == (if f.align.Some? then f.align.value else was.align)
    && now.indentMm == (if f.indentMm.Some? then f.indentMm else was.indentMm)
    && now.lineSpacing == (if f.lineSpacing.Some? then f.lineSpacing else was.lineSpacing)
    && now.spaceBeforePt == (if f.spaceBeforePt.Some? then f.spaceBeforePt else was.spaceBeforePt)
    && now.spaceAfterPt == (if f.spaceAfterPt.Some? then f.spaceAfterPt else was.spaceAfterPt)
    && now.listType == (if clear then None else if f.listType.Some? then f.listType else was.listType)
    && now.listLevel == (if f.listLevel.Some? then f.listLevel.value else if clear then 0 else was.listLevel)
    && now.listMarker == (if f.listMarker.Some? then f.listMarker else if clear then None else was.listMarker)
    && now.listRestart == (if f.listRestart.Some? then f.listRestart.value else !clear && was.listRestart)
    && TextGiven(was.styleName, f.styleName, now.styleName)
    && now.blockType == (if clear then (if was.blockType == ListItem then Paragraph else was.blockType)
                         else if f.listType.Some? then ListItem else was.blockType)
    && now.headingLevel == was.headingLevel && now.imageUrl == was.imageUrl && now.bookmarkName == was.bookmarkName
    && now.lang == was.lang && now.tableCells == was.tableCells
  }

  lemma FormattedGives(a: BlockAttrs, f: FormatFields)
    ensures FormatGiven(a, f, Formatted(a, f))
  {
  }

  /** Formatting and retyping change the attributes of one block, as given. */
  lemma BlockFormatted(d: Doc, id: string, f: FormatFields, blockType: BlockType, level: nat)
    requires HasBlock(d, id)
    ensures var p := Position(d.blocks, id); var r := ApplyOp(d, OpSetBlockFormat(id, f));
            OnlyAttrs(d, id, r) && FormatGiven(d.blocks[p].attrs, f, r.blocks[p].attrs)
    ensures var p := Position(d.blocks, id); var r := ApplyOp(d, OpSetBlockType(id, blockType, level));
            && OnlyAttrs(d, id, r) && r.blocks[p].attrs.blockType == blockType
            && r.blocks[p].attrs.headingLevel == level
            && r.blocks[p].attrs.(blockType := d.blocks[p].attrs.blockType,
                                  headingLevel := d.blocks[p].attrs.headingLevel)
               == d.blocks[p].attrs
  {
    hide Formatted, FormatGiven;
    FormattedGives(d.blocks[Position(d.blocks, id)].attrs, f);
  }

  /** An inserted block stands right behind the named one, or last if there is no such block. */
  lemma BlockInserted(d: Doc, after: string, b: Block)
    ensures var r := ApplyOp(d, OpInsertBlock(after, b));
            var p := if HasBlock(d, after) then Position(d.blocks, after) + 1 else |d.blocks|;
            && r.comments == d.comments && |r.blocks| == |d.blocks| + 1 && r.blocks[p] == b
            && r.blocks[..p] == d.blocks[..p] && r.blocks[p+1..] == d.blocks[p..]
  {
  }

  /** An operation on a block that is not there changes nothing. */
  lemma MissingBlock(d: Doc, op: DocOp)
    requires !op.OpInsertBlock? && !op.OpAddComment? && !op.OpResolveComment? && !HasBlock(d, op.blockId)
    ensures ApplyOp(d, op) == d
  {
    hide InsertText, DeleteRange, MarkRange, Formatted, SplitInlines, Coalesced, PatchOf, WholeBlockPatch;
  }

  /** A split with an id that is taken changes nothing. */
  lemma TakenId(d: Doc, id: string, offset: nat, newId: string)
    requires HasBlock(d, newId)
    ensures ApplyOp(d, OpSplitBlock(id, offset, newId)) == d
  {
    hide SplitInlines;
  }

  function Ids(d: Doc): (ids: seq<string>)
    ensures |ids| == |d.blocks|
  {
    seq(|d.blocks|, i requires 0 <= i < |d.blocks| => d.blocks[i].id)
  }

  predicate Unique(ids: seq<string>) {
    forall i, j :: 0 <= i < j < |ids| ==> ids[i] != ids[j]
  }

  lemma UniqueWith(ids: seq<string>, p: nat, x: string)
    requires Unique(ids) && p <= |ids| && x !in ids
    ensures Unique(ids[..p] + [x] + ids[p..])
  {
  }

  lemma UniqueWithout(ids: seq<string>, p: nat)
    requires Unique(ids) && p < |ids|
    ensures Unique(ids[..p] + ids[p+1..])
  {
  }

  lemma AbsentId(d: Doc, id: string)
    requires !HasBlock(d, id)
    ensures id !in Ids(d)
  {
  }

  lemma IdsOfSplit(d: Doc, id: string, offset: nat, newId: string)
    requires HasBlock(d, id) && !HasBlock(d, newId)
    ensures var p := Position(d.blocks, id) + 1;
            Ids(SplitBlock(d, id, offset, newId)) == Ids(d)[..p] + [newId] + Ids(d)[p..]
  {
    hide SplitInlines, Position;
  }

  lemma IdsOfMerge(d: Doc, id: string)
    requires 0 < Position(d.blocks, id) < |d.blocks|
    ensures var p := Position(d.blocks, id);
            Ids(MergeBlocks(d, id, true)) == Ids(d)[..p] + Ids(d)[p+1..]
  {
    hide Coalesced, Position;
  }

  lemma IdsOfInsert(d: Doc, after: string, b: Block)
    ensures var p := if HasBlock(d, after) then Position(d.blocks, after) + 1 else |d.blocks|;
            Ids(ApplyOp(d, OpInsertBlock(after, b))) == Ids(d)[..p] + [b.id] + Ids(d)[p..]
  {
    hide Position;
  }

  lemma IdsOfEdit(d: Doc, op: DocOp)
    requires !op.OpInsertBlock? && !op.OpSplitBlock? && !op.OpMergeBlocks?
    ensures Ids(ApplyOp(d, op)) == Ids(d)
  {
    hide InsertText, DeleteRange, MarkRange, Formatted, PatchOf, WholeBlockPatch, Position, InlinesOf, HasBlock;
  }

  /** Blocks keep distinct ids under every operation, provided that an inserted block brings a new one. */
  lemma IdsStayDistinct(d: Doc, op: DocOp)
    requires Unique(Ids(d)) && (op.OpInsertBlock? ==> !HasBlock(d, op.block.id))
    ensures Unique(Ids(ApplyOp(d, op)))
  {
    hide Ids, Unique, SplitInlines, Coalesced, Position;
    match op
    case OpInsertBlock(after, b) =>
      AbsentId(d, b.id);
      IdsOfInsert(d, after, b);
      UniqueWith(Ids(d), if HasBlock(d, after) then Position(d.blocks, after) + 1 else |d.blocks|, b.id);
    case OpSplitBlock(id, offset, newId) =>
      if HasBlock(d, id) && !HasBlock(d, newId) {
        AbsentId(d, newId);
        IdsOfSplit(d, id, offset, newId);
        UniqueWith(Ids(d), Position(d.blocks, id) + 1, newId);
      }
    case OpMergeBlocks(id, withPrevious) =>
      if withPrevious && 0 < Position(d.blocks, id) < |d.blocks| {
        IdsOfMerge(d, id);
        UniqueWithout(Ids(d), Position(d.blocks, id));
      }
    case _ => IdsOfEdit(d, op);
  }

  /** A split leaves the text before the floored offset in the block and puts the rest, with the same
      attributes but no list restart, into a new block behind it. */
  lemma BlockSplit(d: Doc, id: string, offset: nat, newId: string)
    requires HasBlock(d, id) && !HasBlock(d, newId)
    ensures var p := Position(d.blocks, id); var r := ApplyOp(d, OpSplitBlock(id, offset, newId));
            var plain := BlockPlain(d.blocks[p].inlines); var k := CharsWithin(plain, offset);
            && r.comments == d.comments && |r.blocks| == |d.blocks| + 1
            && r.blocks[..p] == d.blocks[..p] && r.blocks[p+2..] == d.blocks[p+1..]
            && r.blocks[p].id == id && r.blocks[p].attrs == d.blocks[p].attrs
            && r.blocks[p+1].id == newId && r.blocks[p+1].attrs == d.blocks[p].attrs.(listRestart := false)
            && BlockPlain(r.blocks[p].inlines) == plain[..k] && BlockPlain(r.blocks[p+1].inlines) == plain[k..]
            && Flat(r.blocks[p].inlines) + Flat(r.blocks[p+1].inlines) == Flat(d.blocks[p].inlines)
  {
    hide SplitInlines, CharsWithin, BlockPlain, Flat;
    var l := d.blocks[Position(d.blocks, id)].inlines;
    HalvesSpell(l, offset);
    HalvesFlat(l, offset);
  }

  lemma HalvesSpell(l: seq<InlineSpan>, offset: nat)
    ensures var (left, right) := SplitInlines(l, offset); var plain := BlockPlain(l);
            var k := CharsWithin(plain, offset);
            BlockPlain(left) == plain[..k] && BlockPlain(right) == plain[k..]
  {
    hide CharsWithin, RunsOf, Flat, BlockPlain;
    var (left, right) := SplitInlines(l, offset);
    PlainIsChars(l);
    PlainIsChars(left);
    PlainIsChars(right);
    HalvesFlat(l, offset);
  }

  lemma HalvesFlat(l: seq<InlineSpan>, offset: nat)
    ensures var (left, right) := SplitInlines(l, offset); var k := Caret(l, offset);
            k <= |Flat(l)| && Flat(left) == Flat(l)[..k] && Flat(right) == Flat(l)[k..]
  {
    hide CharsWithin, RunsOf;
    PlainIsChars(l);
    var k := Caret(l, offset);
    RunsOfFlat(Flat(l)[..k]);
    RunsOfFlat(Flat(l)[k..]);
    FlatNormal(Flat(l)[..k]);
    FlatNormal(Flat(l)[k..]);
    assert Flat(l)[..0] == [] && Flat(l)[|Flat(l)|..] == [];
    CoalescedFixesWellFormed(l);
  }

  /** Merging joins a block to its predecessor, which keeps its id and attributes: the styled text of both,
      one behind the other. Without a predecessor, or unless asked for, nothing changes. */
  lemma BlocksMerged(d: Doc, id: string, withPrevious: bool)
    ensures var p := Position(d.blocks, id); var r := ApplyOp(d, OpMergeBlocks(id, withPrevious));
            if !withPrevious || !HasBlock(d, id) || p == 0 then r == d
            else
              && r.comments == d.comments && |r.blocks| == |d.blocks| - 1
              && r.blocks[..p-1] == d.blocks[..p-1] && r.blocks[p..] == d.blocks[p+1..]
              && r.blocks[p-1].id == d.blocks[p-1].id && r.blocks[p-1].attrs == d.blocks[p-1].attrs
              && Flat(r.blocks[p-1].inlines) == Flat(d.blocks[p-1].inlines) + Flat(d.blocks[p].inlines)
  {
    hide Coalesced, Flat;
    var p := Position(d.blocks, id);
    if withPrevious && HasBlock(d, id) && p > 0 {
      var a, b := d.blocks[p-1].inlines, d.blocks[p].inlines;
      FlatConcat(a, b);
      CoalescedFixesWellFormed(a + b);
    }
  }

  // ------------------------------------------------------------ comments

  /** A comment with a new id is appended unresolved; one with a known id changes nothing. Resolving marks the
      first comment with that id, and nothing else. */
  lemma CommentsKept(d: Doc, c: DocComment, id: string)
    ensures var r := ApplyOp(d, OpAddComment(c));
            && r.blocks == d.blocks
            && r.comments == if exists q :: 0 <= q < |d.comments| && d.comments[q].id == c.id then d.comments
                             else d.comments + [c.(resolved := false)]
    ensures var r := ApplyOp(d, OpResolveComment(id));
            && r.blocks == d.blocks && |r.comments| == |d.comments|
            && forall q :: 0 <= q < |d.comments| ==>
                 r.comments[q] == if d.comments[q].id == id && (forall x :: 0 <= x < q ==> d.comments[x].id != id)
                                  then d.comments[q].(resolved := true) else d.comments[q]
  {
    var p := CommentPosition(d.comments, c.id);
    var s := CommentPosition(d.comments, id);
  }
}
