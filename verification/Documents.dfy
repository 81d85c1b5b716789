/** Documents as lists of blocks, and the operations clients exchange. */
module Documents {
  import opened Basics
  import opened Utf8
  import opened Spans
  import opened SpanEdits

  datatype BlockType =
    | Paragraph | Heading | ListItem | PageBreak | Image | Table | Bookmark | Toc | TextBox | SectionBreak | Footnote
  datatype ListType = Bullet | Ordered
  datatype ListMarker = Disc | Circle | Square | Decimal | LowerAlpha | LowerRoman
  datatype TextAlign = Left | Center | Right | Justify

  datatype BlockAttrs = BlockAttrs(
    blockType: BlockType, headingLevel: nat, listType: Option<ListType>, align: TextAlign,
    lineSpacing: Option<string>, indentMm: Option<nat>, spaceBeforePt: Option<nat>, spaceAfterPt: Option<nat>,
    listLevel: nat, listMarker: Option<ListMarker>, listRestart: bool, styleName: Option<string>,
    imageUrl: Option<string>, bookmarkName: Option<string>, lang: Option<string>,
    tableCells: Option<seq<seq<string>>>)

  datatype Block = Block(id: string, attrs: BlockAttrs, inlines: seq<InlineSpan>)

  datatype DocComment = DocComment(
    id: string, blockId: string, authorId: string, text: string, resolved: bool,
    start: Option<nat>, end: Option<nat>, quote: Option<string>)

  datatype Doc = Doc(blocks: seq<Block>, comments: seq<DocComment>)

  /** Mark fields as they travel: an empty string or a zero size clears the mark. */
  datatype MarkFields = MarkFields(
    bold: Option<bool>, italic: Option<bool>, underline: Option<bool>, strike: Option<bool>,
    linkUrl: Option<string>, fontFamily: Option<string>, fontSizePt: Option<nat>,
    color: Option<string>, highlight: Option<string>,
    superscript: Option<bool>, subscript: Option<bool>)

  datatype FormatFields = FormatFields(
    align: Option<TextAlign>, indentMm: Option<nat>, lineSpacing: Option<string>,
    spaceBeforePt: Option<nat>, spaceAfterPt: Option<nat>, listType: Option<ListType>, clearList: Option<bool>,
    listLevel: Option<nat>, listMarker: Option<ListMarker>, listRestart: Option<bool>, styleName: Option<string>)

  datatype DocOp =
    | OpInsertText(blockId: string, offset: nat, text: string, marks: Option<InlineSpan>)
    | OpDeleteRange(blockId: string, start: nat, end: nat)
    | OpSetBlockType(blockId: string, blockType: BlockType, headingLevel: nat)
    | OpInsertBlock(afterId: string, block: Block)
    | OpSplitBlock(blockId: string, offset: nat, newBlockId: string)
    | OpMergeBlocks(blockId: string, withPrevious: bool)
    | OpSetMarksRange(blockId: string, start: nat, end: nat, fields: MarkFields)
    | OpSetInlineMarks(blockId: string, bold: bool, italic: bool, underline: bool, linkUrl: Option<string>,
                       strike: bool, superscript: bool, subscript: bool)
    | OpSetBlockFormat(blockId: string, format: FormatFields)
    | OpAddComment(comment: DocComment)
    | OpResolveComment(commentId: string)

  // ------------------------------------------------------------ lookups

  /** First block with this id, or the number of blocks. */
  function Position(blocks: seq<Block>, id: string): (p: nat)
    ensures p <= |blocks|
    ensures p < |blocks| ==> blocks[p].id == id
    ensures forall q :: 0 <= q < p ==> blocks[q].id != id
  {
    if blocks == [] || blocks[0].id == id then 0 else 1 + Position(blocks[1..], id)
  }

  predicate HasBlock(d: Doc, id: string) {
    Position(d.blocks, id) < |d.blocks|
  }

  function InlinesOf(d: Doc, id: string): seq<InlineSpan> {
    if HasBlock(d, id) then d.blocks[Position(d.blocks, id)].inlines else []
  }

  function SetInlines(d: Doc, id: string, l: seq<InlineSpan>): Doc {
    var p := Position(d.blocks, id);
    if p < |d.blocks| then d.(blocks := d.blocks[p := d.blocks[p].(inlines := l)]) else d
  }

  function SetAttrs(d: Doc, id: string, f: BlockAttrs -> BlockAttrs): Doc {
    var p := Position(d.blocks, id);
    if p < |d.blocks| then d.(blocks := d.blocks[p := d.blocks[p].(attrs := f(d.blocks[p].attrs))]) else d
  }

  lemma {:induction false} PositionIs(blocks: seq<Block>, id: string, p: nat)
    requires p <= |blocks|
    requires forall q :: 0 <= q < p ==> blocks[q].id != id
    requires p < |blocks| ==> blocks[p].id == id
    ensures Position(blocks, id) == p
  {
    if p > 0 {
      assert blocks[0].id != id;
      PositionIs(blocks[1..], id, p - 1);
    }
  }

  /** Writing a block's runs is read back, and a second write replaces the first. */
  lemma SetInlinesLaws(d: Doc, id: string, l: seq<InlineSpan>)
    ensures HasBlock(SetInlines(d, id, l), id) == HasBlock(d, id)
    ensures HasBlock(d, id) ==> InlinesOf(SetInlines(d, id, l), id) == l
    ensures forall m :: SetInlines(SetInlines(d, id, l), id, m) == SetInlines(d, id, m)
    ensures SetInlines(d, id, InlinesOf(d, id)) == d
    ensures Position(SetInlines(d, id, l).blocks, id) == Position(d.blocks, id)
  {
    PositionIs(SetInlines(d, id, l).blocks, id, Position(d.blocks, id));
  }

  // ------------------------------------------------------------ operations

  function StringPatch(v: Option<string>): Option<Option<string>> {
    if v.None? then None else if v.value == "" then Some(None) else Some(v)
  }

  function SizePatch(v: Option<nat>): Option<Option<nat>> {
    if v.None? then None else if v.value == 0 then Some(None) else Some(v)
  }

  function PatchOf(f: MarkFields): MarksPatch {
    MarksPatch(f.bold, f.italic, f.underline, f.strike, StringPatch(f.linkUrl), StringPatch(f.fontFamily),
               SizePatch(f.fontSizePt), StringPatch(f.color), StringPatch(f.highlight), f.superscript, f.subscript)
  }

  function WholeBlockPatch(op: DocOp): MarksPatch
    requires op.OpSetInlineMarks?
  {
    MarksPatch(Some(op.bold), Some(op.italic), Some(op.underline), Some(op.strike), StringPatch(op.linkUrl),
               None, None, None, None, Some(op.superscript), Some(op.subscript))
  }

  function Formatted(a: BlockAttrs, f: FormatFields): BlockAttrs {
    var a1 := a.(
      align := f.align.GetOr(a.align),
      indentMm := if f.indentMm.Some? then f.indentMm else a.indentMm,
      lineSpacing := if f.lineSpacing.Some? then f.lineSpacing else a.lineSpacing,
      spaceBeforePt := if f.spaceBeforePt.Some? then f.spaceBeforePt else a.spaceBeforePt,
      spaceAfterPt := if f.spaceAfterPt.Some? then f.spaceAfterPt else a.spaceAfterPt);
    var a2 :=
      if f.clearList == Some(true) then
        a1.(listType := None, listMarker := None, listLevel := 0, listRestart := false,
            blockType := if a1.blockType.ListItem? then Paragraph else a1.blockType)
      else if f.listType.Some? then a1.(listType := f.listType, blockType := ListItem)
      else a1;
    a2.(
      listLevel := f.listLevel.GetOr(a2.listLevel),
      listMarker := if f.listMarker.Some? then f.listMarker else a2.listMarker,
      listRestart := f.listRestart.GetOr(a2.listRestart),
      styleName := if f.styleName.None? then a2.styleName else if f.styleName.value == "" then None else f.styleName)
  }

  function SplitBlock(d: Doc, id: string, offset: nat, newId: string): Doc {
    var p := Position(d.blocks, id);
    if HasBlock(d, newId) || p == |d.blocks| then d
    else
      var b := d.blocks[p];
      var (left, right) := SplitInlines(b.inlines, offset);
      var tail := Block(newId, b.attrs.(listRestart := false), right);
      d.(blocks := d.blocks[..p] + [b.(inlines := left), tail] + d.blocks[p+1..])
  }

  function MergeBlocks(d: Doc, id: string, withPrevious: bool): Doc {
    var p := Position(d.blocks, id);
    if !withPrevious || p == |d.blocks| || p == 0 then d
    else
      var merged := Coalesced(d.blocks[p-1].inlines + d.blocks[p].inlines);
      d.(blocks := d.blocks[..p-1] + [d.blocks[p-1].(inlines := merged)] + d.blocks[p+1..])
  }

  function CommentPosition(cs: seq<DocComment>, id: string): (p: nat)
    ensures p <= |cs|
    ensures p < |cs| ==> cs[p].id == id
    ensures forall q :: 0 <= q < p ==> cs[q].id != id
  {
    if cs == [] || cs[0].id == id then 0 else 1 + CommentPosition(cs[1..], id)
  }

  function ApplyOp(d: Doc, op: DocOp): Doc {
    match op
    case OpInsertText(id, offset, text, marks) =>
      SetInlines(d, id, InsertText(InlinesOf(d, id), offset, text, marks))
    case OpDeleteRange(id, start, end) =>
      SetInlines(d, id, DeleteRange(InlinesOf(d, id), start, end))
    case OpSetBlockType(id, blockType, headingLevel) =>
      SetAttrs(d, id, (a: BlockAttrs) => a.(blockType := blockType, headingLevel := headingLevel))
    case OpInsertBlock(afterId, block) =>
      var p := Position(d.blocks, afterId);
      d.(blocks := if p < |d.blocks| then d.blocks[..p+1] + [block] + d.blocks[p+1..] else d.blocks + [block])
    case OpSplitBlock(id, offset, newId) => SplitBlock(d, id, offset, newId)
    case OpMergeBlocks(id, withPrevious) => MergeBlocks(d, id, withPrevious)
    case OpSetMarksRange(id, start, end, fields) =>
      SetInlines(d, id, MarkRange(InlinesOf(d, id), start, end, PatchOf(fields)))
    case OpSetInlineMarks(id, _, _, _, _, _, _, _) =>
      var l := InlinesOf(d, id);
      SetInlines(d, id, MarkRange(l, 0, ByteLen(BlockPlain(l)), WholeBlockPatch(op)))
    case OpSetBlockFormat(id, format) => SetAttrs(d, id, (a: BlockAttrs) => Formatted(a, format))
    case OpAddComment(c) =>
      if CommentPosition(d.comments, c.id) < |d.comments| then d
      else d.(comments := d.comments + [c.(resolved := false)])
    case OpResolveComment(id) =>
      var p := CommentPosition(d.comments, id);
      if p < |d.comments| then d.(comments := d.comments[p := d.comments[p].(resolved := true)]) else d
  }

  // ------------------------------------------------------------ invariant

  predicate WellFormedDoc(d: Doc) {
    forall i :: 0 <= i < |d.blocks| ==> WellFormed(d.blocks[i].inlines)
  }

  lemma RunsOfWellFormed(f: seq<Glyph>)
    ensures WellFormed(RunsOf(f))
  {
    RunsOfFlat(f);
  }

  lemma EditsKeepWellFormed(l: seq<InlineSpan>, op: DocOp)
    requires WellFormed(l)
    requires op.OpInsertText? || op.OpDeleteRange? || op.OpSetMarksRange? || op.OpSetInlineMarks?
    ensures op.OpInsertText? ==> WellFormed(InsertText(l, op.offset, op.text, op.marks))
    ensures op.OpDeleteRange? ==> WellFormed(DeleteRange(l, op.start, op.end))
    ensures op.OpSetMarksRange? ==> WellFormed(MarkRange(l, op.start, op.end, PatchOf(op.fields)))
    ensures op.OpSetInlineMarks? ==> WellFormed(MarkRange(l, 0, ByteLen(BlockPlain(l)), WholeBlockPatch(op)))
  {
    forall f { RunsOfWellFormed(f); }
  }

  lemma SplitKeepsWellFormed(d: Doc, id: string, offset: nat, newId: string)
    requires WellFormedDoc(d)
    ensures WellFormedDoc(SplitBlock(d, id, offset, newId))
  {
    var l := InlinesOf(d, id);
    RunsOfWellFormed(Flat(l)[..Caret(l, offset)]);
    RunsOfWellFormed(Flat(l)[Caret(l, offset)..]);
    CoalescedFixesWellFormed(l);
  }

  lemma MergeKeepsWellFormed(d: Doc, id: string, withPrevious: bool)
    requires WellFormedDoc(d)
    ensures WellFormedDoc(MergeBlocks(d, id, withPrevious))
  {
    var p := Position(d.blocks, id);
    if 0 < p < |d.blocks| {
      CoalescedFixesWellFormed(d.blocks[p-1].inlines + d.blocks[p].inlines);
    }
  }

  lemma SetKeepsWellFormed(d: Doc, id: string, l: seq<InlineSpan>)
    requires WellFormedDoc(d) && WellFormed(l)
    ensures WellFormedDoc(SetInlines(d, id, l))
  {
  }

  /** Every operation keeps every block coalesced, whatever its offsets and ids. */
  lemma ApplyKeepsWellFormed(d: Doc, op: DocOp)
    requires WellFormedDoc(d)
    requires op.OpInsertBlock? ==> WellFormed(op.block.inlines)
    ensures WellFormedDoc(ApplyOp(d, op))
  {
    match op
    case OpSplitBlock(id, offset, newId) => SplitKeepsWellFormed(d, id, offset, newId);
    case OpMergeBlocks(id, withPrevious) => MergeKeepsWellFormed(d, id, withPrevious);
    case OpInsertText(id, offset, text, marks) =>
      EditsKeepWellFormed(InlinesOf(d, id), op);
      SetKeepsWellFormed(d, id, InsertText(InlinesOf(d, id), offset, text, marks));
    case OpDeleteRange(id, start, end) =>
      EditsKeepWellFormed(InlinesOf(d, id), op);
      SetKeepsWellFormed(d, id, DeleteRange(InlinesOf(d, id), start, end));
    case OpSetMarksRange(id, start, end, fields) =>
      EditsKeepWellFormed(InlinesOf(d, id), op);
      SetKeepsWellFormed(d, id, MarkRange(InlinesOf(d, id), start, end, PatchOf(fields)));
    case OpSetInlineMarks(id, _, _, _, _, _, _, _) =>
      var l := InlinesOf(d, id);
      EditsKeepWellFormed(l, op);
      SetKeepsWellFormed(d, id, MarkRange(l, 0, ByteLen(BlockPlain(l)), WholeBlockPatch(op)));
    case _ =>
  }
}
