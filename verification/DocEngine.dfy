/** The mutable side of the document engine: a document edited in place, the merge
    loop over it, and the operation log. */
module DocEngine {
  import opened Basics
  import opened Utf8
  import opened Spans
  import opened SpanEdits
  import opened Documents
  import opened Transforms
  import opened Merge

  class EradDocument {
    var blocks: seq<Block>
    var comments: seq<DocComment>

    function Value(): Doc
      reads this
    {
      Doc(blocks, comments)
    }

    constructor (d: Doc)
      ensures Value() == d
    {
      blocks, comments := d.blocks, d.comments;
    }

    method ApplyInPlace(op: DocOp)
      modifies this
      ensures Value() == ApplyOp(old(Value()), op)
    {
      hide InsertText, DeleteRange, MarkRange, SplitInlines, Coalesced, Formatted, PatchOf, WholeBlockPatch;
      match op {
        case OpInsertText(id, offset, text, marks) =>
          var p := Position(blocks, id);
          if p < |blocks| {
            var l := InsertTextPreserving(blocks[p].inlines, offset, text, marks);
            blocks := blocks[p := blocks[p].(inlines := l)];
          }
        case OpDeleteRange(id, start, end) =>
          var p := Position(blocks, id);
          if p < |blocks| {
            var l := DeleteRangePreserving(blocks[p].inlines, start, end);
            blocks := blocks[p := blocks[p].(inlines := l)];
          }
        case OpSetBlockType(id, blockType, headingLevel) =>
          var p := Position(blocks, id);
          if p < |blocks| {
            var a := blocks[p].attrs;
            blocks := blocks[p := blocks[p].(attrs := a.(blockType := blockType, headingLevel := headingLevel))];
          }
        case OpInsertBlock(afterId, block) =>
          var p := Position(blocks, afterId);
          if p < |blocks| {
            blocks := blocks[..p+1] + [block] + blocks[p+1..];
          } else {
            blocks := blocks + [block];
          }
        case OpSplitBlock(id, offset, newId) => SplitInPlace(id, offset, newId);
        case OpMergeBlocks(id, withPrevious) => MergeInPlace(id, withPrevious);
        case OpSetMarksRange(id, start, end, fields) =>
          var p := Position(blocks, id);
          if p < |blocks| {
            var l := ApplyMarksRange(blocks[p].inlines, start, end, PatchOf(fields));
            blocks := blocks[p := blocks[p].(inlines := l)];
          }
        case OpSetInlineMarks(id, _, _, _, _, _, _, _) =>
          var p := Position(blocks, id);
          if p < |blocks| {
            var end := ByteLen(BlockPlain(blocks[p].inlines));
            var l := ApplyMarksRange(blocks[p].inlines, 0, end, WholeBlockPatch(op));
            blocks := blocks[p := blocks[p].(inlines := l)];
          }
        case OpSetBlockFormat(id, format) =>
          var p := Position(blocks, id);
          if p < |blocks| {
            blocks := blocks[p := blocks[p].(attrs := Formatted(blocks[p].attrs, format))];
          }
        case OpAddComment(c) =>
          if CommentPosition(comments, c.id) == |comments| {
            comments := comments + [c.(resolved := false)];
          }
        case OpResolveComment(id) =>
          var p := CommentPosition(comments, id);
          if p < |comments| {
            comments := comments[p := comments[p].(resolved := true)];
          }
      }
    }

    method SplitInPlace(id: string, offset: nat, newId: string)
      modifies this
      ensures Value() == SplitBlock(old(Value()), id, offset, newId)
    {
      if Position(blocks, newId) < |blocks| {
        return;
      }
      var p := Position(blocks, id);
      if p < |blocks| {
        var source := blocks[p];
        var left, right := SplitInlinesAt(source.inlines, offset);
        blocks := blocks[p := source.(inlines := left)];
        blocks := blocks[..p+1] + [Block(newId, source.attrs.(listRestart := false), right)] + blocks[p+1..];
      }
    }

    method MergeInPlace(id: string, withPrevious: bool)
      modifies this
      ensures Value() == MergeBlocks(old(Value()), id, withPrevious)
    {
      hide Coalesced;
      if !withPrevious {
        return;
      }
      var p := Position(blocks, id);
      if p == |blocks| || p == 0 {
        return;
      }
      var joined := CoalesceAdjacent(blocks[p-1].inlines + blocks[p].inlines);
      blocks := blocks[p-1 := blocks[p-1].(inlines := joined)];
      blocks := blocks[..p] + blocks[p+1..];
    }
  }

  /** Applies a batch in order, each operation transformed against those already applied. */
  method MergeConcurrent(doc: EradDocument, ops: seq<DocOp>)
    modifies doc
    ensures doc.Value() == Merged(old(doc.Value()), ops).0
  {
    hide ApplyOp, TransformAgainst;
    ghost var base := doc.Value();
    var applied: seq<DocOp> := [];
    for i := 0 to |ops|
      invariant (doc.Value(), applied) == Merged(base, ops[..i])
    {
      var transformed := ops[i];
      for j := 0 to |applied|
        invariant transformed == TransformAll(ops[i], applied[..j])
      {
        assert applied[..j+1][..j] == applied[..j];
        transformed := TransformAgainst(transformed, applied[j]);
      }
      assert applied[..|applied|] == applied && ops[..i+1][..i] == ops[..i];
      doc.ApplyInPlace(transformed);
      applied := applied + [transformed];
    }
    assert ops[..|ops|] == ops;
  }

  // ------------------------------------------------------------ operation log

  function Replayed(d: Doc, ops: seq<DocOp>): Doc {
    if ops == [] then d else ApplyOp(Replayed(d, ops[..|ops|-1]), ops[|ops|-1])
  }

  class OpLog {
    var version: nat
    var ops: seq<DocOp>

    ghost predicate Valid()
      reads this
    {
      version == |ops|
    }

    constructor ()
      ensures Valid() && ops == []
    {
      version, ops := 0, [];
    }

    method Append(op: DocOp)
      requires Valid()
      modifies this
      ensures Valid() && ops == old(ops) + [op] && version == old(version) + 1
    {
      version := version + 1;
      ops := ops + [op];
    }

    method Replay(doc: EradDocument)
      modifies doc
      ensures doc.Value() == Replayed(old(doc.Value()), ops)
    {
      hide ApplyOp;
      ghost var base := doc.Value();
      for i := 0 to |ops|
        invariant doc.Value() == Replayed(base, ops[..i])
      {
        assert ops[..i+1][..i] == ops[..i];
        doc.ApplyInPlace(ops[i]);
      }
      assert ops[..|ops|] == ops;
    }

    /** What a client at version `since` is missing: replayed on its document, whatever the base,
        it gives the document of the whole log. */
    method OpsSince(since: nat) returns (tail: seq<DocOp>)
      ensures |tail| == Max(0, |ops| - since) && ops[..|ops| - |tail|] + tail == ops
      ensures forall d :: Replayed(Replayed(d, ops[..|ops| - |tail|]), tail) == Replayed(d, ops)
    {
      hide Replayed;
      var skip := Min(since, |ops|);
      tail := ops[skip..];
      forall d ensures Replayed(Replayed(d, ops[..|ops| - |tail|]), tail) == Replayed(d, ops) {
        CatchUp(d, ops, since);
      }
    }
  }

  /** A client that has version `v` catches up by replaying what came after it. */
  lemma {:induction false} CatchUp(d: Doc, ops: seq<DocOp>, v: nat)
    ensures Replayed(Replayed(d, ops[..Min(v, |ops|)]), ops[Min(v, |ops|)..]) == Replayed(d, ops)
  {
    hide ApplyOp;
    var n := |ops|;
    if n <= v {
      assert ops[..n] == ops && ops[n..] == [];
    } else {
      CatchUp(d, ops[..n-1], v);
      assert ops[..n-1][..v] == ops[..v];
      assert ops[v..][..n-1-v] == ops[..n-1][v..];
    }
  }

  /** One logged operation is just applied, so with `CatchUp` a log is applied operation by operation. */
  lemma ReplayOne(d: Doc, op: DocOp)
    ensures Replayed(d, []) == d && Replayed(d, [op]) == ApplyOp(d, op)
  {
    hide ApplyOp;
    assert [op][..0] == [];
  }

  /** Every document reachable through the log keeps all its blocks coalesced. */
  lemma {:induction false} ReplayKeepsWellFormed(d: Doc, ops: seq<DocOp>)
    requires WellFormedDoc(d)
    requires forall i :: 0 <= i < |ops| && ops[i].OpInsertBlock? ==> WellFormed(ops[i].block.inlines)
    ensures WellFormedDoc(Replayed(d, ops))
  {
    hide ApplyOp, WellFormedDoc, WellFormed;
    if ops != [] {
      ReplayKeepsWellFormed(d, ops[..|ops|-1]);
      ApplyKeepsWellFormed(Replayed(d, ops[..|ops|-1]), ops[|ops|-1]);
    }
  }
}
