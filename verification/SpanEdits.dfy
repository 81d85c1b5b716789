/** The in-place edits of a run list. Each is proved to be the corresponding edit
    of the flat sequence, at byte offsets floored to a character boundary. */
module SpanEdits {
  import opened Basics
  import opened Utf8
  import opened Spans

  /** Character position that byte `offset` falls back to. */
  function Caret(l: seq<InlineSpan>, offset: nat): (k: nat)
    ensures k <= |Flat(l)|
  {
    PlainIsChars(l);
    CharsWithin(BlockPlain(l), offset)
  }

  /** The prefix of the flat reading that ends at a boundary is found by byte count. */
  lemma PrefixByBytes(l: seq<InlineSpan>, i: nat, offset: nat)
    requires i <= |l|
    requires ByteLen(BlockPlain(l[..i])) == FloorCharBoundary(BlockPlain(l), offset)
    ensures Flat(l[..i]) == Flat(l)[..Caret(l, offset)]
    ensures Flat(l[i..]) == Flat(l)[Caret(l, offset)..]
  {
    hide Flat, BlockPlain, ByteLen, CharsWithin;
    var plain, pre, k := BlockPlain(l), BlockPlain(l[..i]), Caret(l, offset);
    FlatSplit(l, i);
    PlainIsChars(l);
    PlainIsChars(l[..i]);
    FloorIsCharsWithin(plain, offset);
    assert plain[..|pre|] == pre;
    ByteLenOrder(plain, |pre|, k);
    ByteLenOrder(plain, k, |pre|);
  }

  /** Run `i` cut in two after its first `cut` characters. */
  function CutRun(l: seq<InlineSpan>, i: nat, cut: nat): (out: seq<InlineSpan>)
    requires i < |l| && cut <= |l[i].text|
  {
    l[..i] + [InlineSpan(l[i].text[..cut], l[i].marks), InlineSpan(l[i].text[cut..], l[i].marks)] + l[i+1..]
  }

  lemma CutRunFlat(l: seq<InlineSpan>, i: nat, cut: nat)
    requires i < |l| && cut <= |l[i].text|
    ensures Flat(CutRun(l, i, cut)[..i+1]) == Flat(l[..i]) + Styled(l[i].text[..cut], l[i].marks)
    ensures Flat(CutRun(l, i, cut)[..i+1]) + Flat(CutRun(l, i, cut)[i+1..]) == Flat(l)
  {
    var t, m := l[i].text, l[i].marks;
    var a, b := InlineSpan(t[..cut], m), InlineSpan(t[cut..], m);
    var out := CutRun(l, i, cut);
    assert out[..i+1] == l[..i] + [a];
    FlatSnoc(l[..i], a);
    assert out[i+1..] == [b] + l[i+1..];
    assert Flat(out[i+1..]) == Styled(t[cut..], m) + Flat(l[i+1..]);
    assert l[i..][1..] == l[i+1..];
    assert Flat(l[i..]) == Styled(t, m) + Flat(l[i+1..]);
    FlatSplit(l, i);
    StyledSplit(t, cut, m);
  }

  lemma StyledSplit(t: string, cut: nat, m: Marks)
    requires cut <= |t|
    ensures Styled(t, m) == Styled(t[..cut], m) + Styled(t[cut..], m)
  {
  }

  lemma PlainSplit(l: seq<InlineSpan>, i: nat)
    requires i <= |l|
    ensures BlockPlain(l) == BlockPlain(l[..i]) + BlockPlain(l[i..])
  {
    hide Flat, BlockPlain, Chars;
    FlatSplit(l, i);
    PlainIsChars(l);
    PlainIsChars(l[..i]);
    PlainIsChars(l[i..]);
    CharsConcat(Flat(l[..i]), Flat(l[i..]));
  }

  lemma BytesSnoc(l: seq<InlineSpan>, i: nat)
    requires i < |l|
    ensures BlockPlain(l[..i+1]) == BlockPlain(l[..i]) + l[i].text
    ensures ByteLen(BlockPlain(l[..i+1])) == ByteLen(BlockPlain(l[..i])) + ByteLen(l[i].text)
  {
    PlainSplit(l[..i+1], i);
    assert l[..i+1][..i] == l[..i] && l[..i+1][i..] == [l[i]];
    assert BlockPlain([l[i]]) == l[i].text + "";
    ByteLenConcat(BlockPlain(l[..i]), l[i].text);
  }

  /** A caret whose byte position lies strictly inside run `i`, counted from that run's start. */
  lemma CaretInRun(plain: string, pre: string, t: string, offset: nat) returns (cut: nat)
    requires pre + t <= plain
    requires ByteLen(pre) < FloorCharBoundary(plain, offset) < ByteLen(pre + t)
    ensures cut == CharsWithin(t, FloorCharBoundary(plain, offset) - ByteLen(pre))
    ensures 0 < cut < |t| && CharsWithin(plain, offset) == |pre| + cut
  {
    var k := CharsWithin(plain, offset);
    FloorIsCharsWithin(plain, offset);
    assert plain[..|pre|] == pre && plain[..|pre + t|] == pre + t;
    ByteLenOrder(plain, |pre|, k);
    ByteLenOrder(plain, k, |pre + t|);
    cut := k - |pre|;
    assert plain[..k] == pre + t[..cut];
    ByteLenConcat(pre, t[..cut]);
    CharsWithinAligned(t, cut);
  }

  /** `out` is `l` with the character position `k` on the run boundary `idx`. */
  ghost predicate SplitHere(l: seq<InlineSpan>, k: nat, out: seq<InlineSpan>, idx: nat)
    requires k <= |Flat(l)|
  {
    && idx <= |out|
    && Flat(out[..idx]) == Flat(l)[..k]
    && Flat(out[idx..]) == Flat(l)[k..]
    && (k == 0 ==> idx == 0 && out == l)
    && (k == |Flat(l)| > 0 ==> idx == |l| && out == l)
    && (0 < k ==> 0 < idx <= |l| && out[..idx-1] == l[..idx-1] && k <= |Flat(l[..idx])|)
    && (0 < k < |Flat(l)| ==> out[idx-1].marks == Flat(l)[k-1].marks)
  }

  lemma SplitOnBoundary(l: seq<InlineSpan>, i: nat, offset: nat)
    requires i < |l| && l[i].text != ""
    requires ByteLen(BlockPlain(l[..i+1])) == FloorCharBoundary(BlockPlain(l), offset)
    requires Caret(l, offset) < |Flat(l)|
    ensures SplitHere(l, Caret(l, offset), l, i + 1)
  {
    hide Flat, BlockPlain, ByteLen, Caret, FloorCharBoundary;
    PrefixByBytes(l, i + 1, offset);
    assert l[..i+1] == l[..i] + [l[i]];
    FlatSnoc(l[..i], l[i]);
  }

  lemma SplitInsideRun(l: seq<InlineSpan>, i: nat, offset: nat) returns (cut: nat)
    requires i < |l|
    requires ByteLen(BlockPlain(l[..i])) < FloorCharBoundary(BlockPlain(l), offset) < ByteLen(BlockPlain(l[..i+1]))
    ensures cut == CharsWithin(l[i].text, FloorCharBoundary(BlockPlain(l), offset) - ByteLen(BlockPlain(l[..i])))
    ensures 0 < cut < |l[i].text|
    ensures SplitHere(l, Caret(l, offset), CutRun(l, i, cut), i + 1)
  {
    hide Flat, BlockPlain, ByteLen, CharsWithin;
    BytesSnoc(l, i);
    PlainSplit(l, i + 1);
    cut := CaretInRun(BlockPlain(l), BlockPlain(l[..i]), l[i].text, offset);
    CutRunFlat(l, i, cut);
    PlainIsChars(l);
    PlainIsChars(l[..i]);
    PlainIsChars(l[..i+1]);
    var out := CutRun(l, i, cut);
    assert out[..i] == l[..i] && out[i].marks == l[i].marks;
  }

  /** The two ends of the text need no cut. */
  lemma SplitAtEnds(l: seq<InlineSpan>, offset: nat)
    ensures FloorCharBoundary(BlockPlain(l), offset) == 0 <==> Caret(l, offset) == 0
    ensures FloorCharBoundary(BlockPlain(l), offset) >= ByteLen(BlockPlain(l)) <==> Caret(l, offset) == |Flat(l)|
    ensures Caret(l, offset) == 0 ==> SplitHere(l, 0, l, 0)
    ensures Caret(l, offset) == |Flat(l)| > 0 ==> SplitHere(l, |Flat(l)|, l, |l|)
  {
    hide BlockPlain, CharsWithin;
    var plain, k := BlockPlain(l), Caret(l, offset);
    FloorIsCharsWithin(plain, offset);
    PlainIsChars(l);
    assert plain[..|plain|] == plain && l[..|l|] == l;
    ByteLenOrder(plain, 0, k);
    ByteLenOrder(plain, k, |plain|);
  }

  /** The run that byte position `at` falls in or ends, and the bytes before it. */
  method ScanRuns(l: seq<InlineSpan>, at: nat) returns (i: nat, acc: nat)
    requires 0 < at < ByteLen(BlockPlain(l))
    ensures i < |l| && acc == ByteLen(BlockPlain(l[..i])) < at <= ByteLen(BlockPlain(l[..i+1]))
    ensures ByteLen(BlockPlain(l[..i+1])) == acc + ByteLen(l[i].text) && l[i].text != ""
  {
    acc, i := 0, 0;
    // The source guards the scan with i < len as well; a caret before the end of
    // the text is always met before the runs are exhausted.
    while acc + ByteLen(l[i].text) < at
      invariant 0 <= i < |l| && acc == ByteLen(BlockPlain(l[..i])) < at
      decreases |l| - i
    {
      BytesSnoc(l, i);
      assert l[..|l|] == l;
      acc := acc + ByteLen(l[i].text);
      i := i + 1;
    }
    BytesSnoc(l, i);
  }

  predicate AddsNoEmptyRun(l: seq<InlineSpan>, out: seq<InlineSpan>) {
    forall s :: s in out && s.text == "" ==> s in l
  }

  lemma CutAddsNoEmptyRun(l: seq<InlineSpan>, i: nat, cut: nat)
    requires i < |l| && 0 < cut < |l[i].text|
    ensures AddsNoEmptyRun(l, CutRun(l, i, cut))
  {
  }

  method SplitAt(l: seq<InlineSpan>, offset: nat) returns (out: seq<InlineSpan>, idx: nat)
    ensures SplitHere(l, Caret(l, offset), out, idx)
    ensures AddsNoEmptyRun(l, out)
  {
    hide Flat, ByteLen;
    var plain := BlockPlain(l);
    var floored := FloorCharBoundary(plain, offset);
    SplitAtEnds(l, offset);
    if floored == 0 {
      return l, 0;
    }
    if floored >= ByteLen(plain) {
      return l, |l|;
    }
    var i, acc := ScanRuns(l, floored);
    if acc + ByteLen(l[i].text) == floored {
      SplitOnBoundary(l, i, offset);
      return l, i + 1;
    }
    // The kept half is never empty, so the source's removal of it never happens.
    var cut := CharsWithin(l[i].text, floored - acc);
    ghost var _ := SplitInsideRun(l, i, offset);
    CutAddsNoEmptyRun(l, i, cut);
    return CutRun(l, i, cut), i + 1;
  }

  lemma CaretByFlat(a: seq<InlineSpan>, b: seq<InlineSpan>, offset: nat)
    requires Flat(a) == Flat(b)
    ensures Caret(a, offset) == Caret(b, offset)
  {
    PlainIsChars(a);
    PlainIsChars(b);
  }

  lemma CaretFloored(l: seq<InlineSpan>, offset: nat)
    ensures Caret(l, FloorCharBoundary(BlockPlain(l), offset)) == Caret(l, offset)
  {
    FloorIsCharsWithin(BlockPlain(l), offset);
    CharsWithinAligned(BlockPlain(l), CharsWithin(BlockPlain(l), offset));
  }

  /** Flooring keeps the order of carets. */
  lemma FloorOrder(l: seq<InlineSpan>, s: nat, e: nat)
    ensures FloorCharBoundary(BlockPlain(l), s) < FloorCharBoundary(BlockPlain(l), e) <==> Caret(l, s) < Caret(l, e)
  {
    FloorIsCharsWithin(BlockPlain(l), s);
    FloorIsCharsWithin(BlockPlain(l), e);
    ByteLenOrder(BlockPlain(l), Caret(l, s), Caret(l, e));
  }

  function Splice<T>(f: seq<T>, i: nat, j: nat, g: seq<T>): seq<T>
    requires i <= j <= |f|
  {
    f[..i] + g + f[j..]
  }

  // ------------------------------------------------------------ insert

  /** Marks of text typed at character `k`: the explicit ones, else those of the run before the caret. */
  function CaretMarks(l: seq<InlineSpan>, k: nat, typing: Option<InlineSpan>): Marks
    requires k <= |Flat(l)|
  {
    if typing.Some? then typing.value.marks
    else if l == [] then NO_MARKS
    else if k == 0 then l[0].marks
    else if k == |Flat(l)| then l[|l|-1].marks
    else Flat(l)[k-1].marks
  }

  function InsertText(l: seq<InlineSpan>, offset: nat, text: string, typing: Option<InlineSpan>): seq<InlineSpan> {
    if text == "" then l
    else
      var k := Caret(l, offset);
      RunsOf(Splice(Flat(l), k, k, Styled(text, CaretMarks(l, k, typing))))
  }

  method InsertTextPreserving(l: seq<InlineSpan>, offset: nat, text: string, typing: Option<InlineSpan>)
    returns (out: seq<InlineSpan>)
    ensures out == InsertText(l, offset, text, typing)
  {
    if text == "" {
      return l;
    }
    if l == [] {
      var m := if typing.Some? then typing.value.marks else NO_MARKS;
      OneRun(text, m);
      assert Splice(Flat(l), 0, 0, Styled(text, m)) == Styled(text, m);
      return [InlineSpan(text, m)];
    }
    ghost var k := Caret(l, offset);
    CaretFloored(l, offset);
    var runs, idx := SplitAt(l, FloorCharBoundary(BlockPlain(l), offset));
    assert k == 0 ==> idx == 0;
    var template :=
      if typing.Some? then typing.value
      else if idx > 0 then runs[idx-1]
      else if idx < |runs| then runs[idx]
      else PlainSpan("");
    assert template.marks == CaretMarks(l, k, typing);
    InsertRunFlat(runs, idx, InlineSpan(text, template.marks));
    out := CoalesceAdjacent(runs[..idx] + [InlineSpan(text, template.marks)] + runs[idx..]);
  }

  lemma OneRun(text: string, m: Marks)
    requires text != ""
    ensures RunsOf(Styled(text, m)) == [InlineSpan(text, m)]
  {
    var none: seq<Glyph> := [];
    RunsOfAppend(none, text, m);
    assert none + Styled(text, m) == Styled(text, m);
  }

  lemma InsertRunFlat(l: seq<InlineSpan>, i: nat, s: InlineSpan)
    requires i <= |l|
    ensures Flat(l[..i] + [s] + l[i..]) == Flat(l[..i]) + Styled(s.text, s.marks) + Flat(l[i..])
  {
    FlatSnoc(l[..i], s);
    FlatConcat(l[..i] + [s], l[i..]);
  }

  // ------------------------------------------------------------ ranges

  /** Cuts the runs at both ends of a range, end first so that the start index stays valid. */
  method IsolateRange(l: seq<InlineSpan>, start: nat, end: nat)
    returns (out: seq<InlineSpan>, a: nat, b: nat)
    requires Caret(l, start) < Caret(l, end)
    ensures a < b <= |out|
    ensures Flat(out[..a]) == Flat(l)[..Caret(l, start)]
    ensures Flat(out[a..b]) == Flat(l)[Caret(l, start)..Caret(l, end)]
    ensures Flat(out[b..]) == Flat(l)[Caret(l, end)..]
    ensures Caret(l, start) == 0 ==> a == 0
    ensures Caret(l, end) == |Flat(l)| ==> b == |out|
  {
    var l1, i1 := SplitAt(l, end);
    SplitKeepsFlat(l, Caret(l, end), l1, i1);
    CaretByFlat(l, l1, start);
    var l2, i2 := SplitAt(l1, start);
    SplitKeepsFlat(l1, Caret(l1, start), l2, i2);
    CaretByFlat(l, l2, end);
    var l3, i3 := SplitAt(l2, end);
    SecondCut(l2, l3, i2, i3, Caret(l, start), Caret(l, end));
    return l3, i2, i3;
  }

  lemma SplitKeepsFlat(l: seq<InlineSpan>, k: nat, out: seq<InlineSpan>, idx: nat)
    requires k <= |Flat(l)| && SplitHere(l, k, out, idx)
    ensures Flat(out) == Flat(l)
  {
    FlatSplit(out, idx);
  }

  lemma FlatPrefixLength(l: seq<InlineSpan>, b: nat, a: nat)
    requires b <= a <= |l|
    ensures |Flat(l[..b])| <= |Flat(l[..a])|
  {
    FlatSplit(l[..a], b);
    assert l[..a][..b] == l[..b];
  }

  /** Cutting at `j` after a cut at an earlier `i` leaves the runs before `i` alone. */
  lemma SecondCut(l2: seq<InlineSpan>, l3: seq<InlineSpan>, a: nat, b: nat, i: nat, j: nat)
    requires i < j <= |Flat(l2)| && a <= |l2|
    requires Flat(l2[..a]) == Flat(l2)[..i]
    requires SplitHere(l2, j, l3, b)
    ensures a < b && Flat(l3[..a]) == Flat(l2)[..i] && Flat(l3[a..b]) == Flat(l2)[i..j]
  {
    if b <= a {
      FlatPrefixLength(l2, b, a);
    }
    assert l3[..a] == l3[..b-1][..a] == l2[..b-1][..a] == l2[..a];
    FlatSplit(l3[..b], a);
    assert l3[..b][..a] == l3[..a] && l3[..b][a..] == l3[a..b];
  }

  function DeleteRange(l: seq<InlineSpan>, start: nat, end: nat): seq<InlineSpan> {
    var i, j := Caret(l, start), Caret(l, end);
    if j <= i then l else RunsOf(Splice(Flat(l), i, j, []))
  }

  method DeleteRangePreserving(l: seq<InlineSpan>, start: nat, end: nat) returns (out: seq<InlineSpan>)
    ensures out == DeleteRange(l, start, end)
  {
    var plain := BlockPlain(l);
    var s := FloorCharBoundary(plain, start);
    var e := Max(FloorCharBoundary(plain, end), s);
    FloorOrder(l, start, end);
    CaretFloored(l, start);
    CaretFloored(l, end);
    if s >= e {
      return l;
    }
    var runs, a, b := IsolateRange(l, s, e);
    FlatConcat(runs[..a], runs[b..]);
    RunsNonEmpty(runs[..a] + runs[b..]);
    assert Flat(runs[..a] + runs[b..]) == Splice(Flat(l), Caret(l, start), Caret(l, end), []);
    out := CoalesceAdjacent(runs[..a] + runs[b..]);
  }

  // ------------------------------------------------------------ marks

  /** A field that is None is left alone; an inner None clears an optional mark. */
  datatype MarksPatch = MarksPatch(
    bold: Option<bool>, italic: Option<bool>, underline: Option<bool>, strike: Option<bool>,
    linkUrl: Option<Option<string>>, fontFamily: Option<Option<string>>, fontSizePt: Option<Option<nat>>,
    color: Option<Option<string>>, highlight: Option<Option<string>>,
    superscript: Option<bool>, subscript: Option<bool>)

  function ApplyPatch(m: Marks, p: MarksPatch): Marks {
    Marks(p.bold.GetOr(m.bold), p.italic.GetOr(m.italic), p.underline.GetOr(m.underline), p.strike.GetOr(m.strike),
          p.linkUrl.GetOr(m.linkUrl), p.fontFamily.GetOr(m.fontFamily), p.fontSizePt.GetOr(m.fontSizePt),
          p.color.GetOr(m.color), p.highlight.GetOr(m.highlight),
          p.superscript.GetOr(m.superscript), p.subscript.GetOr(m.subscript))
  }

  function Patched(f: seq<Glyph>, p: MarksPatch): (r: seq<Glyph>)
    ensures |r| == |f|
  {
    seq(|f|, i requires 0 <= i < |f| => Glyph(f[i].ch, ApplyPatch(f[i].marks, p)))
  }

  function PatchedRange(f: seq<Glyph>, i: nat, j: nat, p: MarksPatch): seq<Glyph>
    requires i <= j <= |f|
  {
    Splice(f, i, j, Patched(f[i..j], p))
  }

  function MarkRange(l: seq<InlineSpan>, start: nat, end: nat, p: MarksPatch): seq<InlineSpan> {
    var i, j := Caret(l, start), Caret(l, end);
    if j <= i then l else RunsOf(PatchedRange(Flat(l), i, j, p))
  }

  method ApplyMarksRange(l: seq<InlineSpan>, start: nat, end: nat, p: MarksPatch) returns (out: seq<InlineSpan>)
    ensures out == MarkRange(l, start, end, p)
  {
    var plain := BlockPlain(l);
    var s := FloorCharBoundary(plain, start);
    var e := Max(FloorCharBoundary(plain, end), s);
    FloorOrder(l, start, end);
    CaretFloored(l, start);
    CaretFloored(l, end);
    if s >= e {
      return l;
    }
    var runs, a, b := IsolateRange(l, s, e);
    var patched := PatchRuns(runs[a..b], p);
    FlatConcat(runs[..a], patched);
    FlatConcat(runs[..a] + patched, runs[b..]);
    out := CoalesceAdjacent(runs[..a] + patched + runs[b..]);
  }

  method PatchRuns(l: seq<InlineSpan>, p: MarksPatch) returns (out: seq<InlineSpan>)
    ensures |out| == |l| && Flat(out) == Patched(Flat(l), p)
  {
    out := l;
    for i := 0 to |l|
      invariant |out| == |l| && forall j :: i <= j < |l| ==> out[j] == l[j]
      invariant Flat(out[..i]) == Patched(Flat(l[..i]), p)
    {
      out := out[i := out[i].(marks := ApplyPatch(out[i].marks, p))];
      hide Flat;
      assert out[..i+1] == out[..i] + [out[i]];
      assert l[..i+1] == l[..i] + [l[i]];
      FlatSnoc(out[..i], out[i]);
      FlatSnoc(l[..i], l[i]);
    }
    assert out[..|l|] == out && l[..|l|] == l;
  }

  // ------------------------------------------------------------ split

  /** The two halves of a block; an empty half of a non-empty text has no run at all. */
  function SplitInlines(l: seq<InlineSpan>, offset: nat): (seq<InlineSpan>, seq<InlineSpan>) {
    var k := Caret(l, offset);
    (RunsOf(Flat(l)[..k]), if Flat(l) == [] then Coalesced(l) else RunsOf(Flat(l)[k..]))
  }

  method SplitInlinesAt(l: seq<InlineSpan>, offset: nat) returns (left: seq<InlineSpan>, right: seq<InlineSpan>)
    ensures (left, right) == SplitInlines(l, offset)
  {
    var runs, idx := SplitAt(l, offset);
    left := CoalesceAdjacent(runs[..idx]);
    right := CoalesceAdjacent(runs[idx..]);
    RunsNonEmpty(runs[..idx]);
    RunsNonEmpty(runs[idx..]);
    assert runs[|runs|..] == [];
  }

  lemma RunsNonEmpty(l: seq<InlineSpan>)
    ensures Flat(l) != [] ==> l != [] && Coalesced(l) == RunsOf(Flat(l))
  {
  }
}
