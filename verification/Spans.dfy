/** Span-aware text editing: a block's text is a list of runs sharing one set of
    marks each. The reference reading of such a list is the flat sequence of
    (character, marks) pairs; every edit of the run list is specified by the same
    edit of the flat sequence, re-encoded as maximal runs. */
module Spans {
  import opened Basics
  import opened Utf8

  datatype Marks = Marks(
    bold: bool, italic: bool, underline: bool, strike: bool,
    linkUrl: Option<string>, fontFamily: Option<string>, fontSizePt: Option<nat>,
    color: Option<string>, highlight: Option<string>,
    superscript: bool, subscript: bool)

  datatype InlineSpan = InlineSpan(text: string, marks: Marks)

  datatype Glyph = Glyph(ch: char, marks: Marks)

  const NO_MARKS: Marks :=
    Marks(false, false, false, false, None, None, None, None, None, false, false)

  function PlainSpan(text: string): InlineSpan {
    InlineSpan(text, NO_MARKS)
  }

  function BlockPlain(l: seq<InlineSpan>): string {
    if l == [] then "" else l[0].text + BlockPlain(l[1..])
  }

  // ---------------------------------------------------------------- flat reading

  function Styled(text: string, m: Marks): (f: seq<Glyph>) {
    seq(|text|, i requires 0 <= i < |text| => Glyph(text[i], m))
  }

  function Chars(f: seq<Glyph>): (s: string) {
    seq(|f|, i requires 0 <= i < |f| => f[i].ch)
  }

  function Flat(l: seq<InlineSpan>): seq<Glyph> {
    if l == [] then [] else Styled(l[0].text, l[0].marks) + Flat(l[1..])
  }

  lemma {:induction false} FlatConcat(a: seq<InlineSpan>, b: seq<InlineSpan>)
    ensures Flat(a + b) == Flat(a) + Flat(b)
  {
    if a == [] {
      assert a + b == b;
    } else {
      assert (a + b)[1..] == a[1..] + b;
      FlatConcat(a[1..], b);
    }
  }

  lemma FlatSplit(l: seq<InlineSpan>, i: nat)
    requires i <= |l|
    ensures Flat(l) == Flat(l[..i]) + Flat(l[i..])
  {
    assert l == l[..i] + l[i..];
    FlatConcat(l[..i], l[i..]);
  }

  lemma FlatSnoc(l: seq<InlineSpan>, s: InlineSpan)
    ensures Flat(l + [s]) == Flat(l) + Styled(s.text, s.marks)
  {
    FlatConcat(l, [s]);
    assert Flat([s]) == Styled(s.text, s.marks) + [];
  }

  /** The runs spell the same text as the flat reading. */
  lemma {:induction false} PlainIsChars(l: seq<InlineSpan>)
    ensures BlockPlain(l) == Chars(Flat(l))
  {
    if l != [] {
      PlainIsChars(l[1..]);
    }
  }

  lemma CharsConcat(f: seq<Glyph>, g: seq<Glyph>)
    ensures Chars(f + g) == Chars(f) + Chars(g)
  {
  }

  // ------------------------------------------------------------- canonical form

  predicate NonEmptyRuns(l: seq<InlineSpan>) {
    forall i :: 0 <= i < |l| ==> l[i].text != ""
  }

  /** No empty run, and no two neighbours that could be merged. */
  predicate Canonical(l: seq<InlineSpan>) {
    NonEmptyRuns(l) && forall i :: 0 < i < |l| ==> l[i-1].marks != l[i].marks
  }

  /** Appends a non-empty run, merging it into the last run when the marks agree. */
  function AppendRun(runs: seq<InlineSpan>, s: InlineSpan): seq<InlineSpan> {
    var n := |runs|;
    if n > 0 && runs[n-1].marks == s.marks then
      runs[..n-1] + [InlineSpan(runs[n-1].text + s.text, s.marks)]
    else
      runs + [s]
  }

  /** Run-length encoding of a flat sequence into maximal runs. */
  function RunsOf(f: seq<Glyph>): seq<InlineSpan> {
    if f == [] then []
    else
      var g := f[|f|-1];
      AppendRun(RunsOf(f[..|f|-1]), InlineSpan([g.ch], g.marks))
  }

  /** What coalescing leaves behind: maximal runs, or one empty plain run. */
  function Normal(f: seq<Glyph>): seq<InlineSpan> {
    if f == [] then [PlainSpan("")] else RunsOf(f)
  }

  function Coalesced(l: seq<InlineSpan>): seq<InlineSpan> {
    if l == [] then [] else Normal(Flat(l))
  }

  lemma FlatAppendRun(runs: seq<InlineSpan>, s: InlineSpan)
    ensures Flat(AppendRun(runs, s)) == Flat(runs) + Styled(s.text, s.marks)
  {
    var n := |runs|;
    if n > 0 && runs[n-1].marks == s.marks {
      FlatSnoc(runs[..n-1], runs[n-1]);
      assert runs == runs[..n-1] + [runs[n-1]];
      FlatSnoc(runs[..n-1], InlineSpan(runs[n-1].text + s.text, s.marks));
      assert Styled(runs[n-1].text + s.text, s.marks)
          == Styled(runs[n-1].text, s.marks) + Styled(s.text, s.marks);
    } else {
      FlatSnoc(runs, s);
    }
  }

  lemma AppendRunCanonical(runs: seq<InlineSpan>, s: InlineSpan)
    requires Canonical(runs) && s.text != ""
    ensures Canonical(AppendRun(runs, s))
  {
  }

  /** Encoding loses nothing and yields canonical lists. */
  lemma {:induction false} RunsOfFlat(f: seq<Glyph>)
    ensures Flat(RunsOf(f)) == f && Canonical(RunsOf(f))
    ensures f != [] ==> RunsOf(f) != []
  {
    if f != [] {
      var n := |f| - 1;
      var last := InlineSpan([f[n].ch], f[n].marks);
      RunsOfFlat(f[..n]);
      AppendRunCanonical(RunsOf(f[..n]), last);
      FlatAppendRun(RunsOf(f[..n]), last);
      assert f == f[..n] + Styled(last.text, last.marks);
    }
  }

  lemma FlatNormal(f: seq<Glyph>)
    ensures Flat(Normal(f)) == f && Normal(f) != []
  {
    RunsOfFlat(f);
    assert Flat([PlainSpan("")]) == Styled("", NO_MARKS) + [];
  }

  lemma AppendTwice(runs: seq<InlineSpan>, t: string, u: string, m: Marks)
    ensures AppendRun(AppendRun(runs, InlineSpan(t, m)), InlineSpan(u, m)) == AppendRun(runs, InlineSpan(t + u, m))
  {
    var n := |runs|;
    if n > 0 && runs[n-1].marks == m {
      assert runs[n-1].text + t + u == runs[n-1].text + (t + u);
    }
  }

  lemma RunsOfSnoc(f: seq<Glyph>, g: Glyph)
    ensures RunsOf(f + [g]) == AppendRun(RunsOf(f), InlineSpan([g.ch], g.marks))
  {
    assert (f + [g])[..|f|] == f;
  }

  lemma {:induction false} RunsOfAppend(f: seq<Glyph>, t: string, m: Marks)
    requires t != ""
    ensures RunsOf(f + Styled(t, m)) == AppendRun(RunsOf(f), InlineSpan(t, m))
  {
    hide RunsOf, AppendRun;
    var n := |t| - 1;
    RunsOfSnoc(f + Styled(t[..n], m), Glyph(t[n], m));
    assert f + Styled(t[..n], m) + [Glyph(t[n], m)] == f + Styled(t, m);
    if n == 0 {
      assert f + Styled(t[..n], m) == f;
      assert [t[n]] == t;
    } else {
      RunsOfAppend(f, t[..n], m);
      AppendTwice(RunsOf(f), t[..n], [t[n]], m);
      assert t[..n] + [t[n]] == t;
    }
  }

  /** Equal flat readings have only one canonical run list. */
  lemma {:induction false} CanonicalIsRunsOf(l: seq<InlineSpan>)
    requires Canonical(l)
    ensures RunsOf(Flat(l)) == l
  {
    if l != [] {
      var n := |l| - 1;
      CanonicalIsRunsOf(l[..n]);
      FlatSnoc(l[..n], l[n]);
      assert l == l[..n] + [l[n]];
      RunsOfAppend(Flat(l[..n]), l[n].text, l[n].marks);
    }
  }

  lemma CanonicalUnique(a: seq<InlineSpan>, b: seq<InlineSpan>)
    requires Canonical(a) && Canonical(b) && Flat(a) == Flat(b)
    ensures a == b
  {
    CanonicalIsRunsOf(a);
    CanonicalIsRunsOf(b);
  }

  /** A list that coalescing leaves alone: empty, one empty plain run, or canonical. */
  predicate WellFormed(l: seq<InlineSpan>) {
    l == [PlainSpan("")] || Canonical(l)
  }

  /** Coalescing fixes exactly the well-formed lists. */
  lemma CoalescedFixesWellFormed(l: seq<InlineSpan>)
    ensures Coalesced(l) == l <==> WellFormed(l)
    ensures WellFormed(Coalesced(l)) && Flat(Coalesced(l)) == Flat(l)
  {
    FlatNormal(Flat(l));
    RunsOfFlat(Flat(l));
    if Canonical(l) {
      CanonicalIsRunsOf(l);
    }
    if l == [PlainSpan("")] {
      assert Flat(l) == [];
    }
  }

  /** One step of the coalescing loop: an empty run disappears, any other is appended. */
  lemma CoalesceStep(l: seq<InlineSpan>, i: nat)
    requires i < |l|
    ensures RunsOf(Flat(l[..i+1]))
         == if l[i].text == "" then RunsOf(Flat(l[..i])) else AppendRun(RunsOf(Flat(l[..i])), l[i])
  {
    hide RunsOf, AppendRun, Flat;
    FlatSnoc(l[..i], l[i]);
    assert l[..i+1] == l[..i] + [l[i]];
    if l[i].text == "" {
      assert Flat(l[..i]) + Styled(l[i].text, l[i].marks) == Flat(l[..i]);
    } else {
      RunsOfAppend(Flat(l[..i]), l[i].text, l[i].marks);
    }
  }

  method CoalesceAdjacent(l: seq<InlineSpan>) returns (out: seq<InlineSpan>)
    ensures out == Coalesced(l)
  {
    if l == [] {
      return l;
    }
    out := [];
    for i := 0 to |l|
      invariant out == RunsOf(Flat(l[..i]))
    {
      var span := l[i];
      CoalesceStep(l, i);
      if span.text == "" {
        continue;
      }
      if out != [] && out[|out|-1].marks == span.marks {
        var last := out[|out|-1];
        out := out[..|out|-1] + [last.(text := last.text + span.text)];
      } else {
        out := out + [span];
      }
    }
    assert l[..|l|] == l;
    RunsOfFlat(Flat(l));
    if out == [] {
      out := [PlainSpan("")];
    }
  }
}
