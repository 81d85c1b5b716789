/** Writing a sheet's cells as worksheet XML, and reading them back. */
module SheetXml {
  import opened Basics
  import opened Text
  import opened Ordered
  import opened Addresses
  import opened Sheets
  import opened Calc
  import opened Xml

  // ------------------------------------------------------------ reading

  /** The pieces between the occurrences of `p`. */
  function Split(s: string, p: string): (parts: seq<string>)
    requires p != ""
    ensures parts != []
    decreases |s|
  {
    var i := Find(s, p);
    if i.None? then [s] else [s[..i.value]] + Split(s[i.value+|p|..], p)
  }

  function AttrValue(chunk: string, name: string): Option<string> {
    var needle := name + "=\"";
    var i := Find(chunk, needle);
    if i.None? then None
    else
      var rest := chunk[i.value+|needle|..];
      var end := IndexOf(rest, '"');
      if end == |rest| then None else Some(rest[..end])
  }

  function ExtractTagText(chunk: string, tag: string): Option<string> {
    var i := Find(chunk, "<" + tag);
    if i.None? then None else TextAfter(chunk[i.value+1+|tag|..], tag)
  }

  /** The text of an element whose opening tag is cut after its name. */
  function TextAfter(after: string, tag: string): Option<string> {
    var gt := IndexOf(after, '>');
    if gt == |after| then None
    else if gt > 0 && after[gt-1] == '/' then Some("")
    else
      var rest := after[gt+1..];
      var end := Find(rest, "</" + tag + ">");
      if end.None? then None else Some(rest[..end.value])
  }

  const TWO_64: nat := 0x1_0000_0000_0000_0000

  /** Decimal digits with an optional plus sign, if the value fits. */
  function ParseIndex(s: string): Option<nat> {
    var t := if s != "" && s[0] == '+' then s[1..] else s;
    if t != "" && All(t, IsDigit) && DecimalValue(t) < TWO_64 then Some(DecimalValue(t)) else None
  }

  function WithEqualSign(f: string): string {
    if f != "" && f[0] == '=' then f else "=" + f
  }

  function ChunkFormula(chunk: string): string {
    var f := ExtractTagText(chunk, "f");
    if f.None? then "" else WithEqualSign(Trim(f.value))
  }

  function ChunkValue(chunk: string, shared: seq<string>): string {
    var raw := ExtractTagText(chunk, "v");
    if raw.None? then ""
    else if Find(chunk, "t=\"s\"").Some? && ParseIndex(raw.value).Some? then
      var i := ParseIndex(raw.value).value;
      if i < |shared| then shared[i] else ""
    else XmlUnescape(raw.value)
  }

  function AddEntry(acc: Cells, addr: string, value: string, formula: string): Cells {
    if value == "" && formula == "" then acc
    else acc[ToUpper(addr) := EMPTY_CELL.(value := value, formula := formula)]
  }

  function AddChunk(acc: Cells, chunk: string, shared: seq<string>): Cells {
    var addr := AttrValue(chunk, "r");
    if addr.None? then acc else AddEntry(acc, addr.value, ChunkValue(chunk, shared), ChunkFormula(chunk))
  }

  function AddChunks(acc: Cells, chunks: seq<string>, shared: seq<string>): Cells
    decreases |chunks|
  {
    if chunks == [] then acc else AddChunks(AddChunk(acc, chunks[0], shared), chunks[1..], shared)
  }

  /** What the text before the first cell and the cells after it add to `acc`. */
  function Scan(xml: string, shared: seq<string>, acc: Cells): Cells {
    AddChunks(acc, Split(xml, "<c ")[1..], shared)
  }

  function SheetCells(xml: string, shared: seq<string>): Cells {
    Scan(xml, shared, map[])
  }

  method ParseSheetCells(xml: string, shared: seq<string>) returns (cells: Cells)
    ensures cells == SheetCells(xml, shared)
  {
    hide Find, ToUpper, EMPTY_CELL, AttrValue, ChunkFormula, ChunkValue, Split;
    cells := map[];
    var chunks := Split(xml, "<c ");
    for i := 1 to |chunks|
      invariant AddChunks(cells, chunks[i..], shared) == AddChunks(map[], chunks[1..], shared)
    {
      assert chunks[i..][1..] == chunks[i+1..];
      var chunk := chunks[i];
      var addr := AttrValue(chunk, "r");
      if addr.None? {
        continue;
      }
      var formula, value := ChunkFormula(chunk), ChunkValue(chunk, shared);
      if value == "" && formula == "" {
        continue;
      }
      cells := cells[ToUpper(addr.value) := EMPTY_CELL.(value := value, formula := formula)];
    }
    assert chunks[|chunks|..] == [];
  }

  // ------------------------------------------------------------ writing

  datatype Group = Group(row: nat, keys: seq<string>)

  /** An ordered map from rows to keys, with `k` pushed on the entry of `row`. */
  function PushKey(groups: seq<Group>, row: nat, k: string): seq<Group> {
    if groups == [] || row < groups[0].row then [Group(row, [k])] + groups
    else if groups[0].row == row then [Group(row, groups[0].keys + [k])] + groups[1..]
    else [groups[0]] + PushKey(groups[1..], row, k)
  }

  /** The keys that are addresses, by row; the others are not written. */
  function Grouped(keys: seq<string>): seq<Group> {
    if keys == [] then []
    else
      var n := |keys| - 1;
      var at := ParseAddr(keys[n]);
      if at.None? then Grouped(keys[..n]) else PushKey(Grouped(keys[..n]), at.value.1, keys[n])
  }

  function CellTail(cell: Cell): string {
    var f := if cell.formula == "" then "" else "<f>" + XmlEscape(TrimStart(cell.formula, IsEqualSign)) + "</f>";
    f + "<v>" + XmlEscape(cell.value) + "</v></c>"
  }

  function CellBody(addr: string, cell: Cell): string {
    "r=\"" + addr + "\">" + CellTail(cell)
  }

  function CellXml(addr: string, cell: Cell): string {
    "<c " + CellBody(addr, cell)
  }

  function CellsXml(cells: Cells, keys: seq<string>): string {
    if keys == [] then ""
    else
      var n := |keys| - 1;
      CellsXml(cells, keys[..n]) + CellXml(keys[n], CellOr(cells, keys[n]))
  }

  function RowOpen(row: nat): string {
    "<row r=\"" + Decimal(row) + "\">"
  }

  function RowsXml(cells: Cells, groups: seq<Group>): string {
    if groups == [] then ""
    else
      var n := |groups| - 1;
      RowsXml(cells, groups[..n]) + (RowOpen(groups[n].row) + CellsXml(cells, groups[n].keys) + "</row>")
  }

  function Attribute(name: string, value: string): string {
    name + "=\"" + value + "\""
  }

  const MAIN_NAMESPACE: string := "http://schemas" + ".openxmlformats.org" + "/spreadsheetml" + "/2006/main"
  const DECLARATION: string :=
    "<" + (Attribute("?xml version", "1.0") + Attribute(" encoding", "UTF-8")
           + Attribute(" standalone", "yes") + "?>\n")
  const WORKSHEET: string := "<" + Attribute("worksheet xmlns", MAIN_NAMESPACE) + "><sheetData>"
  const OPENING: string := DECLARATION + WORKSHEET
  const CLOSING: string := "</sheetData></worksheet>"

  function WorksheetXml(cells: Cells): string {
    OPENING + RowsXml(cells, Grouped(SortedKeys(cells.Keys))) + CLOSING
  }

  method BuildWorksheetXml(cells: Cells) returns (xml: string)
    ensures xml == WorksheetXml(cells)
  {
    hide ParseAddr, SortedKeys, Ascending, PushKey, CellXml, RowOpen, OPENING, CLOSING;
    var keys := SortedKeys(cells.Keys);
    var groups: seq<Group> := [];
    for i := 0 to |keys|
      invariant groups == Grouped(keys[..i])
    {
      assert keys[..i+1][..i] == keys[..i];
      var at := ParseAddr(keys[i]);
      if at.Some? {
        groups := PushKey(groups, at.value.1, keys[i]);
      }
    }
    assert keys[..|keys|] == keys;
    xml := "";
    for i := 0 to |groups|
      invariant xml == RowsXml(cells, groups[..i])
    {
      assert groups[..i+1][..i] == groups[..i];
      var row := RowLoop(cells, groups[i]);
      xml := xml + row;
    }
    assert groups[..|groups|] == groups;
    xml := OPENING + xml + CLOSING;
  }

  method RowLoop(cells: Cells, group: Group) returns (xml: string)
    ensures xml == RowOpen(group.row) + CellsXml(cells, group.keys) + "</row>"
  {
    hide CellXml, RowOpen;
    var keys := group.keys;
    xml := RowOpen(group.row);
    for i := 0 to |keys|
      invariant xml == RowOpen(group.row) + CellsXml(cells, keys[..i])
    {
      assert keys[..i+1][..i] == keys[..i];
      xml := xml + CellXml(keys[i], CellOr(cells, keys[i]));
    }
    assert keys[..|keys|] == keys;
    xml := xml + "</row>";
  }

  // ------------------------------------------------------------ finding tags

  /** Every `<` is followed, within `s`, by something other than `c`. */
  predicate TagsAvoid(s: string, c: char) {
    forall i :: 0 <= i < |s| && s[i] == '<' ==> i + 1 < |s| && s[i+1] != c
  }

  lemma TagsConcat(a: string, b: string, c: char)
    requires TagsAvoid(a, c) && TagsAvoid(b, c)
    ensures TagsAvoid(a + b, c)
  {
    var s := a + b;
    forall i | 0 <= i < |s| && s[i] == '<' ensures i + 1 < |s| && s[i+1] != c {
      if i < |a| {
        assert a[i] == '<';
      } else {
        assert b[i - |a|] == '<';
      }
    }
  }

  lemma NoMarkupTags(s: string, c: char)
    requires NoMarkup(s)
    ensures TagsAvoid(s, c)
  {
  }

  lemma TagsTail(s: string, c: char)
    requires TagsAvoid(s, c) && s != ""
    ensures TagsAvoid(s[1..], c)
  {
    forall i | 0 <= i < |s[1..]| && s[1..][i] == '<' ensures i + 1 < |s[1..]| && s[1..][i+1] != c {
      assert s[i+1] == '<';
    }
  }

  /** A tag is not found in text whose tags avoid its second character, nor across its end. */
  lemma {:induction false} FindSkips(a: string, b: string, p: string)
    requires |p| > 1 && p[0] == '<' && TagsAvoid(a, p[1])
    ensures Find(a + b, p) == Shifted(Find(b, p), |a|)
    decreases |a|
  {
    hide Find, TagsAvoid;
    if a == "" {
      assert a + b == b;
    } else {
      var s := a + b;
      assert s[0] == a[0] && s[1..] == a[1..] + b;
      NotATag(a, b, p);
      FindLater(s, p);
      TagsTail(a, p[1]);
      FindSkips(a[1..], b, p);
    }
  }

  lemma NotATag(a: string, b: string, p: string)
    requires a != "" && |p| > 1 && p[0] == '<' && TagsAvoid(a, p[1])
    ensures !StartsWith(a + b, p)
  {
    var s := a + b;
    assert s[0] == a[0];
    if a[0] == '<' {
      assert s[1] == a[1];
    }
  }

  lemma FindFirst(a: string, p: string, b: string)
    requires |p| > 1 && p[0] == '<' && TagsAvoid(a, p[1])
    ensures Find(a + p + b, p) == Some(|a|)
  {
    assert a + p + b == a + (p + b);
    FindSkips(a, p + b, p);
  }

  lemma FindNothing(s: string, p: string)
    requires |p| > 1 && p[0] == '<' && TagsAvoid(s, p[1])
    ensures Find(s, p) == None
  {
    assert s + "" == s;
    FindSkips(s, "", p);
  }

  lemma SplitStep(s: string, p: string)
    requires p != ""
    ensures Find(s, p).None? ==> Split(s, p) == [s]
    ensures Find(s, p).Some? ==>
              Split(s, p) == [s[..Find(s, p).value]] + Split(s[Find(s, p).value+|p|..], p)
  {
    hide Find;
  }

  /** Text in front of the first tag stays in front. */
  lemma SplitSkips(a: string, b: string, p: string)
    requires |p| > 1 && p[0] == '<' && TagsAvoid(a, p[1])
    ensures Split(a + b, p) == [a + Split(b, p)[0]] + Split(b, p)[1..]
  {
    hide Find, TagsAvoid, Split;
    FindSkips(a, b, p);
    SplitStep(a + b, p);
    SplitStep(b, p);
    var i := Find(b, p);
    if i.Some? {
      assert (a + b)[..|a| + i.value] == a + b[..i.value];
      assert (a + b)[|a| + i.value + |p|..] == b[i.value + |p|..];
    }
  }

  // ------------------------------------------------------------ the shared-string mark

  /** If there is a quote at `i`, it does not end a `t="`, whatever stands in front of `s`. */
  predicate QuoteHarmless(s: string, i: nat)
    requires i < |s|
  {
    s[i] == '"' ==> i > 0 && (s[i-1] == '=' ==> i > 1 && s[i-2] != 't')
  }

  predicate QuotesHarmless(s: string) {
    forall i: nat :: i < |s| ==> QuoteHarmless(s, i)
  }

  lemma QuotesConcat(a: string, b: string)
    requires QuotesHarmless(a) && QuotesHarmless(b)
    ensures QuotesHarmless(a + b)
  {
    var s := a + b;
    forall i: nat | i < |s| ensures QuoteHarmless(s, i) {
      if i < |a| {
        assert QuoteHarmless(a, i);
      } else {
        assert QuoteHarmless(b, i - |a|);
      }
    }
  }

  lemma {:induction false} NotShared(s: string, n: nat)
    requires QuotesHarmless(s) && n <= |s|
    ensures Find(s[n..], "t=\"s\"") == None
    decreases |s| - n
  {
    var p := "t=\"s\"";
    var t := s[n..];
    if |p| <= |t| {
      assert t[0] == s[n] && t[1] == s[n+1] && t[2] == s[n+2];
      assert QuoteHarmless(s, n + 2);
      assert p[0] == 't' && p[1] == '=' && p[2] == '"';
    }
    assert !StartsWith(t, p);
    if n < |s| {
      NotShared(s, n + 1);
      assert t[1..] == s[n+1..];
    }
  }

  /** Text that ends no chunk's formula or value and marks nothing as shared. */
  predicate Inert(s: string) {
    TagsAvoid(s, 'c') && TagsAvoid(s, 'f') && QuotesHarmless(s)
  }

  lemma InertConcat(a: string, b: string)
    requires Inert(a) && Inert(b)
    ensures Inert(a + b)
  {
    hide TagsAvoid, QuotesHarmless;
    TagsConcat(a, b, 'c');
    TagsConcat(a, b, 'f');
    QuotesConcat(a, b);
  }
}
