/** Reading back the worksheet XML of a sheet: what survives, and exactly when. */
module SheetRoundTrip {
  import opened Basics
  import opened Text
  import opened Ordered
  import opened Addresses
  import opened Sheets
  import opened Calc
  import opened Xml
  import opened SheetXml

  // ------------------------------------------------------------ one cell

  /** What is read back for a formula. */
  function FormulaBack(f: string): string {
    if f == "" then "" else WithEqualSign(Trim(XmlEscape(TrimStart(f, IsEqualSign))))
  }

  predicate AddressChar(c: char) {
    IsAlpha(c) || IsDigit(c) || c == '+'
  }

  lemma AddressChars(k: string)
    requires ParseAddr(k).Some?
    ensures forall i :: 0 <= i < |k| ==> AddressChar(k[i])
  {
    hide DecimalValue, ColumnNumber;
    var s := ToUpper(k);
    var n := Span(s, IsAlpha);
    forall i | 0 <= i < |k| ensures AddressChar(k[i]) {
      assert s[i] == ToUpperChar(k[i]);
      if i >= n {
        assert s[n..][i-n] == s[i];
        if s[n] == '+' && i > n {
          assert s[n..][1..][i-n-1] == s[i];
        }
      }
    }
  }

  /** The first quote after the address is the one that closes it. */
  lemma AttrOfBody(k: string, rest: string)
    requires forall i :: 0 <= i < |k| ==> AddressChar(k[i])
    ensures AttrValue("r=\"" + k + "\">" + rest, "r") == Some(k)
  {
    hide Find;
    var needle := "r" + "=\"";
    assert needle == "r=\"";
    var chunk := "r=\"" + k + "\">" + rest;
    FindAtStart(chunk, needle);
    var tail := chunk[|needle|..];
    assert tail == k + "\"" + (">" + rest);
    IndexOfPast(k, '"', ">" + rest);
    assert tail[..|k|] == k;
  }

  function Element(tag: string, x: string): string {
    "<" + tag + ">" + x + "</" + tag + ">"
  }

  lemma TextFound(tag: string, x: string, b: string)
    requires NoMarkup(x)
    ensures TextAfter(">" + (x + ("</" + tag + ">") + b), tag) == Some(x)
  {
    hide Find, TagsAvoid, NoMarkup, IndexOf;
    var close := "</" + tag + ">";
    var rest := x + close + b;
    var after := ">" + rest;
    IndexOfPast("", '>', rest);
    assert "" + ">" + rest == after;
    assert after[1..] == rest;
    NoMarkupTags(x, close[1]);
    FindFirst(x, close, b);
    assert rest[..|x|] == x;
  }

  /** An element `<t>x</t>` is read as `x`. */
  lemma ElementText(a: string, tag: string, x: string, b: string)
    requires tag != "" && TagsAvoid(a, tag[0]) && NoMarkup(x)
    ensures ExtractTagText(a + Element(tag, x) + b, tag) == Some(x)
  {
    hide Find, TagsAvoid, NoMarkup, TextAfter;
    var open := "<" + tag;
    var after := ">" + (x + ("</" + tag + ">") + b);
    ElementParts(a, tag, x, b);
    FindFirst(a, open, after);
    TextFound(tag, x, b);
    assert (a + open + after)[|a| + 1 + |tag|..] == after;
  }

  lemma ElementParts(a: string, tag: string, x: string, b: string)
    ensures a + Element(tag, x) + b == a + ("<" + tag) + (">" + (x + ("</" + tag + ">") + b))
  {
  }

  function FormulaXml(cell: Cell): string {
    if cell.formula == "" then "" else Element("f", XmlEscape(TrimStart(cell.formula, IsEqualSign)))
  }

  function Start(k: string): string {
    "r=\"" + k + "\">"
  }

  lemma StartInert(k: string)
    requires forall i :: 0 <= i < |k| ==> AddressChar(k[i])
    ensures QuotesHarmless(Start(k)) && forall c :: TagsAvoid(Start(k), c)
  {
    var s := Start(k);
    forall i: nat | i < |s| ensures QuoteHarmless(s, i) && s[i] != '<' {
      if 3 <= i < 3 + |k| {
        assert s[i] == k[i-3];
      }
      if i == 3 + |k| && |k| > 0 {
        assert s[i-1] == k[|k|-1];
      }
    }
  }

  lemma ElementInert(tag: string, x: string)
    requires NoMarkup(x) && |tag| == 1 && !IsSpecial(tag[0])
    ensures QuotesHarmless(Element(tag, x))
    ensures forall c :: c != tag[0] && c != '/' ==> TagsAvoid(Element(tag, x), c)
  {
    var s := Element(tag, x);
    assert |s| == 3 + |x| + 4 && s[1] == tag[0] && s[2] == '>';
    assert s[3 + |x|] == '<' && s[4 + |x|] == '/' && s[5 + |x|] == tag[0];
    assert tag[0] != '<' && s[6 + |x|] == '>';
    forall i: nat | i < |s|
      ensures QuoteHarmless(s, i) && (s[i] == '<' ==> i + 1 < |s| && (s[i+1] == tag[0] || s[i+1] == '/'))
    {
      if 3 <= i < 3 + |x| {
        assert s[i] == x[i-3];
      }
    }
  }

  lemma BodyParts(k: string, cell: Cell)
    ensures CellBody(k, cell) == Start(k) + FormulaXml(cell) + Element("v", XmlEscape(cell.value)) + "</c>"
  {
    hide XmlEscape, TrimStart;
    var v := XmlEscape(cell.value);
    assert "<" + "v" + ">" == "<v>" && "</" + "v" + ">" == "</v>";
    assert "<" + "f" + ">" == "<f>" && "</" + "f" + ">" == "</f>";
    assert "</v>" + "</c>" == "</v></c>";
  }

  /** Everything before the value. */
  lemma FrontTags(k: string, cell: Cell)
    requires forall i :: 0 <= i < |k| ==> AddressChar(k[i])
    ensures var a := Start(k) + FormulaXml(cell);
            QuotesHarmless(a) && TagsAvoid(a, 'c') && TagsAvoid(a, 'v') && (cell.formula == "" ==> TagsAvoid(a, 'f'))
  {
    hide XmlEscape, TrimStart, QuotesHarmless, TagsAvoid, NoMarkup, IsSpace, PlainText, Element;
    StartInert(k);
    if cell.formula == "" {
      assert Start(k) + "" == Start(k);
    } else {
      var f := XmlEscape(TrimStart(cell.formula, IsEqualSign));
      Spaces();
      EscapeShape(TrimStart(cell.formula, IsEqualSign), ' ');
      ElementInert("f", f);
      QuotesConcat(Start(k), Element("f", f));
      TagsConcat(Start(k), Element("f", f), 'c');
      TagsConcat(Start(k), Element("f", f), 'v');
    }
  }

  lemma Spaces()
    ensures IsSpace(' ')
  {
  }

  /** The whole of a written cell, up to the next one. */
  lemma BodyTags(k: string, cell: Cell)
    requires forall i :: 0 <= i < |k| ==> AddressChar(k[i])
    ensures QuotesHarmless(CellBody(k, cell)) && TagsAvoid(CellBody(k, cell), 'c')
    ensures cell.formula == "" ==> TagsAvoid(CellBody(k, cell), 'f')
  {
    hide XmlEscape, TrimStart, QuotesHarmless, TagsAvoid, NoMarkup, IsSpace, PlainText, Element, FormulaXml,
      CellBody, Start;
    var a, v := Start(k) + FormulaXml(cell), XmlEscape(cell.value);
    FrontTags(k, cell);
    Spaces();
    EscapeShape(cell.value, ' ');
    ElementInert("v", v);
    BodyParts(k, cell);
    var e := Element("v", v);
    EndInert();
    QuotesConcat(a, e);
    QuotesConcat(a + e, "</c>");
    TagsConcat(a, e, 'c');
    TagsConcat(a + e, "</c>", 'c');
    if cell.formula == "" {
      TagsConcat(a, e, 'f');
      TagsConcat(a + e, "</c>", 'f');
    }
  }

  lemma EndInert()
    ensures Inert("</c>") && Inert("</row>")
  {
  }

  /** The chunk of a written cell is read as its value and its formula, whatever inert text follows it. */
  lemma ChunkRead(k: string, cell: Cell, trail: string, shared: seq<string>)
    requires (forall i :: 0 <= i < |k| ==> AddressChar(k[i])) && TagsAvoid(trail, 'f') && QuotesHarmless(trail)
    ensures var chunk := CellBody(k, cell) + trail;
            && AttrValue(chunk, "r") == Some(k)
            && ChunkValue(chunk, shared) == cell.value
            && ChunkFormula(chunk) == FormulaBack(cell.formula)
  {
    hide XmlEscape, TrimStart, QuotesHarmless, TagsAvoid, NoMarkup, IsSpace, PlainText, Element, CellBody, Trim, Find,
      ExtractTagText, AttrValue, XmlUnescape, ParseIndex, WithEqualSign;
    var chunk := CellBody(k, cell) + trail;
    var f, v := XmlEscape(TrimStart(cell.formula, IsEqualSign)), XmlEscape(cell.value);
    Spaces();
    BodyParts(k, cell);
    BodyTags(k, cell);
    QuotesConcat(CellBody(k, cell), trail);
    NotShared(chunk, 0);
    assert chunk[0..] == chunk;
    var a, e := Start(k) + FormulaXml(cell), Element("v", v);
    AttrOfBody(k, FormulaXml(cell) + e + "</c>" + trail);
    assert chunk == "r=\"" + k + "\">" + (FormulaXml(cell) + e + "</c>" + trail);
    FrontTags(k, cell);
    EscapeShape(cell.value, ' ');
    ElementText(a, "v", v, "</c>" + trail);
    assert chunk == a + e + ("</c>" + trail);
    UnescapeEscape(cell.value);
    if cell.formula == "" {
      TagsConcat(CellBody(k, cell), trail, 'f');
      assert "<" + "f" == "<f";
      FindNothing(chunk, "<f");
      NoTag(chunk, "f");
    } else {
      EscapeShape(TrimStart(cell.formula, IsEqualSign), ' ');
      StartInert(k);
      ElementText(Start(k), "f", f, e + "</c>" + trail);
      assert chunk == Start(k) + Element("f", f) + (e + "</c>" + trail);
    }
  }

  lemma NoTag(chunk: string, tag: string)
    requires Find(chunk, "<" + tag) == None
    ensures ExtractTagText(chunk, tag) == None
  {
  }

  // ------------------------------------------------------------ the whole sheet

  /** What `rest` adds to the chunk in front of it is inert. */
  predicate FollowsWell(rest: string) {
    var t := Split(rest, "<c ")[0];
    TagsAvoid(t, 'f') && QuotesHarmless(t)
  }

  lemma ScanText(a: string, rest: string, shared: seq<string>, acc: Cells)
    requires Inert(a)
    ensures Scan(a + rest, shared, acc) == Scan(rest, shared, acc)
    ensures FollowsWell(rest) ==> FollowsWell(a + rest)
  {
    hide TagsAvoid, QuotesHarmless, Split, AddChunks;
    SplitSkips(a, rest, "<c ");
    var t := Split(rest, "<c ")[0];
    if FollowsWell(rest) {
      TagsConcat(a, t, 'f');
      QuotesConcat(a, t);
    }
  }

  lemma SplitCell(body: string, rest: string)
    requires TagsAvoid(body, 'c')
    ensures Split("<c " + body + rest, "<c ") == ["", body + Split(rest, "<c ")[0]] + Split(rest, "<c ")[1..]
  {
    hide TagsAvoid, Split, Find;
    var s := "<c " + body + rest;
    FindAtStart(s, "<c ");
    SplitStep(s, "<c ");
    assert s[3..] == body + rest;
    SplitSkips(body, rest, "<c ");
  }

  lemma AddChunksFirst(acc: Cells, chunk: string, chunks: seq<string>, shared: seq<string>)
    ensures AddChunks(acc, [chunk] + chunks, shared) == AddChunks(AddChunk(acc, chunk, shared), chunks, shared)
  {
    hide AddChunk;
    assert ([chunk] + chunks)[1..] == chunks;
  }

  /** What is read back for one cell. */
  function Read(acc: Cells, k: string, cell: Cell): Cells {
    AddEntry(acc, k, cell.value, FormulaBack(cell.formula))
  }

  lemma EmptyFollows()
    ensures FollowsWell("")
  {
    hide Find;
    FindNothing("", "<c ");
    SplitStep("", "<c ");
  }

  lemma ScanCell(k: string, cell: Cell, rest: string, shared: seq<string>, acc: Cells)
    requires (forall i :: 0 <= i < |k| ==> AddressChar(k[i])) && FollowsWell(rest)
    ensures Scan(CellXml(k, cell) + rest, shared, acc) == Scan(rest, shared, Read(acc, k, cell))
    ensures FollowsWell(CellXml(k, cell) + rest)
  {
    hide TagsAvoid, QuotesHarmless, Split, AddChunks, CellBody, AttrValue, ChunkFormula, ChunkValue, FormulaBack,
      AddEntry;
    var body, parts := CellBody(k, cell), Split(rest, "<c ");
    BodyTags(k, cell);
    SplitCell(body, rest);
    assert CellXml(k, cell) + rest == "<c " + body + rest;
    var chunk := body + parts[0];
    ChunkRead(k, cell, parts[0], shared);
    AddChunksFirst(acc, chunk, parts[1..], shared);
    assert Split(CellXml(k, cell) + rest, "<c ")[1..] == [chunk] + parts[1..];
    EmptyInert();
  }

  lemma EmptyInert()
    ensures Inert("")
  {
  }

  ghost predicate AllAddresses(keys: seq<string>) {
    forall i :: 0 <= i < |keys| ==> ParseAddr(keys[i]).Some?
  }

  /** What is read back for the cells at `keys`, in this order. */
  function Collected(cells: Cells, keys: seq<string>, acc: Cells): Cells {
    if keys == [] then acc
    else
      var n := |keys| - 1;
      Read(Collected(cells, keys[..n], acc), keys[n], CellOr(cells, keys[n]))
  }

  lemma {:induction false} CollectedConcat(cells: Cells, a: seq<string>, b: seq<string>, acc: Cells)
    ensures Collected(cells, a + b, acc) == Collected(cells, b, Collected(cells, a, acc))
    decreases |b|
  {
    hide Read;
    if b == [] {
      assert a + b == a;
    } else {
      var n := |b| - 1;
      assert (a + b)[..|a| + n] == a + b[..n];
      CollectedConcat(cells, a, b[..n], acc);
    }
  }

  lemma {:induction false} ScanCells(cells: Cells, keys: seq<string>, rest: string, shared: seq<string>, acc: Cells)
    requires AllAddresses(keys) && FollowsWell(rest)
    ensures Scan(CellsXml(cells, keys) + rest, shared, acc) == Scan(rest, shared, Collected(cells, keys, acc))
    ensures FollowsWell(CellsXml(cells, keys) + rest)
    decreases |keys|
  {
    hide Read, Scan, CellXml, FollowsWell, ParseAddr;
    if keys == [] {
      assert CellsXml(cells, keys) + rest == rest;
    } else {
      var n := |keys| - 1;
      var x := CellXml(keys[n], CellOr(cells, keys[n]));
      AddressChars(keys[n]);
      ScanCell(keys[n], CellOr(cells, keys[n]), rest, shared, Collected(cells, keys[..n], acc));
      ScanCells(cells, keys[..n], x + rest, shared, acc);
      assert CellsXml(cells, keys) + rest == CellsXml(cells, keys[..n]) + (x + rest);
    }
  }

  function Flat(groups: seq<Group>): seq<string> {
    if groups == [] then [] else Flat(groups[..|groups|-1]) + groups[|groups|-1].keys
  }

  lemma RowOpenInert(row: nat)
    ensures Inert(RowOpen(row))
  {
    DecimalRoundTrip(row);
    var d := Decimal(row);
    hide Decimal, DecimalValue;
    var s := "<row r=\"" + d + "\">";
    forall i: nat | i < |s| ensures QuoteHarmless(s, i) && (s[i] == '<' ==> i == 0) {
      if 8 <= i < 8 + |d| {
        assert s[i] == d[i-8];
      }
      if i == 8 + |d| {
        assert s[i-1] == d[|d|-1];
      }
    }
  }

  lemma {:induction false} ScanRows(cells: Cells, groups: seq<Group>, rest: string, shared: seq<string>, acc: Cells)
    requires (forall i :: 0 <= i < |groups| ==> AllAddresses(groups[i].keys)) && FollowsWell(rest)
    ensures Scan(RowsXml(cells, groups) + rest, shared, acc) == Scan(rest, shared, Collected(cells, Flat(groups), acc))
    ensures FollowsWell(RowsXml(cells, groups) + rest)
    decreases |groups|
  {
    hide Scan, CellsXml, FollowsWell, AllAddresses, Inert, Collected, RowOpen;
    if groups == [] {
      assert RowsXml(cells, groups) + rest == rest;
      CollectedNothing(cells, acc);
    } else {
      var n := |groups| - 1;
      var g, before := groups[n], Collected(cells, Flat(groups[..n]), acc);
      var row, inner := RowOpen(g.row), CellsXml(cells, g.keys);
      EndInert();
      RowOpenInert(g.row);
      ScanText("</row>", rest, shared, Collected(cells, g.keys, before));
      ScanCells(cells, g.keys, "</row>" + rest, shared, before);
      ScanText(row, inner + ("</row>" + rest), shared, before);
      ScanRows(cells, groups[..n], row + (inner + ("</row>" + rest)), shared, acc);
      assert RowsXml(cells, groups) + rest == RowsXml(cells, groups[..n]) + (row + (inner + ("</row>" + rest)));
      CollectedConcat(cells, Flat(groups[..n]), g.keys, acc);
    }
  }

  lemma CollectedNothing(cells: Cells, acc: Cells)
    ensures Collected(cells, [], acc) == acc
  {
  }

  // ------------------------------------------------------------ the order of writing

  /** Rows come in ascending order, and each holds keys of that row. */
  ghost predicate ByRow(groups: seq<Group>) {
    groups != [] ==> InRowOf(groups[0]) && AllAbove(groups[1..], groups[0].row) && ByRow(groups[1..])
  }

  ghost predicate AllAbove(groups: seq<Group>, row: nat) {
    forall i :: 0 <= i < |groups| ==> groups[i].row > row
  }

  ghost predicate InRowOf(g: Group) {
    forall i :: 0 <= i < |g.keys| ==> ParseAddr(g.keys[i]).Some? && ParseAddr(g.keys[i]).value.1 == g.row
  }

  lemma {:induction false} FlatCons(g: Group, groups: seq<Group>)
    ensures Flat([g] + groups) == g.keys + Flat(groups)
    decreases |groups|
  {
    var all := [g] + groups;
    if groups == [] {
      assert all[..0] == [];
    } else {
      var n := |groups| - 1;
      assert all[..n+1] == [g] + groups[..n];
      FlatCons(g, groups[..n]);
    }
  }

  lemma {:induction false} PushKeyAbove(groups: seq<Group>, row: nat, k: string, low: nat)
    requires AllAbove(groups, low) && row > low
    ensures AllAbove(PushKey(groups, row, k), low)
    decreases |groups|
  {
    if groups != [] && row > groups[0].row {
      PushKeyAbove(groups[1..], row, k, low);
    }
  }

  lemma {:induction false} PushKeyByRow(groups: seq<Group>, row: nat, k: string)
    requires ByRow(groups) && ParseAddr(k).Some? && ParseAddr(k).value.1 == row
    ensures ByRow(PushKey(groups, row, k))
    decreases |groups|
  {
    hide ParseAddr;
    var pushed := PushKey(groups, row, k);
    if groups == [] || row < groups[0].row {
      assert pushed[1..] == groups;
    } else if groups[0].row == row {
      assert pushed[1..] == groups[1..];
    } else {
      PushKeyByRow(groups[1..], row, k);
      PushKeyAbove(groups[1..], row, k, groups[0].row);
      assert pushed[1..] == PushKey(groups[1..], row, k);
    }
  }

  lemma {:induction false} PushKeyFlat(groups: seq<Group>, row: nat, k: string)
    ensures multiset(Flat(PushKey(groups, row, k))) == multiset(Flat(groups)) + multiset{k}
    decreases |groups|
  {
    hide Flat;
    if groups == [] || row < groups[0].row {
      FlatCons(Group(row, [k]), groups);
    } else {
      var g, rest := groups[0], groups[1..];
      assert groups == [g] + rest;
      FlatCons(g, rest);
      if g.row == row {
        FlatCons(Group(row, g.keys + [k]), rest);
      } else {
        PushKeyFlat(rest, row, k);
        FlatCons(g, PushKey(rest, row, k));
      }
    }
  }

  function AddressKeys(keys: seq<string>): seq<string> {
    if keys == [] then []
    else AddressKeys(keys[..|keys|-1]) + (if ParseAddr(keys[|keys|-1]).Some? then [keys[|keys|-1]] else [])
  }

  /** Every address is written once, in its row; other keys are not written. */
  lemma {:induction false} GroupedShape(keys: seq<string>)
    ensures ByRow(Grouped(keys))
    ensures multiset(Flat(Grouped(keys))) == multiset(AddressKeys(keys))
  {
    hide ParseAddr, PushKey;
    if keys != [] {
      hide ByRow, Flat;
      var n := |keys| - 1;
      GroupedShape(keys[..n]);
      var at := ParseAddr(keys[n]);
      if at.Some? {
        PushKeyByRow(Grouped(keys[..n]), at.value.1, keys[n]);
        PushKeyFlat(Grouped(keys[..n]), at.value.1, keys[n]);
      }
    }
  }

  lemma {:induction false} AddressKeysMembers(keys: seq<string>, k: string)
    ensures k in AddressKeys(keys) <==> k in keys && ParseAddr(k).Some?
  {
    hide ParseAddr;
    if keys != [] {
      var n := |keys| - 1;
      assert keys == keys[..n] + [keys[n]];
      AddressKeysMembers(keys[..n], k);
    }
  }

  lemma {:induction false} ByRowAddresses(groups: seq<Group>)
    requires ByRow(groups)
    ensures forall i :: 0 <= i < |groups| ==> AllAddresses(groups[i].keys)
  {
    hide ParseAddr;
    if groups != [] {
      ByRowAddresses(groups[1..]);
      forall i | 0 <= i < |groups| ensures AllAddresses(groups[i].keys) {
        if i > 0 { assert groups[i] == groups[1..][i-1]; }
      }
    }
  }

  /** The keys in the order in which their cells are written. */
  function WriteOrder(cells: Cells): seq<string> {
    Flat(Grouped(SortedKeys(cells.Keys)))
  }

  lemma WriteOrderMembers(cells: Cells, k: string)
    ensures k in WriteOrder(cells) <==> k in cells && ParseAddr(k).Some?
  {
    hide ParseAddr, Flat, Grouped, AddressKeys;
    var keys := SortedKeys(cells.Keys);
    GroupedShape(keys);
    AddressKeysMembers(keys, k);
    assert k in Flat(Grouped(keys)) <==> k in multiset(Flat(Grouped(keys)));
    assert k in AddressKeys(keys) <==> k in multiset(AddressKeys(keys));
  }

  predicate Word(s: string) {
    forall i :: 0 <= i < |s| ==> s[i] != '<' && s[i] != '"'
  }

  lemma AttributeInert(name: string, value: string)
    requires Word(name) && name != "" && name[|name|-1] != 't'
    requires Word(value) && value != "" && value[|value|-1] != '='
    ensures Inert(Attribute(name, value)) && Attribute(name, value)[0] == name[0]
  {
    var s, n := Attribute(name, value), |name| + 2;
    assert |s| == n + |value| + 1 && s[n-2] == '=' && s[n-1] == '"' && s[n-3] == name[|name|-1];
    assert s[n + |value|] == '"' && s[n + |value| - 1] == value[|value|-1];
    forall i: nat | i < |s| ensures s[i] != '<' && QuoteHarmless(s, i) {
      if i < |name| {
        assert s[i] == name[i];
      } else if n <= i < n + |value| {
        assert s[i] == value[i-n];
      }
    }
  }

  /** A tag that opens with a harmless character. */
  lemma TagInert(s: string)
    requires Inert(s) && s != "" && s[0] != 'c' && s[0] != 'f'
    ensures Inert("<" + s)
  {
    var t := "<" + s;
    forall i: nat | i < |t|
      ensures QuoteHarmless(t, i) && (t[i] == '<' ==> i + 1 < |t| && t[i+1] != 'c' && t[i+1] != 'f')
    {
      if i > 0 {
        assert t[i] == s[i-1] && QuoteHarmless(s, i - 1);
      }
    }
  }

  lemma SmallInert()
    ensures Inert("?>\n") && Inert("><sheetData>")
  {
  }

  lemma ClosingInert()
    ensures Inert("</sheetData>") && Inert("</worksheet>")
  {
  }

  lemma DeclarationInert()
    ensures Inert(DECLARATION)
  {
    hide Inert;
    AttributeInert("?xml version", "1.0");
    AttributeInert(" encoding", "UTF-8");
    AttributeInert(" standalone", "yes");
    SmallInert();
    var a, b, c := Attribute("?xml version", "1.0"), Attribute(" encoding", "UTF-8"), Attribute(" standalone", "yes");
    InertConcat(a, b);
    InertConcat(a + b, c);
    InertConcat(a + b + c, "?>\n");
    TagInert(a + b + c + "?>\n");
  }

  lemma NamespaceWord()
    ensures Word(MAIN_NAMESPACE) && MAIN_NAMESPACE != "" && MAIN_NAMESPACE[|MAIN_NAMESPACE|-1] != '='
  {
    assert Word("http://schemas") && Word(".openxmlformats.org") && Word("/spreadsheetml") && Word("/2006/main");
  }

  lemma FrameInert()
    ensures Inert(OPENING) && Inert(CLOSING)
  {
    hide Inert, MAIN_NAMESPACE, DECLARATION;
    DeclarationInert();
    NamespaceWord();
    var a := Attribute("worksheet xmlns", MAIN_NAMESPACE);
    AttributeInert("worksheet xmlns", MAIN_NAMESPACE);
    TagInert(a);
    SmallInert();
    InertConcat("<" + a, "><sheetData>");
    InertConcat(DECLARATION, WORKSHEET);
    ClosingInert();
    InertConcat("</sheetData>", "</worksheet>");
    assert "</sheetData>" + "</worksheet>" == CLOSING;
  }

  lemma ScanNothing(shared: seq<string>, acc: Cells)
    ensures Scan("", shared, acc) == acc
  {
    hide Find;
    FindNothing("", "<c ");
    SplitStep("", "<c ");
  }

  lemma ScanSheet(cells: Cells, groups: seq<Group>, shared: seq<string>)
    requires forall i :: 0 <= i < |groups| ==> AllAddresses(groups[i].keys)
    ensures Scan(OPENING + RowsXml(cells, groups) + CLOSING, shared, map[]) == Collected(cells, Flat(groups), map[])
  {
    hide Flat, Scan, RowsXml, OPENING, CLOSING, Collected, FollowsWell, Inert, AllAddresses;
    FrameInert();
    EmptyFollows();
    var body, out := RowsXml(cells, groups), Collected(cells, Flat(groups), map[]);
    ScanText(CLOSING, "", shared, out);
    assert CLOSING + "" == CLOSING;
    ScanNothing(shared, out);
    ScanRows(cells, groups, CLOSING, shared, map[]);
    ScanText(OPENING, body + CLOSING, shared, map[]);
    assert OPENING + body + CLOSING == OPENING + (body + CLOSING);
  }

  /** Reading the written XML gives the cells with an address, each under its upper-case key, with
      its value unchanged; where two keys differ in case only, the one written later stays. */
  lemma ReadWritten(cells: Cells, shared: seq<string>)
    ensures SheetCells(WorksheetXml(cells), shared) == Collected(cells, WriteOrder(cells), map[])
  {
    hide ParseAddr, Flat, Grouped, Scan, RowsXml, OPENING, CLOSING, Collected, AllAddresses;
    var groups := Grouped(SortedKeys(cells.Keys));
    GroupedShape(SortedKeys(cells.Keys));
    ByRowAddresses(groups);
    ScanSheet(cells, groups, shared);
  }

  // ------------------------------------------------------------ exactly what survives

  lemma SuffixCount(s: string, n: nat, c: char)
    requires n <= |s|
    ensures Occurrences(s[n..], c) <= Occurrences(s, c) && Occurrences(s[..n], c) <= Occurrences(s, c)
    ensures n > 0 && s[0] == c ==> Occurrences(s[n..], c) < Occurrences(s, c)
    ensures n < |s| && s[|s|-1] == c ==> Occurrences(s[..n], c) < Occurrences(s, c)
  {
    assert s == s[..n] + s[n..];
    CountConcat(s[..n], s[n..], c);
    assert n > 0 && s[0] == c ==> s[..n][0] in multiset(s[..n]);
    assert n < |s| && s[|s|-1] == c ==> s[n..][|s|-1-n] in multiset(s[n..]);
  }

  lemma {:induction false} TrimEnds(s: string)
    ensures TrimStart(s, IsSpace) != s ==> s != "" && IsSpace(s[0])
    ensures TrimEnd(s, IsSpace) != s ==> s != "" && IsSpace(s[|s|-1])
  {
    hide IsSpace;
  }

  lemma {:induction false} TrimStartLoses(s: string)
    ensures var t := TrimStart(s, IsSpace);
            && (t != s ==> s != "" && IsSpace(s[0]) && Occurrences(t, s[0]) < Occurrences(s, s[0]))
            && forall c :: Occurrences(t, c) <= Occurrences(s, c)
  {
    hide IsSpace, Occurrences, TrimStart;
    var t := TrimStart(s, IsSpace);
    TrimEnds(s);
    forall c ensures Occurrences(t, c) <= Occurrences(s, c) { SuffixCount(s, |s| - |t|, c); }
    if t != s {
      SuffixCount(s, |s| - |t|, s[0]);
    }
  }

  lemma {:induction false} TrimEndLoses(s: string)
    ensures var t := TrimEnd(s, IsSpace);
            && (t != s ==> s != "" && IsSpace(s[|s|-1]) && Occurrences(t, s[|s|-1]) < Occurrences(s, s[|s|-1]))
            && forall c :: Occurrences(t, c) <= Occurrences(s, c)
  {
    hide IsSpace, Occurrences, TrimEnd;
    var t := TrimEnd(s, IsSpace);
    assert t == s[..|t|];
    TrimEnds(s);
    forall c ensures Occurrences(t, c) <= Occurrences(s, c) { SuffixCount(s, |t|, c); }
    if t != s {
      SuffixCount(s, |t|, s[|s|-1]);
    }
  }

  /** Trimming that changes a text loses at least one of its spaces. */
  lemma TrimLosesSpace(s: string) returns (c: char)
    requires Trim(s) != s
    ensures IsSpace(c) && Occurrences(Trim(s), c) < Occurrences(s, c)
  {
    hide IsSpace, Occurrences, TrimStart, TrimEnd;
    var t := TrimStart(s, IsSpace);
    TrimStartLoses(s);
    TrimEndLoses(t);
    c := if t != s then s[0] else s[|s|-1];
  }

  /** An equal sign and then trimmed text without another one in front or anything to escape. */
  predicate PlainFormula(f: string) {
    f == "" || (f[0] == '=' && PlainText(f[1..]) && Trim(f[1..]) == f[1..] && (|f| > 1 ==> f[1] != '='))
  }

  lemma EqualSigns(f: string)
    ensures var g := TrimStart(f, IsEqualSign);
            && (f != "" && f[0] == '=' && (|f| > 1 ==> f[1] != '=') ==> g == f[1..])
            && (g != "" ==> g[0] != '=')
            && forall c :: Occurrences(g, c) <= Occurrences(f, c)
  {
    hide Occurrences;
    var g := TrimStart(f, IsEqualSign);
    forall c ensures Occurrences(g, c) <= Occurrences(f, c) { SuffixCount(f, |f| - |g|, c); }
  }

  /** A formula is read back unchanged exactly when it is plain. */
  lemma FormulaSurvives(f: string)
    ensures FormulaBack(f) == f <==> PlainFormula(f)
  {
    hide XmlEscape, Trim, TrimStart, PlainText, Occurrences, NoMarkup, IsSpace;
    if f != "" {
      var g := TrimStart(f, IsEqualSign);
      var e := XmlEscape(g);
      Spaces();
      EscapeShape(g, ' ');
      EqualSigns(f);
      if FormulaBack(f) == f {
        if Trim(e) != e {
          var c := TrimLosesSpace(e);
          EscapeShape(g, c);
          SpaceNotEqual(c);
          OneMore(Trim(e), c);
          assert false;
        }
        assert f == "=" + e;
        assert f[1..] == e;
      }
    }
  }

  lemma SpaceNotEqual(c: char)
    requires IsSpace(c)
    ensures c != '='
  {
  }

  lemma OneMore(s: string, c: char)
    requires c != '='
    ensures Occurrences(WithEqualSign(s), c) == Occurrences(s, c)
  {
  }

  predicate Written(cells: Cells, k: string) {
    k in cells && ParseAddr(k).Some? && (cells[k].value != "" || cells[k].formula != "")
  }

  /** The non-empty cells at an address, without their formats and styles. */
  function Contents(cells: Cells): Cells {
    map k | k in cells && Written(cells, k) :: EMPTY_CELL.(value := cells[k].value, formula := cells[k].formula)
  }

  /** Contents with each formula as it is read back. */
  function ContentsBack(cells: Cells): Cells {
    map k | k in cells && Written(cells, k) ::
      EMPTY_CELL.(value := cells[k].value, formula := FormulaBack(cells[k].formula))
  }

  /** The cells that are written with a value or a formula have upper-case keys. */
  ghost predicate UpperKeys(cells: Cells) {
    forall k :: Written(cells, k) ==> ToUpper(k) == k
  }

  lemma {:induction false} CollectedLookup(cells: Cells, keys: seq<string>)
    requires UpperKeys(cells) && forall i :: 0 <= i < |keys| ==> keys[i] in cells && ParseAddr(keys[i]).Some?
    ensures var m := Collected(cells, keys, map[]);
            && (forall k :: k in m <==> k in keys && Written(cells, k))
            && (forall k :: k in m ==> m[k] == ContentsBack(cells)[k])
  {
    hide ParseAddr, ToUpper, FormulaBack;
    if keys != [] {
      var n := |keys| - 1;
      assert keys == keys[..n] + [keys[n]];
      CollectedLookup(cells, keys[..n]);
      BackEmpty(cells[keys[n]].formula);
    }
  }

  /** Whatever the keys are, those read back are in upper case. */
  lemma {:induction false} CollectedUpper(cells: Cells, keys: seq<string>)
    ensures forall k :: k in Collected(cells, keys, map[]) ==> ToUpper(k) == k
  {
    hide FormulaBack;
    if keys != [] {
      CollectedUpper(cells, keys[..|keys|-1]);
      UpperTwice(keys[|keys|-1]);
    }
  }

  lemma BackEmpty(f: string)
    ensures FormulaBack(f) == "" <==> f == ""
  {
    hide XmlEscape, Trim, TrimStart;
  }

  lemma UpperRoundTrip(cells: Cells, shared: seq<string>)
    requires UpperKeys(cells)
    ensures SheetCells(WorksheetXml(cells), shared) == ContentsBack(cells)
  {
    hide ParseAddr, ToUpper, FormulaBack, SheetCells, WorksheetXml, WriteOrder, Collected;
    var keys := WriteOrder(cells);
    ReadWritten(cells, shared);
    forall k ensures k in keys <==> k in cells && ParseAddr(k).Some? {
      WriteOrderMembers(cells, k);
    }
    CollectedLookup(cells, keys);
  }

  lemma ReadUpper(cells: Cells, shared: seq<string>)
    ensures forall k :: k in SheetCells(WorksheetXml(cells), shared) ==> ToUpper(k) == k
  {
    hide ToUpper, SheetCells, WorksheetXml, WriteOrder, Collected;
    ReadWritten(cells, shared);
    CollectedUpper(cells, WriteOrder(cells));
  }

  /** Reading what was written returns every non-empty cell under its key, with its value unchanged,
      whatever the value, and the formula as `FormulaBack` has it, exactly when those keys are upper-case. */
  lemma RoundTrip(cells: Cells, shared: seq<string>)
    ensures SheetCells(WorksheetXml(cells), shared) == ContentsBack(cells) <==> UpperKeys(cells)
  {
    hide ParseAddr, ToUpper, FormulaBack, SheetCells, WorksheetXml;
    if UpperKeys(cells) {
      UpperRoundTrip(cells, shared);
    } else {
      ReadUpper(cells, shared);
      var k :| Written(cells, k) && ToUpper(k) != k;
      assert k in ContentsBack(cells);
    }
  }

  /** Values and formulas come back unchanged exactly when every written cell has an upper-case key and a
      plain formula. */
  lemma RoundTripExact(cells: Cells, shared: seq<string>)
    ensures SheetCells(WorksheetXml(cells), shared) == Contents(cells) <==>
            UpperKeys(cells) && forall k :: Written(cells, k) ==> PlainFormula(cells[k].formula)
  {
    hide ParseAddr, ToUpper, FormulaBack, SheetCells, WorksheetXml, PlainFormula;
    var a, b := Contents(cells), ContentsBack(cells);
    assert a.Keys == b.Keys;
    if UpperKeys(cells) {
      UpperRoundTrip(cells, shared);
      forall k | Written(cells, k) ensures a[k] == b[k] <==> PlainFormula(cells[k].formula) {
        FormulaSurvives(cells[k].formula);
      }
    } else {
      ReadUpper(cells, shared);
      var k :| Written(cells, k) && ToUpper(k) != k;
      assert k in a;
    }
  }
}
