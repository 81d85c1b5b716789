/** The text of worksheet XML: what is written, character for character, and what is read from XML that
    others wrote. */
module XmlText {
  import opened Basics
  import opened Text
  import opened Ordered
  import opened Addresses
  import opened Sheets
  import opened Calc
  import opened Xml
  import opened SheetXml
  import opened SheetRoundTrip

  // ------------------------------------------------------------ escaping

  lemma {:induction false} EscapedJoined(a: string, b: string)
    ensures Escaped(a + b, SPECIALS) == Escaped(a, SPECIALS) + Escaped(b, SPECIALS)
    decreases |a|
  {
    if a == "" {
      assert a + b == b;
    } else {
      assert (a + b)[0] == a[0] && (a + b)[1..] == a[1..] + b;
      EscapedJoined(a[1..], b);
    }
  }

  /** Escaping goes character by character, with the predefined entities of section 4.6 of XML 1.0. */
  lemma EscapeOf(a: string, b: string, c: char)
    ensures XmlEscape(a + b) == XmlEscape(a) + XmlEscape(b) && XmlEscape("") == ""
    ensures XmlEscape([c]) ==
            if c == '&' then "&amp;" else if c == '<' then "&lt;" else if c == '>' then "&gt;"
            else if c == '"' then "&quot;" else [c]
  {
    hide XmlEscape;
    EscapeCharwise(a + b);
    EscapeCharwise(a);
    EscapeCharwise(b);
    EscapeCharwise([c]);
    EscapeCharwise("");
    EscapedJoined(a, b);
    assert [c][1..] == "";
  }

  // ------------------------------------------------------------ writing

  /** The text in front of the rows: the XML declaration, and a worksheet in the main namespace. */
  lemma DeclarationIs()
    ensures DECLARATION == "<?xml version=\"1.0\"" + " encoding=\"UTF-8\"" + " standalone=\"yes\"" + "?>\n"
  {
    AttributeIs("?xml version", "1.0");
    assert "<" + ("?xml version" + "=\"") + ("1.0" + "\"") == "<?xml version=\"1.0\"";
    assert " encoding" + "=\"" + "UTF-8" + "\"" == " encoding=\"UTF-8\"";
    assert " standalone" + "=\"" + "yes" + "\"" == " standalone=\"yes\"";
  }

  lemma AttributeIs(name: string, value: string)
    ensures Attribute(name, value) == (name + "=\"") + (value + "\"")
  {
  }

  lemma WorksheetIs()
    ensures WORKSHEET == "<worksheet xmlns=\"" + (MAIN_NAMESPACE + "\"") + "><sheetData>"
  {
    hide MAIN_NAMESPACE, Attribute;
    AttributeIs("worksheet xmlns", MAIN_NAMESPACE);
    assert "<" + ("worksheet xmlns" + "=\"") == "<worksheet xmlns=\"";
  }

  /** The elements of one cell. */
  function CellElement(k: string, cell: Cell): string {
    "<c r=\"" + k + "\">"
    + (if cell.formula == "" then "" else "<f>" + XmlEscape(TrimStart(cell.formula, IsEqualSign)) + "</f>")
    + "<v>" + XmlEscape(cell.value) + "</v></c>"
  }

  lemma CellElementIs(k: string, cell: Cell)
    ensures CellXml(k, cell) == CellElement(k, cell)
  {
    hide XmlEscape, TrimStart;
    assert "<c " + "r=\"" == "<c r=\"";
  }

  lemma OneKey(k: string)
    ensures SortedKeys({k}) == [k]
  {
    var ks := SortedKeys({k});
    assert k in ks;
    forall i | 0 <= i < |ks| ensures ks[i] == k { assert ks[i] in ks; }
    if |ks| > 1 {
      assert Less(ks[0], ks[1]);
      LessIrreflexive(k);
    }
  }

  /** A sheet of one cell, in full: declaration, worksheet, one row with its number, and the cell in it. */
  lemma OneCellWritten(k: string, cell: Cell)
    requires ParseAddr(k).Some?
    ensures WorksheetXml(map[k := cell]) ==
            DECLARATION + WORKSHEET
            + ("<row r=\"" + Decimal(ParseAddr(k).value.1) + "\">" + CellElement(k, cell) + "</row>")
            + "</sheetData></worksheet>"
  {
    hide ParseAddr, DECLARATION, WORKSHEET, CellXml, CellElement, Decimal;
    var cells, row := map[k := cell], ParseAddr(k).value.1;
    assert cells.Keys == {k};
    OneKey(k);
    assert [k][..0] == [];
    assert Grouped([k]) == PushKey([], row, k) == [Group(row, [k])];
    var g := Group(row, [k]);
    assert [g][..0] == [];
    assert CellsXml(cells, []) == "" && CellsXml(cells, [k]) == CellXml(k, cell);
    assert RowsXml(cells, [g]) == RowOpen(row) + CellXml(k, cell) + "</row>";
    CellElementIs(k, cell);
  }

  // ------------------------------------------------------------ reading what others wrote

  lemma TextPast(attrs: string, tag: string, x: string, b: string)
    requires NoMarkup(x)
    requires (forall i :: 0 <= i < |attrs| ==> attrs[i] != '>') && (attrs != "" ==> attrs[|attrs|-1] != '/')
    ensures TextAfter(attrs + ">" + (x + ("</" + tag + ">") + b), tag) == Some(x)
  {
    hide Find, TagsAvoid, NoMarkup, IndexOf;
    var close := "</" + tag + ">";
    var rest := x + close + b;
    var after := attrs + ">" + rest;
    IndexOfPast(attrs, '>', rest);
    assert after[|attrs|+1..] == rest && (attrs != "" ==> after[|attrs|-1] == attrs[|attrs|-1]);
    NoMarkupTags(x, close[1]);
    FindFirst(x, close, b);
    assert rest[..|x|] == x;
  }

  /** An element with attributes is read like one without. */
  lemma ElementWithAttributes(a: string, tag: string, attrs: string, x: string, b: string)
    requires tag != "" && TagsAvoid(a, tag[0]) && NoMarkup(x)
    requires (forall i :: 0 <= i < |attrs| ==> attrs[i] != '>') && (attrs != "" ==> attrs[|attrs|-1] != '/')
    ensures ExtractTagText(a + ("<" + tag) + (attrs + ">" + (x + ("</" + tag + ">") + b)), tag) == Some(x)
  {
    hide Find, TagsAvoid, NoMarkup, TextAfter;
    var after := attrs + ">" + (x + ("</" + tag + ">") + b);
    FindFirst(a, "<" + tag, after);
    assert (a + ("<" + tag) + after)[|a| + 1 + |tag|..] == after;
    TextPast(attrs, tag, x, b);
  }

  /** An element that closes itself is read as empty text, and one that is not there as none. */
  lemma ElementClosedOrMissing(a: string, tag: string, attrs: string, b: string)
    requires tag != "" && TagsAvoid(a, tag[0]) && forall i :: 0 <= i < |attrs| ==> attrs[i] != '>'
    ensures ExtractTagText(a + ("<" + tag) + (attrs + "/>" + b), tag) == Some("")
    ensures ExtractTagText(a, tag) == None
  {
    hide Find, TagsAvoid, IndexOf;
    var after := attrs + "/>" + b;
    FindFirst(a, "<" + tag, after);
    assert (a + ("<" + tag) + after)[|a| + 1 + |tag|..] == after;
    assert after == (attrs + "/") + ">" + b;
    IndexOfPast(attrs + "/", '>', b);
    FindNothing(a, "<" + tag);
  }

  /** A cell that refers to a shared string. */
  function SharedCell(k: string, n: string): string {
    "<c r=\"" + k + "\" t=\"s\"><v>" + n + "</v></c>"
  }

  function SharedBody(k: string, n: string): string {
    ("r=\"" + k + "\" t=\"s\">") + Element("v", n) + "</c>"
  }

  lemma SharedParts(k: string, n: string)
    ensures SharedCell(k, n) == "<c " + SharedBody(k, n)
  {
    assert "<c " + "r=\"" == "<c r=\"" && "<" + "v" + ">" == "<v>" && "</" + "v" + ">" + "</c>" == "</v></c>";
    assert "\" t=\"s\">" + "<v>" == "\" t=\"s\"><v>";
  }

  lemma {:induction false} FindsIt(a: string, p: string, b: string)
    requires p != ""
    ensures Find(a + p + b, p).Some?
    decreases |a|
  {
    hide Find;
    var s := a + p + b;
    if a == "" {
      assert s == p + b;
      FindAtStart(s, p);
    } else if StartsWith(s, p) {
      FindAtStart(s, p);
    } else {
      assert s[1..] == a[1..] + p + b;
      FindLater(s, p);
      FindsIt(a[1..], p, b);
    }
  }

  lemma SharedHead(k: string)
    requires forall i :: 0 <= i < |k| ==> AddressChar(k[i])
    ensures var h := "r=\"" + k + "\" t=\"s\">"; TagsAvoid(h, 'c') && TagsAvoid(h, 'f') && TagsAvoid(h, 'v')
  {
    var h := "r=\"" + k + "\" t=\"s\">";
    forall i | 0 <= i < |h| ensures h[i] != '<' {
      if 3 <= i < 3 + |k| { assert h[i] == k[i-3]; }
    }
  }

  lemma SharedTags(k: string, n: string)
    requires (forall i :: 0 <= i < |k| ==> AddressChar(k[i])) && NoMarkup(n)
    ensures TagsAvoid(SharedBody(k, n), 'c') && TagsAvoid(SharedBody(k, n), 'f')
  {
    hide TagsAvoid, NoMarkup, Element;
    var h, e := "r=\"" + k + "\" t=\"s\">", Element("v", n);
    SharedHead(k);
    ElementInert("v", n);
    EndInert();
    TagsConcat(h, e, 'c');
    TagsConcat(h + e, "</c>", 'c');
    TagsConcat(h, e, 'f');
    TagsConcat(h + e, "</c>", 'f');
  }

  lemma DigitsNoMarkup(n: nat, sign: string)
    requires sign == "" || sign == "+"
    ensures NoMarkup(sign + Decimal(n)) && (n < TWO_64 ==> ParseIndex(sign + Decimal(n)) == Some(n))
  {
    DecimalRoundTrip(n);
    var d := Decimal(n);
    hide Decimal, DecimalValue;
    assert d[0] != '+' && "" + d == d && ("+" + d)[1..] == d;
    assert forall i :: 0 <= i < |"+" + d| ==> ("+" + d)[i] == '+' || IsDigit(("+" + d)[i]);
  }

  /** A cell marked as shared is read as the string with that number; a number beyond the table gives nothing. */
  lemma SharedRead(k: string, sign: string, n: nat, shared: seq<string>)
    requires ParseAddr(k).Some? && n < TWO_64 && (sign == "" || sign == "+")
    ensures SheetCells(SharedCell(k, sign + Decimal(n)), shared) ==
            if n < |shared| && shared[n] != "" then map[ToUpper(k) := EMPTY_CELL.(value := shared[n])] else map[]
  {
    hide ParseAddr, TagsAvoid, NoMarkup, Find, Split, ToUpper, ParseIndex, Decimal, XmlUnescape, Element,
      ExtractTagText, AttrValue;
    var d := sign + Decimal(n);
    var body, h := SharedBody(k, d), "r=\"" + k + "\" t=\"s\">";
    AddressChars(k);
    DigitsNoMarkup(n, sign);
    SharedParts(k, d);
    SharedTags(k, d);
    SplitCell(body, "");
    SplitNothing();
    assert "<c " + body + "" == SharedCell(k, d) && body + "" == body;
    assert Split(SharedCell(k, d), "<c ") == ["", body];
    assert ["", body][1..] == [body];
    SharedAttr(k, d);
    FindsIt("r=\"" + k + "\" ", "t=\"s\"", ">" + Element("v", d) + "</c>");
    assert body == "r=\"" + k + "\" " + "t=\"s\"" + (">" + Element("v", d) + "</c>");
    SharedHead(k);
    ElementText(h, "v", d, "</c>");
    assert "<" + "f" == "<f";
    FindNothing(body, "<f");
    NoTag(body, "f");
    AddChunksFirst(map[], body, [], shared);
    assert [body] + [] == [body];
  }

  lemma SplitNothing()
    ensures Split("", "<c ") == [""]
  {
    hide Find;
    FindNothing("", "<c ");
    SplitStep("", "<c ");
  }

  lemma SharedAttr(k: string, d: string)
    requires forall i :: 0 <= i < |k| ==> AddressChar(k[i])
    ensures AttrValue(SharedBody(k, d), "r") == Some(k)
  {
    hide Find, Element, IndexOf;
    var chunk := SharedBody(k, d);
    var needle := "r" + "=\"";
    assert needle == "r=\"";
    FindAtStart(chunk, needle);
    var rest := " t=\"s\">" + Element("v", d) + "</c>";
    assert chunk[3..] == k + "\"" + rest;
    IndexOfPast(k, '"', rest);
    assert chunk[3..][..|k|] == k;
  }
}
