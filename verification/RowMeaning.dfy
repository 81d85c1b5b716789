/** Inserting a row and the meaning of SUM, COUNT and ROUND formulas: when the rewritten text, evaluated
    on the shifted sheet, gives what the original text gave on the original sheet. */
module RowMeaning {
  import opened Basics
  import opened Text
  import opened Ordered
  import opened Addresses
  import opened Formulas
  import opened Sheets
  import opened Coordinates
  import opened Calc
  import opened CallText

  // ------------------------------------------------------------ the shifted sheet

  /** A row number that can move without leaving the range. */
  predicate MovesInRange(r: nat, k: nat) {
    0 < r < TWO_32 && (r < k || r + 1 < TWO_32)
  }

  /** The last of these keys that moves to `x`. */
  function LastMoved(keys: seq<string>, m: Move, x: string): Option<string> {
    if keys == [] then None
    else if MovedKey(m, keys[|keys|-1]) == Some(x) then Some(keys[|keys|-1])
    else LastMoved(keys[..|keys|-1], m, x)
  }

  lemma {:induction false} RekeyedLast(cells: Cells, keys: seq<string>, m: Move, x: string)
    requires forall k :: k in keys ==> k in cells
    ensures var k, next := LastMoved(keys, m, x), Rekeyed(cells, keys, m);
            && (x in next <==> k.Some?)
            && (k.Some? ==> k.value in cells && next[x] == MovedCell(m, k.value, cells[k.value]))
  {
    hide MovedKey, MovedCell;
    if keys != [] {
      RekeyedLast(cells, keys[..|keys|-1], m, x);
    }
  }

  /** A key lands on the moved address of a coordinate exactly when it denotes that coordinate. */
  lemma LandsOn(k: nat, c: nat, r: nat, key: string)
    requires 0 < k && InRange((c, r)) && MovesInRange(r, k)
    ensures InRange((c, MoveRow(r, k, 1)))
    ensures MovedKey(InsertRow(k), key) == Some(AddrOf(c, MoveRow(r, k, 1))) <==> ParseAddr(key) == Some((c, r))
  {
    hide AddrOf, ParseAddr;
    var r' := MoveRow(r, k, 1);
    ParsePrint(c, r');
    ParsedInRange(key);
    if ParseAddr(key).Some? {
      var to := MovedCoord(InsertRow(k), ParseAddr(key).value).value;
      if to.1 == 0 {
        RowZero(to.0);
      } else if AddrOf(to.0, to.1) == AddrOf(c, r') {
        PrintInjective(to.0, to.1, c, r');
      }
    }
  }

  /** No key lands on the inserted row. */
  lemma NoneLandsOn(k: nat, c: nat, key: string)
    requires 0 < k && InRange((c, k))
    ensures MovedKey(InsertRow(k), key) != Some(AddrOf(c, k))
  {
    hide AddrOf, ParseAddr;
    ParsePrint(c, k);
    ParsedInRange(key);
    if ParseAddr(key).Some? {
      var to := MovedCoord(InsertRow(k), ParseAddr(key).value).value;
      if to.1 == 0 {
        RowZero(to.0);
      } else if AddrOf(to.0, to.1) == AddrOf(c, k) {
        PrintInjective(to.0, to.1, c, k);
      }
    }
  }

  /** Row 0, where the last row wraps to, is not an address. */
  lemma RowZero(c: nat)
    ensures ParseAddr(AddrOf(c, 0)) == None
  {
    hide ColumnNumber, ColumnLetters, Span;
    var letters := ColumnLetters(c);
    assert Decimal(0) == "0" && "0"[..0] == "" && DecimalValue("0") == 0;
    assert ToUpper(letters + "0") == letters + "0";
    SpanOf(letters, "0", IsAlpha);
    assert (letters + "0")[|letters|..] == "0";
  }

  lemma {:induction false} LastMovedIsLast(keys: seq<string>, k: nat, c: nat, r: nat)
    requires 0 < k && InRange((c, r)) && MovesInRange(r, k)
    ensures LastMoved(keys, InsertRow(k), AddrOf(c, MoveRow(r, k, 1))) == LastKey(keys, (c, r))
  {
    hide AddrOf, ParseAddr, MovedKey;
    if keys != [] {
      LastMovedIsLast(keys[..|keys|-1], k, c, r);
      LandsOn(k, c, r, keys[|keys|-1]);
    }
  }

  lemma {:induction false} NoneMoved(keys: seq<string>, k: nat, c: nat)
    requires 0 < k && InRange((c, k))
    ensures LastMoved(keys, InsertRow(k), AddrOf(c, k)) == None
  {
    hide AddrOf, ParseAddr, MovedKey;
    if keys != [] {
      NoneMoved(keys[..|keys|-1], k, c);
      NoneLandsOn(k, c, keys[|keys|-1]);
    }
  }

  /** Every cell is found one row further down, under the address of its coordinate. */
  lemma ShiftedLookup(cells: Cells, k: nat, c: nat, r: nat)
    requires 0 < k && 0 < c < TWO_32 && MovesInRange(r, k)
    ensures Lookup(Restructured(cells, InsertRow(k)), AddrOf(c, MoveRow(r, k, 1)))
         == Lookup(Respelled(cells), AddrOf(c, r))
  {
    hide AddrOf, MovedKey, Rekeyed, ToUpper, ParseAddr, Respelled, LastMoved, LastKey, Ascending, ShiftRows;
    var m, keys := InsertRow(k), SortedKeys(cells.Keys);
    LandsOn(k, c, r, "");
    ParsePrint(c, r);
    ParsePrint(c, MoveRow(r, k, 1));
    LastMovedIsLast(keys, k, c, r);
    RekeyedLast(cells, keys, m, AddrOf(c, MoveRow(r, k, 1)));
    RespelledAt(cells, c, r);
  }

  lemma InsertedRowBlank(cells: Cells, k: nat, c: nat)
    requires InRange((c, k))
    ensures Lookup(Restructured(cells, InsertRow(k)), AddrOf(c, k)) == None
  {
    hide AddrOf, MovedKey, Rekeyed, ToUpper, ParseAddr, LastMoved, Ascending;
    ParsePrint(c, k);
    NoneMoved(SortedKeys(cells.Keys), k, c);
    RekeyedLast(cells, SortedKeys(cells.Keys), InsertRow(k), AddrOf(c, k));
  }

  // ------------------------------------------------------------ totals

  lemma WeightByLookup(num: Numbers, agg: Aggregate, a: Cells, x: string, b: Cells, y: string)
    requires Lookup(a, x) == Lookup(b, y)
    ensures Weight(num, agg, a, x) == Weight(num, agg, b, y)
  {
    hide Lookup;
  }

  lemma BlankWeight(num: Numbers, agg: Aggregate, cells: Cells, x: string)
    requires Lookup(cells, x) == None
    ensures Weight(num, agg, cells, x) == 0.0
  {
    hide Lookup;
  }

  lemma TotalCons(num: Numbers, agg: Aggregate, cells: Cells, x: string, rest: seq<string>)
    ensures Total(num, agg, cells, [x] + rest) == Weight(num, agg, cells, x) + Total(num, agg, cells, rest)
  {
    assert ([x] + rest)[1..] == rest;
  }

  lemma {:induction false} TotalConcat(num: Numbers, agg: Aggregate, cells: Cells, a: seq<string>, b: seq<string>)
    ensures Total(num, agg, cells, a + b) == Total(num, agg, cells, a) + Total(num, agg, cells, b)
  {
    hide Weight;
    if a == [] {
      assert a + b == b;
    } else {
      assert (a + b)[1..] == a[1..] + b;
      TotalConcat(num, agg, cells, a[1..], b);
    }
  }

  lemma {:induction false} ColumnTotal(num: Numbers, agg: Aggregate, cells: Cells, k: nat, c: nat, lo: nat, hi: nat)
    requires 0 < k && 0 < c < TWO_32
    requires lo <= hi && MovesInRange(lo, k) && MovesInRange(hi, k)
    ensures Total(num, agg, Restructured(cells, InsertRow(k)), GridColumn(c, MoveRow(lo, k, 1), MoveRow(hi, k, 1)))
         == Total(num, agg, Respelled(cells), GridColumn(c, lo, hi))
    decreases hi - lo
  {
    hide AddrOf, Restructured, Respelled, Weight, Total, Lookup;
    var was, next := Respelled(cells), Restructured(cells, InsertRow(k));
    var lo', hi' := MoveRow(lo, k, 1), MoveRow(hi, k, 1);
    ShiftedLookup(cells, k, c, lo);
    WeightByLookup(num, agg, next, AddrOf(c, lo'), was, AddrOf(c, lo));
    assert lo' <= hi';
    TotalCons(num, agg, next, AddrOf(c, lo'), GridColumn(c, lo' + 1, hi'));
    TotalCons(num, agg, was, AddrOf(c, lo), GridColumn(c, lo + 1, hi));
    if lo < hi {
      ColumnTotal(num, agg, cells, k, c, lo + 1, hi);
      if lo + 1 == k {
        InsertedRowBlank(cells, k, c);
        BlankWeight(num, agg, next, AddrOf(c, k));
        TotalCons(num, agg, next, AddrOf(c, k), GridColumn(c, k + 1, hi'));
      }
    } else {
      TotalNothing(num, agg, was);
      TotalNothing(num, agg, next);
    }
  }

  lemma {:induction false} GridTotal(num: Numbers, agg: Aggregate, cells: Cells, k: nat, c: nat, cEnd: nat, lo: nat,
                                     hi: nat)
    requires 0 < k && 0 < c && cEnd < TWO_32
    requires lo <= hi && MovesInRange(lo, k) && MovesInRange(hi, k)
    ensures Total(num, agg, Restructured(cells, InsertRow(k)), Grid(c, cEnd, MoveRow(lo, k, 1), MoveRow(hi, k, 1)))
         == Total(num, agg, Respelled(cells), Grid(c, cEnd, lo, hi))
    decreases cEnd + 1 - c
  {
    hide AddrOf, Restructured, Respelled, Total, GridColumn, MoveRow;
    if c <= cEnd {
      var next, lo', hi' := Restructured(cells, InsertRow(k)), MoveRow(lo, k, 1), MoveRow(hi, k, 1);
      ColumnTotal(num, agg, cells, k, c, lo, hi);
      GridTotal(num, agg, cells, k, c + 1, cEnd, lo, hi);
      TotalConcat(num, agg, next, GridColumn(c, lo', hi'), Grid(c + 1, cEnd, lo', hi'));
      TotalConcat(num, agg, Respelled(cells), GridColumn(c, lo, hi), Grid(c + 1, cEnd, lo, hi));
    } else {
      TotalNothing(num, agg, Respelled(cells));
      TotalNothing(num, agg, Restructured(cells, InsertRow(k)));
    }
  }

  lemma TotalNothing(num: Numbers, agg: Aggregate, cells: Cells)
    ensures Total(num, agg, cells, []) == 0.0
  {
  }

  /** The rows that a call refers to can all move without leaving the range. */
  predicate RowsMove(call: Call, k: nat)
    requires ValidCall(call)
  {
    match call
    case OfRange(_, start, end) => MovesInRange(start.Row(), k) && MovesInRange(end.Row(), k)
    case _ => MovesInRange(call.at.Row(), k)
  }

  // ------------------------------------------------------------ the call on the shifted sheet

  lemma DigitsMoved(at: Ref, k: nat)
    requires 0 < k && at.Valid() && MovesInRange(at.Row(), k)
    ensures at.Moved(k).Valid() && at.Plain().Valid()
    ensures at.Moved(k).Column() == at.Column() == at.Plain().Column() && 0 < at.Column() < TWO_32
    ensures at.Moved(k).Row() == MoveRow(at.Row(), k, 1) && at.Plain().Row() == at.Row()
    ensures at.Moved(k).Key() == AddrOf(at.Column(), MoveRow(at.Row(), k, 1))
    ensures at.Plain().Key() == AddrOf(at.Column(), at.Row())
  {
    hide Decimal, DecimalValue, ColumnNumber, ColumnLetters;
    DecimalRoundTrip(MoveRow(at.Row(), k, 1));
    DecimalRoundTrip(at.Row());
    ColumnCanonical(ToUpper(at.letters));
  }

  lemma MovedValid(call: Call, k: nat)
    requires 0 < k && ValidCall(call) && RowsMove(call, k)
    ensures ValidCall(MovedCall(call, k)) && ValidCall(PlainCall(call))
  {
    hide CellRef, Ref.Moved, Ref.Plain, Ref.Row, Ref.Column, Ref.Key;
    if call.OfRange? {
      DigitsMoved(call.start, k);
      DigitsMoved(call.end, k);
    } else {
      DigitsMoved(call.at, k);
    }
  }

  lemma OperandsTotal(num: Numbers, agg: Aggregate, cells: Cells, k: nat, call: Call)
    requires 0 < k && ValidCall(call) && RowsMove(call, k)
    requires ValidCall(MovedCall(call, k)) && ValidCall(PlainCall(call))
    ensures Total(num, agg, Restructured(cells, InsertRow(k)), Operands(MovedCall(call, k)))
         == Total(num, agg, Respelled(cells), Operands(PlainCall(call)))
  {
    hide AddrOf, Restructured, Respelled, Total, GridColumn, Grid, CellRef, Ref.Row, Ref.Column, Ref.Key, Ref.Moved,
      Ref.Plain;
    if call.OfRange? {
      var a, b := call.start, call.end;
      DigitsMoved(a, k);
      DigitsMoved(b, k);
      assert MoveRow(Min(a.Row(), b.Row()), k, 1) == Min(MoveRow(a.Row(), k, 1), MoveRow(b.Row(), k, 1));
      assert MoveRow(Max(a.Row(), b.Row()), k, 1) == Max(MoveRow(a.Row(), k, 1), MoveRow(b.Row(), k, 1));
      GridTotal(num, agg, cells, k, Min(a.Column(), b.Column()), Max(a.Column(), b.Column()),
                Min(a.Row(), b.Row()), Max(a.Row(), b.Row()));
    } else {
      DigitsMoved(call.at, k);
      CellTotal(num, agg, cells, k, call.at.Column(), call.at.Row());
    }
  }

  lemma CellTotal(num: Numbers, agg: Aggregate, cells: Cells, k: nat, c: nat, r: nat)
    requires 0 < k && 0 < c < TWO_32 && MovesInRange(r, k)
    ensures Total(num, agg, Restructured(cells, InsertRow(k)), [AddrOf(c, MoveRow(r, k, 1))])
         == Total(num, agg, Respelled(cells), [AddrOf(c, r)])
  {
    hide AddrOf, Restructured, Respelled, Weight, Lookup;
    ShiftedLookup(cells, k, c, r);
    WeightByLookup(num, agg, Restructured(cells, InsertRow(k)), AddrOf(c, MoveRow(r, k, 1)), Respelled(cells),
                   AddrOf(c, r));
  }

  /** On the shifted sheet the rewritten call has the value of the call by coordinates: references spelled
      plainly, on the sheet with every cell under the address of its coordinate. */
  lemma MovedMeans(num: Numbers, cells: Cells, k: nat, call: Call)
    requires 0 < k && ValidCall(call) && RowsMove(call, k)
    requires ValidCall(MovedCall(call, k)) && ValidCall(PlainCall(call))
    ensures CallValue(num, Restructured(cells, InsertRow(k)), MovedCall(call, k))
         == CallValue(num, Respelled(cells), PlainCall(call))
  {
    hide Restructured, Respelled, Operands, RoundTo, Total, CellRef;
    OperandsTotal(num, Sum, cells, k, call);
    OperandsTotal(num, Count, cells, k, call);
  }

  /** For every SUM, COUNT or ROUND call with any spelling and ASCII spacing, every sheet and every inserted
      row: the value is kept exactly when reading the call by coordinates gives what reading it by
      spelling gives. */
  lemma RowInsertKeepsMeaning(num: Numbers, cells: Cells, k: nat, call: Call, y: Layout)
    requires 0 < k && ValidCall(call) && RowsMove(call, k) && Spaced(y) && AsciiLayout(y)
    ensures ValidCall(PlainCall(call))
    ensures var now := EvalFormula(num, Restructured(cells, InsertRow(k)), ShiftRows(Spelled(call, y), k, 1));
            && now == CallValue(num, Respelled(cells), PlainCall(call))
            && (now == EvalFormula(num, cells, Spelled(call, y)) <==>
                CallValue(num, Respelled(cells), PlainCall(call)) == CallValue(num, cells, call))
  {
    hide EvalFormula, Spelled, Restructured, Respelled, ValidCall, CallValue, Spaced, AsciiLayout, PlainCall;
    var next, moved := Restructured(cells, InsertRow(k)), MovedCall(call, k);
    MovedValid(call, k);
    ShiftCall(call, y, k);
    EvalSpelled(num, cells, call, y);
    EvalSpelled(num, next, moved, y);
    MovedMeans(num, cells, k, call);
  }

  // ------------------------------------------------------------ plain and other spellings

  /** Every key that is an address is spelled canonically. */
  ghost predicate CanonicalKeys(cells: Cells) {
    forall k :: k in cells && ParseAddr(k).Some? ==> CanonicalAddr(k)
  }

  lemma RespelledSame(cells: Cells, c: nat, r: nat)
    requires CanonicalKeys(cells) && InRange((c, r))
    ensures Lookup(Respelled(cells), AddrOf(c, r)) == Lookup(cells, AddrOf(c, r))
  {
    hide AddrOf, ParseAddr, CanonicalAddr, Respelled, LastKey, ToUpper;
    ParsePrint(c, r);
    RespelledAt(cells, c, r);
    HolderSpec(cells, (c, r));
    var h := Holder(cells, (c, r));
    if h.Some? {
      PrintParse(h.value);
    }
  }

  lemma {:induction false} TotalByLookup(num: Numbers, agg: Aggregate, a: Cells, b: Cells, addrs: seq<string>)
    requires forall i :: 0 <= i < |addrs| ==> Lookup(a, addrs[i]) == Lookup(b, addrs[i])
    ensures Total(num, agg, a, addrs) == Total(num, agg, b, addrs)
  {
    hide Weight, Lookup;
    if addrs != [] {
      WeightByLookup(num, agg, a, addrs[0], b, addrs[0]);
      TotalByLookup(num, agg, a, b, addrs[1..]);
    }
  }

  lemma PlainOperands(call: Call, x: string) returns (c: nat, r: nat)
    requires ValidCall(call) && ValidCall(PlainCall(call)) && x in Operands(PlainCall(call))
    ensures InRange((c, r)) && x == AddrOf(c, r)
  {
    hide AddrOf, Grid, CellRef, Ref.Key, Ref.Row, Ref.Column, Ref.Plain;
    if call.OfRange? {
      var a, b := call.start, call.end;
      PlainRef(a);
      PlainRef(b);
      GridMembers(Min(a.Column(), b.Column()), Max(a.Column(), b.Column()), Min(a.Row(), b.Row()),
                  Max(a.Row(), b.Row()), x);
      c, r :| Min(a.Column(), b.Column()) <= c <= Max(a.Column(), b.Column())
              && Min(a.Row(), b.Row()) <= r <= Max(a.Row(), b.Row()) && x == AddrOf(c, r);
    } else {
      PlainRef(call.at);
      c, r := call.at.Column(), call.at.Row();
    }
  }

  lemma PlainRef(at: Ref)
    requires at.Valid()
    ensures at.Plain().Valid() && at.Plain().Column() == at.Column() && at.Plain().Row() == at.Row()
    ensures at.Plain().Key() == AddrOf(at.Column(), at.Row()) && InRange((at.Column(), at.Row()))
  {
    hide Decimal, DecimalValue, ColumnNumber, ColumnLetters;
    DecimalRoundTrip(at.Row());
    ColumnCanonical(ToUpper(at.letters));
  }

  lemma PlainOnCanonical(num: Numbers, cells: Cells, call: Call)
    requires CanonicalKeys(cells) && ValidCall(call) && ValidCall(PlainCall(call))
    ensures CallValue(num, Respelled(cells), PlainCall(call)) == CallValue(num, cells, PlainCall(call))
  {
    hide Respelled, Total, RoundTo, Places, CellRef, Operands, Lookup, AddrOf, CanonicalKeys;
    var addrs := Operands(PlainCall(call));
    forall i | 0 <= i < |addrs| ensures Lookup(Respelled(cells), addrs[i]) == Lookup(cells, addrs[i]) {
      var c, r := PlainOperands(call, addrs[i]);
      RespelledSame(cells, c, r);
    }
    TotalByLookup(num, Sum, Respelled(cells), cells, addrs);
    TotalByLookup(num, Count, Respelled(cells), cells, addrs);
  }

  /** Corners are parsed, so their spelling does not matter; a single cell is looked up as it is spelled. */
  predicate SpelledPlainly(call: Call) {
    call.OfRange? || CanonicalDecimal(call.at.digits)
  }

  lemma PlainSpelling(num: Numbers, cells: Cells, call: Call)
    requires ValidCall(call) && SpelledPlainly(call) && ValidCall(PlainCall(call))
    ensures CallValue(num, cells, PlainCall(call)) == CallValue(num, cells, call)
  {
    hide Total, Grid, RoundTo, Decimal, DecimalValue, ColumnNumber, ColumnLetters, Places, ToUpper;
    if call.OfRange? {
      DecimalRoundTrip(call.start.Row());
      DecimalRoundTrip(call.end.Row());
    } else {
      DecimalCanonical(call.at.digits);
    }
  }

  /** A sheet with canonical keys has no cell under any other spelling of an address. */
  lemma OtherSpelling(num: Numbers, cells: Cells, call: Call)
    requires CanonicalKeys(cells) && ValidCall(call) && !SpelledPlainly(call)
    ensures CallValue(num, cells, call) == CallValue(num, map[], call)
  {
    hide RoundTo, Places, CellRef, Weight, Ref.Key, Total, CanonicalKeys;
    var key := call.at.Key();
    UnknownKey(cells, call.at);
    assert Lookup(map[], key) == None;
    WeightByLookup(num, Sum, cells, key, map[], key);
    WeightByLookup(num, Count, cells, key, map[], key);
    SingleTotal(num, cells, key);
    SingleTotal(num, map[], key);
  }

  lemma UnknownKey(cells: Cells, at: Ref)
    requires CanonicalKeys(cells) && at.Valid() && !CanonicalDecimal(at.digits)
    ensures Lookup(cells, at.Key()) == None
  {
    hide ParseAddr, AddrOf, CanonicalAddr, DecimalValue, Decimal, ColumnNumber, ColumnLetters;
    var key := at.Key();
    RefText(at);
    UpperTwice(at.Spelled());
    ParseUpper(at.Spelled());
    if key in cells {
      PrintParse(key);
      SpellingIsPlain(at);
      assert false;
    }
  }

  lemma ParseUpper(s: string)
    ensures ParseAddr(ToUpper(s)) == ParseAddr(s)
  {
    UpperTwice(s);
  }

  lemma SpellingIsPlain(at: Ref)
    requires at.Valid() && AddrOf(at.Column(), at.Row()) == at.Key()
    ensures CanonicalDecimal(at.digits)
  {
    hide DecimalValue, Decimal, ColumnNumber, ColumnLetters;
    var c := ColumnLetters(at.Column());
    assert AddrOf(at.Column(), at.Row())[|c|..] == Decimal(at.Row()) && at.Key()[|c|..] == at.digits;
    DecimalRoundTrip(at.Row());
  }

  /** On a sheet with canonical keys: a range always keeps its value, and a single cell or a ROUND keeps it
      exactly when its row is spelled without leading zeros or the cell it means gives the same value as
      no cell at all. */
  lemma RowInsertOnCanonicalKeys(num: Numbers, cells: Cells, k: nat, call: Call, y: Layout)
    requires CanonicalKeys(cells)
    requires 0 < k && ValidCall(call) && RowsMove(call, k) && Spaced(y) && AsciiLayout(y)
    ensures ValidCall(PlainCall(call))
    ensures var now := EvalFormula(num, Restructured(cells, InsertRow(k)), ShiftRows(Spelled(call, y), k, 1));
            now == EvalFormula(num, cells, Spelled(call, y)) <==>
            SpelledPlainly(call) || CallValue(num, cells, PlainCall(call)) == CallValue(num, map[], call)
  {
    hide EvalFormula, Spelled, Restructured, Respelled, ValidCall, CallValue, Spaced, AsciiLayout, SpelledPlainly,
      PlainCall;
    RowInsertKeepsMeaning(num, cells, k, call, y);
    PlainOnCanonical(num, cells, call);
    if SpelledPlainly(call) {
      PlainSpelling(num, cells, call);
    } else {
      OtherSpelling(num, cells, call);
    }
  }
}
