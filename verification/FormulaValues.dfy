/** What formulas evaluate to, in terms of the numbers that cells hold. */
module FormulaValues {
  import opened Basics
  import opened Text
  import opened Addresses
  import opened Sheets
  import opened Calc
  import opened CallText

  // ------------------------------------------------------------ numbers in cells

  /** The cell under `key` holds the number `x`. */
  predicate Holds(num: Numbers, cells: Cells, key: string, x: real) {
    key in cells && num.parse(cells[key].value) == Some(x)
  }

  /** The cell under `key` holds no number, or there is none. */
  predicate HoldsNone(num: Numbers, cells: Cells, key: string) {
    key in cells ==> num.parse(cells[key].value) == None
  }

  /** The cell under `key` counts as `x` in arithmetic: as its number, or as zero. */
  predicate CountsAs(num: Numbers, cells: Cells, key: string, x: real) {
    Holds(num, cells, key, x) || (HoldsNone(num, cells, key) && x == 0.0)
  }

  lemma NumberIs(num: Numbers, cells: Cells, key: string, x: real)
    requires ToUpper(key) == key && CountsAs(num, cells, key, x)
    ensures CellNum(num, cells, key) == x
  {
  }

  lemma SomeNumber(num: Numbers, cells: Cells, key: string)
    requires ToUpper(key) == key
    ensures CountsAs(num, cells, key, CellNum(num, cells, key))
  {
  }

  // ------------------------------------------------------------ rectangles

  /** A range call under any function name. */
  function RangeText(name: string, start: Ref, end: Ref, y: Layout): string {
    Spelled(OfRange(name, start, end), y)
  }

  /** The coordinates between two corners, whichever corners they are. */
  predicate InRect(a: Ref, b: Ref, at: Coord)
    requires a.Valid() && b.Valid()
  {
    && (a.Column() <= at.0 <= b.Column() || b.Column() <= at.0 <= a.Column())
    && (a.Row() <= at.1 <= b.Row() || b.Row() <= at.1 <= a.Row())
  }

  function Addrs(a: Ref, b: Ref): seq<string>
    requires a.Valid() && b.Valid()
  {
    Grid(Min(a.Column(), b.Column()), Max(a.Column(), b.Column()), Min(a.Row(), b.Row()), Max(a.Row(), b.Row()))
  }

  lemma RefInRange(at: Ref)
    requires at.Valid()
    ensures InRange((at.Column(), at.Row()))
  {
    hide ColumnNumber, DecimalValue;
    ColumnCanonical(ToUpper(at.letters));
  }

  lemma RectIs(a: Ref, b: Ref, at: Coord)
    requires a.Valid() && b.Valid()
    ensures InRect(a, b, at) <==>
            && Min(a.Column(), b.Column()) <= at.0 <= Max(a.Column(), b.Column())
            && Min(a.Row(), b.Row()) <= at.1 <= Max(a.Row(), b.Row())
  {
    hide CellRef, Ref.Column, Ref.Row;
  }

  lemma AddrsAre(a: Ref, b: Ref, key: string)
    requires a.Valid() && b.Valid()
    ensures key in Addrs(a, b) <==> exists c: nat, r: nat :: InRect(a, b, (c, r)) && key == AddrOf(c, r)
    ensures Addrs(a, b) != [] && Distinct(Addrs(a, b))
  {
    hide AddrOf, Grid, CellRef, Ref.Column, Ref.Row, InRect;
    RefInRange(a);
    RefInRange(b);
    var c1, c2 := Min(a.Column(), b.Column()), Max(a.Column(), b.Column());
    var r1, r2 := Min(a.Row(), b.Row()), Max(a.Row(), b.Row());
    GridMembers(c1, c2, r1, r2, key);
    GridDistinct(c1, c2, r1, r2);
    GridNotEmpty(c1, c2, r1, r2);
    forall c: nat, r: nat ensures InRect(a, b, (c, r)) <==> c1 <= c <= c2 && r1 <= r <= r2 { RectIs(a, b, (c, r)); }
  }

  lemma RectInRange(a: Ref, b: Ref, at: Coord)
    requires a.Valid() && b.Valid() && InRect(a, b, at)
    ensures InRange(at) && AddrOf(at.0, at.1) in Addrs(a, b) && ToUpper(AddrOf(at.0, at.1)) == AddrOf(at.0, at.1)
  {
    hide AddrOf, Grid, CellRef, Ref.Column, Ref.Row, ToUpper;
    RefInRange(a);
    RefInRange(b);
    AddrsAre(a, b, AddrOf(at.0, at.1));
    ParsePrint(at.0, at.1);
  }

  /** Whatever its name, a range call is evaluated over the addresses of its rectangle. */
  lemma EvalRange(num: Numbers, cells: Cells, name: string, a: Ref, b: Ref, y: Layout)
    requires name != "" && All(name, IsAlpha) && a.Valid() && b.Valid() && Spaced(y)
    ensures var text := Arguments(OfRange(name, a, b), y);
            && EvalFormula(num, cells, RangeText(name, a, b, y)) == EvalCall(num, cells, ToUpper(name), text)
            && ExpandRange(Trim(text)) == Addrs(a, b)
  {
    hide EvalCall, CellRef, Trim, CallParts, Spaced, Ref.Column, Ref.Row, ExpandRange, Reference;
    var call := OfRange("SUM", a, b);
    SumName();
    SameReference(name, a, b);
    ArgumentsText(call, y);
    ParseCall(y, name, Arguments(call, y));
    CallText.RangeText(call);
  }

  lemma SameReference(name: string, a: Ref, b: Ref)
    ensures Reference(OfRange(name, a, b)) == Reference(OfRange("SUM", a, b))
  {
  }

  lemma SumName()
    ensures All("SUM", IsAlpha) && ToUpper("SUM") == "SUM"
  {
  }

  // ------------------------------------------------------------ sums

  /** SUM of one cell is the number that it holds, and zero if it holds none. */
  lemma SumOfCell(num: Numbers, cells: Cells, name: string, at: Ref, y: Layout, x: real)
    requires name != "" && All(name, IsAlpha) && ToUpper(name) == "SUM" && at.Valid() && Spaced(y)
    requires CountsAs(num, cells, at.Key(), x)
    ensures EvalFormula(num, cells, Spelled(OfCell(name, at), y)) == num.format(x)
  {
    hide EvalFormula, CellNum, CellRef, Spelled, Spaced, CountsAs;
    EvalSpelled(num, cells, OfCell(name, at), y);
    SingleTotal(num, cells, at.Key());
    KeyUpper(at);
    NumberIs(num, cells, at.Key(), x);
  }

  lemma KeyUpper(at: Ref)
    requires at.Valid()
    ensures ToUpper(at.Key()) == at.Key()
  {
    hide ParseAddr, ColumnNumber, ColumnLetters, DecimalValue;
    RefText(at);
    UpperTwice(at.Spelled());
  }

  lemma {:induction false} TotalChanges(num: Numbers, a: Cells, b: Cells, addrs: seq<string>, key: string, x: real,
                                        z: real)
    requires Distinct(addrs) && key in addrs && ToUpper(key) == key
    requires CountsAs(num, a, key, x) && CountsAs(num, b, key, z)
    requires forall i :: 0 <= i < |addrs| && addrs[i] != key ==> Lookup(a, addrs[i]) == Lookup(b, addrs[i])
    ensures Total(num, Sum, b, addrs) == Total(num, Sum, a, addrs) - x + z
  {
    hide CellNum, Lookup, CountsAs;
    var rest := addrs[1..];
    NumberIs(num, a, key, x);
    NumberIs(num, b, key, z);
    if addrs[0] == key {
      SameNumbers(num, a, b, rest);
    } else {
      SameNumber(num, a, b, addrs[0]);
      assert key in rest;
      TotalChanges(num, a, b, rest, key, x, z);
    }
  }

  lemma SameNumber(num: Numbers, a: Cells, b: Cells, key: string)
    requires Lookup(a, key) == Lookup(b, key)
    ensures CellNum(num, a, key) == CellNum(num, b, key)
  {
    hide Lookup;
  }

  lemma {:induction false} SameNumbers(num: Numbers, a: Cells, b: Cells, addrs: seq<string>)
    requires forall i :: 0 <= i < |addrs| ==> Lookup(a, addrs[i]) == Lookup(b, addrs[i])
    ensures Total(num, Sum, a, addrs) == Total(num, Sum, b, addrs)
  {
    hide CellNum, Lookup;
    if addrs != [] {
      SameNumber(num, a, b, addrs[0]);
      SameNumbers(num, a, b, addrs[1..]);
    }
  }

  /** The sum of a rectangle is some number; where one cell of it counts as `z` in place of `x` and the others
      are the same, the sum is greater by `z - x`. */
  lemma SumChanges(num: Numbers, a: Cells, b: Cells, name: string, p: Ref, q: Ref, y: Layout, at: Coord, x: real,
                   z: real)
    returns (total: real)
    requires name != "" && All(name, IsAlpha) && ToUpper(name) == "SUM" && p.Valid() && q.Valid() && Spaced(y)
    requires InRect(p, q, at) && CountsAs(num, a, AddrOf(at.0, at.1), x) && CountsAs(num, b, AddrOf(at.0, at.1), z)
    requires forall c: nat, r: nat :: InRect(p, q, (c, r)) && (c, r) != at ==> SameText(a, b, AddrOf(c, r))
    ensures EvalFormula(num, a, RangeText(name, p, q, y)) == num.format(total)
    ensures EvalFormula(num, b, RangeText(name, p, q, y)) == num.format(total - x + z)
  {
    hide EvalFormula, CountsAs, AddrOf, CellRef, Spaced, Grid, Ref.Column, Ref.Row, ToUpper, ExpandRange, Trim,
      Total, Arguments, InRect, RangeText;
    var key, addrs := AddrOf(at.0, at.1), Addrs(p, q);
    EvalRange(num, a, name, p, q, y);
    EvalRange(num, b, name, p, q, y);
    AddrsAre(p, q, key);
    RectInRange(p, q, at);
    forall i | 0 <= i < |addrs| && addrs[i] != key ensures Lookup(a, addrs[i]) == Lookup(b, addrs[i]) {
      AddrsAre(p, q, addrs[i]);
      var c: nat, r: nat :| InRect(p, q, (c, r)) && addrs[i] == AddrOf(c, r);
      RectInRange(p, q, (c, r));
    }
    total := Total(num, Sum, a, addrs);
    TotalChanges(num, a, b, addrs, key, x, z);
  }

  /** Both sheets have the same text there, or both have no cell. */
  predicate SameText(a: Cells, b: Cells, key: string) {
    (key in a <==> key in b) && (key in a ==> a[key].value == b[key].value)
  }

  /** The sum of a rectangle without numbers is zero. */
  lemma SumOfNothing(num: Numbers, cells: Cells, name: string, p: Ref, q: Ref, y: Layout)
    requires name != "" && All(name, IsAlpha) && ToUpper(name) == "SUM" && p.Valid() && q.Valid() && Spaced(y)
    requires forall c: nat, r: nat :: InRect(p, q, (c, r)) ==> HoldsNone(num, cells, AddrOf(c, r))
    ensures EvalFormula(num, cells, RangeText(name, p, q, y)) == num.format(0.0)
  {
    hide EvalFormula, AddrOf, CellRef, Spaced, Grid, Ref.Column, Ref.Row, ToUpper, ExpandRange, Trim, Total,
      Arguments, InRect, RangeText;
    var addrs := Addrs(p, q);
    EvalRange(num, cells, name, p, q, y);
    AddrsAre(p, q, "");
    forall i | 0 <= i < |addrs| ensures ToUpper(addrs[i]) == addrs[i] && CountsAs(num, cells, addrs[i], 0.0) {
      AddrsAre(p, q, addrs[i]);
      var c: nat, r: nat :| InRect(p, q, (c, r)) && addrs[i] == AddrOf(c, r);
      RectInRange(p, q, (c, r));
    }
    TotalOfNothing(num, cells, addrs);
  }

  lemma {:induction false} TotalOfNothing(num: Numbers, cells: Cells, addrs: seq<string>)
    requires forall i :: 0 <= i < |addrs| ==> ToUpper(addrs[i]) == addrs[i] && CountsAs(num, cells, addrs[i], 0.0)
    ensures Total(num, Sum, cells, addrs) == 0.0
  {
    hide CellNum, CountsAs, ToUpper;
    if addrs != [] {
      NumberIs(num, cells, addrs[0], 0.0);
      TotalOfNothing(num, cells, addrs[1..]);
    }
  }

  // ------------------------------------------------------------ counting

  /** The coordinates of the rectangle whose cell holds a number; COUNT skips empty text even if that parses. */
  ghost function Numeric(num: Numbers, cells: Cells, c1: nat, c2: nat, r1: nat, r2: nat): set<Coord> {
    set at | at in Rect(c1, c2, r1, r2) && HasNumber(num, cells, AddrOf(at.0, at.1))
  }

  ghost function Rect(c1: nat, c2: nat, r1: nat, r2: nat): set<Coord> {
    set c: nat, r: nat | c1 <= c <= c2 && r1 <= r <= r2 :: (c, r)
  }

  lemma RectHas(c1: nat, c2: nat, r1: nat, r2: nat)
    ensures forall at :: at in Rect(c1, c2, r1, r2) <==> c1 <= at.0 <= c2 && r1 <= at.1 <= r2
  {
  }

  lemma RectColumn(c: nat, lo: nat, hi: nat)
    requires lo <= hi
    ensures Rect(c, c, lo, hi) == Rect(c, c, lo + 1, hi) + {(c, lo)} && (c, lo) !in Rect(c, c, lo + 1, hi)
  {
    hide Rect;
    RectHas(c, c, lo, hi);
    RectHas(c, c, lo + 1, hi);
  }

  lemma RectGrid(c: nat, cEnd: nat, lo: nat, hi: nat)
    requires c <= cEnd
    ensures Rect(c, cEnd, lo, hi) == Rect(c, c, lo, hi) + Rect(c + 1, cEnd, lo, hi)
    ensures Rect(c, c, lo, hi) !! Rect(c + 1, cEnd, lo, hi)
  {
    hide Rect;
    RectHas(c, cEnd, lo, hi);
    RectHas(c, c, lo, hi);
    RectHas(c + 1, cEnd, lo, hi);
  }

  predicate HasNumber(num: Numbers, cells: Cells, key: string) {
    key in cells && cells[key].value != "" && num.parse(cells[key].value).Some?
  }

  lemma NumericColumn(num: Numbers, cells: Cells, c: nat, lo: nat, hi: nat)
    requires lo <= hi
    ensures |Numeric(num, cells, c, c, lo, hi)| ==
            |Numeric(num, cells, c, c, lo + 1, hi)| + if HasNumber(num, cells, AddrOf(c, lo)) then 1 else 0
  {
    hide AddrOf, HasNumber, Rect;
    RectColumn(c, lo, hi);
    var here, rest := Numeric(num, cells, c, c, lo, hi), Numeric(num, cells, c, c, lo + 1, hi);
    if HasNumber(num, cells, AddrOf(c, lo)) {
      assert here == rest + {(c, lo)} && (c, lo) !in rest;
    } else {
      assert here == rest;
    }
  }

  lemma NumericGrid(num: Numbers, cells: Cells, c: nat, cEnd: nat, lo: nat, hi: nat)
    requires c <= cEnd
    ensures |Numeric(num, cells, c, cEnd, lo, hi)| ==
            |Numeric(num, cells, c, c, lo, hi)| + |Numeric(num, cells, c + 1, cEnd, lo, hi)|
  {
    hide AddrOf, HasNumber, Rect;
    RectGrid(c, cEnd, lo, hi);
    var here, rest := Numeric(num, cells, c, c, lo, hi), Numeric(num, cells, c + 1, cEnd, lo, hi);
    assert Numeric(num, cells, c, cEnd, lo, hi) == here + rest && here !! rest;
  }

  lemma NumericNone(num: Numbers, cells: Cells, c: nat, cEnd: nat, lo: nat, hi: nat)
    requires lo > hi || c > cEnd
    ensures Numeric(num, cells, c, cEnd, lo, hi) == {}
  {
    hide AddrOf, HasNumber, Rect;
    RectHas(c, cEnd, lo, hi);
  }

  lemma CountOne(num: Numbers, cells: Cells, key: string)
    requires ToUpper(key) == key
    ensures Weight(num, Count, cells, key) == if HasNumber(num, cells, key) then 1.0 else 0.0
  {
  }

  lemma {:induction false} CountColumn(num: Numbers, cells: Cells, c: nat, lo: nat, hi: nat)
    requires 0 < c < TWO_32 && 0 < lo && hi < TWO_32
    ensures Total(num, Count, cells, GridColumn(c, lo, hi)) == |Numeric(num, cells, c, c, lo, hi)| as real
    decreases hi + 1 - lo
  {
    hide AddrOf, HasNumber, Weight, Numeric;
    if lo <= hi {
      NumericColumn(num, cells, c, lo, hi);
      CountColumn(num, cells, c, lo + 1, hi);
      ParsePrint(c, lo);
      CountOne(num, cells, AddrOf(c, lo));
      var addrs := GridColumn(c, lo, hi);
      assert addrs[0] == AddrOf(c, lo) && addrs[1..] == GridColumn(c, lo + 1, hi);
    } else {
      NumericNone(num, cells, c, c, lo, hi);
    }
  }

  lemma {:induction false} CountGrid(num: Numbers, cells: Cells, c: nat, cEnd: nat, lo: nat, hi: nat)
    requires 0 < c && cEnd < TWO_32 && 0 < lo && hi < TWO_32
    ensures Total(num, Count, cells, Grid(c, cEnd, lo, hi)) == |Numeric(num, cells, c, cEnd, lo, hi)| as real
    decreases cEnd + 1 - c
  {
    hide AddrOf, HasNumber, Weight, GridColumn, Total, Numeric;
    if c <= cEnd {
      NumericGrid(num, cells, c, cEnd, lo, hi);
      CountColumn(num, cells, c, lo, hi);
      CountGrid(num, cells, c + 1, cEnd, lo, hi);
      TotalJoined(num, cells, GridColumn(c, lo, hi), Grid(c + 1, cEnd, lo, hi));
    } else {
      NumericNone(num, cells, c, cEnd, lo, hi);
      TotalEmpty(num, cells);
    }
  }

  lemma TotalEmpty(num: Numbers, cells: Cells)
    ensures Total(num, Count, cells, []) == 0.0
  {
  }

  lemma {:induction false} TotalJoined(num: Numbers, cells: Cells, a: seq<string>, b: seq<string>)
    ensures Total(num, Count, cells, a + b) == Total(num, Count, cells, a) + Total(num, Count, cells, b)
  {
    hide Weight;
    if a == [] {
      assert a + b == b;
    } else {
      assert (a + b)[1..] == a[1..] + b;
      TotalJoined(num, cells, a[1..], b);
    }
  }

  /** COUNT of a rectangle is the number of its coordinates whose cell holds a number. */
  lemma CountIsSize(num: Numbers, cells: Cells, name: string, p: Ref, q: Ref, y: Layout)
    requires name != "" && All(name, IsAlpha) && ToUpper(name) == "COUNT" && p.Valid() && q.Valid() && Spaced(y)
    ensures var counted := Numeric(num, cells, Min(p.Column(), q.Column()), Max(p.Column(), q.Column()),
                                   Min(p.Row(), q.Row()), Max(p.Row(), q.Row()));
            EvalFormula(num, cells, RangeText(name, p, q, y)) == num.format(|counted| as real)
  {
    hide EvalFormula, AddrOf, CellRef, Spaced, Grid, Ref.Column, Ref.Row, ToUpper, ExpandRange, Trim, Total,
      Arguments, RangeText, Numeric;
    EvalRange(num, cells, name, p, q, y);
    RefInRange(p);
    RefInRange(q);
    CountGrid(num, cells, Min(p.Column(), q.Column()), Max(p.Column(), q.Column()),
              Min(p.Row(), q.Row()), Max(p.Row(), q.Row()));
  }

  // ------------------------------------------------------------ averages and extremes

  lemma AverageNames()
    ensures All("AVERAGE", IsAlpha) && ToUpper("AVERAGE") == "AVERAGE" && All("AVG", IsAlpha) && ToUpper("AVG") == "AVG"
    ensures All("MIN", IsAlpha) && ToUpper("MIN") == "MIN" && All("MAX", IsAlpha) && ToUpper("MAX") == "MAX"
  {
  }

  /** Number of coordinates of the rectangle. */
  function Area(p: Ref, q: Ref): (n: nat)
    requires p.Valid() && q.Valid()
    ensures n > 0
  {
    var width: nat := Max(p.Column(), q.Column()) + 1 - Min(p.Column(), q.Column());
    var height: nat := Max(p.Row(), q.Row()) + 1 - Min(p.Row(), q.Row());
    width * height
  }

  /** AVERAGE is the sum of the rectangle divided by the number of its cells, blank ones included. */
  lemma AverageIsShare(num: Numbers, cells: Cells, p: Ref, q: Ref, y: Layout) returns (total: real)
    requires p.Valid() && q.Valid() && Spaced(y)
    ensures EvalFormula(num, cells, RangeText("SUM", p, q, y)) == num.format(total)
    ensures EvalFormula(num, cells, RangeText("AVERAGE", p, q, y)) == num.format(total / Area(p, q) as real)
    ensures EvalFormula(num, cells, RangeText("AVG", p, q, y)) == num.format(total / Area(p, q) as real)
  {
    hide EvalFormula, AddrOf, CellRef, Spaced, Grid, Ref.Column, Ref.Row, ToUpper, ExpandRange, Trim, Total,
      Arguments, RangeText, Area;
    SumName();
    AverageNames();
    EvalRange(num, cells, "SUM", p, q, y);
    EvalRange(num, cells, "AVERAGE", p, q, y);
    EvalRange(num, cells, "AVG", p, q, y);
    AddrsAre(p, q, "");
    RectSize(p, q);
    NamesDiffer();
    total := Total(num, Sum, cells, Addrs(p, q));
  }

  lemma RectSize(p: Ref, q: Ref)
    requires p.Valid() && q.Valid()
    ensures |Addrs(p, q)| == Area(p, q)
  {
    hide AddrOf, Grid, CellRef, Ref.Column, Ref.Row;
    GridMembers(Min(p.Column(), q.Column()), Max(p.Column(), q.Column()), Min(p.Row(), q.Row()),
                Max(p.Row(), q.Row()), "");
    AddrsAre(p, q, "");
  }

  lemma NamesDiffer()
    ensures "AVERAGE" != "COUNTIF" && "SUM" != "AVG" && "SUM" != "MIN" && "SUM" != "MAX" && "AVG" != "MIN"
            && "AVG" != "MAX"
    ensures "MIN" != "MAX" && "ROUND" != "COUNT"
  {
    assert "AVERAGE"[0] != "COUNTIF"[0] && "SUM"[0] != "AVG"[0] && "SUM"[0] != "MIN"[0] && "SUM"[0] != "MAX"[0];
    assert "AVG"[0] != "MIN"[0] && "AVG"[0] != "MAX"[0] && "MIN"[1] != "MAX"[1] && "ROUND"[0] != "COUNT"[0];
  }

  /** `m` is one of the numbers that the addresses count as, and none of them is beyond it. */
  predicate IsExtreme(num: Numbers, cells: Cells, addrs: seq<string>, least: bool, m: real) {
    && (exists i :: 0 <= i < |addrs| && CellNum(num, cells, addrs[i]) == m)
    && forall i :: 0 <= i < |addrs| ==>
         if least then m <= CellNum(num, cells, addrs[i]) else CellNum(num, cells, addrs[i]) <= m
  }

  lemma {:induction false} ExtremeIs(num: Numbers, cells: Cells, addrs: seq<string>, least: bool)
    requires addrs != []
    ensures IsExtreme(num, cells, addrs, least, Extreme(num, cells, addrs, least))
  {
    hide CellNum;
    var m := Extreme(num, cells, addrs, least);
    if |addrs| == 1 {
      assert CellNum(num, cells, addrs[0]) == m;
    } else {
      var rest := addrs[1..];
      ExtremeIs(num, cells, rest, least);
      var y := Extreme(num, cells, rest, least);
      var j :| 0 <= j < |rest| && CellNum(num, cells, rest[j]) == y;
      assert CellNum(num, cells, addrs[j+1]) == y && CellNum(num, cells, addrs[0]) == CellNum(num, cells, addrs[0]);
      forall i | 0 <= i < |addrs|
        ensures if least then m <= CellNum(num, cells, addrs[i]) else CellNum(num, cells, addrs[i]) <= m
      {
        if i > 0 { assert addrs[i] == rest[i-1]; }
      }
    }
  }

  /** MIN and MAX give a number that some cell of the rectangle counts as, blank ones as zero, and that no
      cell is beyond. */
  lemma ExtremeOfRange(num: Numbers, cells: Cells, p: Ref, q: Ref, y: Layout, least: bool) returns (m: real, at: Coord)
    requires p.Valid() && q.Valid() && Spaced(y)
    ensures EvalFormula(num, cells, RangeText(if least then "MIN" else "MAX", p, q, y)) == num.format(m)
    ensures InRect(p, q, at) && CountsAs(num, cells, AddrOf(at.0, at.1), m)
    ensures forall c: nat, r: nat, x :: InRect(p, q, (c, r)) && CountsAs(num, cells, AddrOf(c, r), x) ==>
              if least then m <= x else x <= m
  {
    hide EvalFormula, AddrOf, CellRef, Spaced, Grid, Ref.Column, Ref.Row, ToUpper, ExpandRange, Trim, Extreme,
      Arguments, InRect, RangeText, CountsAs, CellNum, Total;
    var addrs := Addrs(p, q);
    AverageNames();
    NamesDiffer();
    EvalRange(num, cells, if least then "MIN" else "MAX", p, q, y);
    AddrsAre(p, q, "");
    ExtremeIs(num, cells, addrs, least);
    m := Extreme(num, cells, addrs, least);
    var i :| 0 <= i < |addrs| && CellNum(num, cells, addrs[i]) == m;
    AddrsAre(p, q, addrs[i]);
    var c0: nat, r0: nat :| InRect(p, q, (c0, r0)) && addrs[i] == AddrOf(c0, r0);
    at := (c0, r0);
    RectInRange(p, q, at);
    SomeNumber(num, cells, addrs[i]);
    forall c: nat, r: nat, x | InRect(p, q, (c, r)) && CountsAs(num, cells, AddrOf(c, r), x)
      ensures if least then m <= x else x <= m
    {
      RectInRange(p, q, (c, r));
      NumberIs(num, cells, AddrOf(c, r), x);
      var j :| 0 <= j < |addrs| && addrs[j] == AddrOf(c, r);
    }
  }

  // ------------------------------------------------------------ rounding

  function TenTo(n: nat): nat {
    if n == 0 then 1 else 10 * TenTo(n - 1)
  }

  lemma {:induction false} PowerIs(n: nat)
    ensures Power10(n) == TenTo(n) as real && TenTo(n) > 0
  {
    if n > 0 { PowerIs(n - 1); }
  }

  /** `z` is `x` rounded to `n` decimal places, halves away from zero: a whole number of units, half a unit
      from `x` at most, and exactly half a unit only on the far side of zero. */
  predicate IsRounded(x: real, n: nat, z: real, units: int) {
    && z * TenTo(n) as real == units as real
    && -0.5 <= (z - x) * TenTo(n) as real <= 0.5
    && ((z - x) * TenTo(n) as real == -0.5 ==> x < 0.0)
    && ((z - x) * TenTo(n) as real == 0.5 ==> x >= 0.0)
  }

  lemma RoundedIs(v: real) returns (units: int)
    ensures Rounded(v) == units as real
    ensures var u := Rounded(v); -0.5 <= u - v <= 0.5 && (u - v == -0.5 ==> v < 0.0) && (u - v == 0.5 ==> v >= 0.0)
  {
    units := if v >= 0.0 then (v + 0.5).Floor else -((-v + 0.5).Floor);
  }

  lemma RoundToIs(x: real, n: nat) returns (units: int)
    ensures IsRounded(x, n, RoundTo(x, n), units)
  {
    hide Rounded;
    PowerIs(n);
    var t, v := TenTo(n) as real, x * Power10(n);
    units := RoundedIs(v);
    DivideBack(units as real, t, x, RoundTo(x, n));
  }

  lemma DivideBack(u: real, t: real, x: real, z: real)
    requires t > 0.0 && z == u / t
    ensures z * t == u && (z - x) * t == u - x * t && (x < 0.0 <==> x * t < 0.0)
  {
  }

  /** Places that a number asks for: ten at most, and none if it is no 32-bit number. */
  function PlacesFor(n: nat): nat {
    if n < 0x8000_0000 then Min(n, 10) else 0
  }

  /** ROUND gives the number of its cell rounded to the places of its second argument. */
  lemma RoundIsNearest(num: Numbers, cells: Cells, name: string, at: Ref, places: nat, y: Layout, x: real)
    returns (z: real, units: int)
    requires name != "" && All(name, IsAlpha) && ToUpper(name) == "ROUND" && at.Valid() && Spaced(y)
    requires CountsAs(num, cells, at.Key(), x)
    ensures PlainDigits(Decimal(places))
    ensures EvalFormula(num, cells, Spelled(OfRound(name, at, Some(Decimal(places))), y)) == num.format(z)
    ensures IsRounded(x, PlacesFor(places), z, units)
  {
    hide EvalFormula, CellNum, CellRef, Spelled, Spaced, CountsAs, RoundTo, IsRounded, Decimal, Total;
    PlacesAre(places);
    EvalSpelled(num, cells, OfRound(name, at, Some(Decimal(places))), y);
    SingleTotal(num, cells, at.Key());
    KeyUpper(at);
    NumberIs(num, cells, at.Key(), x);
    z := RoundTo(x, PlacesFor(places));
    units := RoundToIs(x, PlacesFor(places));
  }

  lemma PlacesAre(n: nat)
    ensures PlainDigits(Decimal(n)) && Places(Some(Decimal(n))) == PlacesFor(n)
  {
    hide DecimalValue, Decimal, Trim;
    var d := Decimal(n);
    DecimalRoundTrip(n);
    SplitWord(d, "", "");
    assert d + "" == d && "" + d == d;
    DigitsTrimmed(d);
    assert SplitArgs(d) == [d];
    assert ([""] + [d])[1] == d;
  }

  lemma DigitsTrimmed(d: string)
    requires d != "" && All(d, IsDigit)
    ensures Trim(d) == d && d[0] != '-' && d[0] != '+'
  {
    hide Trim;
    NoSpaceInWord(d);
    TrimAround("", d, "");
    assert "" + d + "" == d;
  }

  /** Without a second argument ROUND gives a whole number. */
  lemma RoundToWhole(num: Numbers, cells: Cells, name: string, at: Ref, y: Layout, x: real)
    returns (z: real, units: int)
    requires name != "" && All(name, IsAlpha) && ToUpper(name) == "ROUND" && at.Valid() && Spaced(y)
    requires CountsAs(num, cells, at.Key(), x)
    ensures EvalFormula(num, cells, Spelled(OfRound(name, at, None), y)) == num.format(z) && IsRounded(x, 0, z, units)
  {
    hide EvalFormula, CellNum, CellRef, Spelled, Spaced, CountsAs, RoundTo, IsRounded, Total;
    EvalSpelled(num, cells, OfRound(name, at, None), y);
    SingleTotal(num, cells, at.Key());
    KeyUpper(at);
    NumberIs(num, cells, at.Key(), x);
    z := RoundTo(x, 0);
    units := RoundToIs(x, 0);
  }
}
