/** The cells of a sheet by coordinate, however their keys are spelled. */
module Coordinates {
  import opened Basics
  import opened Text
  import opened Ordered
  import opened Addresses
  import opened Sheets

  function CellOf(cells: Cells, c: nat, r: nat): Option<Cell> {
    if AddrOf(c, r) in cells then Some(cells[AddrOf(c, r)]) else None
  }

  ghost predicate AllCanonical(cells: Cells) {
    forall k :: k in cells ==> CanonicalAddr(k)
  }

  /** Two canonical sheets with the same cell at every coordinate are the same. */
  lemma SameByCells(a: Cells, b: Cells)
    requires AllCanonical(a) && AllCanonical(b)
    requires forall c: nat, r: nat :: InRange((c, r)) ==> CellOf(a, c, r) == CellOf(b, c, r)
    ensures a == b
  {
    hide CanonicalAddr, AddrOf;
    forall k | k in a || k in b ensures k in a && k in b && a[k] == b[k] {
      PrintParse(k);
      var c, r :| InRange((c, r)) && k == AddrOf(c, r);
      assert CellOf(a, c, r) == CellOf(b, c, r);
    }
  }

  /** The last of these keys that denotes `at`. */
  function LastKey(keys: seq<string>, at: Coord): Option<string> {
    if keys == [] then None
    else if ParseAddr(keys[|keys|-1]) == Some(at) then Some(keys[|keys|-1])
    else LastKey(keys[..|keys|-1], at)
  }

  /** The key under which the sheet holds the cell at `at`: the last in key order, if several denote it. */
  function Holder(cells: Cells, at: Coord): (k: Option<string>)
    ensures k.Some? ==> k.value in cells && ParseAddr(k.value) == Some(at)
  {
    LastKeySpec(SortedKeys(cells.Keys), at);
    LastKey(SortedKeys(cells.Keys), at)
  }

  /** The cell at a coordinate, however its key is spelled. */
  function Shown(cells: Cells, c: nat, r: nat): Option<Cell> {
    var k := Holder(cells, (c, r));
    if k.None? then None else Some(cells[k.value])
  }

  lemma {:induction false} LastKeySpec(keys: seq<string>, at: Coord)
    ensures var k := LastKey(keys, at);
            && (k.Some? ==> k.value in keys && ParseAddr(k.value) == Some(at))
            && (k.None? ==> forall x :: x in keys ==> ParseAddr(x) != Some(at))
            && (Ascending(keys) && k.Some? ==>
                  forall x :: x in keys && ParseAddr(x) == Some(at) ==> x == k.value || Less(x, k.value))
  {
    hide ParseAddr;
    if keys != [] {
      var n := |keys| - 1;
      assert keys == keys[..n] + [keys[n]];
      LastKeySpec(keys[..n], at);
    }
  }

  lemma HolderSpec(cells: Cells, at: Coord)
    ensures Holder(cells, at).None? <==> forall x :: x in cells ==> ParseAddr(x) != Some(at)
    ensures forall x :: x in cells && ParseAddr(x) == Some(at) && Holder(cells, at).Some? ==>
              x == Holder(cells, at).value || Less(x, Holder(cells, at).value)
  {
    hide ParseAddr, LastKey, Ascending;
    LastKeySpec(SortedKeys(cells.Keys), at);
  }

  /** Where keys are canonical, the cell at a coordinate is the one under its address. */
  lemma ShownCanonical(cells: Cells, r: nat, c: nat)
    requires AllCanonical(cells)
    ensures Shown(cells, c, r) == if InRange((c, r)) then CellOf(cells, c, r) else None
  {
    hide CanonicalAddr, AddrOf, ParseAddr, LastKey;
    HolderSpec(cells, (c, r));
    var k := Holder(cells, (c, r));
    if k.Some? {
      PrintParse(k.value);
      ParsedInRange(k.value);
    }
    if InRange((c, r)) {
      ParsePrint(c, r);
    }
  }

  /** The sheet with every cell under the canonical address of its coordinate; where several keys denote
      one coordinate, the cell of the last one. */
  function Respelled(cells: Cells): Cells {
    map k | k in Spellings(cells) && CanonicalAddr(k) && Shown(cells, At(k).0, At(k).1).Some? ::
      Shown(cells, At(k).0, At(k).1).value
  }

  function Spellings(cells: Cells): set<string> {
    set k | k in cells && ParseAddr(k).Some? :: AddrOf(At(k).0, At(k).1)
  }

  function At(k: string): Coord {
    ParseAddr(k).GetOr((0, 0))
  }

  lemma RespelledAt(cells: Cells, c: nat, r: nat)
    requires InRange((c, r))
    ensures CellOf(Respelled(cells), c, r) == Shown(cells, c, r)
  {
    hide ParseAddr, AddrOf, CanonicalAddr, LastKey;
    var key := AddrOf(c, r);
    ParsePrint(c, r);
    PrintedIsCanonical(c, r);
    HolderSpec(cells, (c, r));
    var h := Holder(cells, (c, r));
    if h.Some? {
      assert key == AddrOf(At(h.value).0, At(h.value).1);
      assert key in Spellings(cells);
    }
  }
}
