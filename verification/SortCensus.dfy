/** Exactly when sorting loses no cell. */
module SortCensus {
  import opened Basics
  import opened Text
  import opened Addresses
  import opened Sheets
  import opened Coordinates
  import opened RowSort

  lemma ValuesWithout<X, Y>(f: map<X, Y>, x: X)
    requires x in f
    ensures var rest := f - {x};
            && rest.Keys == f.Keys - {x} && f.Values == rest.Values + {f[x]}
            && (f[x] in rest.Values <==> exists y :: y in f && y != x && f[y] == f[x])
  {
    var rest := f - {x};
    forall v | v in f.Values ensures v in rest.Values + {f[x]} {
      var k :| k in f && f[k] == v;
      assert k == x || rest[k] == v;
    }
    if f[x] in rest.Values {
      var y :| y in rest && rest[y] == f[x];
      assert y in f && y != x && f[y] == f[x];
    }
    forall y | y in f && y != x && f[y] == f[x] ensures f[x] in rest.Values {
      assert rest[y] == f[x];
    }
  }

  ghost predicate Injective<X(!new), Y>(f: map<X, Y>) {
    forall a, b :: a in f && b in f && f[a] == f[b] ==> a == b
  }

  /** A map has at most as many values as keys, and as many just when no value occurs twice. */
  lemma {:induction false} ValuesSize<X(!new), Y>(f: map<X, Y>)
    ensures |f.Values| <= |f.Keys| && (|f.Values| == |f.Keys| <==> Injective(f))
    decreases |f.Keys|
  {
    if f.Keys == {} {
      assert f.Values == {};
    } else {
      var x :| x in f;
      var rest := f - {x};
      ValuesWithout(f, x);
      ValuesSize(rest);
      if f[x] !in rest.Values {
        assert |f.Values| == |rest.Values| + 1;
        if Injective(rest) {
          forall a, b | a in f && b in f && f[a] == f[b] ensures a == b {
            if a != x && b != x { assert rest[a] == rest[b]; }
          }
        }
        if Injective(f) {
          forall a, b | a in rest && b in rest && rest[a] == rest[b] ensures a == b { assert f[a] == f[b]; }
        }
      } else {
        assert f.Values == rest.Values;
      }
    }
  }

  /** The keys that are addresses, with what they denote. */
  function Addressed(cells: Cells): map<string, Coord> {
    map k | k in cells && ParseAddr(k).Some? :: ParseAddr(k).value
  }

  ghost predicate AllAddresses(cells: Cells) {
    forall k :: k in cells ==> ParseAddr(k).Some?
  }

  /** No two keys denote the same coordinate. */
  ghost predicate NoAliases(cells: Cells) {
    forall a, b :: a in cells && b in cells && ParseAddr(a).Some? && ParseAddr(a) == ParseAddr(b) ==> a == b
  }

  lemma AddressedSize(cells: Cells)
    ensures |Addressed(cells).Values| <= |cells|
    ensures |Addressed(cells).Values| == |cells| <==> AllAddresses(cells) && NoAliases(cells)
  {
    hide ParseAddr;
    var f := Addressed(cells);
    ValuesSize(f);
    assert f.Keys <= cells.Keys;
    if f.Keys == cells.Keys {
      assert forall k :: k in cells ==> k in f;
    } else {
      assert f.Keys < cells.Keys;
      SubsetSmaller(f.Keys, cells.Keys);
    }
  }

  lemma SubsetSmaller<T>(a: set<T>, b: set<T>)
    requires a < b
    ensures |a| < |b|
  {
    assert |b - a| > 0;
    assert b == a + (b - a);
  }

  /** Where the cell at a key of the sorted sheet came from. */
  function Origins(s: seq<Numbered>, out: Cells): map<string, Coord> {
    map k | k in out && ParseAddr(k).Some? && 0 < ParseAddr(k).value.1 <= |s| ::
      (ParseAddr(k).value.0, s[ParseAddr(k).value.1 - 1].index)
  }

  lemma OriginAt(cells: Cells, col: nat, ascending: bool, k: string)
    requires k in SortedRows(cells, col, ascending)
    ensures var s, at := NewOrder(cells, col, ascending), ParseAddr(k);
            && at.Some? && 0 < at.value.1 <= |s| && k == AddrOf(at.value.0, at.value.1)
            && Shown(cells, at.value.0, s[at.value.1 - 1].index).Some?
  {
    hide ParseAddr, AddrOf, CanonicalAddr, SortedRows, NewOrder, Shown, InOrder;
    var s, out := NewOrder(cells, col, ascending), SortedRows(cells, col, ascending);
    SortPermutesRows(cells, col, ascending);
    PrintParse(k);
    var at := ParseAddr(k).value;
    assert CellOf(out, at.0, at.1) == Source(cells, s, at.0, at.1);
  }

  /** Every key of the sorted sheet has an origin, and no two have the same. */
  lemma OriginsInjective(cells: Cells, col: nat, ascending: bool)
    ensures var out := SortedRows(cells, col, ascending);
            var f := Origins(NewOrder(cells, col, ascending), out); f.Keys == out.Keys && Injective(f)
  {
    hide ParseAddr, AddrOf, SortedRows, NewOrder, Shown, InOrder, AllCanonical;
    var s, out := NewOrder(cells, col, ascending), SortedRows(cells, col, ascending);
    SortPermutesRows(cells, col, ascending);
    forall k | k in out
      ensures var at := ParseAddr(k); at.Some? && 0 < at.value.1 <= |s| && k == AddrOf(at.value.0, at.value.1)
    {
      OriginAt(cells, col, ascending, k);
    }
  }

  /** The origins are exactly the coordinates that the sheet has cells at. */
  lemma OriginsComplete(cells: Cells, col: nat, ascending: bool)
    ensures var s, out := NewOrder(cells, col, ascending), SortedRows(cells, col, ascending);
            Origins(s, out).Values == Addressed(cells).Values
  {
    hide ParseAddr, AddrOf, AllCanonical, SortedRows, NewOrder, InOrder, Holder;
    var s, out := NewOrder(cells, col, ascending), SortedRows(cells, col, ascending);
    var f := Origins(s, out);
    forall at | at in f.Values ensures at in Addressed(cells).Values {
      var k :| k in f && f[k] == at;
      OriginAt(cells, col, ascending, k);
      assert Addressed(cells)[Holder(cells, at).value] == at;
    }
    forall at | at in Addressed(cells).Values ensures at in f.Values {
      var k :| k in Addressed(cells) && Addressed(cells)[k] == at;
      ParsedInRange(k);
      HolderSpec(cells, at);
      OriginOf(cells, col, ascending, at);
    }
  }

  lemma OriginOf(cells: Cells, col: nat, ascending: bool, at: Coord)
    requires InRange(at) && Shown(cells, at.0, at.1).Some?
    ensures at in Origins(NewOrder(cells, col, ascending), SortedRows(cells, col, ascending)).Values
  {
    hide ParseAddr, AddrOf, Shown, SortedRows, NewOrder, InOrder, AllCanonical, MaxRow;
    var s, out := NewOrder(cells, col, ascending), SortedRows(cells, col, ascending);
    SortPermutesRows(cells, col, ascending);
    NewOrderShape(cells, col, ascending);
    assert Occurs(s, at.1);
    var i :| 0 <= i < |s| && s[i].index == at.1;
    var to := AddrOf(at.0, i + 1);
    ParsePrint(at.0, i + 1);
    assert CellOf(out, at.0, i + 1) == Source(cells, s, at.0, i + 1);
    assert Origins(s, out)[to] == at;
  }

  /** Sorting keeps the number of cells exactly when every key is an address and no two denote the
      same coordinate. Then nothing is lost, for the rows are permuted whole. */
  lemma SortLosesNothing(cells: Cells, col: nat, ascending: bool)
    ensures |SortedRows(cells, col, ascending)| == |cells| <==> AllAddresses(cells) && NoAliases(cells)
    ensures |SortedRows(cells, col, ascending)| <= |cells|
  {
    hide ParseAddr, SortedRows, NewOrder, Origins, Addressed, AllAddresses, NoAliases;
    var s, out := NewOrder(cells, col, ascending), SortedRows(cells, col, ascending);
    OriginsInjective(cells, col, ascending);
    OriginsComplete(cells, col, ascending);
    ValuesSize(Origins(s, out));
    AddressedSize(cells);
  }

  /** Two spellings of one address: one of the two cells is lost. */
  lemma AliasLosesCell(x: Cell, y: Cell, col: nat, ascending: bool)
    ensures var cells := map["A01" := x, "A1" := y];
            |cells| == 2 && |SortedRows(cells, col, ascending)| < 2
  {
    hide ParseAddr, SortedRows, CellRef, CanonicalDecimal;
    var cells := map["A01" := x, "A1" := y];
    assert "A01"[1] != "A1"[1];
    assert cells.Keys == {"A01", "A1"};
    TwoSpellings();
    assert !NoAliases(cells);
    SortLosesNothing(cells, col, ascending);
  }
}
