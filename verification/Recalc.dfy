/** Recalculation: one pass over the formula cells in key order, and what it reaches. */
module Recalc {
  import opened Basics
  import opened Text
  import opened Ordered
  import opened Addresses
  import opened Sheets
  import opened Calc

  // ------------------------------------------------------------ what a formula reads

  function ValueAt(cells: Cells, key: string): Option<string> {
    if key in cells then Some(cells[key].value) else None
  }

  function Upper(addrs: seq<string>): set<string> {
    set a | a in addrs :: ToUpper(a)
  }

  function AtomReads(num: Numbers, atom: string): set<string> {
    var a := Trim(atom);
    if a == "" || Quoted(a, '"') || Quoted(a, '\'') || num.parse(a).Some? || ParseAddr(a).None? then {}
    else {ToUpper(a)}
  }

  function CondReads(num: Numbers, c: string, ops: seq<string>): set<string> {
    if ops == [] then AtomReads(num, c)
    else
      var i := Find(c, ops[0]);
      if i.Some? then AtomReads(num, c[..i.value]) + AtomReads(num, c[i.value + |ops[0]|..])
      else CondReads(num, c, ops[1..])
  }

  /** Every key that evaluating the call may look at; both branches of an IF count. */
  function CallReads(num: Numbers, name: string, raw: string): set<string> {
    if name == "IF" then
      var args := SplitArgs(raw);
      if |args| < 2 then {}
      else CondReads(num, Trim(args[0]), COMPARISONS) + AtomReads(num, args[1])
           + AtomReads(num, if |args| > 2 then args[2] else "")
    else if name == "COUNTIF" then
      var args := SplitArgs(raw);
      if |args| < 2 then {} else Upper(ExpandRange(Trim(args[0])))
    else if name == "ROUND" then
      var args := SplitArgs(raw);
      if args == [] then {} else {ToUpper(Trim(args[0]))}
    else Upper(ExpandRange(Trim(raw)))
  }

  function Reads(num: Numbers, formula: string): set<string> {
    var call := CallParts(formula);
    if call.None? then {} else CallReads(num, call.value.0, call.value.1)
  }

  ghost predicate Agree(a: Cells, b: Cells, keys: set<string>) {
    forall k :: k in keys ==> ValueAt(a, k) == ValueAt(b, k)
  }

  lemma AtomFrame(num: Numbers, a: Cells, b: Cells, atom: string)
    requires Agree(a, b, AtomReads(num, atom))
    ensures EvalAtom(num, a, atom) == EvalAtom(num, b, atom)
  {
    hide Trim, ParseAddr, ToUpper, Quoted;
  }

  lemma {:induction false} CondFrame(num: Numbers, a: Cells, b: Cells, c: string, ops: seq<string>)
    requires Agree(a, b, CondReads(num, c, ops))
    ensures EvalCond(num, a, c, ops) == EvalCond(num, b, c, ops)
  {
    hide EvalAtom, AtomReads, Find, Compare;
    if ops == [] {
      AtomFrame(num, a, b, c);
    } else {
      var i := Find(c, ops[0]);
      if i.Some? {
        AtomFrame(num, a, b, c[..i.value]);
        AtomFrame(num, a, b, c[i.value + |ops[0]|..]);
      } else {
        CondFrame(num, a, b, c, ops[1..]);
      }
    }
  }

  lemma LookupFrame(a: Cells, b: Cells, addrs: seq<string>)
    requires Agree(a, b, Upper(addrs))
    ensures forall i :: 0 <= i < |addrs| ==> Lookup(a, addrs[i]) == Lookup(b, addrs[i])
  {
    hide ToUpper;
    forall i | 0 <= i < |addrs| ensures Lookup(a, addrs[i]) == Lookup(b, addrs[i]) {
      assert ToUpper(addrs[i]) in Upper(addrs);
    }
  }

  lemma {:induction false} RangeFrame(num: Numbers, a: Cells, b: Cells, addrs: seq<string>)
    requires forall i :: 0 <= i < |addrs| ==> Lookup(a, addrs[i]) == Lookup(b, addrs[i])
    ensures forall agg :: Total(num, agg, a, addrs) == Total(num, agg, b, addrs)
    ensures forall criteria :: CountIf(num, a, addrs, criteria) == CountIf(num, b, addrs, criteria)
    ensures forall least :: addrs != [] ==> Extreme(num, a, addrs, least) == Extreme(num, b, addrs, least)
  {
    hide Lookup, CountIfMatch, Trim;
    if addrs != [] {
      assert forall i :: 0 <= i < |addrs[1..]| ==> addrs[1..][i] == addrs[i+1];
      RangeFrame(num, a, b, addrs[1..]);
    }
  }

  lemma CallFrame(num: Numbers, a: Cells, b: Cells, name: string, raw: string)
    requires Agree(a, b, CallReads(num, name, raw))
    ensures EvalCall(num, a, name, raw) == EvalCall(num, b, name, raw)
  {
    hide Trim, SplitArgs, ExpandRange, EvalCond, CondReads, EvalAtom, AtomReads, Total, CountIf, Extreme, ToUpper,
      Upper, RoundTo, Unquoted, RoundDigits;
    var args := SplitArgs(raw);
    if name == "IF" {
      if |args| >= 2 {
        CondFrame(num, a, b, Trim(args[0]), COMPARISONS);
        AtomFrame(num, a, b, args[1]);
        AtomFrame(num, a, b, if |args| > 2 then args[2] else "");
      }
    } else if name == "COUNTIF" {
      if |args| >= 2 {
        LookupFrame(a, b, ExpandRange(Trim(args[0])));
        RangeFrame(num, a, b, ExpandRange(Trim(args[0])));
      }
    } else if name == "ROUND" {
    } else {
      LookupFrame(a, b, ExpandRange(Trim(raw)));
      RangeFrame(num, a, b, ExpandRange(Trim(raw)));
    }
  }

  /** The value of a formula depends only on the cells it reads. */
  lemma EvalFrame(num: Numbers, a: Cells, b: Cells, formula: string)
    requires Agree(a, b, Reads(num, formula))
    ensures EvalFormula(num, a, formula) == EvalFormula(num, b, formula)
  {
    hide CallParts, EvalCall, CallReads;
    var call := CallParts(formula);
    if call.Some? {
      CallFrame(num, a, b, call.value.0, call.value.1);
    }
  }

  // ------------------------------------------------------------ the pass

  function RecalcCell(num: Numbers, cells: Cells, k: string, formula: string): Cells {
    if k in cells then cells[k := cells[k].(value := EvalFormula(num, cells, formula))] else cells
  }

  predicate IsFormula(cells: Cells, k: string) {
    k in cells && cells[k].formula != ""
  }

  /** Keys and texts of the formula cells among `keys`. */
  function Formulas(cells: Cells, keys: seq<string>): (fs: seq<(string, string)>)
    ensures forall i :: 0 <= i < |fs| ==> IsFormula(cells, fs[i].0) && fs[i].1 == cells[fs[i].0].formula
  {
    if keys == [] then []
    else
      var rest := Formulas(cells, keys[1..]);
      if IsFormula(cells, keys[0]) then [(keys[0], cells[keys[0]].formula)] + rest else rest
  }

  function RecalcAlong(num: Numbers, cells: Cells, fs: seq<(string, string)>): Cells {
    if fs == [] then cells else RecalcAlong(num, RecalcCell(num, cells, fs[0].0, fs[0].1), fs[1..])
  }

  /** The formula cells are listed first, then recalculated one after the other. */
  function Recalculated(num: Numbers, cells: Cells): Cells {
    RecalcAlong(num, cells, Formulas(cells, SortedKeys(cells.Keys)))
  }

  method RecalcLoop(num: Numbers, cells: Cells) returns (next: Cells)
    ensures next == Recalculated(num, cells)
  {
    hide EvalFormula, Formulas, SortedKeys;
    next := cells;
    var fs := Formulas(cells, SortedKeys(cells.Keys));
    for i := 0 to |fs|
      invariant RecalcAlong(num, next, fs[i..]) == Recalculated(num, cells)
    {
      var (addr, formula) := fs[i];
      assert fs[i..][0] == fs[i] && fs[i..][1..] == fs[i+1..];
      var val := EvalFormula(num, next, formula);
      if addr in next {
        next := next[addr := next[addr].(value := val)];
      }
    }
  }

  /** Same cells, except perhaps for formula results. */
  ghost predicate SameButResults(a: Cells, b: Cells) {
    && a.Keys == b.Keys
    && forall k :: k in a ==> b[k] == if a[k].formula == "" then a[k] else a[k].(value := b[k].value)
  }

  /** The listed texts are those of formula cells. */
  ghost predicate Listed(cells: Cells, fs: seq<(string, string)>) {
    forall i :: 0 <= i < |fs| ==> IsFormula(cells, fs[i].0) && fs[i].1 == cells[fs[i].0].formula
  }

  lemma StepKeeps(num: Numbers, cells: Cells, k: string, formula: string)
    requires IsFormula(cells, k)
    ensures SameButResults(cells, RecalcCell(num, cells, k, formula))
  {
    hide EvalFormula;
  }

  lemma {:induction false} RecalcKeeps(num: Numbers, cells: Cells, fs: seq<(string, string)>)
    requires Listed(cells, fs)
    ensures SameButResults(cells, RecalcAlong(num, cells, fs))
  {
    hide EvalFormula, RecalcCell;
    if fs != [] {
      var next := RecalcCell(num, cells, fs[0].0, fs[0].1);
      StepKeeps(num, cells, fs[0].0, fs[0].1);
      RecalcKeeps(num, next, fs[1..]);
    }
  }

  /** Recalculation touches nothing but the values of formula cells. */
  lemma RecalculatedKeeps(num: Numbers, cells: Cells)
    ensures SameButResults(cells, Recalculated(num, cells))
  {
    hide EvalFormula, RecalcAlong, SortedKeys;
    RecalcKeeps(num, cells, Formulas(cells, SortedKeys(cells.Keys)));
  }

  // ------------------------------------------------------------ settling

  /** Every formula cell holds the value of its formula. */
  ghost predicate Solved(num: Numbers, cells: Cells) {
    forall k :: k in cells && cells[k].formula != "" ==> cells[k].value == EvalFormula(num, cells, cells[k].formula)
  }

  function FormulaAt(cells: Cells, k: string): string {
    if k in cells then cells[k].formula else ""
  }

  /** `ord` lists the formula cells, and no cell reads itself or one listed behind it. */
  ghost predicate Topological(num: Numbers, cells: Cells, ord: seq<string>) {
    && (forall j :: 0 <= j < |ord| ==> IsFormula(cells, ord[j]))
    && (forall k :: IsFormula(cells, k) ==> k in ord)
    && forall j, p :: 0 <= j <= p < |ord| ==> ord[p] !in Reads(num, FormulaAt(cells, ord[j]))
  }

  ghost predicate HoldsResult(num: Numbers, cells: Cells, k: string) {
    IsFormula(cells, k) && cells[k].value == EvalFormula(num, cells, cells[k].formula)
  }

  /** The first `n` cells of `ord` hold the values of their formulas. */
  ghost predicate Settled(num: Numbers, cells: Cells, ord: seq<string>, n: nat)
    requires n <= |ord|
  {
    forall j :: 0 <= j < n ==> HoldsResult(num, cells, ord[j])
  }

  /** Recalculating a cell does not disturb one that does not read it. */
  lemma StepSpares(num: Numbers, cells: Cells, k: string, x: string)
    requires IsFormula(cells, k) && x in cells && k !in Reads(num, cells[x].formula)
    ensures var next := RecalcCell(num, cells, k, cells[k].formula);
            EvalFormula(num, next, next[x].formula) == EvalFormula(num, cells, cells[x].formula)
  {
    hide EvalFormula, Reads;
    var next := RecalcCell(num, cells, k, cells[k].formula);
    assert Agree(cells, next, Reads(num, cells[x].formula));
    EvalFrame(num, cells, next, cells[x].formula);
  }

  /** Recalculating one cell keeps the settled ones, and settles the next. */
  lemma StepSettles(num: Numbers, cells: Cells, ord: seq<string>, n: nat, p: nat)
    requires Topological(num, cells, ord) && n <= |ord| && Settled(num, cells, ord, n) && p < |ord|
    ensures var next := RecalcCell(num, cells, ord[p], cells[ord[p]].formula);
            && SameButResults(cells, next)
            && Settled(num, next, ord, n)
            && (n == p ==> Settled(num, next, ord, n + 1))
  {
    hide EvalFormula, Reads;
    var k := ord[p];
    var next := RecalcCell(num, cells, k, cells[k].formula);
    StepKeeps(num, cells, k, cells[k].formula);
    if p < n {
      assert HoldsResult(num, cells, ord[p]);
      assert next[k] == cells[k];
      assert next == cells;
    } else {
      StepSpares(num, cells, k, k);
      forall j | 0 <= j < n ensures HoldsResult(num, next, ord[j]) {
        assert HoldsResult(num, cells, ord[j]);
        StepSpares(num, cells, k, ord[j]);
        assert ord[j] != k ==> next[ord[j]] == cells[ord[j]];
      }
      assert HoldsResult(num, next, k);
    }
  }

  lemma SkeletonTopological(num: Numbers, a: Cells, b: Cells, ord: seq<string>)
    requires SameButResults(a, b) && Topological(num, a, ord)
    ensures Topological(num, b, ord)
  {
    hide Reads;
    forall k ensures IsFormula(b, k) == IsFormula(a, k) && FormulaAt(b, k) == FormulaAt(a, k) {
      if k in a {}
    }
  }

  /** A step over any formula cell, and what is left to do afterwards. */
  lemma StepListed(num: Numbers, cells: Cells, fs: seq<(string, string)>)
    requires fs != [] && Listed(cells, fs)
    ensures var next := RecalcCell(num, cells, fs[0].0, fs[0].1);
            SameButResults(cells, next) && Listed(next, fs[1..])
  {
    hide EvalFormula, RecalcCell;
    StepKeeps(num, cells, fs[0].0, fs[0].1);
  }

  /** A pass keeps the settled cells, and settles the next one if it comes by. */
  lemma {:induction false} PassSettles(num: Numbers, cells: Cells, fs: seq<(string, string)>, ord: seq<string>, n: nat)
    requires Listed(cells, fs) && Topological(num, cells, ord) && n <= |ord| && Settled(num, cells, ord, n)
    ensures Settled(num, RecalcAlong(num, cells, fs), ord, n)
    ensures n < |ord| && (exists i :: 0 <= i < |fs| && fs[i].0 == ord[n]) ==>
              Settled(num, RecalcAlong(num, cells, fs), ord, n + 1)
  {
    hide EvalFormula, Reads, Settled, RecalcCell, HoldsResult;
    if fs != [] {
      assert IsFormula(cells, fs[0].0);
      var p :| 0 <= p < |ord| && ord[p] == fs[0].0;
      var next := RecalcCell(num, cells, fs[0].0, fs[0].1);
      StepSettles(num, cells, ord, n, p);
      StepListed(num, cells, fs);
      SkeletonTopological(num, cells, next, ord);
      PassSettles(num, next, fs[1..], ord, n);
      if n < |ord| && ord[n] == fs[0].0 {
        StepSettles(num, cells, ord, n, n);
        PassSettles(num, next, fs[1..], ord, n + 1);
      } else if i :| 0 <= i < |fs| && n < |ord| && fs[i].0 == ord[n] {
        assert fs[1..][i-1] == fs[i];
      }
    }
  }

  lemma {:induction false} FormulasComplete(cells: Cells, keys: seq<string>, k: string)
    requires IsFormula(cells, k) && k in keys
    ensures exists i :: 0 <= i < |Formulas(cells, keys)| && Formulas(cells, keys)[i].0 == k
  {
    var rest := Formulas(cells, keys[1..]);
    if keys[0] == k {
      assert Formulas(cells, keys)[0].0 == k;
    } else {
      FormulasComplete(cells, keys[1..], k);
      var i :| 0 <= i < |rest| && rest[i].0 == k;
      assert Formulas(cells, keys)[if IsFormula(cells, keys[0]) then i + 1 else i].0 == k;
    }
  }

  function RecalcTimes(num: Numbers, cells: Cells, n: nat): Cells {
    if n == 0 then cells else Recalculated(num, RecalcTimes(num, cells, n - 1))
  }

  lemma RecalculatedSettles(num: Numbers, cells: Cells, ord: seq<string>, n: nat)
    requires Topological(num, cells, ord) && n < |ord| && Settled(num, cells, ord, n)
    ensures Settled(num, Recalculated(num, cells), ord, n + 1)
  {
    hide EvalFormula, Reads, Settled, RecalcAlong, Formulas;
    var keys := SortedKeys(cells.Keys);
    assert IsFormula(cells, ord[n]);
    FormulasComplete(cells, keys, ord[n]);
    PassSettles(num, cells, Formulas(cells, keys), ord, n);
  }

  lemma {:induction false} TimesSettle(num: Numbers, cells: Cells, ord: seq<string>, n: nat)
    requires Topological(num, cells, ord) && n <= |ord|
    ensures Settled(num, RecalcTimes(num, cells, n), ord, n)
    ensures SameButResults(cells, RecalcTimes(num, cells, n))
  {
    hide EvalFormula, Reads, Recalculated, HoldsResult;
    if n > 0 {
      TimesSettle(num, cells, ord, n - 1);
      var before := RecalcTimes(num, cells, n - 1);
      SkeletonTopological(num, cells, before, ord);
      RecalculatedSettles(num, before, ord, n - 1);
      RecalculatedKeeps(num, before);
    }
  }

  lemma SettledIsSolved(num: Numbers, a: Cells, b: Cells, ord: seq<string>)
    requires Topological(num, a, ord) && SameButResults(a, b) && Settled(num, b, ord, |ord|)
    ensures Solved(num, b)
  {
    hide EvalFormula, Reads;
    SkeletonTopological(num, a, b, ord);
    forall k | IsFormula(b, k) ensures b[k].value == EvalFormula(num, b, b[k].formula) {
      var p :| 0 <= p < |ord| && ord[p] == k;
      assert HoldsResult(num, b, ord[p]);
    }
  }

  /** The formula cells can be put in an order in which each reads only earlier ones. */
  ghost predicate Acyclic(num: Numbers, cells: Cells) {
    exists ord :: Distinct(ord) && Topological(num, cells, ord)
  }

  function FormulaCount(cells: Cells): nat {
    |Formulas(cells, SortedKeys(cells.Keys))|
  }

  lemma {:induction false} DistinctSize(s: seq<string>)
    requires Distinct(s)
    ensures |set x | x in s| == |s|
  {
    if s != [] {
      var n := |s| - 1;
      DistinctSize(s[..n]);
      assert s == s[..n] + [s[n]];
      assert (set x | x in s) == (set x | x in s[..n]) + {s[n]};
    }
  }

  lemma {:induction false} FormulaListSize(cells: Cells, keys: seq<string>)
    ensures |set k | k in keys && IsFormula(cells, k)| <= |Formulas(cells, keys)|
  {
    if keys != [] {
      FormulaListSize(cells, keys[1..]);
      var rest := set k | k in keys[1..] && IsFormula(cells, k);
      var all := set k | k in keys && IsFormula(cells, k);
      if IsFormula(cells, keys[0]) {
        assert all == rest + {keys[0]};
      } else {
        assert all == rest;
      }
    }
  }

  lemma OrderIsShort(num: Numbers, cells: Cells, ord: seq<string>)
    requires Distinct(ord) && Topological(num, cells, ord)
    ensures |ord| <= FormulaCount(cells)
  {
    hide Reads, Formulas;
    var keys := SortedKeys(cells.Keys);
    DistinctSize(ord);
    FormulaListSize(cells, keys);
    assert (set x | x in ord) == (set k | k in keys && IsFormula(cells, k));
  }

  // ------------------------------------------------------------ fixpoints

  lemma {:induction false} SolvedStays(num: Numbers, cells: Cells, fs: seq<(string, string)>)
    requires Listed(cells, fs) && Solved(num, cells)
    ensures RecalcAlong(num, cells, fs) == cells
  {
    hide EvalFormula;
    if fs != [] {
      assert IsFormula(cells, fs[0].0);
      assert RecalcCell(num, cells, fs[0].0, fs[0].1) == cells;
      SolvedStays(num, cells, fs[1..]);
    }
  }

  lemma SolvedIsFixpoint(num: Numbers, cells: Cells)
    requires Solved(num, cells)
    ensures Recalculated(num, cells) == cells
  {
    hide EvalFormula, Solved, RecalcAlong;
    SolvedStays(num, cells, Formulas(cells, SortedKeys(cells.Keys)));
  }

  lemma {:induction false} TimesStay(num: Numbers, cells: Cells, m: nat, n: nat)
    requires m <= n && Solved(num, RecalcTimes(num, cells, m))
    ensures RecalcTimes(num, cells, n) == RecalcTimes(num, cells, m)
  {
    hide EvalFormula, Solved, Recalculated;
    if m < n {
      TimesStay(num, cells, m, n - 1);
      SolvedIsFixpoint(num, RecalcTimes(num, cells, m));
    }
  }

  /** At most one solution extends a given sheet. */
  lemma UniqueSolution(num: Numbers, a: Cells, b: Cells, ord: seq<string>)
    requires SameButResults(a, b) && Topological(num, a, ord) && Solved(num, a) && Solved(num, b)
    ensures a == b
  {
    hide EvalFormula, Reads, Topological, Solved;
    SameAlong(num, a, b, ord, |ord|);
    forall k | k in a ensures a[k] == b[k] {
      if IsFormula(a, k) {
        InOrder(num, a, ord, k);
        var p :| 0 <= p < |ord| && ord[p] == k;
      }
    }
  }

  lemma InOrder(num: Numbers, a: Cells, ord: seq<string>, k: string)
    requires Topological(num, a, ord) && IsFormula(a, k)
    ensures k in ord
  {
  }

  lemma {:induction false} SameAlong(num: Numbers, a: Cells, b: Cells, ord: seq<string>, n: nat)
    requires SameButResults(a, b) && Topological(num, a, ord) && Solved(num, a) && Solved(num, b) && n <= |ord|
    ensures forall j :: 0 <= j < n ==> ord[j] in a && a[ord[j]] == b[ord[j]]
  {
    hide EvalFormula, Reads;
    if n > 0 {
      SameAlong(num, a, b, ord, n - 1);
      var k := ord[n-1];
      assert IsFormula(a, k) && IsFormula(b, k);
      forall x | x in Reads(num, a[k].formula) ensures ValueAt(a, x) == ValueAt(b, x) {
        if IsFormula(a, x) {
          var p :| 0 <= p < |ord| && ord[p] == x;
          assert FormulaAt(a, ord[n-1]) == a[k].formula;
          assert p < n - 1;
        }
      }
      EvalFrame(num, a, b, a[k].formula);
    }
  }

  /** On an acyclic sheet, as many passes as there are formula cells reach the one solution
      that the sheet has, and further passes stay there. */
  lemma RepeatedRecalcSolves(num: Numbers, cells: Cells, n: nat)
    requires Acyclic(num, cells) && FormulaCount(cells) <= n
    ensures var r := RecalcTimes(num, cells, n);
            && SameButResults(cells, r) && Solved(num, r)
            && forall s :: SameButResults(cells, s) && Solved(num, s) ==> s == r
  {
    hide EvalFormula, Reads, Topological, Solved, Settled, RecalcTimes, FormulaCount, SameButResults;
    var ord :| Distinct(ord) && Topological(num, cells, ord);
    var r := RecalcTimes(num, cells, |ord|);
    OrderIsShort(num, cells, ord);
    TimesSettle(num, cells, ord, |ord|);
    SettledIsSolved(num, cells, r, ord);
    TimesStay(num, cells, |ord|, n);
    SkeletonTopological(num, cells, r, ord);
    forall s | SameButResults(cells, s) && Solved(num, s) ensures s == r {
      SkeletonBetween(cells, r, s);
      UniqueSolution(num, r, s, ord);
    }
  }

  lemma SkeletonBetween(c: Cells, a: Cells, b: Cells)
    requires SameButResults(c, a) && SameButResults(c, b)
    ensures SameButResults(a, b)
  {
  }

  // ------------------------------------------------------------ one pass

  /** Every formula reads only non-formula cells and formula cells with smaller keys. */
  ghost predicate InKeyOrder(num: Numbers, cells: Cells) {
    forall k, x :: IsFormula(cells, k) && IsFormula(cells, x) && x in Reads(num, cells[k].formula) ==> Less(x, k)
  }

  function KeysOf(fs: seq<(string, string)>): (ks: seq<string>)
    ensures |ks| == |fs|
  {
    seq(|fs|, i requires 0 <= i < |fs| => fs[i].0)
  }

  lemma {:induction false} ListedInOrder(cells: Cells, keys: seq<string>)
    requires Ascending(keys)
    ensures Ascending(KeysOf(Formulas(cells, keys)))
    ensures forall i :: 0 <= i < |Formulas(cells, keys)| ==> Formulas(cells, keys)[i].0 in keys
  {
    hide Less;
    if keys != [] {
      ListedInOrder(cells, keys[1..]);
      var rest := Formulas(cells, keys[1..]);
      forall i | 0 <= i < |rest| ensures Less(keys[0], rest[i].0) {
        assert KeysOf(rest)[i] == rest[i].0;
        var j :| 0 <= j < |keys[1..]| && keys[1..][j] == rest[i].0;
      }
      forall i, j | 0 <= i < j < |rest| ensures Less(rest[i].0, rest[j].0) {
        assert KeysOf(rest)[i] == rest[i].0 && KeysOf(rest)[j] == rest[j].0;
      }
    }
  }

  lemma KeyOrderTopological(num: Numbers, cells: Cells)
    requires InKeyOrder(num, cells)
    ensures Topological(num, cells, KeysOf(Formulas(cells, SortedKeys(cells.Keys))))
  {
    hide Reads, Formulas, Less, SortedKeys;
    var keys := SortedKeys(cells.Keys);
    var ord := KeysOf(Formulas(cells, keys));
    ListedInOrder(cells, keys);
    forall k | IsFormula(cells, k) ensures k in ord {
      FormulasComplete(cells, keys, k);
      var i :| 0 <= i < |Formulas(cells, keys)| && Formulas(cells, keys)[i].0 == k;
      assert ord[i] == k;
    }
    forall j, p | 0 <= j <= p < |ord| ensures ord[p] !in Reads(num, FormulaAt(cells, ord[j])) {
      LessTotal(ord[j], ord[p]);
    }
  }

  /** Recalculating along an order settles it from front to back in one pass. */
  lemma {:induction false} PassInOrder(num: Numbers, cells: Cells, fs: seq<(string, string)>, n: nat)
    requires n <= |fs| && Listed(cells, fs) && Topological(num, cells, KeysOf(fs)) && Settled(num, cells, KeysOf(fs), n)
    ensures Settled(num, RecalcAlong(num, cells, fs[n..]), KeysOf(fs), |fs|)
    decreases |fs| - n
  {
    hide EvalFormula, Reads, Settled, RecalcCell, HoldsResult;
    if n < |fs| {
      var ord := KeysOf(fs);
      var next := RecalcCell(num, cells, fs[n].0, fs[n].1);
      assert ord[n] == fs[n].0;
      StepSettles(num, cells, ord, n, n);
      StepKeeps(num, cells, fs[n].0, fs[n].1);
      SkeletonTopological(num, cells, next, ord);
      PassInOrder(num, next, fs, n + 1);
      assert fs[n..][1..] == fs[n+1..];
    }
  }

  /** When formulas only look backwards in key order, one pass solves the sheet and a second
      changes nothing. */
  lemma OnePassSolves(num: Numbers, cells: Cells)
    requires InKeyOrder(num, cells)
    ensures Solved(num, Recalculated(num, cells))
    ensures Recalculated(num, Recalculated(num, cells)) == Recalculated(num, cells)
  {
    hide EvalFormula, Reads, Topological, Solved, RecalcAlong, Formulas, InKeyOrder;
    var fs := Formulas(cells, SortedKeys(cells.Keys));
    KeyOrderTopological(num, cells);
    assert Settled(num, cells, KeysOf(fs), 0);
    PassInOrder(num, cells, fs, 0);
    assert fs[0..] == fs;
    RecalculatedKeeps(num, cells);
    SettledIsSolved(num, cells, Recalculated(num, cells), KeysOf(fs));
    SolvedIsFixpoint(num, Recalculated(num, cells));
  }
}
