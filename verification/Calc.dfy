/** Evaluating formulas over the cells of a sheet. Numbers are reals; how a number is read
    from and written to text is a parameter. */
module Calc {
  import opened Basics
  import opened Text
  import opened Addresses
  import opened Sheets

  datatype Numbers = Numbers(parse: string -> Option<real>, format: real -> string)

  // ------------------------------------------------------------ looking at cells

  function Lookup(cells: Cells, addr: string): Option<string> {
    var key := ToUpper(addr);
    if key in cells then Some(cells[key].value) else None
  }

  function CellRaw(cells: Cells, addr: string): string {
    Lookup(cells, addr).GetOr("")
  }

  function CellNum(num: Numbers, cells: Cells, addr: string): real {
    var v := Lookup(cells, addr);
    if v.None? then 0.0 else num.parse(v.value).GetOr(0.0)
  }

  // ------------------------------------------------------------ ranges

  function GridColumn(c: nat, lo: nat, hi: nat): seq<string>
    decreases hi + 1 - lo
  {
    if lo > hi then [] else [AddrOf(c, lo)] + GridColumn(c, lo + 1, hi)
  }

  /** Addresses of a rectangle, column by column. */
  function Grid(c: nat, cEnd: nat, lo: nat, hi: nat): seq<string>
    decreases cEnd + 1 - c
  {
    if c > cEnd then [] else GridColumn(c, lo, hi) + Grid(c + 1, cEnd, lo, hi)
  }

  function RangeEnds(range: string): (string, string)
    requires IndexOf(range, ':') < |range|
  {
    var i := IndexOf(range, ':');
    var rest := range[i+1..];
    (range[..i], rest[..IndexOf(rest, ':')])
  }

  function ExpandRange(range: string): seq<string> {
    if IndexOf(range, ':') == |range| then [ToUpper(range)]
    else
      var (left, right) := RangeEnds(range);
      var a, b := ParseAddr(left), ParseAddr(right);
      if a.None? || b.None? then []
      else
        Grid(Min(a.value.0, b.value.0), Max(a.value.0, b.value.0), Min(a.value.1, b.value.1), Max(a.value.1, b.value.1))
  }

  method ExpandRangeLoop(range: string) returns (out: seq<string>)
    ensures out == ExpandRange(range)
  {
    hide AddrOf, ParseAddr;
    if IndexOf(range, ':') == |range| {
      return [ToUpper(range)];
    }
    var (left, right) := RangeEnds(range);
    var a := ParseAddress(left);
    var b := ParseAddress(right);
    if a.None? || b.None? {
      return [];
    }
    var c1, c2 := Min(a.value.0, b.value.0), Max(a.value.0, b.value.0);
    var r1, r2 := Min(a.value.1, b.value.1), Max(a.value.1, b.value.1);
    out := GridLoop(c1, c2, r1, r2);
  }

  method GridLoop(c1: nat, c2: nat, r1: nat, r2: nat) returns (out: seq<string>)
    requires c1 <= c2 && r1 <= r2
    ensures out == Grid(c1, c2, r1, r2)
  {
    hide AddrOf, GridColumn;
    out := [];
    for c := c1 to c2 + 1
      invariant out + Grid(c, c2, r1, r2) == Grid(c1, c2, r1, r2)
    {
      var column := GridColumnLoop(c, r1, r2);
      assert Grid(c, c2, r1, r2) == column + Grid(c + 1, c2, r1, r2);
      out := out + column;
    }
  }

  method GridColumnLoop(c: nat, r1: nat, r2: nat) returns (out: seq<string>)
    requires r1 <= r2
    ensures out == GridColumn(c, r1, r2)
  {
    hide AddrOf;
    out := [];
    for r := r1 to r2 + 1
      invariant out + GridColumn(c, r, r2) == GridColumn(c, r1, r2)
    {
      var s := PrintAddress(c, r);
      assert GridColumn(c, r, r2) == [s] + GridColumn(c, r + 1, r2);
      out := out + [s];
    }
  }

  // ------------------------------------------------------------ aggregates

  datatype Aggregate = Sum | Count

  /** What one cell contributes; COUNT counts the cells that hold a number. */
  function Weight(num: Numbers, agg: Aggregate, cells: Cells, addr: string): real {
    match agg
    case Sum => CellNum(num, cells, addr)
    case Count => if CellRaw(cells, addr) != "" && num.parse(CellRaw(cells, addr)).Some? then 1.0 else 0.0
  }

  function Total(num: Numbers, agg: Aggregate, cells: Cells, addrs: seq<string>): real {
    if addrs == [] then 0.0 else Weight(num, agg, cells, addrs[0]) + Total(num, agg, cells, addrs[1..])
  }

  function Extreme(num: Numbers, cells: Cells, addrs: seq<string>, least: bool): real
    requires addrs != []
  {
    var x := CellNum(num, cells, addrs[0]);
    if |addrs| == 1 then x
    else
      var y := Extreme(num, cells, addrs[1..], least);
      if (x < y) == least then x else y
  }

  /** Rounds half away from zero. */
  function Rounded(x: real): real {
    if x >= 0.0 then (x + 0.5).Floor as real else -((-x + 0.5).Floor as real)
  }

  function Power10(n: nat): (p: real)
    ensures p > 0.0
  {
    if n == 0 then 1.0 else 10.0 * Power10(n - 1)
  }

  function RoundTo(x: real, places: nat): real {
    Rounded(x * Power10(places)) / Power10(places)
  }

  // ------------------------------------------------------------ arguments

  /** Splits at commas outside parentheses and quotes; the quotes themselves are dropped. */
  function SplitFrom(s: string, cur: string, depth: int, inStr: bool): seq<string>
    decreases |s|
  {
    if s == "" then (if Trim(cur) == "" then [] else [Trim(cur)])
    else
      var ch, rest := s[0], s[1..];
      if ch == '"' then SplitFrom(rest, cur, depth, !inStr)
      else if ch == '(' && !inStr then SplitFrom(rest, cur + [ch], depth + 1, inStr)
      else if ch == ')' && !inStr then SplitFrom(rest, cur + [ch], depth - 1, inStr)
      else if ch == ',' && !inStr && depth == 0 then [Trim(cur)] + SplitFrom(rest, "", depth, inStr)
      else SplitFrom(rest, cur + [ch], depth, inStr)
  }

  function SplitArgs(s: string): seq<string> {
    SplitFrom(s, "", 0, false)
  }

  /** Parenthesis depth and quote state after scanning `s`; nothing if a comma would split it. */
  function ScanState(s: string, depth: int, inStr: bool): Option<(int, bool)> {
    if s == "" then Some((depth, inStr))
    else if s[0] == '"' then ScanState(s[1..], depth, !inStr)
    else if s[0] == '(' && !inStr then ScanState(s[1..], depth + 1, inStr)
    else if s[0] == ')' && !inStr then ScanState(s[1..], depth - 1, inStr)
    else if s[0] == ',' && !inStr && depth == 0 then None
    else ScanState(s[1..], depth, inStr)
  }

  /** An argument: no comma outside parentheses and quotes, and both closed at its end. */
  predicate IsArgument(s: string) {
    ScanState(s, 0, false) == Some((0, false))
  }

  function WithoutQuotes(s: string): string {
    if s == "" then "" else (if s[0] == '"' then "" else [s[0]]) + WithoutQuotes(s[1..])
  }

  function JoinedArgs(args: seq<string>): string
    requires args != []
  {
    if |args| == 1 then args[0] else args[0] + "," + JoinedArgs(args[1..])
  }

  function ReadArgs(args: seq<string>): (r: seq<string>)
    ensures |r| == |args|
  {
    seq(|args|, i requires 0 <= i < |args| => Trim(WithoutQuotes(args[i])))
  }

  lemma {:induction false} SplitPast(a: string, rest: string, cur: string, depth: int, inStr: bool)
    requires ScanState(a, depth, inStr).Some?
    ensures var (d, q) := ScanState(a, depth, inStr).value;
            SplitFrom(a + rest, cur, depth, inStr) == SplitFrom(rest, cur + WithoutQuotes(a), d, q)
    decreases |a|
  {
    hide Trim;
    if a == "" {
      assert a + rest == rest && cur + WithoutQuotes(a) == cur;
    } else {
      var ch, tail := a[0], a[1..];
      assert (a + rest)[0] == ch && (a + rest)[1..] == tail + rest;
      if ch == '"' {
        SplitPast(tail, rest, cur, depth, !inStr);
        assert WithoutQuotes(a) == WithoutQuotes(tail);
      } else {
        var d := if inStr then depth else if ch == '(' then depth + 1 else if ch == ')' then depth - 1 else depth;
        SplitPast(tail, rest, cur + [ch], d, inStr);
        assert cur + [ch] + WithoutQuotes(tail) == cur + WithoutQuotes(a);
      }
    }
  }

  /** Splitting undoes joining with commas: the pieces are the arguments, trimmed and without quotes,
      whatever parentheses and quoted commas they hold. A blank last one is not read. */
  lemma {:induction false} SplitJoined(args: seq<string>)
    requires args != [] && forall i :: 0 <= i < |args| ==> IsArgument(args[i])
    ensures var n := |args| - 1;
            SplitArgs(JoinedArgs(args)) ==
            ReadArgs(args[..n]) + if Trim(WithoutQuotes(args[n])) == "" then [] else [Trim(WithoutQuotes(args[n]))]
  {
    hide Trim, ScanState;
    var n, a := |args| - 1, args[0];
    assert IsArgument(a);
    assert "" + WithoutQuotes(a) == WithoutQuotes(a);
    if n == 0 {
      SplitPast(a, "", "", 0, false);
      assert a + "" == a;
      assert ReadArgs(args[..n]) == [];
    } else {
      var rest := JoinedArgs(args[1..]);
      SplitPast(a, "," + rest, "", 0, false);
      assert a + "," + rest == a + ("," + rest);
      assert ("," + rest)[1..] == rest;
      SplitJoined(args[1..]);
      assert ReadArgs(args[..n]) == [Trim(WithoutQuotes(a))] + ReadArgs(args[1..][..n-1]);
    }
  }

  method SplitArgsLoop(s: string) returns (out: seq<string>)
    ensures out == SplitArgs(s)
  {
    hide Trim;
    out := [];
    var cur, depth, inStr := "", 0, false;
    for i := 0 to |s|
      invariant out + SplitFrom(s[i..], cur, depth, inStr) == SplitArgs(s)
    {
      var ch := s[i];
      assert s[i..][1..] == s[i+1..];
      if ch == '"' {
        inStr := !inStr;
      } else if ch == '(' && !inStr {
        depth := depth + 1;
        cur := cur + [ch];
      } else if ch == ')' && !inStr {
        depth := depth - 1;
        cur := cur + [ch];
      } else if ch == ',' && !inStr && depth == 0 {
        out := out + [Trim(cur)];
        cur := "";
      } else {
        cur := cur + [ch];
      }
    }
    if Trim(cur) != "" {
      out := out + [Trim(cur)];
    }
  }

  predicate Quoted(a: string, q: char) {
    a != "" && a[0] == q && a[|a|-1] == q
  }

  /** A literal, a cell, or the text itself. */
  function EvalAtom(num: Numbers, cells: Cells, atom: string): string {
    var a := Trim(atom);
    if a == "" then ""
    else if Quoted(a, '"') || Quoted(a, '\'') then (if |a| == 1 then "" else a[1..|a|-1])
    else if num.parse(a).Some? then num.format(num.parse(a).value)
    else if ParseAddr(a).Some? then CellRaw(cells, a)
    else a
  }

  const COMPARISONS: seq<string> := [">=", "<=", "<>", "!=", "=", ">", "<"]

  function Compare(num: Numbers, left: string, op: string, right: string): bool {
    var l, r := num.parse(left), num.parse(right);
    if l.Some? && r.Some? then
      var gap := if l.value < r.value then r.value - l.value else l.value - r.value;
      if op == ">" then l.value > r.value
      else if op == "<" then l.value < r.value
      else if op == ">=" then l.value >= r.value
      else if op == "<=" then l.value <= r.value
      else if op == "=" then gap < 0.000000001
      else gap >= 0.000000001
    else if op == "=" then left == right
    else if op == "<>" || op == "!=" then left != right
    else false
  }

  function EvalCond(num: Numbers, cells: Cells, c: string, ops: seq<string>): bool {
    if ops == [] then
      var v := EvalAtom(num, cells, c);
      if num.parse(v).Some? then num.parse(v).value != 0.0 else v != ""
    else
      var i := Find(c, ops[0]);
      if i.Some? then
        Compare(num, EvalAtom(num, cells, c[..i.value]), ops[0], EvalAtom(num, cells, c[i.value + |ops[0]|..]))
      else EvalCond(num, cells, c, ops[1..])
  }

  predicate IsDoubleQuote(c: char) { c == '"' }
  predicate IsSingleQuote(c: char) { c == '\'' }
  predicate IsEqualSign(c: char) { c == '=' }
  predicate IsClosing(c: char) { c == ')' }

  function Unquoted(s: string): string {
    var t := TrimEnd(TrimStart(s, IsDoubleQuote), IsDoubleQuote);
    TrimEnd(TrimStart(t, IsSingleQuote), IsSingleQuote)
  }

  function CountIfMatch(num: Numbers, value: string, criteria: string, ops: seq<string>): bool {
    if ops == [] then value == criteria || ToLower(value) == ToLower(criteria)
    else if StartsWith(criteria, ops[0]) then
      Compare(num, value, ops[0], Unquoted(Trim(criteria[|ops[0]|..])))
    else CountIfMatch(num, value, criteria, ops[1..])
  }

  function CountIf(num: Numbers, cells: Cells, addrs: seq<string>, criteria: string): nat {
    if addrs == [] then 0
    else (if CountIfMatch(num, CellRaw(cells, addrs[0]), Trim(criteria), COMPARISONS) then 1 else 0)
         + CountIf(num, cells, addrs[1..], criteria)
  }

  /** A signed 32-bit integer, if the text is one. */
  function ParseI32(s: string): Option<int> {
    var neg := s != "" && s[0] == '-';
    var t := if s != "" && (s[0] == '-' || s[0] == '+') then s[1..] else s;
    if t == "" || !All(t, IsDigit) then None
    else
      var v: int := if neg then 0 - DecimalValue(t) else DecimalValue(t);
      if -0x8000_0000 <= v < 0x8000_0000 then Some(v) else None
  }

  // ------------------------------------------------------------ formulas

  /** Function name in upper case and the raw argument text, if there is a parenthesis. */
  function CallParts(formula: string): Option<(string, string)> {
    var f := TrimStart(Trim(formula), IsEqualSign);
    var i := IndexOf(ToUpper(f), '(');
    if i == |f| then None
    else Some((Trim(ToUpper(f)[..i]), TrimEnd(f[i+1..], IsClosing)))
  }

  function RoundDigits(args: seq<string>): nat {
    var d := if |args| > 1 then ParseI32(Trim(args[1])).GetOr(0) else 0;
    Max(0, Min(d, 10))
  }

  function EvalCall(num: Numbers, cells: Cells, name: string, raw: string): string {
    if name == "IF" then
      var args := SplitArgs(raw);
      if |args| < 2 then ""
      else if EvalCond(num, cells, Trim(args[0]), COMPARISONS) then EvalAtom(num, cells, args[1])
      else EvalAtom(num, cells, if |args| > 2 then args[2] else "")
    else if name == "COUNT" then
      num.format(Total(num, Count, cells, ExpandRange(Trim(raw))))
    else if name == "COUNTIF" then
      var args := SplitArgs(raw);
      if |args| < 2 then ""
      else num.format(CountIf(num, cells, ExpandRange(Trim(args[0])), Unquoted(Trim(args[1]))) as real)
    else if name == "ROUND" then
      var args := SplitArgs(raw);
      if args == [] then ""
      else num.format(RoundTo(CellNum(num, cells, Trim(args[0])), RoundDigits(args)))
    else
      var addrs := ExpandRange(Trim(raw));
      if addrs == [] then "0"
      else if name == "SUM" then num.format(Total(num, Sum, cells, addrs))
      else if name == "AVERAGE" || name == "AVG" then num.format(Total(num, Sum, cells, addrs) / |addrs| as real)
      else if name == "MIN" then num.format(Extreme(num, cells, addrs, true))
      else if name == "MAX" then num.format(Extreme(num, cells, addrs, false))
      else ""
  }

  function EvalFormula(num: Numbers, cells: Cells, formula: string): string {
    var call := CallParts(formula);
    if call.None? then "" else EvalCall(num, cells, call.value.0, call.value.1)
  }

  // ------------------------------------------------------------ the rectangle

  lemma {:induction false} ColumnMembers(c: nat, lo: nat, hi: nat, a: string)
    ensures a in GridColumn(c, lo, hi) <==> exists r :: lo <= r <= hi && a == AddrOf(c, r)
    ensures |GridColumn(c, lo, hi)| == Max(0, hi + 1 - lo)
    decreases hi + 1 - lo
  {
    hide AddrOf;
    if lo <= hi {
      ColumnMembers(c, lo + 1, hi, a);
      assert lo <= lo <= hi;
    }
  }

  lemma {:induction false} GridMembers(c: nat, cEnd: nat, lo: nat, hi: nat, a: string)
    requires lo <= hi
    ensures a in Grid(c, cEnd, lo, hi) <==> exists x, r :: c <= x <= cEnd && lo <= r <= hi && a == AddrOf(x, r)
    ensures |Grid(c, cEnd, lo, hi)| == Max(0, cEnd + 1 - c) * (hi + 1 - lo)
    decreases cEnd + 1 - c
  {
    hide AddrOf, GridColumn;
    if c <= cEnd {
      GridMembers(c + 1, cEnd, lo, hi, a);
      ColumnMembers(c, lo, hi, a);
      assert (cEnd + 1 - c) * (hi + 1 - lo) == (hi + 1 - lo) + (cEnd - c) * (hi + 1 - lo);
      if r :| lo <= r <= hi && a == AddrOf(c, r) {
        assert c <= c <= cEnd && lo <= r <= hi && a == AddrOf(c, r);
      }
    }
  }

  ghost predicate Distinct(s: seq<string>) {
    forall i, j :: 0 <= i < j < |s| ==> s[i] != s[j]
  }

  lemma {:induction false} ColumnDistinct(c: nat, lo: nat, hi: nat)
    requires 0 < c < TWO_32 && 0 < lo && hi < TWO_32
    ensures Distinct(GridColumn(c, lo, hi))
    decreases hi + 1 - lo
  {
    hide AddrOf;
    if lo <= hi {
      ColumnDistinct(c, lo + 1, hi);
      ColumnMembers(c, lo + 1, hi, AddrOf(c, lo));
      forall r | lo + 1 <= r <= hi && AddrOf(c, lo) == AddrOf(c, r) ensures false { PrintInjective(c, lo, c, r); }
    }
  }

  lemma {:induction false} GridDistinct(c: nat, cEnd: nat, lo: nat, hi: nat)
    requires 0 < c && cEnd < TWO_32 && 0 < lo <= hi < TWO_32
    ensures Distinct(Grid(c, cEnd, lo, hi))
    decreases cEnd + 1 - c
  {
    hide AddrOf, GridColumn;
    if c <= cEnd {
      var here, rest := GridColumn(c, lo, hi), Grid(c + 1, cEnd, lo, hi);
      ColumnDistinct(c, lo, hi);
      GridDistinct(c + 1, cEnd, lo, hi);
      forall i, j | 0 <= i < |here| && 0 <= j < |rest| ensures here[i] != rest[j] {
        ColumnMembers(c, lo, hi, here[i]);
        GridMembers(c + 1, cEnd, lo, hi, rest[j]);
        var r :| lo <= r <= hi && here[i] == AddrOf(c, r);
        var x, y :| c + 1 <= x <= cEnd && lo <= y <= hi && rest[j] == AddrOf(x, y);
        if AddrOf(c, r) == AddrOf(x, y) { PrintInjective(c, r, x, y); }
      }
    }
  }

  /** The corners of a range, if it has two and both are addresses. */
  function Corners(range: string): Option<(Coord, Coord)> {
    if IndexOf(range, ':') == |range| then None
    else
      var p, q := ParseAddr(RangeEnds(range).0), ParseAddr(RangeEnds(range).1);
      if p.None? || q.None? then None else Some((p.value, q.value))
  }

  /** A range between two corners lists every address of the rectangle exactly once, whichever
      corners they are. Without a colon it is one address, and otherwise it is empty. */
  lemma RangeIsRectangle(range: string, a: string)
    ensures Corners(range).Some? ==>
              var (p, q) := Corners(range).value;
              && Distinct(ExpandRange(range))
              && (a in ExpandRange(range) <==>
                    exists c, r :: Min(p.0, q.0) <= c <= Max(p.0, q.0) && Min(p.1, q.1) <= r <= Max(p.1, q.1)
                                   && a == AddrOf(c, r))
              && |ExpandRange(range)| == (Max(p.0, q.0) + 1 - Min(p.0, q.0)) * (Max(p.1, q.1) + 1 - Min(p.1, q.1))
    ensures Corners(range).None? ==> ExpandRange(range) == if ':' in range then [] else [ToUpper(range)]
  {
    hide ParseAddr, AddrOf, Grid, RangeEnds;
    if Corners(range).Some? {
      ParsedInRange(RangeEnds(range).0);
      ParsedInRange(RangeEnds(range).1);
      var (p, q) := Corners(range).value;
      GridDistinct(Min(p.0, q.0), Max(p.0, q.0), Min(p.1, q.1), Max(p.1, q.1));
      GridMembers(Min(p.0, q.0), Max(p.0, q.0), Min(p.1, q.1), Max(p.1, q.1), a);
    }
  }
}
