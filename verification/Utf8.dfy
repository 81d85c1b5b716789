/** Byte offsets into text. Text is a sequence of Unicode scalar values, each of
    which takes one to four bytes (section 3 of RFC 3629). */
module Utf8 {
  import opened Basics

  function CharWidth(c: char): (w: nat)
    ensures 1 <= w <= 4
  {
    var n := c as int;
    if n < 0x80 then 1 else if n < 0x800 then 2 else if n < 0x1_0000 then 3 else 4
  }

  function ByteLen(s: string): nat {
    if s == "" then 0 else CharWidth(s[0]) + ByteLen(s[1..])
  }

  /** Number of characters of `s` that lie entirely within its first `offset` bytes. */
  function CharsWithin(s: string, offset: nat): (k: nat)
    ensures k <= |s|
  {
    if s == "" || offset < CharWidth(s[0]) then 0
    else 1 + CharsWithin(s[1..], offset - CharWidth(s[0]))
  }

  ghost predicate IsCharBoundary(s: string, offset: nat) {
    exists k :: 0 <= k <= |s| && offset == ByteLen(s[..k])
  }

  /** Greatest character boundary at or before `offset`, capped at the end of the text. */
  function FloorCharBoundary(s: string, offset: nat): (b: nat)
    ensures IsCharBoundary(s, b) && b <= offset
    ensures forall k :: 0 <= k <= |s| && ByteLen(s[..k]) <= offset ==> ByteLen(s[..k]) <= b
  {
    CharsWithinIsGreatest(s, offset);
    if offset >= ByteLen(s) then
      assert s[..|s|] == s;
      ByteLen(s)
    else
      ByteLen(s[..CharsWithin(s, offset)])
  }

  lemma {:induction false} ByteLenConcat(a: string, b: string)
    ensures ByteLen(a + b) == ByteLen(a) + ByteLen(b)
  {
    if a == "" {
      assert a + b == b;
    } else {
      assert (a + b)[1..] == a[1..] + b;
      ByteLenConcat(a[1..], b);
    }
  }

  lemma ByteLenSplit(s: string, k: nat)
    requires k <= |s|
    ensures ByteLen(s) == ByteLen(s[..k]) + ByteLen(s[k..])
  {
    assert s == s[..k] + s[k..];
    ByteLenConcat(s[..k], s[k..]);
  }

  /** Longer prefixes take strictly more bytes, so a boundary determines its prefix. */
  lemma ByteLenOrder(s: string, i: nat, j: nat)
    requires i <= |s| && j <= |s|
    ensures ByteLen(s[..i]) < ByteLen(s[..j]) <==> i < j
  {
    var lo, hi := Min(i, j), Max(i, j);
    assert s[..hi][..lo] == s[..lo];
    ByteLenSplit(s[..hi], lo);
  }

  lemma {:induction false} CharsWithinIsGreatest(s: string, offset: nat)
    ensures ByteLen(s[..CharsWithin(s, offset)]) <= offset
    ensures forall k :: 0 <= k <= |s| && ByteLen(s[..k]) <= offset ==> k <= CharsWithin(s, offset)
    ensures forall k | 0 <= k <= |s| && ByteLen(s[..k]) <= offset ::
              ByteLen(s[..k]) <= ByteLen(s[..CharsWithin(s, offset)])
    ensures offset >= ByteLen(s) ==> CharsWithin(s, offset) == |s|
  {
    var n := CharsWithin(s, offset);
    if s == "" {
    } else if offset < CharWidth(s[0]) {
      forall k | 0 < k <= |s| ensures ByteLen(s[..k]) > offset {
        assert s[..k][0] == s[0];
      }
    } else {
      var rest := offset - CharWidth(s[0]);
      CharsWithinIsGreatest(s[1..], rest);
      forall k | 0 < k <= |s| ensures ByteLen(s[..k]) == CharWidth(s[0]) + ByteLen(s[1..][..k-1]) {
        assert s[..k][1..] == s[1..][..k-1];
      }
      assert s[..n][1..] == s[1..][..n-1];
    }
    forall k | 0 <= k <= |s| && ByteLen(s[..k]) <= offset
      ensures ByteLen(s[..k]) <= ByteLen(s[..n])
    {
      ByteLenOrder(s, k, n);
    }
  }

  /** An offset that is already a boundary is left where it is. */
  lemma CharsWithinAligned(s: string, k: nat)
    requires k <= |s|
    ensures CharsWithin(s, ByteLen(s[..k])) == k
  {
    var n := CharsWithin(s, ByteLen(s[..k]));
    CharsWithinIsGreatest(s, ByteLen(s[..k]));
    ByteLenOrder(s, k, n);
  }

  lemma FloorIsCharsWithin(s: string, offset: nat)
    ensures FloorCharBoundary(s, offset) == ByteLen(s[..CharsWithin(s, offset)])
  {
    CharsWithinIsGreatest(s, offset);
    if offset >= ByteLen(s) {
      assert s[..|s|] == s;
    }
  }

  lemma CharsWithinMonotone(s: string, a: nat, b: nat)
    requires a <= b
    ensures CharsWithin(s, a) <= CharsWithin(s, b)
  {
    CharsWithinIsGreatest(s, a);
    CharsWithinIsGreatest(s, b);
  }

  /** Counting past a prefix, and counting inside it. */
  lemma {:induction false} CharsWithinPast(a: string, b: string, x: nat)
    ensures CharsWithin(a + b, ByteLen(a) + x) == |a| + CharsWithin(b, x)
  {
    if a == "" {
      assert a + b == b;
    } else {
      assert (a + b)[1..] == a[1..] + b;
      CharsWithinPast(a[1..], b, x);
    }
  }

  lemma {:induction false} CharsWithinPrefix(a: string, b: string, x: nat)
    requires x <= ByteLen(a)
    ensures CharsWithin(a + b, x) == CharsWithin(a, x)
  {
    if a != "" {
      assert (a + b)[1..] == a[1..] + b;
      if x >= CharWidth(a[0]) {
        CharsWithinPrefix(a[1..], b, x - CharWidth(a[0]));
      }
    }
  }

  /** Carets around text `t` inserted between `a` and `b`. */
  lemma CaretsAfterInsert(a: string, t: string, b: string, x: nat)
    ensures x <= ByteLen(a) ==> CharsWithin(a + t + b, x) == CharsWithin(a + b, x)
    ensures x >= ByteLen(a) ==> CharsWithin(a + t + b, x + ByteLen(t)) == CharsWithin(a + b, x) + |t|
  {
    hide ByteLen, CharsWithin;
    if x <= ByteLen(a) {
      assert a + t + b == a + (t + b);
      CharsWithinPrefix(a, t + b, x);
      CharsWithinPrefix(a, b, x);
    }
    if x >= ByteLen(a) {
      CharsWithinPast(a + t, b, x - ByteLen(a));
      CharsWithinPast(a, b, x - ByteLen(a));
      ByteLenConcat(a, t);
    }
  }

  /** Carets around text `m` deleted from between `a` and `b`. */
  lemma CaretsAfterDelete(a: string, m: string, b: string, x: nat)
    ensures x <= ByteLen(a) ==> CharsWithin(a + b, x) == CharsWithin(a + m + b, x)
    ensures x >= ByteLen(a + m) ==>
              && x >= ByteLen(m)
              && CharsWithin(a + b, x - ByteLen(m)) == CharsWithin(a + m + b, x) - |m|
  {
    hide ByteLen, CharsWithin;
    ByteLenConcat(a, m);
    CaretsAfterInsert(a, m, b, x);
    if x >= ByteLen(a + m) {
      CaretsAfterInsert(a, m, b, x - ByteLen(m));
    }
  }
}
