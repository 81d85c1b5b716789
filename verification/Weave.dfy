/** Many insertions into one sequence, all positioned in the original: the closed form,
    and the one-at-a-time insertion that reaches it. */
module Weave {
  import opened Basics
  import opened Utf8
  import opened SpanEdits

  /** `content` goes in before element `pos` of the base sequence. */
  datatype Edit<T> = Edit(pos: nat, content: seq<T>)

  /** Everything inserted at position `p`, in batch order. */
  function At<T>(es: seq<Edit<T>>, p: nat): seq<T> {
    if es == [] then []
    else At(es[..|es|-1], p) + (if es[|es|-1].pos == p then es[|es|-1].content else [])
  }

  /** From base position `q` on: what was inserted there, then the element itself, and so on. */
  function Woven<T>(base: seq<T>, es: seq<Edit<T>>, q: nat): seq<T>
    requires q <= |base|
    decreases |base| - q
  {
    if q == |base| then At(es, q) else At(es, q) + [base[q]] + Woven(base, es, q + 1)
  }

  /** Index, counted from base position `q`, at which the next insertion at `p` goes in. */
  function Landing<T>(es: seq<Edit<T>>, q: nat, p: nat): nat
    requires q <= p
    decreases p - q
  {
    |At(es, q)| + if q == p then 0 else 1 + Landing(es, q + 1, p)
  }

  lemma AtSnoc<T>(es: seq<Edit<T>>, e: Edit<T>, p: nat)
    ensures At(es + [e], p) == At(es, p) + (if e.pos == p then e.content else [])
  {
    assert (es + [e])[..|es|] == es;
  }

  lemma {:induction false} WovenPast<T>(base: seq<T>, es: seq<Edit<T>>, e: Edit<T>, q: nat)
    requires e.pos < q <= |base|
    ensures Woven(base, es + [e], q) == Woven(base, es, q)
    decreases |base| - q
  {
    AtSnoc(es, e, q);
    if q < |base| {
      WovenPast(base, es, e, q + 1);
    }
  }

  lemma {:induction false} LandingInWoven<T>(base: seq<T>, es: seq<Edit<T>>, q: nat, p: nat)
    requires q <= p <= |base|
    ensures Landing(es, q, p) <= |Woven(base, es, q)|
    decreases p - q
  {
    if q < p {
      LandingInWoven(base, es, q + 1, p);
    }
  }

  lemma SpliceBehind<T>(a: seq<T>, w: seq<T>, i: nat, g: seq<T>)
    requires i <= |w|
    ensures Splice(a + w, |a| + i, |a| + i, g) == a + Splice(w, i, i, g)
  {
    assert (a + w)[..|a|+i] == a + w[..i];
    assert (a + w)[|a|+i..] == w[i..];
  }

  /** One more insertion is one splice of what has been woven so far. */
  lemma {:induction false} WovenSnoc<T>(base: seq<T>, es: seq<Edit<T>>, e: Edit<T>, q: nat)
    requires q <= e.pos <= |base|
    ensures Landing(es, q, e.pos) <= |Woven(base, es, q)|
    ensures Woven(base, es + [e], q)
         == Splice(Woven(base, es, q), Landing(es, q, e.pos), Landing(es, q, e.pos), e.content)
    decreases e.pos - q
  {
    hide Splice, At;
    LandingInWoven(base, es, q, e.pos);
    AtSnoc(es, e, q);
    if q == e.pos {
      WovenAtStart(base, es, e);
    } else {
      var head := At(es, q) + [base[q]];
      WovenSnoc(base, es, e, q + 1);
      SpliceBehind(head, Woven(base, es, q + 1), Landing(es, q + 1, e.pos), e.content);
      assert At(es, q) + [] == At(es, q);
    }
  }

  lemma WovenAtStart<T>(base: seq<T>, es: seq<Edit<T>>, e: Edit<T>)
    requires e.pos <= |base|
    ensures var n := |At(es, e.pos)|;
            && n <= |Woven(base, es, e.pos)|
            && Woven(base, es + [e], e.pos) == Splice(Woven(base, es, e.pos), n, n, e.content)
  {
    AtSnoc(es, e, e.pos);
    var here := At(es, e.pos);
    if e.pos < |base| {
      WovenPast(base, es, e, e.pos + 1);
      var rest := [base[e.pos]] + Woven(base, es, e.pos + 1);
      assert Woven(base, es, e.pos) == here + rest;
      assert Woven(base, es + [e], e.pos) == here + e.content + rest;
    } else {
      assert Woven(base, es, e.pos) == here;
    }
  }

  // ------------------------------------------------------------ byte offsets

  /** Bytes inserted so far at positions up to and including `p`. */
  function BytesUpTo(es: seq<Edit<char>>, p: nat): nat {
    if es == [] then 0
    else
      var e := es[|es|-1];
      BytesUpTo(es[..|es|-1], p) + if e.pos <= p then ByteLen(e.content) else 0
  }

  lemma BytesUpToSnoc(es: seq<Edit<char>>, e: Edit<char>, p: nat)
    ensures BytesUpTo(es + [e], p) == BytesUpTo(es, p) + if e.pos <= p then ByteLen(e.content) else 0
  {
    assert (es + [e])[..|es|] == es;
  }

  function BytesBetween(es: seq<Edit<char>>, q: nat, p: nat): nat
    requires q <= p
    decreases p - q
  {
    ByteLen(At(es, q)) + if q == p then 0 else BytesBetween(es, q + 1, p)
  }

  lemma {:induction false} BytesUpToMonotone(es: seq<Edit<char>>, p: nat, q: nat)
    requires p <= q
    ensures BytesUpTo(es, p) <= BytesUpTo(es, q)
  {
    if es != [] {
      BytesUpToMonotone(es[..|es|-1], p, q);
    }
  }

  lemma {:induction false} BytesBetweenSnoc(es: seq<Edit<char>>, e: Edit<char>, q: nat, p: nat)
    requires q <= p
    ensures BytesBetween(es + [e], q, p) == BytesBetween(es, q, p) + if q <= e.pos <= p then ByteLen(e.content) else 0
    decreases p - q
  {
    hide At, ByteLen;
    AtSnoc(es, e, q);
    if e.pos == q {
      ByteLenConcat(At(es, q), e.content);
    } else {
      assert At(es, q) + [] == At(es, q);
    }
    if q < p {
      BytesBetweenSnoc(es, e, q + 1, p);
    }
  }

  lemma {:induction false} BytesBetweenNone(q: nat, p: nat)
    requires q <= p
    ensures BytesBetween([], q, p) == 0
    decreases p - q
  {
    if q < p { BytesBetweenNone(q + 1, p); }
  }

  lemma {:induction false} BytesUpToIsBetween(es: seq<Edit<char>>, p: nat)
    ensures BytesUpTo(es, p) == BytesBetween(es, 0, p)
  {
    if es == [] {
      BytesBetweenNone(0, p);
    } else {
      var n := |es| - 1;
      assert es == es[..n] + [es[n]];
      BytesUpToIsBetween(es[..n], p);
      BytesBetweenSnoc(es[..n], es[n], 0, p);
    }
  }

  /** The landing index is the byte offset of the position plus the bytes inserted up to it. */
  lemma {:induction false} LandingBytes(base: string, es: seq<Edit<char>>, q: nat, p: nat)
    requires q <= p <= |base|
    ensures Landing(es, q, p) <= |Woven(base, es, q)|
    ensures ByteLen(Woven(base, es, q)[..Landing(es, q, p)]) == ByteLen(base[q..p]) + BytesBetween(es, q, p)
    decreases p - q
  {
    LandingInWoven(base, es, q, p);
    var w := Woven(base, es, q);
    if q == p {
      assert base[q..p] == "";
      assert w[..|At(es, q)|] == At(es, q);
    } else {
      var head, rest, i := At(es, q) + [base[q]], Woven(base, es, q + 1), Landing(es, q + 1, p);
      LandingBytes(base, es, q + 1, p);
      assert w == head + rest;
      assert w[..|head| + i] == head + rest[..i];
      ByteLenConcat(head, rest[..i]);
      ByteLenConcat(At(es, q), [base[q]]);
      assert base[q..p] == [base[q]] + base[q+1..p];
      ByteLenConcat([base[q]], base[q+1..p]);
    }
  }
}
