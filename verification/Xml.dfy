/** Text replacement and the escaping of XML text. */
module Xml {
  import opened Basics
  import opened Text

  /** Every occurrence of `p` replaced, scanning from the left. */
  function Replace(s: string, p: string, t: string): string
    requires p != ""
  {
    if s == "" then ""
    else if StartsWith(s, p) then t + Replace(s[|p|..], p, t)
    else [s[0]] + Replace(s[1..], p, t)
  }

  function XmlEscape(s: string): string {
    Replace(Replace(Replace(Replace(s, "&", "&amp;"), "<", "&lt;"), ">", "&gt;"), "\"", "&quot;")
  }

  function XmlUnescape(s: string): string {
    Replace(Replace(Replace(Replace(s, "&quot;", "\""), "&lt;", "<"), "&gt;", ">"), "&amp;", "&")
  }

  // ------------------------------------------------------------ one character at a time

  predicate IsSpecial(c: char) {
    c == '&' || c == '<' || c == '>' || c == '"'
  }

  function Entity(c: char): (e: string)
    requires IsSpecial(c)
    ensures |e| > 1 && e[0] == '&'
    ensures forall i :: 0 < i < |e| ==> !IsSpecial(e[i]) && !IsSpace(e[i])
    ensures e[1] == if c == '&' then 'a' else if c == '<' then 'l' else if c == '>' then 'g' else 'q'
  {
    if c == '&' then "&amp;" else if c == '<' then "&lt;" else if c == '>' then "&gt;" else "&quot;"
  }

  function EscapedChar(c: char, special: set<char>): string
    requires forall x :: x in special ==> IsSpecial(x)
  {
    if c in special then Entity(c) else [c]
  }

  /** `s` with the characters of `special` written as entities. */
  function Escaped(s: string, special: set<char>): string
    requires forall x :: x in special ==> IsSpecial(x)
  {
    if s == "" then "" else EscapedChar(s[0], special) + Escaped(s[1..], special)
  }

  const SPECIALS: set<char> := {'&', '<', '>', '"'}

  /** Nothing of `a` starts an occurrence of `p`. */
  lemma {:induction false} ReplaceSkips(a: string, b: string, p: string, t: string)
    requires p != "" && forall i :: 0 <= i < |a| ==> a[i] != p[0]
    ensures Replace(a + b, p, t) == a + Replace(b, p, t)
  {
    if a == "" {
      assert a + b == b;
    } else {
      assert (a + b)[0] == a[0] && (a + b)[1..] == a[1..] + b;
      ReplaceSkips(a[1..], b, p, t);
    }
  }

  /** Replacing one more special character in an escaped text. `&` must come first. */
  lemma {:induction false} EscapeOneMore(s: string, special: set<char>, c: char)
    requires (forall x :: x in special ==> IsSpecial(x)) && IsSpecial(c) && c !in special
    requires c == '&' ==> special == {}
    ensures Replace(Escaped(s, special), [c], Entity(c)) == Escaped(s, special + {c})
  {
    if s != "" {
      var x, rest := s[0], Escaped(s[1..], special);
      EscapeOneMore(s[1..], special, c);
      if x == c {
        assert EscapedChar(x, special) == [c];
        assert StartsWith([c] + rest, [c]) && ([c] + rest)[1..] == rest;
      } else {
        var e := EscapedChar(x, special);
        assert e == EscapedChar(x, special + {c});
        ReplaceSkips(e, rest, [c], Entity(c));
      }
    }
  }

  lemma {:induction false} EscapedNothing(s: string)
    ensures Escaped(s, {}) == s
  {
    if s != "" { EscapedNothing(s[1..]); }
  }

  /** Four passes over the text write each special character as its entity, once. */
  lemma EscapeCharwise(s: string)
    ensures XmlEscape(s) == Escaped(s, SPECIALS)
  {
    hide Replace, Escaped;
    EscapedNothing(s);
    EscapeOneMore(s, {}, '&');
    EscapeOneMore(s, {'&'}, '<');
    EscapeOneMore(s, {'&', '<'}, '>');
    EscapeOneMore(s, {'&', '<', '>'}, '"');
    assert {} + {'&'} == {'&'} && {'&'} + {'<'} == {'&', '<'} && {'&', '<'} + {'>'} == {'&', '<', '>'};
    assert {'&', '<', '>'} + {'"'} == SPECIALS;
  }

  /** Replacing one entity by its character. `&` must come last. */
  lemma {:induction false} UnescapeOne(s: string, special: set<char>, c: char)
    requires (forall x :: x in special ==> IsSpecial(x)) && c in special && '&' in special
    requires c == '&' ==> special == {'&'}
    ensures Replace(Escaped(s, special), Entity(c), [c]) == Escaped(s, special - {c})
  {
    if s != "" {
      var x, rest := s[0], Escaped(s[1..], special);
      var e, p := EscapedChar(x, special), Entity(c);
      UnescapeOne(s[1..], special, c);
      if x == c {
        assert StartsWith(p + rest, p) && (p + rest)[|p|..] == rest;
      } else {
        if x in special {
          UnescapeOther(e, rest, p, [c]);
        } else {
          ReplaceSkips(e, rest, p, [c]);
        }
      }
    }
  }

  /** Two entities differ in their second character. */
  lemma UnescapeOther(e: string, rest: string, p: string, t: string)
    requires |e| > 1 && |p| > 1 && e[0] == p[0] && e[1] != p[1]
    requires forall i :: 0 < i < |e| ==> e[i] != p[0]
    ensures Replace(e + rest, p, t) == e + Replace(rest, p, t)
  {
    var s := e + rest;
    assert s[1] == e[1] && !StartsWith(s, p);
    assert s[1..] == e[1..] + rest;
    ReplaceSkips(e[1..], rest, p, t);
  }

  /** Unescaping undoes escaping on every text. */
  lemma UnescapeEscape(s: string)
    ensures XmlUnescape(XmlEscape(s)) == s
  {
    hide Replace, Escaped;
    EscapeCharwise(s);
    UnescapeOne(s, SPECIALS, '"');
    assert SPECIALS - {'"'} == {'&', '<', '>'};
    UnescapeOne(s, {'&', '<', '>'}, '<');
    assert {'&', '<', '>'} - {'<'} == {'&', '>'};
    UnescapeOne(s, {'&', '>'}, '>');
    assert {'&', '>'} - {'>'} == {'&'};
    UnescapeOne(s, {'&'}, '&');
    assert {'&'} - {'&'} == {};
    EscapedNothing(s);
  }

  // ------------------------------------------------------------ what escaped text looks like

  predicate PlainText(s: string) {
    forall i :: 0 <= i < |s| ==> !IsSpecial(s[i])
  }

  predicate NoMarkup(s: string) {
    forall i :: 0 <= i < |s| ==> s[i] != '<' && s[i] != '>' && s[i] != '"'
  }

  function Occurrences(s: string, c: char): nat {
    multiset(s)[c]
  }

  lemma CountConcat(a: string, b: string, c: char)
    ensures Occurrences(a + b, c) == Occurrences(a, c) + Occurrences(b, c)
  {
  }

  lemma CountAbsent(a: string, c: char)
    requires forall i :: 0 <= i < |a| ==> a[i] != c
    ensures Occurrences(a, c) == 0
  {
    assert c !in a;
  }

  lemma {:induction false} EscapedNoMarkup(s: string)
    ensures NoMarkup(Escaped(s, SPECIALS))
  {
    if s != "" {
      EscapedNoMarkup(s[1..]);
    }
  }

  lemma {:induction false} EscapedCount(s: string, c: char)
    requires IsSpace(c)
    ensures Occurrences(Escaped(s, SPECIALS), c) == Occurrences(s, c)
  {
    hide Occurrences, IsSpace;
    if s != "" {
      EscapedCount(s[1..], c);
      var e := EscapedChar(s[0], SPECIALS);
      assert s == [s[0]] + s[1..];
      CountConcat([s[0]], s[1..], c);
      CountConcat(e, Escaped(s[1..], SPECIALS), c);
      if s[0] in SPECIALS {
        SpecialNoSpace(s[0], c);
        CountAbsent(e, c);
        CountAbsent([s[0]], c);
      }
    }
  }

  lemma SpecialNoSpace(x: char, c: char)
    requires IsSpecial(x) && IsSpace(c)
    ensures x != c && forall i :: 0 <= i < |Entity(x)| ==> Entity(x)[i] != c
  {
  }

  lemma {:induction false} EscapedLength(s: string)
    ensures |Escaped(s, SPECIALS)| >= |s|
    ensures |Escaped(s, SPECIALS)| == |s| <==> PlainText(s)
    ensures PlainText(s) ==> Escaped(s, SPECIALS) == s
  {
    if s != "" {
      EscapedLength(s[1..]);
      assert s == [s[0]] + s[1..];
      assert PlainText(s) <==> !IsSpecial(s[0]) && PlainText(s[1..]);
    }
  }

  /** Escaped text holds no markup, keeps its spaces and its first character unless that is special,
      and grows exactly when there is something to escape. */
  lemma EscapeShape(s: string, c: char)
    requires IsSpace(c)
    ensures NoMarkup(XmlEscape(s)) && Occurrences(XmlEscape(s), c) == Occurrences(s, c)
    ensures |XmlEscape(s)| == |s| <==> PlainText(s)
    ensures PlainText(s) ==> XmlEscape(s) == s
    ensures s == "" <==> XmlEscape(s) == ""
    ensures s != "" && s[0] != '=' ==> XmlEscape(s)[0] != '='
  {
    hide XmlEscape, NoMarkup, PlainText, Occurrences, IsSpace;
    EscapeCharwise(s);
    EscapedNoMarkup(s);
    EscapedCount(s, c);
    EscapedLength(s);
  }
}
