/** The handful of Python `str` operations the cleaning code relies on:
    `isspace`, `lower`, `strip`, `split()[0]` and the substring test `in`. */
module Text {
  import opened Wrappers

  /** Python's `str.isspace` for a single code point. */
  predicate IsSpace(c: char) {
    || c == ' '
    || ('\t' <= c <= '\r')
    || ('\U{1c}' <= c <= '\U{1f}')
    || c == '\U{85}' || c == '\U{a0}' || c == '\U{1680}'
    || ('\U{2000}' <= c <= '\U{200a}')
    || c == '\U{2028}' || c == '\U{2029}' || c == '\U{202f}'
    || c == '\U{205f}' || c == '\U{3000}'
  }

  predicate AllSpace(s: string) {
    forall i :: 0 <= i < |s| ==> IsSpace(s[i])
  }

  predicate NoSpace(s: string) {
    forall i :: 0 <= i < |s| ==> !IsSpace(s[i])
  }

  /** A string with no whitespace at either end: what `strip` returns. */
  predicate IsStripped(s: string) {
    s == [] || (!IsSpace(s[0]) && !IsSpace(s[|s| - 1]))
  }

  // ---------------------------------------------------------------------
  // lower

  function LowerChar(c: char): char {
    if 'A' <= c <= 'Z' then (c as int - 'A' as int + 'a' as int) as char else c
  }

  function Lower(s: string): (r: string)
    ensures |r| == |s|
  {
    if s == [] then [] else [LowerChar(s[0])] + Lower(s[1..])
  }

  /** `lower` works code point by code point. */
  lemma {:induction false} LowerAt(s: string)
    ensures forall i :: 0 <= i < |s| ==> Lower(s)[i] == LowerChar(s[i])
  {
    if s != [] {
      LowerAt(s[1..]);
    }
  }

  /** Lowering never turns whitespace into non-whitespace or back. */
  lemma LowerCharKeepsSpace(c: char)
    ensures IsSpace(LowerChar(c)) == IsSpace(c)
  {
  }

  lemma LowerConcat(a: string, b: string)
    ensures Lower(a + b) == Lower(a) + Lower(b)
  {
    LowerAt(a + b);
    LowerAt(a);
    LowerAt(b);
    assert |Lower(a + b)| == |Lower(a) + Lower(b)|;
    forall i | 0 <= i < |a + b|
      ensures Lower(a + b)[i] == (Lower(a) + Lower(b))[i]
    {
      if i < |a| {
        assert (a + b)[i] == a[i];
      } else {
        assert (a + b)[i] == b[i - |a|];
      }
    }
  }

  /** A string is all whitespace exactly when its lowercase form is. */
  lemma LowerKeepsAllSpace(s: string)
    ensures AllSpace(Lower(s)) <==> AllSpace(s)
  {
    LowerAt(s);
    forall i | 0 <= i < |s|
      ensures IsSpace(Lower(s)[i]) == IsSpace(s[i])
    {
      LowerCharKeepsSpace(s[i]);
    }
  }

  // ---------------------------------------------------------------------
  // strip

  /** Number of whitespace code points at the start of `s`. */
  function LeadingSpaces(s: string): (k: nat)
    ensures k <= |s|
    ensures AllSpace(s[..k])
    ensures k < |s| ==> !IsSpace(s[k])
  {
    if s == [] || !IsSpace(s[0]) then 0 else 1 + LeadingSpaces(s[1..])
  }

  /** Length of `s` once its trailing whitespace is removed. */
  function TrailingStart(s: string): (k: nat)
    ensures k <= |s|
    ensures AllSpace(s[k..])
    ensures 0 < k ==> !IsSpace(s[k - 1])
  {
    if s == [] || !IsSpace(s[|s| - 1]) then |s| else TrailingStart(s[..|s| - 1])
  }

  /** Python's `str.strip()` with no argument. */
  function Strip(s: string): (r: string)
    ensures IsStripped(r)
    ensures r == [] <==> AllSpace(s)
  {
    var e := TrailingStart(s);
    var b := LeadingSpaces(s[..e]);
    assert b < e ==> s[..e][b..] == s[b..e];
    assert forall i :: b <= i < e ==> s[..e][i] == s[i];
    s[..e][b..]
  }

  /** Strip removes exactly a whitespace prefix and a whitespace suffix. */
  lemma StripParts(s: string) returns (a: string, b: string)
    ensures AllSpace(a) && AllSpace(b)
    ensures s == a + Strip(s) + b
  {
    var e := TrailingStart(s);
    var k := LeadingSpaces(s[..e]);
    a, b := s[..e][..k], s[e..];
    assert s[..e] == a + s[..e][k..];
    assert s == s[..e] + s[e..];
  }

  /** Every code point of the stripped text is one of the input's. */
  lemma StripChars(s: string, i: nat)
    requires i < |Strip(s)|
    ensures exists k :: 0 <= k < |s| && s[k] == Strip(s)[i]
  {
    var a, b := StripParts(s);
    assert s[|a| + i] == Strip(s)[i];
  }

  lemma LeadingSpacesOf(a: string, u: string)
    requires AllSpace(a)
    requires u == [] || !IsSpace(u[0])
    ensures LeadingSpaces(a + u) == |a|
  {
    if a != [] {
      assert (a + u)[1..] == a[1..] + u;
      LeadingSpacesOf(a[1..], u);
    }
  }

  lemma TrailingStartOf(u: string, b: string)
    requires AllSpace(b)
    requires u == [] || !IsSpace(u[|u| - 1])
    ensures TrailingStart(u + b) == |u|
  {
    if b != [] {
      assert (u + b)[..|u + b| - 1] == u + b[..|b| - 1];
      TrailingStartOf(u, b[..|b| - 1]);
    } else {
      assert u + b == u;
    }
  }

  /** Strip is determined by its result: a stripped core surrounded by
      whitespace strips back to that core. */
  lemma StripOfPadded(a: string, m: string, b: string)
    requires AllSpace(a) && AllSpace(b) && IsStripped(m)
    ensures Strip(a + m + b) == m
  {
    var s := a + m + b;
    if m == [] {
      assert s == a + b;
      assert forall i :: 0 <= i < |s| ==> s[i] == (if i < |a| then a[i] else b[i - |a|]);
    } else {
      assert s == (a + m) + b;
      TrailingStartOf(a + m, b);
      assert s[..|a + m|] == a + m;
      LeadingSpacesOf(a, m);
      assert (a + m)[|a|..] == m;
    }
  }

  /** Whitespace added around a string does not change what it strips to. */
  lemma {:induction false} StripIgnoresPadding(p: string, s: string, q: string)
    requires AllSpace(p) && AllSpace(q)
    ensures Strip(p + s + q) == Strip(s)
  {
    var a, b := StripParts(s);
    assert p + s + q == (p + a) + Strip(s) + (b + q);
    StripOfPadded(p + a, Strip(s), b + q);
  }

  lemma StripIdempotent(s: string)
    ensures Strip(Strip(s)) == Strip(s)
  {
    StripOfPadded([], Strip(s), []);
    assert [] + Strip(s) + [] == Strip(s);
  }

  // ---------------------------------------------------------------------
  // split()[0]

  /** Length of the run of non-whitespace code points that starts `s`. */
  function TokenLength(s: string): (k: nat)
    ensures k <= |s|
    ensures NoSpace(s[..k])
    ensures k < |s| ==> IsSpace(s[k])
  {
    if s == [] || IsSpace(s[0]) then 0 else 1 + TokenLength(s[1..])
  }

  /** Python's `s.split()[0]`: the first maximal run of non-whitespace, or
      `None` where Python raises `IndexError` because there is no token. */
  function FirstToken(s: string): (r: Option<string>)
    ensures r.None? <==> AllSpace(s)
    ensures r.Some? ==> r.value != [] && NoSpace(r.value)
  {
    var b := LeadingSpaces(s);
    if b == |s| then
      assert s[..b] == s;
      None
    else
      assert s[b..][0] == s[b];
      Some(s[b..][..TokenLength(s[b..])])
  }

  lemma TokenLengthOf(t: string, rest: string)
    requires NoSpace(t)
    requires rest == [] || IsSpace(rest[0])
    ensures TokenLength(t + rest) == |t|
  {
    if t != [] {
      assert (t + rest)[1..] == t[1..] + rest;
      TokenLengthOf(t[1..], rest);
    } else {
      assert t + rest == rest;
    }
  }

  /** Reference characterisation of the first token: whitespace, then the
      token, then nothing or whitespace. */
  lemma FirstTokenOf(a: string, t: string, rest: string)
    requires AllSpace(a) && t != [] && NoSpace(t)
    requires rest == [] || IsSpace(rest[0])
    ensures FirstToken(a + t + rest) == Some(t)
  {
    var s := a + t + rest;
    assert s == a + (t + rest);
    LeadingSpacesOf(a, t + rest);
    assert s[|a|..] == t + rest;
    TokenLengthOf(t, rest);
    assert (t + rest)[..|t|] == t;
  }

  lemma FirstTokenAtStart(t: string, rest: string)
    requires t != [] && NoSpace(t)
    requires rest == [] || IsSpace(rest[0])
    ensures FirstToken(t + rest) == Some(t)
  {
    FirstTokenOf([], t, rest);
    assert [] + t + rest == t + rest;
  }

  // ---------------------------------------------------------------------
  // substring test

  /** `w` occurs in `s` starting at index `i`. */
  predicate OccursAt(s: string, w: string, i: int) {
    0 <= i <= |s| - |w| && s[i..i + |w|] == w
  }

  /** Python's `w in s` for strings. */
  predicate Contains(s: string, w: string) {
    exists i | 0 <= i <= |s| - |w| :: OccursAt(s, w, i)
  }

  /** `w in a + w + b`: a string occurs in any string built around it. */
  lemma ContainsPadded(a: string, w: string, b: string)
    ensures Contains(a + w + b, w)
  {
    assert (a + w + b)[|a|..|a| + |w|] == w;
    assert OccursAt(a + w + b, w, |a|);
  }

  /** The converse: when `w in s`, `s` is some text, then `w`, then some
      text. */
  lemma ContainsSplit(s: string, w: string) returns (a: string, b: string)
    requires Contains(s, w)
    ensures s == a + w + b
  {
    var i :| 0 <= i <= |s| - |w| && OccursAt(s, w, i);
    a, b := s[..i], s[i + |w|..];
    assert s == s[..i] + s[i..i + |w|] + s[i + |w|..];
  }
}
