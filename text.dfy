/**
 * The few Python string operations the webhook relies on: `str.strip()`,
 * `str.lower()` and the substring test `sub in s`.
 */
module Text {

  /** Python's `str.isspace()` for one character: TAB through CR, the
      separators FS through US, the space, NEL, NO-BREAK SPACE and the Unicode
      space, line and paragraph separators. */
  predicate IsSpace(c: char) {
    ('\t' <= c <= '\r') || ('\U{1C}' <= c <= ' ') || c == '\U{85}' || c == '\U{A0}'
    || c == '\U{1680}' || ('\U{2000}' <= c <= '\U{200A}') || c == '\U{2028}'
    || c == '\U{2029}' || c == '\U{202F}' || c == '\U{205F}' || c == '\U{3000}'
  }

  /** Every character of `s` at an index in [lo, hi) is whitespace. */
  ghost predicate SpaceBetween(s: string, lo: int, hi: int) {
    forall i :: lo <= i < hi && 0 <= i < |s| ==> IsSpace(s[i])
  }

  ghost predicate AllSpace(s: string) {
    SpaceBetween(s, 0, |s|)
  }

  /** `r` sits in `s` at offset `k` with only whitespace around it. */
  ghost predicate SegmentAt(s: string, r: string, k: int) {
    0 <= k <= |s| - |r| && s[k..k + |r|] == r && SpaceBetween(s, 0, k) && SpaceBetween(s, k + |r|, |s|)
  }

  /** `str.lstrip()`: the longest suffix that does not start with whitespace. */
  function TrimStart(s: string): (r: string)
    ensures |r| <= |s| && r == s[|s| - |r|..]
    ensures SpaceBetween(s, 0, |s| - |r|)
    ensures r == [] || !IsSpace(r[0])
    decreases |s|
  {
    if s != [] && IsSpace(s[0]) then TrimStart(s[1..]) else s
  }

  /** `str.rstrip()`: the longest prefix that does not end with whitespace. */
  function TrimEnd(s: string): (r: string)
    ensures |r| <= |s| && r == s[..|r|]
    ensures SpaceBetween(s, |r|, |s|)
    ensures r == [] || !IsSpace(r[|r| - 1])
    decreases |s|
  {
    if s != [] && IsSpace(s[|s| - 1]) then TrimEnd(s[..|s| - 1]) else s
  }

  /** `str.strip()`: the text between the surrounding whitespace, which is
      empty exactly when the text is whitespace only. */
  function Strip(s: string): (r: string)
    ensures exists k :: SegmentAt(s, r, k)
    ensures r == [] <==> AllSpace(s)
    ensures r != [] ==> !IsSpace(r[0]) && !IsSpace(r[|r| - 1])
  {
    var r := TrimStart(TrimEnd(s));
    StripIsSegment(s);
    StripEmpty(s);
    StripEnds(s);
    r
  }

  lemma StripIsSegment(s: string)
    ensures var e := TrimEnd(s); SegmentAt(s, TrimStart(e), |e| - |TrimStart(e)|)
  {
    var e := TrimEnd(s);
    var r := TrimStart(e);
    assert s[|e| - |r|..|e|] == e[|e| - |r|..];
    assert SegmentAt(s, r, |e| - |r|);
  }

  lemma StripEmpty(s: string)
    ensures TrimStart(TrimEnd(s)) == [] <==> AllSpace(s)
  {
  }

  lemma StripEnds(s: string)
    ensures var r := TrimStart(TrimEnd(s)); r != [] ==> !IsSpace(r[|r| - 1])
  {
    var e := TrimEnd(s);
    var r := TrimStart(e);
    assert r != [] ==> r[|r| - 1] == e[|e| - 1];
  }

  /** ASCII case folding of one character. */
  function LowerChar(c: char): char {
    if 'A' <= c <= 'Z' then (c as int - 'A' as int + 'a' as int) as char else c
  }

  /** `str.lower()`, restricted to ASCII letters. */
  function Lower(s: string): (r: string)
    ensures |r| == |s|
    ensures forall i :: 0 <= i < |s| && 'A' <= s[i] <= 'Z' ==> r[i] as int == s[i] as int + 32
    ensures forall i :: 0 <= i < |s| && !('A' <= s[i] <= 'Z') ==> r[i] == s[i]
  {
    seq(|s|, i requires 0 <= i < |s| => LowerChar(s[i]))
  }

  /** `t` occurs in `s` starting at index `i`. */
  ghost predicate OccursAt(s: string, t: string, i: int) {
    0 <= i && i + |t| <= |s| && s[i..i + |t|] == t
  }

  /** The meaning of Python's `t in s` for strings. */
  ghost predicate Mentions(s: string, t: string) {
    exists i :: OccursAt(s, t, i)
  }

  lemma MentionsTail(s: string, t: string)
    requires |s| >= |t| && s[..|t|] != t
    ensures Mentions(s, t) <==> Mentions(s[1..], t)
  {
    if Mentions(s, t) {
      var i :| OccursAt(s, t, i);
      assert i != 0;
      assert s[1..][i - 1..i - 1 + |t|] == s[i..i + |t|];
      assert OccursAt(s[1..], t, i - 1);
    }
    if Mentions(s[1..], t) {
      var i :| OccursAt(s[1..], t, i);
      assert s[1..][i..i + |t|] == s[i + 1..i + 1 + |t|];
      assert OccursAt(s, t, i + 1);
    }
  }

  /** A left-to-right scan deciding `t in s`. */
  function Contains(s: string, t: string): (b: bool)
    ensures b <==> Mentions(s, t)
    decreases |s|
  {
    if |s| < |t| then
      assert forall i :: !OccursAt(s, t, i);
      false
    else if s[..|t|] == t then
      assert OccursAt(s, t, 0);
      true
    else
      MentionsTail(s, t);
      Contains(s[1..], t)
  }
}
