/** String helpers with the meaning of the Python built-ins the source uses. */
module Text {

  /** `sep.join(parts)`; the general law is `JoinAppend`. */
  function Join(sep: string, parts: seq<string>): (r: string)
    ensures |parts| == 0 ==> r == ""
    ensures |parts| == 1 ==> r == parts[0]
  {
    if |parts| == 0 then ""
    else if |parts| == 1 then parts[0]
    else Join(sep, parts[..|parts| - 1]) + sep + parts[|parts| - 1]
  }

  /** `sub in s` for strings: `sub` occurs at some position of `s`. */
  predicate Contains(s: string, sub: string) {
    exists i | 0 <= i <= |s| - |sub| :: OccursAt(s, sub, i)
  }

  /** `sub` occurs in `s` starting at index `i`. */
  predicate OccursAt(s: string, sub: string, i: int) {
    0 <= i <= |s| - |sub| && s[i..i + |sub|] == sub
  }

  /** `s[:n]` for n >= 0 */
  /** The smaller of two integers. */
  function Min(a: int, b: int): int { if a <= b then a else b }

  function Prefix(s: string, n: nat): (r: string)
    ensures |r| == Min(|s|, n)
    ensures r <= s
  {
    if |s| <= n then s else s[..n]
  }

  /** `c.upper()` on the ASCII range. */
  function UpperChar(c: char): (u: char)
    ensures !('a' <= u <= 'z')
    ensures !('a' <= c <= 'z') ==> u == c
  {
    if 'a' <= c <= 'z' then (c as int - 32) as char else c
  }

  /** `s.upper()` on the ASCII range. */
  function Upper(s: string): (r: string)
    ensures |r| == |s|
    ensures forall i :: 0 <= i < |s| ==> r[i] == UpperChar(s[i])
  {
    seq(|s|, i requires 0 <= i < |s| => UpperChar(s[i]))
  }

  /**
   * The ASCII characters `str.strip()` removes: blank, tab, the line breaks
   * and form feed, and the four separators 0x1C to 0x1F.
   */
  predicate IsSpace(c: char) {
    c == ' ' || c == '\t' || c == '\n' || c == '\r' || c == '\U{000B}' || c == '\U{000C}'
    || ('\U{001C}' <= c <= '\U{001F}')
  }

  function TrimLeft(s: string): (r: string)
    ensures |r| <= |s| && r == s[|s| - |r|..]
    ensures r == [] || !IsSpace(r[0])
    ensures forall i :: 0 <= i < |s| - |r| ==> IsSpace(s[i])
  {
    if |s| > 0 && IsSpace(s[0]) then TrimLeft(s[1..]) else s
  }

  function TrimRight(s: string): (r: string)
    ensures |r| <= |s| && r == s[..|r|]
    ensures r == [] || !IsSpace(r[|r| - 1])
    ensures forall i :: |r| <= i < |s| ==> IsSpace(s[i])
  {
    if |s| > 0 && IsSpace(s[|s| - 1]) then TrimRight(s[..|s| - 1]) else s
  }

  /**
   * `r` is the slice of `s` starting at `lo`, and everything of `s` before
   * and after that slice is whitespace.
   */
  ghost predicate StrippedAt(s: string, r: string, lo: int) {
    && 0 <= lo <= |s| - |r| && s[lo..lo + |r|] == r
    && (forall j :: 0 <= j < lo ==> IsSpace(s[j]))
    && (forall j :: lo + |r| <= j < |s| ==> IsSpace(s[j]))
  }

  /**
   * `s.strip()`: the result is a slice of `s` with no whitespace at either
   * end, and only whitespace was cut off around it.
   */
  function Strip(s: string): (r: string)
    ensures r == [] || (!IsSpace(r[0]) && !IsSpace(r[|r| - 1]))
    ensures exists lo :: StrippedAt(s, r, lo)
    ensures Contains(s, r)
  {
    var l := TrimLeft(s);
    var r := TrimRight(l);
    TrimBounds(s);
    assert OccursAt(s, r, |s| - |l|);
    r
  }

  /** Trimming the left and then the right end cuts only whitespace. */
  lemma TrimBounds(s: string)
    ensures StrippedAt(s, TrimRight(TrimLeft(s)), |s| - |TrimLeft(s)|)
  {
    var l := TrimLeft(s);
    CutBothEnds(s, l, TrimRight(l), |s| - |l|);
  }

  /** Cutting whitespace off the front at `lo` and then off the back leaves a stripped slice. */
  lemma CutBothEnds(s: string, l: string, r: string, lo: int)
    requires 0 <= lo <= |s| && l == s[lo..] && |r| <= |l| && r == l[..|r|]
    requires forall j :: 0 <= j < lo ==> IsSpace(s[j])
    requires forall j :: |r| <= j < |l| ==> IsSpace(l[j])
    ensures StrippedAt(s, r, lo)
  {
    forall k | 0 <= k < |r| ensures r[k] == s[lo + k] {
      assert r[k] == l[k];
    }
    assert s[lo..lo + |r|] == r;
    forall j | lo + |r| <= j < |s| ensures IsSpace(s[j]) {
      assert l[j - lo] == s[j];
    }
  }

  /** `s.replace(a, b)` for single characters. */
  function ReplaceChar(s: string, a: char, b: char): (r: string)
    ensures |r| == |s|
    ensures forall i :: 0 <= i < |s| ==> r[i] == (if s[i] == a then b else s[i])
  {
    seq(|s|, i requires 0 <= i < |s| => if s[i] == a then b else s[i])
  }

  /** Joining two non-empty lists is joining their joins. */
  lemma {:induction false} JoinAppend(sep: string, a: seq<string>, b: seq<string>)
    requires |a| > 0 && |b| > 0
    ensures Join(sep, a + b) == Join(sep, a) + sep + Join(sep, b)
    decreases |b|
  {
    var ab := a + b;
    if |b| == 1 {
      assert ab[..|ab| - 1] == a;
    } else {
      var b' := b[..|b| - 1];
      assert ab[..|ab| - 1] == a + b';
      assert b[..|b| - 1] == b';
      JoinAppend(sep, a, b');
    }
  }

  /**
   * If everything outside `t[lo..hi]` is whitespace, a word without
   * whitespace occurs in `t[lo..hi]` exactly when it occurs in `t`.
   */
  lemma ContainsInCore(t: string, lo: nat, hi: nat, w: string)
    requires lo <= hi <= |t|
    requires forall j :: 0 <= j < lo ==> IsSpace(t[j])
    requires forall j :: hi <= j < |t| ==> IsSpace(t[j])
    requires w != [] && forall j :: 0 <= j < |w| ==> !IsSpace(w[j])
    ensures Contains(t[lo..hi], w) <==> Contains(t, w)
  {
    var core := t[lo..hi];
    if Contains(core, w) {
      var i :| 0 <= i <= |core| - |w| && OccursAt(core, w, i);
      forall k | 0 <= k < |w| ensures t[lo + i + k] == w[k] {
        assert core[i..i + |w|][k] == w[k];
      }
      assert t[lo + i..lo + i + |w|] == w;
      assert OccursAt(t, w, lo + i);
    }
    if Contains(t, w) {
      var i :| 0 <= i <= |t| - |w| && OccursAt(t, w, i);
      assert t[i..i + |w|][0] == w[0];
      assert !IsSpace(t[i]);
      assert i >= lo;
      assert t[i..i + |w|][|w| - 1] == w[|w| - 1];
      assert !IsSpace(t[i + |w| - 1]);
      assert i + |w| <= hi;
      forall k | 0 <= k < |w| ensures core[i - lo + k] == w[k] {
        assert t[i..i + |w|][k] == w[k];
      }
      assert core[i - lo..i - lo + |w|] == w;
      assert OccursAt(core, w, i - lo);
    }
  }

  /** `s.strip()` is the slice `s[lo..hi]` with only whitespace outside it. */
  lemma UpperSlice(s: string, lo: nat, hi: nat)
    requires lo <= hi <= |s|
    ensures Upper(s[lo..hi]) == Upper(s)[lo..hi]
  {
  }

  /**
   * Upper-casing commutes with stripping, so a word without whitespace is in
   * the upper-cased stripped text exactly when it is in the upper-cased text.
   */
  lemma UpperStripContains(s: string, w: string)
    requires w != [] && forall j :: 0 <= j < |w| ==> !IsSpace(w[j])
    ensures Contains(Upper(Strip(s)), w) <==> Contains(Upper(s), w)
  {
    var lo :| StrippedAt(s, Strip(s), lo);
    UpperCoreContains(s, Strip(s), lo, w);
  }

  /** The same for any slice cut out of `s` by whitespace only. */
  lemma UpperCoreContains(s: string, r: string, lo: int, w: string)
    requires StrippedAt(s, r, lo)
    requires w != [] && forall j :: 0 <= j < |w| ==> !IsSpace(w[j])
    ensures Contains(Upper(r), w) <==> Contains(Upper(s), w)
  {
    var hi := lo + |r|;
    var u := Upper(s);
    UpperSlice(s, lo, hi);
    assert forall j :: 0 <= j < lo ==> IsSpace(u[j]);
    assert forall j :: hi <= j < |u| ==> IsSpace(u[j]);
    ContainsInCore(u, lo, hi, w);
  }
}
