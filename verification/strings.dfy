/**
 * The JavaScript string operations the mention responder relies on:
 * `indexOf`/`includes`, `replace` with a string pattern, `trim` and
 * `toLowerCase`. Strings are sequences of characters.
 */
module Strings {
  import opened Wrappers

  /** `p` occurs in `s` starting at index `i`. */
  predicate OccursAt(s: string, p: string, i: int) {
    0 <= i && i + |p| <= |s| && s[i..i + |p|] == p
  }

  /** The first index at or after `from` where `p` occurs in `s`, as `s.indexOf(p, from)` finds it. */
  function IndexOf(s: string, p: string, from: nat): (r: Option<nat>)
    ensures r.Some? ==> from <= r.value && OccursAt(s, p, r.value)
    ensures r.Some? ==> forall j :: from <= j < r.value ==> !OccursAt(s, p, j)
    ensures r.None? ==> forall j :: from <= j ==> !OccursAt(s, p, j)
    decreases |s| - from
  {
    if from + |p| > |s| then None
    else if s[from..from + |p|] == p then Some(from)
    else IndexOf(s, p, from + 1)
  }

  /** `s.includes(p)`: `p` occurs somewhere in `s`. */
  function Contains(s: string, p: string): (b: bool)
    ensures b <==> exists i :: OccursAt(s, p, i)
  {
    IndexOf(s, p, 0).Some?
  }

  /** `s.replace(p, "")` with a string pattern: only the first occurrence of `p` is removed. */
  function RemoveFirst(s: string, p: string): (r: string)
    ensures !Contains(s, p) ==> r == s
    ensures Contains(s, p) ==> |r| == |s| - |p|
  {
    match IndexOf(s, p, 0)
    case None => s
    case Some(i) => s[..i] + s[i + |p|..]
  }

  /** Removing the first occurrence at `i` leaves a string into which `p` can be put back at `i`. */
  lemma RemoveFirstSplice(s: string, p: string, i: nat)
    requires OccursAt(s, p, i)
    requires forall j :: 0 <= j < i ==> !OccursAt(s, p, j)
    ensures RemoveFirst(s, p) == s[..i] + s[i + |p|..]
    ensures RemoveFirst(s, p)[..i] + p + RemoveFirst(s, p)[i..] == s
  {
    IndexOfFirst(s, p, i);
    RemoveFirstCut(s, p, i);
    SpliceBack(s, p, i, s[..i] + s[i + |p|..]);
  }

  /** The first occurrence of `p` in `s` is what `IndexOf` finds. */
  lemma IndexOfFirst(s: string, p: string, i: nat)
    requires OccursAt(s, p, i)
    requires forall j :: 0 <= j < i ==> !OccursAt(s, p, j)
    ensures IndexOf(s, p, 0) == Some(i)
  {
    assert IndexOf(s, p, 0).Some? by { assert OccursAt(s, p, i); }
  }

  /** Cutting out an occurrence of `p` at `i` and putting `p` back at `i` restores `s`. */
  lemma SpliceBack(s: string, p: string, i: nat, r: string)
    requires OccursAt(s, p, i) && r == s[..i] + s[i + |p|..]
    ensures r[..i] + p + r[i..] == s
  {
    assert r[..i] == s[..i];
    assert r[i..] == s[i + |p|..];
    assert s == s[..i] + s[i..i + |p|] + s[i + |p|..];
  }

  /** A string starting with `p` has its first occurrence of `p` at index 0. */
  lemma IndexOfPrefix(p: string, t: string)
    ensures IndexOf(p + t, p, 0) == Some(0)
  {
    assert (p + t)[0..|p|] == p;
  }

  /**
   * The characters `String.prototype.trim` removes: the ECMAScript WhiteSpace
   * code points (tab, vertical tab, form feed, space, no-break space, zero width
   * no-break space and the Zs category) and the LineTerminator code points.
   */
  predicate IsWhitespace(c: char) {
    || c == '\t' || c == '\n' || c == '\U{000B}' || c == '\U{000C}' || c == '\r' || c == ' '
    || c == '\U{00A0}' || c == '\U{1680}' || ('\U{2000}' <= c <= '\U{200A}')
    || c == '\U{2028}' || c == '\U{2029}' || c == '\U{202F}' || c == '\U{205F}'
    || c == '\U{3000}' || c == '\U{FEFF}'
  }

  predicate AllWhitespace(s: string) {
    forall i :: 0 <= i < |s| ==> IsWhitespace(s[i])
  }

  /** A whitespace `s[0]` followed by a trimmed-off prefix of `s[1..]` is a trimmed-off prefix of `s`. */
  lemma TrimStartStep(s: string, r: string)
    requires s != [] && IsWhitespace(s[0]) && |r| < |s|
    requires r == s[1..][|s| - 1 - |r|..] && AllWhitespace(s[1..][..|s| - 1 - |r|])
    ensures r == s[|s| - |r|..] && AllWhitespace(s[..|s| - |r|])
  {
    var n := |s| - |r|;
    assert forall i :: 1 <= i < n ==> s[..n][i] == s[1..][..n - 1][i - 1];
  }

  /** A trimmed-off suffix of `s[..|s| - 1]` followed by a whitespace last character is a trimmed-off suffix of `s`. */
  lemma TrimEndStep(s: string, r: string)
    requires s != [] && IsWhitespace(s[|s| - 1]) && |r| < |s|
    requires r == s[..|s| - 1][..|r|] && AllWhitespace(s[..|s| - 1][|r|..])
    ensures r == s[..|r|] && AllWhitespace(s[|r|..])
  {
    var n := |r|;
    assert forall i :: 0 <= i < |s| - 1 - n ==> s[n..][i] == s[..|s| - 1][n..][i];
  }

  /** Neither end of `s` is whitespace. */
  predicate IsTrimmed(s: string) {
    s == [] || (!IsWhitespace(s[0]) && !IsWhitespace(s[|s| - 1]))
  }

  /** `s` without its leading whitespace. */
  function TrimStart(s: string): (r: string)
    ensures |r| <= |s| && r == s[|s| - |r|..]
    ensures AllWhitespace(s[..|s| - |r|])
    ensures r == [] || !IsWhitespace(r[0])
  {
    if s != [] && IsWhitespace(s[0]) then
      var r := TrimStart(s[1..]);
      TrimStartStep(s, r);
      r
    else s
  }

  /** `s` without its trailing whitespace. */
  function TrimEnd(s: string): (r: string)
    ensures |r| <= |s| && r == s[..|r|]
    ensures AllWhitespace(s[|r|..])
    ensures r == [] || !IsWhitespace(r[|r| - 1])
  {
    if s != [] && IsWhitespace(s[|s| - 1]) then
      var r := TrimEnd(s[..|s| - 1]);
      TrimEndStep(s, r);
      r
    else s
  }

  /** `s.trim()`: a middle slice of `s` with whitespace-only margins and no whitespace at either end. */
  function Trim(s: string): (r: string)
    ensures IsTrimmed(r)
    ensures exists lo :: TrimmedSlice(s, r, lo)
  {
    var m := TrimStart(s);
    var r := TrimEnd(m);
    SliceOfSlice(s, m, r);
    r
  }

  /** A prefix `r` of a suffix `m` of `s`, with whitespace cut from both sides, is a trimmed slice of `s`. */
  lemma SliceOfSlice(s: string, m: string, r: string)
    requires |m| <= |s| && m == s[|s| - |m|..] && AllWhitespace(s[..|s| - |m|])
    requires |r| <= |m| && r == m[..|r|] && AllWhitespace(m[|r|..])
    ensures TrimmedSlice(s, r, |s| - |m|)
  {
    var lo := |s| - |m|;
    assert s[lo..lo + |r|] == m[..|r|];
    assert s[lo + |r|..] == m[|r|..];
  }

  /** `r` sits at `lo` in `s`, and everything of `s` before and after it is whitespace. */
  predicate TrimmedSlice(s: string, r: string, lo: int) {
    0 <= lo <= lo + |r| <= |s| && r == s[lo..lo + |r|]
    && AllWhitespace(s[..lo]) && AllWhitespace(s[lo + |r|..])
  }

  /** Leading whitespace does not change what `TrimStart` keeps. */
  lemma {:induction false} TrimStartPadded(w: string, m: string)
    requires AllWhitespace(w)
    ensures TrimStart(w + m) == TrimStart(m)
  {
    if w != [] {
      assert (w + m)[0] == w[0];
      assert (w + m)[1..] == w[1..] + m;
      TrimStartPadded(w[1..], m);
    } else {
      assert w + m == m;
    }
  }

  /** Trailing whitespace does not change what `TrimEnd` keeps. */
  lemma {:induction false} TrimEndPadded(m: string, w: string)
    requires AllWhitespace(w)
    ensures TrimEnd(m + w) == TrimEnd(m)
  {
    if w != [] {
      var n := |w| - 1;
      assert (m + w)[|m + w| - 1] == w[n];
      assert (m + w)[..|m + w| - 1] == m + w[..n];
      TrimEndPadded(m, w[..n]);
    } else {
      assert m + w == m;
    }
  }

  /** `trim` recovers any trimmed text from between whitespace margins. */
  lemma TrimOfPadded(w1: string, m: string, w2: string)
    requires AllWhitespace(w1) && AllWhitespace(w2) && IsTrimmed(m)
    ensures Trim(w1 + m + w2) == m
  {
    var tail := m + w2;
    assert w1 + m + w2 == w1 + tail;
    TrimStartPadded(w1, tail);
    TrimEndOfTrimStart(tail, m, w2);
  }

  lemma TrimEndOfTrimStart(tail: string, m: string, w2: string)
    requires tail == m + w2 && AllWhitespace(w2) && IsTrimmed(m)
    ensures TrimEnd(TrimStart(tail)) == m
  {
    if m == [] {
      assert tail == w2 + [];
      TrimStartPadded(w2, []);
    } else {
      assert tail[0] == m[0];
      TrimEndPadded(m, w2);
    }
  }

  predicate IsUpper(c: char) {
    'A' <= c <= 'Z'
  }

  /** No character of `s` is an upper-case letter. */
  predicate NoUpper(s: string) {
    forall i :: 0 <= i < |s| ==> !IsUpper(s[i])
  }

  /** Lower-casing of one character, on the ASCII letters. */
  function LowerChar(c: char): (d: char)
    ensures !IsUpper(d)
    ensures IsUpper(c) ==> d as int == c as int + 32
    ensures !IsUpper(c) ==> d == c
  {
    if IsUpper(c) then (c as int + 32) as char else c
  }

  /** `s.toLowerCase()`: the upper-case letters become lower-case, every other character stays. */
  function ToLower(s: string): (r: string)
    ensures |r| == |s| && NoUpper(r)
    ensures forall i :: 0 <= i < |s| && !IsUpper(s[i]) ==> r[i] == s[i]
    ensures forall i :: 0 <= i < |s| && IsUpper(s[i]) ==> r[i] as int == s[i] as int + 32
  {
    seq(|s|, i requires 0 <= i < |s| => LowerChar(s[i]))
  }

  /** Lower-casing changes nothing in a string that has no upper-case letter. */
  lemma ToLowerNoUpper(s: string)
    requires NoUpper(s)
    ensures ToLower(s) == s
  {
    assert forall i :: 0 <= i < |s| ==> ToLower(s)[i] == s[i];
  }

  /** Lower-casing keeps a trimmed string trimmed: it maps whitespace to itself and letters to letters. */
  lemma ToLowerKeepsTrimmed(s: string)
    requires IsTrimmed(s)
    ensures IsTrimmed(ToLower(s))
  {
  }

  predicate IsLetter(c: char) {
    IsUpper(c) || 'a' <= c <= 'z'
  }

  /** No character of `s` is an ASCII letter, so lower-casing cannot create or destroy a match of it. */
  predicate NoLetters(s: string) {
    forall i :: 0 <= i < |s| ==> !IsLetter(s[i])
  }

  /** A letter-free pattern occurs in the lower-cased text exactly where it occurs in the text. */
  lemma OccursAtLower(s: string, p: string, i: int)
    requires NoLetters(p)
    ensures OccursAt(ToLower(s), p, i) <==> OccursAt(s, p, i)
  {
    if 0 <= i && i + |p| <= |s| {
      var l := ToLower(s);
      if l[i..i + |p|] == p {
        forall j | 0 <= j < |p| ensures s[i + j] == p[j] {
          assert l[i..i + |p|][j] == l[i + j] == LowerChar(s[i + j]);
        }
        assert s[i..i + |p|] == p;
      }
      if s[i..i + |p|] == p {
        forall j | 0 <= j < |p| ensures l[i + j] == p[j] {
          assert s[i..i + |p|][j] == s[i + j];
        }
        assert l[i..i + |p|] == p;
      }
    }
  }

  /** A letter-free pattern is first found at the same index in the text and in its lower-cased form. */
  lemma IndexOfLower(s: string, p: string)
    requires NoLetters(p)
    ensures IndexOf(ToLower(s), p, 0) == IndexOf(s, p, 0)
  {
    var l := ToLower(s);
    var a, b := IndexOf(l, p, 0), IndexOf(s, p, 0);
    if a.Some? {
      OccursAtLower(s, p, a.value);
    }
    if b.Some? {
      OccursAtLower(s, p, b.value);
    }
    if a.Some? && b.Some? {
      assert a.value == b.value by {
        OccursAtLower(s, p, a.value);
        OccursAtLower(s, p, b.value);
      }
    }
  }

  /** Lower-casing distributes over concatenation. */
  lemma ToLowerAppend(a: string, b: string)
    ensures ToLower(a + b) == ToLower(a) + ToLower(b)
  {
    assert forall i :: 0 <= i < |a + b| ==> ToLower(a + b)[i] == (ToLower(a) + ToLower(b))[i];
  }

  /** Lower-casing commutes with taking a slice. */
  lemma ToLowerSlice(s: string, i: nat, j: nat)
    requires i <= j <= |s|
    ensures ToLower(s)[i..j] == ToLower(s[i..j])
  {
    assert forall k :: 0 <= k < j - i ==> ToLower(s)[i..j][k] == ToLower(s[i..j])[k];
  }

  /** Cutting a slice out commutes with lower-casing. */
  lemma CutLower(s: string, i: nat, j: nat)
    requires i <= j <= |s|
    ensures ToLower(s)[..i] + ToLower(s)[j..] == ToLower(s[..i] + s[j..])
  {
    ToLowerAppend(s[..i], s[j..]);
    ToLowerSlice(s, 0, i);
    ToLowerSlice(s, j, |s|);
    assert s[0..i] == s[..i] && s[j..|s|] == s[j..];
    var l := ToLower(s);
    assert l[0..i] == l[..i] && l[j..|s|] == l[j..];
  }

  /** Removing a letter-free pattern commutes with lower-casing. */
  lemma RemoveFirstLower(s: string, p: string)
    requires NoLetters(p)
    ensures RemoveFirst(ToLower(s), p) == ToLower(RemoveFirst(s, p))
  {
    IndexOfLower(s, p);
    match IndexOf(s, p, 0)
    case None =>
      RemoveFirstAbsent(s, p);
      RemoveFirstAbsent(ToLower(s), p);
    case Some(i) =>
      RemoveFirstCutLower(s, p, i);
  }

  lemma RemoveFirstCutLower(s: string, p: string, i: nat)
    requires IndexOf(s, p, 0) == Some(i) && IndexOf(ToLower(s), p, 0) == Some(i)
    ensures RemoveFirst(ToLower(s), p) == ToLower(RemoveFirst(s, p))
  {
    RemoveFirstCut(s, p, i);
    RemoveFirstCut(ToLower(s), p, i);
    CutLower(s, i, i + |p|);
  }

  lemma RemoveFirstAbsent(s: string, p: string)
    requires IndexOf(s, p, 0).None?
    ensures RemoveFirst(s, p) == s
  {
  }

  lemma RemoveFirstCut(s: string, p: string, i: nat)
    requires IndexOf(s, p, 0) == Some(i)
    ensures i + |p| <= |s| && RemoveFirst(s, p) == s[..i] + s[i + |p|..]
  {
  }

  /** Lower-casing maps whitespace to whitespace and everything else to non-whitespace. */
  lemma LowerCharWhitespace(c: char)
    ensures IsWhitespace(LowerChar(c)) <==> IsWhitespace(c)
  {
  }

  lemma {:induction false} TrimStartLower(s: string)
    ensures TrimStart(ToLower(s)) == ToLower(TrimStart(s))
  {
    if s != [] {
      var l := ToLower(s);
      LowerCharWhitespace(s[0]);
      assert l[0] == LowerChar(s[0]);
      assert l[1..] == ToLower(s[1..]);
      TrimStartLower(s[1..]);
    }
  }

  lemma {:induction false} TrimEndLower(s: string)
    ensures TrimEnd(ToLower(s)) == ToLower(TrimEnd(s))
  {
    if s != [] {
      var l := ToLower(s);
      var n := |s| - 1;
      LowerCharWhitespace(s[n]);
      assert l[n] == LowerChar(s[n]);
      assert l[..n] == ToLower(s[..n]);
      TrimEndLower(s[..n]);
    }
  }

  /** Trimming commutes with lower-casing. */
  lemma TrimLower(s: string)
    ensures Trim(ToLower(s)) == ToLower(Trim(s))
  {
    TrimStartLower(s);
    TrimEndLower(TrimStart(s));
  }
}
