/**
 * The parts of Python's `str` that the core relies on: `isspace`, `strip()`,
 * `split()` with no argument, `lower()` and the `in` test for substrings.
 */
module Text {

  /** Python's `str.isspace()`: the characters `strip()` and `split()` remove. */
  predicate IsSpace(c: char) {
    || ('\t' <= c <= '\r')
    || ('\U{1C}' <= c <= '\U{1F}')
    || c == ' ' || c == '\U{85}' || c == '\U{A0}' || c == '\U{1680}'
    || ('\U{2000}' <= c <= '\U{200A}')
    || c == '\U{2028}' || c == '\U{2029}' || c == '\U{202F}' || c == '\U{205F}'
    || c == '\U{3000}'
  }

  predicate AllSpace(s: string) {
    forall i :: 0 <= i < |s| ==> IsSpace(s[i])
  }

  predicate NoSpace(s: string) {
    forall i :: 0 <= i < |s| ==> !IsSpace(s[i])
  }

  // ---------------------------------------------------------------- lower()

  /** `lower()` on one character; only the letters A-Z are folded. */
  function LowerChar(c: char): char {
    if 'A' <= c <= 'Z' then (c as int - 'A' as int + 'a' as int) as char else c
  }

  /**
   * `s.lower()`: same length, whitespace exactly where it was, and no
   * upper-case ASCII letter left.
   */
  function Lower(s: string): (r: string)
    ensures |r| == |s|
    ensures forall i :: 0 <= i < |s| ==> IsSpace(r[i]) == IsSpace(s[i])
    ensures forall i :: 0 <= i < |r| ==> !('A' <= r[i] <= 'Z')
  {
    seq(|s|, i requires 0 <= i < |s| => LowerChar(s[i]))
  }

  // ------------------------------------------------------------------- `in`

  /** `w` occurs in `s` starting at index `i`. */
  predicate OccursAt(s: string, w: string, i: int) {
    0 <= i && i + |w| <= |s| && s[i..i + |w|] == w
  }

  /**
   * Python's `w in s` for two strings: the empty string is in every string,
   * a longer one is in none, and a string is in itself.
   */
  predicate Contains(s: string, w: string): (b: bool)
    ensures w == [] ==> b
    ensures |w| > |s| ==> !b
    ensures w == s ==> b
  {
    assert w == [] || w == s ==> OccursAt(s, w, 0);
    exists i :: 0 <= i <= |s| - |w| && OccursAt(s, w, i)
  }

  // ---------------------------------------------------------------- strip()

  /**
   * The first index at or after `i` whose character is not (when `spaces`)
   * or is (when `!spaces`) whitespace, or `|s|`.
   */
  function Span(s: string, i: nat, spaces: bool): (j: nat)
    requires i <= |s|
    ensures i <= j <= |s|
    ensures forall k :: i <= k < j ==> IsSpace(s[k]) == spaces
    ensures j < |s| ==> IsSpace(s[j]) != spaces
    decreases |s| - i
  {
    if i < |s| && IsSpace(s[i]) == spaces then Span(s, i + 1, spaces) else i
  }

  /** The largest index `k` in `lo..j` such that `s[k..j]` is all whitespace. */
  function SpanBack(s: string, lo: nat, j: nat): (k: nat)
    requires lo <= j <= |s|
    ensures lo <= k <= j
    ensures forall m :: k <= m < j ==> IsSpace(s[m])
    ensures k > lo ==> !IsSpace(s[k - 1])
  {
    if j > lo && IsSpace(s[j - 1]) then SpanBack(s, lo, j - 1) else j
  }

  /** Python's `s.strip()`. */
  function Strip(s: string): (r: string)
    ensures |r| <= |s|
    ensures r != [] ==> !IsSpace(r[0]) && !IsSpace(r[|r| - 1])
    ensures r == [] <==> AllSpace(s)
  {
    var a := Span(s, 0, true);
    var b := SpanBack(s, a, |s|);
    s[a..b]
  }

  /** Stripping only removes whitespace around the words inside. */
  lemma {:induction false} StripPadded(p: string, s: string, q: string)
    requires AllSpace(p) && AllSpace(q)
    requires s == [] || (!IsSpace(s[0]) && !IsSpace(s[|s| - 1]))
    ensures Strip(p + s + q) == s
  {
    var t := p + s + q;
    var a := Span(t, 0, true);
    if s == [] {
      assert AllSpace(t) by {
        forall i | 0 <= i < |t| ensures IsSpace(t[i]) {
          if i < |p| { assert t[i] == p[i]; } else { assert t[i] == q[i - |p|]; }
        }
      }
    } else {
      assert t[|p|] == s[0];
      assert forall i :: 0 <= i < |p| ==> t[i] == p[i];
      assert a == |p|;
      var b := SpanBack(t, a, |t|);
      assert t[|p| + |s| - 1] == s[|s| - 1];
      assert forall m :: |p| + |s| <= m < |t| ==> t[m] == q[m - |p| - |s|];
      assert b == |p| + |s|;
      assert t[a..b] == s;
    }
  }

  /** An occurrence inside a slice is an occurrence in the whole string. */
  lemma {:induction false} OccursInSlice(s: string, a: nat, b: nat, w: string, i: int)
    requires a <= b <= |s|
    requires OccursAt(s[a..b], w, i)
    ensures OccursAt(s, w, a + i)
  {
    forall k | 0 <= k < |w| ensures s[a + i + k] == w[k] {
      assert s[a..b][i + k] == s[a + i + k];
      assert s[a..b][i..i + |w|][k] == s[a..b][i + k];
    }
    assert s[a + i..a + i + |w|] == w;
  }

  /** An occurrence inside the bounds of a slice is an occurrence in the slice. */
  lemma {:induction false} OccursInBounds(s: string, a: nat, b: nat, w: string, i: int)
    requires a <= i && i + |w| <= b <= |s|
    requires OccursAt(s, w, i)
    ensures OccursAt(s[a..b], w, i - a)
  {
    forall k | 0 <= k < |w| ensures s[a..b][i - a + k] == w[k] {
      assert s[i..i + |w|][k] == s[i + k];
    }
    assert s[a..b][i - a..i - a + |w|] == w;
  }

  lemma {:induction false} AllSpaceConcat(x: string, y: string)
    requires AllSpace(x) && AllSpace(y)
    ensures AllSpace(x + y)
  {
    forall i | 0 <= i < |x + y| ensures IsSpace((x + y)[i]) {
      if i < |x| { assert (x + y)[i] == x[i]; } else { assert (x + y)[i] == y[i - |x|]; }
    }
  }

  /** A string is its strip() with whitespace before and after. */
  lemma {:induction false} StripSplits(s: string) returns (front: string, back: string)
    ensures AllSpace(front) && AllSpace(back)
    ensures s == front + Strip(s) + back
  {
    var a := Span(s, 0, true);
    var b := SpanBack(s, a, |s|);
    front, back := s[..a], s[b..];
    SlicesOfSpaces(s, 0, a);
    SlicesOfSpaces(s, b, |s|);
    assert Strip(s) == s[a..b];
    SliceSplit(s, a, b);
  }

  lemma {:induction false} SliceSplit(s: string, a: nat, b: nat)
    requires a <= b <= |s|
    ensures s == s[..a] + s[a..b] + s[b..]
  {
    assert s == s[..a] + s[a..];
    assert s[a..] == s[a..b] + s[b..];
  }

  lemma {:induction false} SlicesOfSpaces(s: string, i: nat, j: nat)
    requires i <= j <= |s|
    requires forall k :: i <= k < j ==> IsSpace(s[k])
    ensures AllSpace(s[i..j])
  {
    forall k | 0 <= k < j - i ensures IsSpace(s[i..j][k]) { assert s[i..j][k] == s[i + k]; }
  }

  /** Whitespace added around a string does not change its strip(). */
  lemma {:induction false} StripIgnoresPadding(p: string, s: string, q: string)
    requires AllSpace(p) && AllSpace(q)
    ensures Strip(p + s + q) == Strip(s)
  {
    var front, back := StripSplits(s);
    var mid := Strip(s);
    AllSpaceConcat(p, front);
    AllSpaceConcat(back, q);
    Regroup(p, front, mid, back, q);
    StripPadded(p + front, mid, back + q);
  }

  lemma {:induction false} Regroup(p: string, front: string, mid: string, back: string, q: string)
    ensures p + (front + mid + back) + q == (p + front) + mid + (back + q)
  {
    assert p + (front + mid + back) == (p + front) + mid + back;
    assert ((p + front) + mid + back) + q == (p + front) + mid + (back + q);
  }

  /** A word without whitespace occurs in `s` exactly when it occurs in `s.strip()`. */
  lemma {:induction false} ContainsStrip(s: string, w: string)
    requires w != [] && NoSpace(w)
    ensures Contains(Strip(s), w) <==> Contains(s, w)
  {
    var a := Span(s, 0, true);
    var b := SpanBack(s, a, |s|);
    assert Strip(s) == s[a..b];
    if Contains(s[a..b], w) {
      var i :| 0 <= i <= |s[a..b]| - |w| && OccursAt(s[a..b], w, i);
      OccursInSlice(s, a, b, w, i);
    }
    if Contains(s, w) {
      var i :| 0 <= i <= |s| - |w| && OccursAt(s, w, i);
      assert s[i] == w[0];
      assert s[i + |w| - 1] == w[|w| - 1];
      OccursInBounds(s, a, b, w, i);
    }
  }

  /** Lower-casing keeps whitespace where it was, so it commutes with strip(). */
  lemma {:induction false} LowerStrip(s: string)
    ensures Lower(Strip(s)) == Strip(Lower(s))
  {
    var l := Lower(s);
    forall i | 0 <= i < |s| ensures IsSpace(s[i]) == IsSpace(l[i]) {
      LowerKeepsSpace(s[i]);
    }
    SpanSameSpaces(s, l, 0);
    var a := Span(s, 0, true);
    SpanBackSameSpaces(s, l, a, |s|);
    var b := SpanBack(s, a, |s|);
    assert Strip(l) == l[a..b];
    assert Strip(s) == s[a..b];
    LowerSlice(s, a, b);
  }

  lemma {:induction false} LowerKeepsSpace(c: char)
    ensures IsSpace(LowerChar(c)) == IsSpace(c)
  {
  }

  lemma {:induction false} LowerSlice(s: string, a: nat, b: nat)
    requires a <= b <= |s|
    ensures Lower(s[a..b]) == Lower(s)[a..b]
  {
    forall i | 0 <= i < b - a ensures Lower(s[a..b])[i] == Lower(s)[a..b][i] {
      assert s[a..b][i] == s[a + i];
    }
  }

  lemma {:induction false} SpanSameSpaces(s: string, t: string, i: nat)
    requires |s| == |t| && i <= |s|
    requires forall k :: 0 <= k < |s| ==> IsSpace(s[k]) == IsSpace(t[k])
    ensures Span(s, i, true) == Span(t, i, true)
    decreases |s| - i
  {
    if i < |s| && IsSpace(s[i]) {
      SpanSameSpaces(s, t, i + 1);
    }
  }

  lemma {:induction false} SpanBackSameSpaces(s: string, t: string, lo: nat, j: nat)
    requires |s| == |t| && lo <= j <= |s|
    requires forall k :: 0 <= k < |s| ==> IsSpace(s[k]) == IsSpace(t[k])
    ensures SpanBack(s, lo, j) == SpanBack(t, lo, j)
  {
    if j > lo && IsSpace(s[j - 1]) {
      SpanBackSameSpaces(s, t, lo, j - 1);
    }
  }

  // ---------------------------------------------------------------- split()

  /** Python's `s.split()`: the maximal runs of non-whitespace characters. */
  function Words(s: string): (ws: seq<string>)
    ensures forall k :: 0 <= k < |ws| ==> ws[k] != [] && NoSpace(ws[k])
    decreases |s|
  {
    if s == [] then []
    else if IsSpace(s[0]) then Words(s[1..])
    else
      var n := Span(s, 0, false);
      [s[..n]] + Words(s[n..])
  }

  lemma {:induction false} WordsOfSpaces(p: string, s: string)
    requires AllSpace(p)
    ensures Words(p + s) == Words(s)
  {
    if p == [] {
      assert p + s == s;
    } else {
      assert (p + s)[0] == p[0];
      assert (p + s)[1..] == p[1..] + s;
      WordsOfSpaces(p[1..], s);
    }
  }

  lemma {:induction false} WordsOfWord(w: string, s: string)
    requires w != [] && NoSpace(w)
    requires s == [] || IsSpace(s[0])
    ensures Words(w + s) == [w] + Words(s)
  {
    var t := w + s;
    assert t[0] == w[0];
    assert forall k :: 0 <= k < |w| ==> t[k] == w[k];
    assert |w| < |t| ==> t[|w|] == s[0];
    assert Span(t, 0, false) == |w|;
    assert t[..|w|] == w && t[|w|..] == s;
  }

  /** `split()` of a word followed by whitespace is that word alone. */
  lemma {:induction false} WordsOfPaddedWord(w: string, q: string)
    requires w != [] && NoSpace(w) && AllSpace(q)
    ensures Words(w + q) == [w]
  {
    if q == [] {
      assert w + q == w + [];
      WordsOfWord(w, []);
    } else {
      WordsOfWord(w, q);
      assert q == q + [];
      WordsOfSpaces(q, []);
    }
  }

  /** `split()` of "<pad>first<spaces>second<pad>" is exactly the two words. */
  lemma {:induction false} WordsOfTwo(p: string, first: string, m: string, second: string, q: string)
    requires AllSpace(p) && AllSpace(m) && AllSpace(q) && m != []
    requires first != [] && NoSpace(first) && second != [] && NoSpace(second)
    ensures Words(p + first + m + second + q) == [first, second]
  {
    var tail := second + q;
    var rest := m + tail;
    var line := first + rest;
    WordsOfPaddedWord(second, q);
    WordsOfSpaces(m, tail);
    assert rest[0] == m[0];
    WordsOfWord(first, rest);
    WordsOfSpaces(p, line);
    Regroup5(p, first, m, second, q);
  }

  lemma {:induction false} Regroup5(p: string, first: string, m: string, second: string, q: string)
    ensures p + first + m + second + q == p + (first + (m + (second + q)))
  {
    assert p + first + m == p + (first + m);
    assert p + (first + m) + second == p + (first + (m + second));
    assert p + (first + (m + second)) + q == p + (first + (m + (second + q)));
  }
}
