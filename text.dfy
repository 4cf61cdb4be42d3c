/**
 * ASCII models of the Python string operations the cleaner relies on:
 * str.lower, the last piece of str.split with a one-character separator,
 * and str.strip with no argument.
 */
module Text {

  /** An upper-case ASCII letter. */
  predicate IsUpper(c: char) {
    'A' <= c <= 'Z'
  }

  /** str.lower on one character, restricted to ASCII letters. */
  function ToLower(c: char): (d: char)
    ensures !IsUpper(d)
  {
    if IsUpper(c) then (c as int + 32) as char else c
  }

  /** str.lower: every character lower-cased in place, the length kept. */
  function Lower(s: string): (r: string)
    ensures |r| == |s|
    ensures forall i :: 0 <= i < |s| ==> r[i] == ToLower(s[i])
  {
    if s == [] then [] else [ToLower(s[0])] + Lower(s[1..])
  }

  // ---------------------------------------------------------------------
  // The last piece of a split
  // ---------------------------------------------------------------------

  /** The last of the pieces of s split at every occurrence of sep. */
  function LastSegment(s: string, sep: char): string
    decreases |s|
  {
    if s == [] then []
    else if s[|s| - 1] == sep then []
    else LastSegment(s[..|s| - 1], sep) + [s[|s| - 1]]
  }

  /**
   * The last segment is the longest tail of s without a separator: either
   * all of s, or the text right after the last separator (empty when s
   * ends with one).
   */
  lemma {:induction false} LastSegmentIsTail(s: string, sep: char)
    ensures var r := LastSegment(s, sep);
      && |r| <= |s|
      && r == s[|s| - |r|..]
      && sep !in r
      && (|r| < |s| ==> s[|s| - |r| - 1] == sep)
    decreases |s|
  {
    if s != [] && s[|s| - 1] != sep {
      var front := s[..|s| - 1];
      LastSegmentIsTail(front, sep);
      var r := LastSegment(front, sep);
      assert s[|s| - |r| - 1..] == front[|front| - |r|..] + [s[|s| - 1]];
    }
  }

  /** A string without a separator is its own last segment. */
  lemma {:induction false} LastSegmentWhole(s: string, sep: char)
    requires sep !in s
    ensures LastSegment(s, sep) == s
    decreases |s|
  {
    if s != [] {
      var front := s[..|s| - 1];
      assert s[|s| - 1] in s;
      assert forall c :: c in front ==> c in s;
      LastSegmentWhole(front, sep);
      assert s == front + [s[|s| - 1]];
    }
  }

  /** Whatever follows the last separator is the last segment. */
  lemma {:induction false} LastSegmentAfter(a: string, b: string, sep: char)
    requires sep !in b
    ensures LastSegment(a + [sep] + b, sep) == b
    decreases |b|
  {
    var s := a + [sep] + b;
    if b == [] {
      assert s[|s| - 1] == sep;
    } else {
      var front := b[..|b| - 1];
      assert b[|b| - 1] in b;
      assert forall c :: c in front ==> c in b;
      LastSegmentAfter(a, front, sep);
      assert s[..|s| - 1] == a + [sep] + front;
      assert b == front + [b[|b| - 1]];
    }
  }

  // ---------------------------------------------------------------------
  // Stripping whitespace
  // ---------------------------------------------------------------------

  /**
   * ASCII whitespace as Python's str.isspace sees it: space, the control
   * characters 9 to 13 (tab, line feed, vertical tab, form feed, carriage
   * return) and the separators 28 to 31.
   */
  predicate IsSpace(c: char) {
    c == ' ' || 9 <= c as int <= 13 || 28 <= c as int <= 31
  }

  predicate AllSpace(s: string) {
    forall i :: 0 <= i < |s| ==> IsSpace(s[i])
  }

  /** str.lstrip(): drops the leading whitespace and nothing else. */
  function TrimStart(s: string): (r: string)
    ensures |r| <= |s| && r == s[|s| - |r|..]
    ensures AllSpace(s[..|s| - |r|])
    ensures r != [] ==> !IsSpace(r[0])
  {
    if s != [] && IsSpace(s[0]) then
      var r := TrimStart(s[1..]);
      assert s[..|s| - |r|] == [s[0]] + s[1..][..|s| - 1 - |r|];
      r
    else s
  }

  /** str.rstrip(): drops the trailing whitespace and nothing else. */
  function TrimEnd(s: string): (r: string)
    ensures |r| <= |s| && r == s[..|r|]
    ensures AllSpace(s[|r|..])
    ensures r != [] ==> !IsSpace(r[|r| - 1])
  {
    if s != [] && IsSpace(s[|s| - 1]) then
      var r := TrimEnd(s[..|s| - 1]);
      assert s[|r|..] == s[..|s| - 1][|r|..] + [s[|s| - 1]];
      r
    else s
  }

  /** str.strip(): whitespace removed from both ends. */
  function Strip(s: string): string {
    TrimEnd(TrimStart(s))
  }

  /** r sits at offset k of s with nothing but whitespace around it. */
  predicate PaddedAt(s: string, r: string, k: int) {
    && 0 <= k && k + |r| <= |s|
    && r == s[k..k + |r|]
    && AllSpace(s[..k])
    && AllSpace(s[k + |r|..])
  }

  /** What strip returns neither starts nor ends with whitespace. */
  lemma StripEnds(s: string)
    ensures var r := Strip(s);
      r != [] ==> !IsSpace(r[0]) && !IsSpace(r[|r| - 1])
  {
    var t := TrimStart(s);
    var r := TrimEnd(t);
    if r != [] {
      assert r[0] == t[0];
    }
  }

  /** What strip returns is a slice of s with only whitespace cut off on either side. */
  lemma StripIsTrimmedSlice(s: string)
    ensures exists k :: PaddedAt(s, Strip(s), k)
  {
    var t := TrimStart(s);
    var k := |s| - |t|;
    var r := TrimEnd(t);
    assert r == Strip(s);
    assert t == s[k..];
    SliceOfTail(s, k, |r|);
    assert r == s[k..k + |r|];
    assert AllSpace(s[..k]);
    assert AllSpace(s[k + |r|..]);
    assert PaddedAt(s, r, k);
  }

  /** Slicing the tail s[k..] is slicing s at the shifted offsets. */
  lemma SliceOfTail(s: string, k: nat, n: nat)
    requires k + n <= |s|
    ensures s[k..][..n] == s[k..k + n]
    ensures s[k..][n..] == s[k + n..]
  {
  }

  /** Leading whitespace is all that TrimStart removes. */
  lemma {:induction false} TrimStartPadded(pre: string, w: string)
    requires AllSpace(pre)
    requires w == [] || !IsSpace(w[0])
    ensures TrimStart(pre + w) == w
    decreases |pre|
  {
    if pre == [] {
      assert pre + w == w;
    } else {
      assert (pre + w)[1..] == pre[1..] + w;
      TrimStartPadded(pre[1..], w);
    }
  }

  /** Trailing whitespace is all that TrimEnd removes. */
  lemma {:induction false} TrimEndPadded(w: string, post: string)
    requires AllSpace(post)
    requires w == [] || !IsSpace(w[|w| - 1])
    ensures TrimEnd(w + post) == w
    decreases |post|
  {
    if post == [] {
      assert w + post == w;
    } else {
      assert (w + post)[..|w + post| - 1] == w + post[..|post| - 1];
      TrimEndPadded(w, post[..|post| - 1]);
    }
  }

  /**
   * The converse of Strip's contract: whatever sits between whitespace
   * padding, and has no whitespace at its own ends, is what strip returns.
   */
  lemma {:induction false} StripPadded(pre: string, w: string, post: string)
    requires AllSpace(pre) && AllSpace(post)
    requires w != [] ==> !IsSpace(w[0]) && !IsSpace(w[|w| - 1])
    ensures Strip(pre + w + post) == w
  {
    if w == [] {
      assert pre + w + post == pre + post;
      assert AllSpace(pre + post);
      TrimStartPadded(pre + post, []);
      assert pre + post + [] == pre + post;
      assert TrimEnd([]) == [];
    } else {
      assert pre + w + post == pre + (w + post);
      TrimStartPadded(pre, w + post);
      TrimEndPadded(w, post);
    }
  }
}
