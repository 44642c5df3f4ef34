/**
 * String helpers shared by the model: Python's `in` on strings (substring test),
 * the first index of a character, whitespace as Python's `str.isspace` sees it,
 * `str.strip()`, splitting into tokens at runs of separator characters, and
 * `os.path.join`.
 */
module Text {

  /** Characters for which Python's `str.isspace()` holds; `\s` in a `str` regular
      expression, `str.split()` and `str.strip()` all use this set. */
  const Whitespace: set<char> := {
    '\t', '\n', '\U{000B}', '\U{000C}', '\r',
    '\U{001C}', '\U{001D}', '\U{001E}', '\U{001F}', ' ',
    '\U{0085}', '\U{00A0}', '\U{1680}',
    '\U{2000}', '\U{2001}', '\U{2002}', '\U{2003}', '\U{2004}', '\U{2005}',
    '\U{2006}', '\U{2007}', '\U{2008}', '\U{2009}', '\U{200A}',
    '\U{2028}', '\U{2029}', '\U{202F}', '\U{205F}', '\U{3000}'
  }

  // ---------------------------------------------------------------------------
  // Substrings (`p in s` on Python strings)
  // ---------------------------------------------------------------------------

  /** `p` occurs in `s` starting at position `k`. */
  predicate OccursAt(p: string, s: string, k: nat)
  {
    k + |p| <= |s| && s[k..k + |p|] == p
  }

  /** `p` occurs in `s` as a contiguous block (Python `p in s`). */
  predicate IsSubstring(p: string, s: string)
    decreases |s|
  {
    p <= s || (s != [] && IsSubstring(p, s[1..]))
  }

  /** The recursive test agrees with the positional definition of an occurrence. */
  lemma {:induction false} IsSubstringIff(p: string, s: string)
    ensures IsSubstring(p, s) <==> exists k: nat :: OccursAt(p, s, k)
    decreases |s|
  {
    if p <= s {
      assert OccursAt(p, s, 0);
    } else if s == [] {
    } else {
      IsSubstringIff(p, s[1..]);
      if IsSubstring(p, s[1..]) {
        var k: nat :| OccursAt(p, s[1..], k);
        assert s[k + 1..k + 1 + |p|] == s[1..][k..k + |p|];
        assert OccursAt(p, s, k + 1);
      }
      if k: nat :| OccursAt(p, s, k) {
        assert k != 0;
        assert s[1..][k - 1..k - 1 + |p|] == s[k..k + |p|];
        assert OccursAt(p, s[1..], k - 1);
      }
    }
  }

  // ---------------------------------------------------------------------------
  // First occurrence of a character (`str.split(c, 1)`)
  // ---------------------------------------------------------------------------

  /** Index of the first occurrence of `c` in `s`, or `|s|` when `c` does not occur. */
  function IndexOf(s: string, c: char): (i: nat)
    ensures i <= |s|
    ensures i < |s| <==> c in s
    ensures i < |s| ==> s[i] == c
    ensures forall j :: 0 <= j < i ==> s[j] != c
  {
    if s == [] then 0
    else if s[0] == c then 0
    else 1 + IndexOf(s[1..], c)
  }

  /** `s.split(c, 1)` when `c` occurs in `s`: the part before and the part after the
      first `c`. */
  function SplitOnce(s: string, c: char): (parts: (string, string))
    requires c in s
    ensures c !in parts.0
    ensures parts.0 + [c] + parts.1 == s
  {
    var i := IndexOf(s, c);
    assert s == s[..i] + [c] + s[i + 1..];
    (s[..i], s[i + 1..])
  }

  /** Splitting at the first `c` is the only split whose left part is free of `c`. */
  lemma SplitOnceUnique(s: string, c: char, a: string, b: string)
    requires c !in a && a + [c] + b == s
    ensures c in s && SplitOnce(s, c) == (a, b)
  {
    assert s[|a|] == c;
    var i := IndexOf(s, c);
    assert forall j :: 0 <= j < |a| ==> s[j] == a[j];
    assert i == |a|;
    assert s[..i] == a;
    assert s[i + 1..] == b;
  }

  // ---------------------------------------------------------------------------
  // Tokens: maximal runs of non-separator characters
  // ---------------------------------------------------------------------------

  /** Length of the longest prefix of `s` free of separators. */
  function RunLength(s: string, seps: set<char>): (n: nat)
    ensures n <= |s|
    ensures forall i :: 0 <= i < n ==> s[i] !in seps
    ensures n < |s| ==> s[n] in seps
  {
    if s == [] || s[0] in seps then 0 else 1 + RunLength(s[1..], seps)
  }

  /** A string with no separator. */
  predicate IsWord(w: string, seps: set<char>)
  {
    w != [] && forall i :: 0 <= i < |w| ==> w[i] !in seps
  }

  /** The maximal non-empty runs of characters not in `seps`, in order. With
      `seps == Whitespace` this is Python's `s.split()`; with `seps` a character
      class it is `re.split('[' + seps + ']+', s)` with the empty pieces dropped.
      Every token is non-empty and free of separators. */
  function Tokens(s: string, seps: set<char>): (r: seq<string>)
    ensures forall w :: w in r ==> IsWord(w, seps)
    decreases |s|
  {
    if s == [] then []
    else if s[0] in seps then Tokens(s[1..], seps)
    else
      var n := RunLength(s, seps);
      [s[..n]] + Tokens(s[n..], seps)
  }

  /** A string with no separator is its own single token. */
  lemma TokensOfWord(w: string, seps: set<char>)
    requires IsWord(w, seps)
    ensures Tokens(w, seps) == [w]
  {
    var n := RunLength(w, seps);
    assert n == |w|;
    assert w[..n] == w;
    assert w[n..] == [];
  }

  /** The run at the start of `t + [c] + u` ends where that of `t` ends. */
  lemma RunLengthThroughSeparator(t: string, c: char, u: string, seps: set<char>)
    requires c in seps
    ensures RunLength(t + [c] + u, seps) == RunLength(t, seps)
  {
    var s := t + [c] + u;
    var m := RunLength(t, seps);
    assert forall i :: 0 <= i < m ==> s[i] == t[i];
    assert s[|t|] == c;
    assert m < |t| ==> s[m] == t[m];
    assert s[m] in seps;
  }

  /** A separator cuts the string in two whose tokens are tokenized independently. */
  lemma {:induction false} TokensSplit(t: string, c: char, u: string, seps: set<char>)
    requires c in seps
    ensures Tokens(t + [c] + u, seps) == Tokens(t, seps) + Tokens(u, seps)
    decreases |t|
  {
    var s := t + [c] + u;
    if t == [] {
      assert s[1..] == u;
    } else if t[0] in seps {
      assert s[1..] == t[1..] + [c] + u;
      TokensSplit(t[1..], c, u, seps);
    } else {
      var n := RunLength(s, seps);
      var m := RunLength(t, seps);
      RunLengthThroughSeparator(t, c, u, seps);
      assert s[..n] == t[..m];
      assert s[n..] == t[m..] + [c] + u;
      if m < |t| {
        TokensSplit(t[m..], c, u, seps);
      } else {
        assert t[m..] == [];
        assert s[n..] == [c] + u;
        assert (s[n..])[1..] == u;
        assert Tokens(t[m..], seps) == [];
      }
    }
  }

  /** A separator at either end contributes no token. */
  lemma TokensDropSeparator(c: char, u: string, seps: set<char>)
    requires c in seps
    ensures Tokens([c] + u, seps) == Tokens(u, seps)
    ensures Tokens(u + [c], seps) == Tokens(u, seps)
  {
    TokensSplit([], c, u, seps);
    assert [] + [c] + u == [c] + u;
    TokensSplit(u, c, [], seps);
    assert u + [c] + [] == u + [c];
  }

  // ---------------------------------------------------------------------------
  // str.strip()
  // ---------------------------------------------------------------------------

  /** `s.lstrip()`: drop leading whitespace. */
  function StripLeft(s: string): (r: string)
    ensures |r| <= |s| && r == s[|s| - |r|..]
    ensures forall i :: 0 <= i < |s| - |r| ==> s[i] in Whitespace
    ensures r != [] ==> r[0] !in Whitespace
  {
    if s != [] && s[0] in Whitespace then
      var r := StripLeft(s[1..]);
      assert s[1..][|s| - 1 - |r|..] == s[|s| - |r|..];
      assert forall i :: 0 < i < |s| - |r| ==> s[i] == s[1..][i - 1];
      r
    else s
  }

  /** `s.rstrip()`: drop trailing whitespace. */
  function StripRight(s: string): (r: string)
    ensures |r| <= |s| && r == s[..|r|]
    ensures forall i :: |r| <= i < |s| ==> s[i] in Whitespace
    ensures r != [] ==> r[|r| - 1] !in Whitespace
  {
    if s != [] && s[|s| - 1] in Whitespace then
      var r := StripRight(s[..|s| - 1]);
      assert s[..|s| - 1][..|r|] == s[..|r|];
      assert forall i :: |r| <= i < |s| - 1 ==> s[i] == s[..|s| - 1][i];
      r
    else s
  }

  /** `r` is the slice of `s` at `a` that is preceded and followed in `s` by
      whitespace only. */
  ghost predicate TrimmedAt(s: string, r: string, a: int)
  {
    0 <= a <= |s| - |r| && r == s[a..a + |r|] &&
    (forall i :: 0 <= i < a ==> s[i] in Whitespace) &&
    (forall i :: a + |r| <= i < |s| ==> s[i] in Whitespace)
  }

  /** `s.strip()`: drop whitespace at both ends. What remains is the slice of `s`
      between a whitespace prefix and a whitespace suffix, and it neither starts nor
      ends with whitespace. */
  function Strip(s: string): (r: string)
    ensures r == [] || (r[0] !in Whitespace && r[|r| - 1] !in Whitespace)
    ensures exists a :: TrimmedAt(s, r, a)
  {
    var l := StripLeft(s);
    var r := StripRight(l);
    assert r != [] ==> r[0] == l[0];
    TrimmedSlice(s, l, r);
    r
  }

  /** Dropping a whitespace prefix and then a whitespace suffix leaves a slice trimmed
      at the prefix's length. */
  lemma TrimmedSlice(s: string, l: string, r: string)
    requires |l| <= |s| && l == s[|s| - |l|..]
    requires forall i :: 0 <= i < |s| - |l| ==> s[i] in Whitespace
    requires |r| <= |l| && r == l[..|r|]
    requires forall i :: |r| <= i < |l| ==> l[i] in Whitespace
    ensures TrimmedAt(s, r, |s| - |l|)
  {
    var a := |s| - |l|;
    assert r == s[a..a + |r|];
    forall i | a + |r| <= i < |s|
      ensures s[i] in Whitespace
    {
      assert s[i] == l[i - a];
    }
  }

  /** When whitespace separates tokens, stripping first changes no token. */
  lemma {:induction false} TokensIgnoreStripLeft(s: string, seps: set<char>)
    requires Whitespace <= seps
    ensures Tokens(StripLeft(s), seps) == Tokens(s, seps)
    decreases |s|
  {
    if s != [] && s[0] in Whitespace {
      TokensIgnoreStripLeft(s[1..], seps);
    }
  }

  lemma {:induction false} TokensIgnoreStripRight(s: string, seps: set<char>)
    requires Whitespace <= seps
    ensures Tokens(StripRight(s), seps) == Tokens(s, seps)
    decreases |s|
  {
    if s != [] && s[|s| - 1] in Whitespace {
      var p := s[..|s| - 1];
      TokensIgnoreStripRight(p, seps);
      assert s == p + [s[|s| - 1]];
      TokensDropSeparator(s[|s| - 1], p, seps);
    }
  }

  lemma TokensIgnoreStrip(s: string, seps: set<char>)
    requires Whitespace <= seps
    ensures Tokens(Strip(s), seps) == Tokens(s, seps)
  {
    TokensIgnoreStripLeft(s, seps);
    TokensIgnoreStripRight(StripLeft(s), seps);
  }

  // ---------------------------------------------------------------------------
  // os.path.join (POSIX)
  // ---------------------------------------------------------------------------

  /** `os.path.join(a, b)`: an absolute `b` replaces `a`; otherwise `b` is appended,
      with a `/` in between unless `a` is empty or already ends in `/`. */
  function Join(a: string, b: string): (r: string)
    ensures b != [] && b[0] == '/' ==> r == b
    ensures (b == [] || b[0] != '/') && (a == [] || a[|a| - 1] == '/') ==> r == a + b
    ensures (b == [] || b[0] != '/') && a != [] && a[|a| - 1] != '/' ==> r == a + "/" + b
  {
    if b != [] && b[0] == '/' then b
    else if a == [] || a[|a| - 1] == '/' then a + b
    else a + "/" + b
  }

  /** `os.path.join(a, p0, p1, ...)`. */
  function JoinAll(a: string, parts: seq<string>): string
    decreases |parts|
  {
    if parts == [] then a else JoinAll(Join(a, parts[0]), parts[1..])
  }
}
