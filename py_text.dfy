/**
  The Python `str` built-ins the scripts rely on, with CPython's exact
  semantics: `in`, `replace`, `count`, `strip()`, `splitlines()`,
  `sep.join`, slicing with clamped bounds and lexicographic `<=`.
 */
module PyText {

  /** `s.startswith(p)`. */
  predicate StartsWith(s: string, p: string) {
    |p| <= |s| && s[..|p|] == p
  }

  /** `p in s`: `p` occurs somewhere in `s` (the empty string occurs everywhere). */
  predicate Contains(s: string, p: string)
    decreases |s|
  {
    StartsWith(s, p) || (|s| > 0 && Contains(s[1..], p))
  }

  /** `s.replace(p, r)`: every leftmost, non-overlapping occurrence of `p` is replaced. */
  function Replace(s: string, p: string, r: string): string
    requires |p| > 0
    decreases |s|
  {
    if |s| == 0 then ""
    else if StartsWith(s, p) then r + Replace(s[|p|..], p, r)
    else [s[0]] + Replace(s[1..], p, r)
  }

  /** `s.count(p)`: the number of leftmost, non-overlapping occurrences of `p`. */
  function Count(s: string, p: string): nat
    requires |p| > 0
    decreases |s|
  {
    if |s| == 0 then 0
    else if StartsWith(s, p) then 1 + Count(s[|p|..], p)
    else Count(s[1..], p)
  }

  /** The characters at which `str.splitlines` breaks a line. */
  predicate IsLineBoundary(c: char) {
    var n := c as int;
    (10 <= n <= 13) || (0x1c <= n <= 0x1e) || n == 0x85 || n == 0x2028 || n == 0x2029
  }

  /** The characters that `str.strip()` without arguments removes. */
  predicate IsSpace(c: char) {
    var n := c as int;
    (9 <= n <= 13) || (0x1c <= n <= 0x20) || n == 0x85 || n == 0xa0 || n == 0x1680
    || (0x2000 <= n <= 0x200a) || n == 0x2028 || n == 0x2029 || n == 0x202f
    || n == 0x205f || n == 0x3000
  }

  predicate NoLineBreak(s: string) {
    forall k :: 0 <= k < |s| ==> !IsLineBoundary(s[k])
  }

  function StripLeft(s: string): (r: string)
    ensures |r| <= |s| && r == s[|s| - |r|..]
    ensures |r| > 0 ==> !IsSpace(r[0])
    decreases |s|
  {
    if |s| > 0 && IsSpace(s[0]) then StripLeft(s[1..]) else s
  }

  function StripRight(s: string): (r: string)
    ensures |r| <= |s| && r == s[..|r|]
    ensures |r| > 0 ==> !IsSpace(r[|r| - 1])
    decreases |s|
  {
    if |s| > 0 && IsSpace(s[|s| - 1]) then StripRight(s[..|s| - 1]) else s
  }

  /** `s.strip()`. */
  function Strip(s: string): string {
    StripRight(StripLeft(s))
  }

  /** Index of the first line boundary in `s`, or `|s|` when there is none. */
  function FirstBreak(s: string): (i: nat)
    ensures i <= |s|
    ensures forall k :: 0 <= k < i ==> !IsLineBoundary(s[k])
    ensures i < |s| ==> IsLineBoundary(s[i])
    decreases |s|
  {
    if |s| == 0 || IsLineBoundary(s[0]) then 0 else 1 + FirstBreak(s[1..])
  }

  /** `s.splitlines()`: `\r\n` is one boundary and a final boundary yields no empty line. */
  function SplitLines(s: string): seq<string>
    decreases |s|
  {
    if |s| == 0 then []
    else
      var i := FirstBreak(s);
      if i == |s| then [s]
      else
        var width := if s[i] == '\r' && i + 1 < |s| && s[i + 1] == '\n' then 2 else 1;
        [s[..i]] + SplitLines(s[i + width..])
  }

  /** `sep.join(parts)`. */
  function Join(parts: seq<string>, sep: string): string
    decreases |parts|
  {
    if |parts| == 0 then ""
    else if |parts| == 1 then parts[0]
    else parts[0] + sep + Join(parts[1..], sep)
  }

  function StripEach(lines: seq<string>): (r: seq<string>)
    ensures |r| == |lines|
    ensures forall i :: 0 <= i < |lines| ==> r[i] == Strip(lines[i])
  {
    seq(|lines|, i requires 0 <= i < |lines| => Strip(lines[i]))
  }

  /** `s[k:]` for `k >= 0`: a start past the end gives the empty string. */
  function Drop(s: string, k: nat): (r: string)
    ensures k <= |s| ==> r == s[k..]
    ensures k > |s| ==> r == ""
  {
    if k <= |s| then s[k..] else ""
  }

  /** `s[0:n]`: an end past the end is clamped. */
  function Take(s: string, n: nat): (r: string)
    ensures n <= |s| ==> r == s[..n]
    ensures n > |s| ==> r == s
  {
    if n <= |s| then s[..n] else s
  }

  /** Python's `a <= b` on strings: lexicographic by code point. */
  predicate LexLe(a: string, b: string)
    decreases |a|
  {
    |a| == 0 || (|b| > 0 && (a[0] < b[0] || (a[0] == b[0] && LexLe(a[1..], b[1..]))))
  }

  // ---------------------------------------------------------------------
  // Properties of the built-ins
  // ---------------------------------------------------------------------

  /** A one-character pattern occurs exactly when that character does. */
  lemma {:induction false} ContainsChar(s: string, c: char)
    ensures Contains(s, [c]) <==> c in s
    decreases |s|
  {
    if |s| > 0 {
      ContainsChar(s[1..], c);
      assert s == [s[0]] + s[1..];
    }
  }

  /** An occurrence in a suffix is an occurrence in the whole string. */
  lemma {:induction false} ContainsInSuffix(s: string, k: nat, q: string)
    requires k <= |s|
    ensures Contains(s[k..], q) ==> Contains(s, q)
    decreases k
  {
    if k > 0 {
      assert s[1..][k - 1..] == s[k..];
      ContainsInSuffix(s[1..], k - 1, q);
    }
  }

  /** Replacing a pattern that does not occur changes nothing. */
  lemma {:induction false} ReplaceAbsent(s: string, p: string, r: string)
    requires |p| > 0
    requires !Contains(s, p)
    ensures Replace(s, p, r) == s
    decreases |s|
  {
    if |s| > 0 {
      ReplaceAbsent(s[1..], p, r);
      assert s == [s[0]] + s[1..];
    }
  }

  /** Every character of a replacement's result comes from the subject or from the replacement. */
  lemma {:induction false} ReplaceChars(s: string, p: string, r: string)
    requires |p| > 0
    ensures forall x :: x in Replace(s, p, r) ==> x in s || x in r
    decreases |s|
  {
    if |s| > 0 {
      if StartsWith(s, p) {
        ReplaceChars(s[|p|..], p, r);
        assert forall x :: x in s[|p|..] ==> x in s;
      } else {
        ReplaceChars(s[1..], p, r);
        assert forall x :: x in s[1..] ==> x in s;
      }
    }
  }

  /**
    When the replacement is one character `c` that a word `w` lacks, a
    prefix `w` of the result was already a prefix of the subject.
   */
  lemma {:induction false} ReplacePrefix(t: string, p: string, c: char, w: string)
    requires |p| > 0
    requires c !in w
    ensures StartsWith(Replace(t, p, [c]), w) ==> StartsWith(t, w)
    decreases |t|
  {
    if |w| > 0 && |t| > 0 {
      assert StartsWith(t, p) ==> Replace(t, p, [c])[0] == c;
      assert w[0] in w;
      if !StartsWith(t, p) {
        var rest := Replace(t[1..], p, [c]);
        assert Replace(t, p, [c]) == [t[0]] + rest;
        ReplacePrefix(t[1..], p, c, w[1..]);
        if StartsWith(Replace(t, p, [c]), w) {
          assert rest[..|w| - 1] == Replace(t, p, [c])[1..|w|];
          assert t[..|w|] == [t[0]] + t[1..][..|w| - 1];
        }
      }
    }
  }

  /**
    Replacing `p` by a single character `c` leaves no occurrence of a word
    `q` that lacks `c`, provided `q` is `p` itself or did not occur before.
   */
  lemma {:induction false} ReplaceLeavesNone(s: string, p: string, c: char, q: string)
    requires |p| > 0 && |q| > 0
    requires c !in q
    requires q == p || !Contains(s, q)
    ensures !Contains(Replace(s, p, [c]), q)
    decreases |s|
  {
    var res := Replace(s, p, [c]);
    if |s| > 0 {
      var k: nat := if StartsWith(s, p) then |p| else 1;
      ContainsInSuffix(s, k, q);
      ReplaceLeavesNone(s[k..], p, c, q);
      ReplacePrefix(s, p, c, q);
      assert StartsWith(s, p) ==> res[0] == c;
      assert q[0] in q;
      assert res[1..] == Replace(s[k..], p, [c]) by {
        if StartsWith(s, p) {
          assert res == [c] + Replace(s[|p|..], p, [c]);
        } else {
          assert res == [s[0]] + Replace(s[1..], p, [c]);
        }
      }
    }
  }

  lemma {:induction false} StripLeftChars(s: string)
    ensures forall x :: x in StripLeft(s) ==> x in s
  {
    var r := StripLeft(s);
    assert forall x :: x in r ==> x in s by {
      forall x | x in r ensures x in s {
        var k :| 0 <= k < |r| && r[k] == x;
        assert s[|s| - |r| + k] == x;
      }
    }
  }

  lemma {:induction false} StripRightChars(s: string)
    ensures forall x :: x in StripRight(s) ==> x in s
  {
    var r := StripRight(s);
    assert forall x :: x in r ==> x in s by {
      forall x | x in r ensures x in s {
        var k :| 0 <= k < |r| && r[k] == x;
        assert s[k] == x;
      }
    }
  }

  /** `strip()` only removes characters. */
  lemma StripChars(s: string)
    ensures forall x :: x in Strip(s) ==> x in s
  {
    StripLeftChars(s);
    StripRightChars(StripLeft(s));
  }

  /** No line that `splitlines()` yields holds a line boundary. */
  lemma {:induction false} SplitLinesHaveNoBreak(s: string)
    ensures forall i :: 0 <= i < |SplitLines(s)| ==> NoLineBreak(SplitLines(s)[i])
    decreases |s|
  {
    if |s| > 0 {
      var i := FirstBreak(s);
      if i < |s| {
        var width := if s[i] == '\r' && i + 1 < |s| && s[i + 1] == '\n' then 2 else 1;
        SplitLinesHaveNoBreak(s[i + width..]);
        assert SplitLines(s) == [s[..i]] + SplitLines(s[i + width..]);
      }
    }
  }

  /** Every character of `sep.join(parts)` comes from `sep` or from one of the parts. */
  lemma {:induction false} JoinChars(parts: seq<string>, sep: string, x: char)
    requires x in Join(parts, sep)
    ensures x in sep || exists i :: 0 <= i < |parts| && x in parts[i]
    decreases |parts|
  {
    if |parts| > 1 {
      var tail := Join(parts[1..], sep);
      if x !in parts[0] && x !in sep {
        assert x in tail;
        JoinChars(parts[1..], sep, x);
        var i :| 0 <= i < |parts[1..]| && x in parts[1..][i];
        assert x in parts[i + 1];
      }
    }
  }

  /** String ordering is reflexive, so `s <= s` always holds. */
  lemma {:induction false} LexLeReflexive(s: string)
    ensures LexLe(s, s)
    decreases |s|
  {
    if |s| > 0 {
      LexLeReflexive(s[1..]);
    }
  }
}
