/** The Python `str` operations the modelled code uses, on `seq<char>`. */
module Text {

  /** Python's `str.isspace` for one character (the characters `str.strip()` removes). */
  predicate IsSpace(c: char) {
    c in {' ', '\t', '\n', '\r', '\U{0b}', '\U{0c}', '\U{1c}', '\U{1d}', '\U{1e}', '\U{1f}',
          '\U{85}', '\U{a0}', '\U{1680}', '\U{2028}', '\U{2029}', '\U{202f}', '\U{205f}', '\U{3000}'}
    || ('\U{2000}' <= c <= '\U{200a}')
  }

  /**
   * An ASCII decimal digit `0`-`9`. In a `str` pattern Python's `\d` also matches the other
   * Unicode decimal digits; those are not modelled.
   */
  predicate IsDigit(c: char) {
    '0' <= c <= '9'
  }

  /** `s.find(c)`, and `list.index` without its exception: the first index of `c`, or -1. */
  function Find<T(==)>(s: seq<T>, c: T): (i: int)
    ensures -1 <= i < |s|
    ensures i == -1 <==> c !in s
    ensures i >= 0 ==> s[i] == c && c !in s[..i]
  {
    if s == [] then -1
    else if s[0] == c then 0
    else
      var j := Find(s[1..], c);
      assert s[1..][..(if j < 0 then 0 else j)] == s[1..(if j < 0 then 1 else j + 1)];
      if j < 0 then -1 else j + 1
  }

  /** `s[i:j]` for `0 <= i <= |s|` and `0 <= j <= |s|`: empty when `j < i`. */
  function Slice(s: string, i: nat, j: nat): (r: string)
    requires i <= |s| && j <= |s|
    ensures |r| == if i <= j then j - i else 0
    ensures i <= j ==> r == s[i..j]
  {
    if i <= j then s[i..j] else ""
  }

  /** `s.lstrip()`. */
  function LStrip(s: string): (r: string)
    ensures r == [] || !IsSpace(r[0])
    ensures |r| <= |s|
  {
    if s != [] && IsSpace(s[0]) then LStrip(s[1..]) else s
  }

  /** `s.rstrip()`. */
  function RStrip(s: string): (r: string)
    ensures r == [] || !IsSpace(r[|r| - 1])
    ensures |r| <= |s|
  {
    if s != [] && IsSpace(s[|s| - 1]) then RStrip(s[..|s| - 1]) else s
  }

  /** `s.strip()`. */
  function Strip(s: string): (r: string) {
    RStrip(LStrip(s))
  }

  /** `s.strip(c)` for a one-character argument: removes every leading and trailing `c`. */
  function StripChar(s: string, c: char): (r: string) {
    RStripChar(LStripChar(s, c), c)
  }

  function LStripChar(s: string, c: char): (r: string)
    ensures r == [] || r[0] != c
    ensures |r| <= |s|
  {
    if s != [] && s[0] == c then LStripChar(s[1..], c) else s
  }

  function RStripChar(s: string, c: char): (r: string)
    ensures r == [] || r[|r| - 1] != c
    ensures |r| <= |s|
  {
    if s != [] && s[|s| - 1] == c then RStripChar(s[..|s| - 1], c) else s
  }

  /** `s.split(c)` for a one-character separator. */
  function Split(s: string, c: char): (r: seq<string>)
    ensures |r| >= 1
    ensures forall i :: 0 <= i < |r| ==> c !in r[i]
    decreases |s|
  {
    var i := Find(s, c);
    if i < 0 then [s] else [s[..i]] + Split(s[i + 1..], c)
  }

  /** `s.split(c, 1)` when `c` occurs in `s`: the parts before and after the first `c`. */
  function SplitFirst(s: string, c: char): (r: (string, string))
    requires c in s
    ensures s == r.0 + [c] + r.1
    ensures c !in r.0
  {
    var i := Find(s, c);
    assert s == s[..i] + [c] + s[i + 1..];
    (s[..i], s[i + 1..])
  }

  /** `sub in s` for strings. */
  predicate Contains(s: string, sub: string)
    decreases |s|
  {
    |sub| <= |s| && (s[..|sub|] == sub || Contains(s[1..], sub))
  }

  /** `s.replace(pat, rep)`: every non-overlapping occurrence of `pat`, left to right. */
  function Replace(s: string, pat: string, rep: string): (r: string)
    requires pat != []
    decreases |s|
  {
    if |s| < |pat| then s
    else if s[..|pat|] == pat then rep + Replace(s[|pat|..], pat, rep)
    else [s[0]] + Replace(s[1..], pat, rep)
  }

  /** A string without an occurrence of `pat` is left as it is. */
  lemma {:induction false} ReplaceAbsent(s: string, pat: string, rep: string)
    requires pat != [] && !Contains(s, pat)
    ensures Replace(s, pat, rep) == s
    decreases |s|
  {
    if |s| >= |pat| {
      ReplaceAbsent(s[1..], pat, rep);
      assert [s[0]] + s[1..] == s;
    }
  }

  /** A string that is exactly `pat` becomes exactly `rep`. */
  lemma ReplaceWhole(pat: string, rep: string)
    requires pat != []
    ensures Replace(pat, pat, rep) == rep
  {
    assert pat[|pat|..] == [];
    assert rep + [] == rep;
  }

  /** Replacing `pat` by itself changes nothing. */
  lemma {:induction false} ReplaceSame(s: string, pat: string)
    requires pat != []
    ensures Replace(s, pat, pat) == s
    decreases |s|
  {
    if |s| >= |pat| {
      if s[..|pat|] == pat {
        ReplaceSame(s[|pat|..], pat);
        assert s[..|pat|] + s[|pat|..] == s;
      } else {
        ReplaceSame(s[1..], pat);
        assert [s[0]] + s[1..] == s;
      }
    }
  }

  /** `find` in a concatenation whose first part lacks the character. */
  lemma {:induction false} FindAfter(a: string, b: string, c: char)
    requires c !in a && c in b
    ensures Find(a + b, c) == |a| + Find(b, c)
    decreases |a|
  {
    if a == [] {
      assert a + b == b;
    } else {
      assert a[0] in a;
      assert (a + b)[1..] == a[1..] + b;
      FindAfter(a[1..], b, c);
    }
  }

  /** The first occurrence of `c` is where `c` occurs with no earlier `c`. */
  lemma FindIndex(s: string, i: nat, c: char)
    requires i < |s| && s[i] == c && c !in s[..i]
    ensures Find(s, c) == i
  {
    var j := Find(s, c);
    assert s[..j + 1][j] == c;
    assert s[..i + 1][i] == c;
  }

  /** `s.split(c, 1)` of a piece free of `c`, a `c` and the rest gives that piece and the rest. */
  lemma SplitFirstAt(a: string, b: string, c: char)
    requires c !in a
    ensures c in a + [c] + b && SplitFirst(a + [c] + b, c) == (a, b)
  {
    var s := a + [c] + b;
    assert s[|a|] == c;
    assert s[..|a|] == a;
    FindIndex(s, |a|, c);
    assert s[|a| + 1..] == b;
  }

  /** Splitting a piece free of the separator, a separator and the rest. */
  lemma SplitCons(a: string, b: string, c: char)
    requires c !in a
    ensures Split(a + [c] + b, c) == [a] + Split(b, c)
  {
    var s := a + [c] + b;
    assert c in [c] + b;
    FindAfter(a, [c] + b, c);
    assert a + [c] + b == a + ([c] + b);
    assert s[..|a|] == a;
    assert s[|a| + 1..] == b;
  }

  /** Leading whitespace goes; the rest stays when its ends are not whitespace. */
  lemma StripLeading(w: string, s: string)
    requires forall i :: 0 <= i < |w| ==> IsSpace(w[i])
    requires s != [] && !IsSpace(s[0]) && !IsSpace(s[|s| - 1])
    ensures Strip(w + s) == s
  {
    LStripSpace(w, s);
  }

  /** Trailing whitespace goes; the rest stays when its ends are not whitespace. */
  lemma StripTrailing(s: string, w: string)
    requires forall i :: 0 <= i < |w| ==> IsSpace(w[i])
    requires s != [] && !IsSpace(s[0]) && !IsSpace(s[|s| - 1])
    ensures Strip(s + w) == s
  {
    assert (s + w)[0] == s[0];
    RStripSpace(s, w);
  }

  lemma {:induction false} LStripSpace(w: string, s: string)
    requires forall i :: 0 <= i < |w| ==> IsSpace(w[i])
    requires s != [] && !IsSpace(s[0])
    ensures LStrip(w + s) == s
    decreases |w|
  {
    if w == [] {
      assert w + s == s;
    } else {
      assert (w + s)[1..] == w[1..] + s;
      LStripSpace(w[1..], s);
    }
  }

  lemma {:induction false} RStripSpace(s: string, w: string)
    requires forall i :: 0 <= i < |w| ==> IsSpace(w[i])
    requires s != [] && !IsSpace(s[|s| - 1])
    ensures RStrip(s + w) == s
    decreases |w|
  {
    if w == [] {
      assert s + w == s;
    } else {
      assert (s + w)[..|s + w| - 1] == s + w[..|w| - 1];
      RStripSpace(s, w[..|w| - 1]);
    }
  }

  /** Surrounding quotes go when the inner text neither starts nor ends with one. */
  lemma StripQuotes(v: string, q: char)
    requires v == [] || (v[0] != q && v[|v| - 1] != q)
    ensures StripChar([q] + v + [q], q) == v
  {
    var s := [q] + v + [q];
    assert s[1..] == v + [q];
    if v == [] {
      assert s == [q, q];
      assert LStripChar(s, q) == [];
    } else {
      assert LStripChar(s, q) == LStripChar(v + [q], q) == v + [q];
      assert (v + [q])[..|v|] == v;
      assert RStripChar(v + [q], q) == RStripChar(v, q) == v;
    }
  }
}
