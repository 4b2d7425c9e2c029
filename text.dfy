/** The Python string operations the dashboard relies on: `str.strip()`,
    `str.lower()`, `str.upper()`, `str.replace(" ", "_")`, `"\n".join(...)`,
    and the code-point ordering that `sorted()` uses on strings. */
module Text {

  /** The characters for which Python's `str.isspace()` holds; `strip()` with
      no argument removes exactly these. */
  predicate IsSpace(c: char) {
    || ('\t' <= c <= '\r')
    || ('\U{1C}' <= c <= ' ')
    || c == '\U{85}' || c == '\U{A0}' || c == '\U{1680}'
    || ('\U{2000}' <= c <= '\U{200A}')
    || c == '\U{2028}' || c == '\U{2029}' || c == '\U{202F}' || c == '\U{205F}' || c == '\U{3000}'
  }

  ghost predicate AllSpace(s: string) {
    forall i :: 0 <= i < |s| ==> IsSpace(s[i])
  }

  /** Length of the longest all-whitespace prefix of `s`. */
  function LeadCount(s: string): (n: nat)
    ensures n <= |s|
    ensures forall i :: 0 <= i < n ==> IsSpace(s[i])
    ensures n == |s| || !IsSpace(s[n])
  {
    if s != [] && IsSpace(s[0]) then 1 + LeadCount(s[1..]) else 0
  }

  /** Length of the longest all-whitespace suffix of `s`. */
  function TrailCount(s: string): (n: nat)
    ensures n <= |s|
    ensures forall i :: |s| - n <= i < |s| ==> IsSpace(s[i])
    ensures n == |s| || !IsSpace(s[|s| - n - 1])
  {
    if s != [] && IsSpace(s[|s| - 1]) then 1 + TrailCount(s[..|s| - 1]) else 0
  }

  /** Python's `s.strip()`: `s` without its leading and trailing whitespace.
      The result is the slice of `s` starting at `LeadCount(s)`; everything
      outside that slice is whitespace, and the result neither begins nor ends
      with whitespace. */
  function Strip(s: string): (r: string)
    ensures |r| <= |s|
    ensures LeadCount(s) + |r| <= |s| && r == s[LeadCount(s)..LeadCount(s) + |r|]
    ensures forall i :: 0 <= i < |s| && !(LeadCount(s) <= i < LeadCount(s) + |r|) ==> IsSpace(s[i])
    ensures r == [] || (!IsSpace(r[0]) && !IsSpace(r[|r| - 1]))
  {
    var t := s[LeadCount(s)..];
    t[..|t| - TrailCount(t)]
  }

  /** Any slice that has only whitespace around it and no whitespace at its
      ends is the stripped string. */
  lemma StripUnique(s: string, lo: nat, hi: nat)
    requires lo <= hi <= |s|
    requires forall i :: 0 <= i < |s| && !(lo <= i < hi) ==> IsSpace(s[i])
    requires lo == hi || (!IsSpace(s[lo]) && !IsSpace(s[hi - 1]))
    ensures Strip(s) == s[lo..hi]
  {
    var r := Strip(s);
    var n := LeadCount(s);
    if lo != hi {
      assert !IsSpace(s[lo]) && !IsSpace(s[hi - 1]);
      assert n == lo;
      var t := s[n..];
      var m := TrailCount(t);
      assert t[|t| - 1 - (|s| - hi)] == s[hi - 1];
      assert m == |s| - hi;
    }
  }

  /** Surrounding whitespace does not change the stripped string. */
  lemma StripIgnoresPadding(before: string, s: string, after: string)
    requires AllSpace(before) && AllSpace(after)
    ensures Strip(before + s + after) == Strip(s)
  {
    var r := Strip(s);
    var n := LeadCount(s);
    var p := before + s + after;
    var lo := |before| + n;
    assert p[lo..lo + |r|] == r;
    forall i | 0 <= i < |p| && !(lo <= i < lo + |r|)
      ensures IsSpace(p[i])
    {
      if i < |before| {
        assert p[i] == before[i];
      } else if i < |before| + |s| {
        assert p[i] == s[i - |before|];
      } else {
        assert p[i] == after[i - |before| - |s|];
      }
    }
    StripUnique(p, lo, lo + |r|);
  }

  /** Two strings with whitespace at the same positions are stripped at the
      same positions. */
  ghost predicate SameSpacing(s: string, t: string) {
    |s| == |t| && forall i :: 0 <= i < |s| ==> (IsSpace(s[i]) <==> IsSpace(t[i]))
  }

  /** A slice with only whitespace around it and none at its ends in `s`
      is such a slice in `t` too. */
  lemma SpacingTransfer(s: string, t: string, lo: nat, hi: nat)
    requires SameSpacing(s, t) && lo <= hi <= |s|
    requires forall i :: 0 <= i < |s| && !(lo <= i < hi) ==> IsSpace(s[i])
    requires lo == hi || (!IsSpace(s[lo]) && !IsSpace(s[hi - 1]))
    ensures forall i :: 0 <= i < |t| && !(lo <= i < hi) ==> IsSpace(t[i])
    ensures lo == hi || (!IsSpace(t[lo]) && !IsSpace(t[hi - 1]))
  {
    forall i | 0 <= i < |t| && !(lo <= i < hi)
      ensures IsSpace(t[i])
    {
      assert IsSpace(s[i]);
    }
  }

  lemma StripSameSpacing(s: string, t: string)
    requires SameSpacing(s, t)
    ensures Strip(t) == t[LeadCount(s)..LeadCount(s) + |Strip(s)|]
  {
    var n := LeadCount(s);
    var r := Strip(s);
    var m := n + |r|;
    assert n == m || (!IsSpace(s[n]) && !IsSpace(s[m - 1])) by {
      if r != [] {
        assert s[n] == r[0] && s[m - 1] == r[|r| - 1];
      }
    }
    SpacingTransfer(s, t, n, m);
    StripUnique(t, n, m);
  }

  /** Python's `lower()` / `upper()` on one character, for ASCII letters. */
  function LowerChar(c: char): char {
    if 'A' <= c <= 'Z' then (c as int + 32) as char else c
  }

  function UpperChar(c: char): char {
    if 'a' <= c <= 'z' then (c as int - 32) as char else c
  }

  /** Python's `s.lower()` */
  function Lower(s: string): (r: string)
    ensures |r| == |s|
    ensures forall i :: 0 <= i < |s| ==> r[i] == LowerChar(s[i])
  {
    seq(|s|, i requires 0 <= i < |s| => LowerChar(s[i]))
  }

  /** Python's `s.upper()` */
  function Upper(s: string): (r: string)
    ensures |r| == |s|
    ensures forall i :: 0 <= i < |s| ==> r[i] == UpperChar(s[i])
  {
    seq(|s|, i requires 0 <= i < |s| => UpperChar(s[i]))
  }

  /** Python's `s.replace(a, b)` for one-character `a` and `b`. */
  function ReplaceChar(s: string, a: char, b: char): (r: string)
    ensures |r| == |s|
    ensures forall i :: 0 <= i < |s| ==> r[i] == if s[i] == a then b else s[i]
  {
    seq(|s|, i requires 0 <= i < |s| => if s[i] == a then b else s[i])
  }

  /** Case mapping and stripping commute: the letters touched by `upper()`
      are never whitespace. */
  lemma StripUpper(s: string)
    ensures Strip(Upper(s)) == Upper(Strip(s))
  {
    StripSameSpacing(s, Upper(s));
  }

  /** A string without whitespace at its ends and without lower-case ASCII
      letters is left alone by `strip().upper()`. */
  lemma UpperStripFixed(c: string)
    requires c == [] || (!IsSpace(c[0]) && !IsSpace(c[|c| - 1]))
    requires forall i :: 0 <= i < |c| ==> !('a' <= c[i] <= 'z')
    ensures Upper(Strip(c)) == c
  {
    StripUnique(c, 0, |c|);
    assert c[0..|c|] == c;
  }

  /** Two strings that agree after `upper()` also agree after
      `strip().upper()`. */
  lemma UpperStripAgree(s: string, t: string)
    requires Upper(s) == Upper(t)
    ensures Upper(Strip(s)) == Upper(Strip(t))
  {
    assert SameSpacing(s, t) by {
      forall i | 0 <= i < |s|
        ensures IsSpace(s[i]) <==> IsSpace(t[i])
      {
        assert Upper(s)[i] == Upper(t)[i];
      }
    }
    StripSameSpacing(s, t);
    StripUpper(s);
    StripUpper(t);
    StripSameSpacing(Upper(s), Upper(t));
  }

  /** Python's `sep.join(parts)` for a one-character separator. */
  function Join(parts: seq<string>, sep: char): (r: string)
    decreases |parts|
  {
    if parts == [] then ""
    else if |parts| == 1 then parts[0]
    else parts[0] + [sep] + Join(parts[1..], sep)
  }

  /** Python's `s.split(sep)` for a one-character separator; the inverse of
      `Join` on parts that do not contain the separator. */
  function Split(s: string, sep: char): (r: seq<string>)
    ensures |r| >= 1
  {
    if s == [] then [""]
    else
      var rest := Split(s[1..], sep);
      if s[0] == sep then [""] + rest else [[s[0]] + rest[0]] + rest[1..]
  }

  lemma {:induction false} SplitNoSeparator(s: string, sep: char)
    requires sep !in s
    ensures Split(s, sep) == [s]
  {
    if s != [] {
      SplitNoSeparator(s[1..], sep);
      assert [s[0]] + s[1..] == s;
    }
  }

  lemma {:induction false} SplitAfterPart(x: string, sep: char, y: string)
    requires sep !in x
    ensures Split(x + [sep] + y, sep) == [x] + Split(y, sep)
  {
    if x == [] {
      assert ([sep] + y)[1..] == y;
    } else {
      SplitAfterPart(x[1..], sep, y);
      assert (x + [sep] + y)[1..] == x[1..] + [sep] + y;
      assert [x[0]] + x[1..] == x;
    }
  }

  /** Splitting a joined text gives back its parts. */
  lemma {:induction false} SplitJoin(parts: seq<string>, sep: char)
    requires parts != []
    requires forall i :: 0 <= i < |parts| ==> sep !in parts[i]
    ensures Split(Join(parts, sep), sep) == parts
  {
    if |parts| == 1 {
      SplitNoSeparator(parts[0], sep);
    } else {
      SplitJoin(parts[1..], sep);
      SplitAfterPart(parts[0], sep, Join(parts[1..], sep));
      assert [parts[0]] + parts[1..] == parts;
    }
  }

  /** Python's ordering of strings: lexicographic by code point, a proper
      prefix first. */
  predicate StrLt(a: string, b: string) {
    if a == [] then b != []
    else if b == [] then false
    else if a[0] != b[0] then a[0] < b[0]
    else StrLt(a[1..], b[1..])
  }

  lemma {:induction false} StrLtIrreflexive(a: string)
    ensures !StrLt(a, a)
  {
    if a != [] {
      StrLtIrreflexive(a[1..]);
    }
  }
}
