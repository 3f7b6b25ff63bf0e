/**
 * The string operations the checker borrows from Python's `str`, reduced to
 * ASCII: `isspace`, `isdigit`, `lower`, `upper`, `strip`, the `in` substring
 * test, `join` and the decimal `str(n)`. `split` and `int(s)` are not used by
 * the checker: they are reference inverses of `join` and `str(n)`, so that the
 * footnote's round trip can be stated.
 */
module Text {

  /** Python's `str.isspace` on ASCII: tab, line feed, vertical tab, form feed,
      carriage return, the separators 0x1C-0x1F and space. */
  predicate IsSpace(c: char) {
    var n := c as int;
    (9 <= n <= 13) || (28 <= n <= 32)
  }

  /** `str.isdigit` on a single ASCII character. */
  predicate IsDigit(c: char) {
    '0' <= c <= '9'
  }

  function LowerChar(c: char): char {
    if 'A' <= c <= 'Z' then (c as int + 32) as char else c
  }

  function UpperChar(c: char): char {
    if 'a' <= c <= 'z' then (c as int - 32) as char else c
  }

  /** `s.lower()` on ASCII letters. */
  function Lower(s: string): (r: string)
    ensures |r| == |s|
  {
    seq(|s|, i requires 0 <= i < |s| => LowerChar(s[i]))
  }

  /** `s.upper()` on ASCII letters. */
  function Upper(s: string): (r: string)
    ensures |r| == |s|
  {
    seq(|s|, i requires 0 <= i < |s| => UpperChar(s[i]))
  }

  lemma LowerConcat(a: string, b: string)
    ensures Lower(a + b) == Lower(a) + Lower(b)
  {
    assert forall i :: 0 <= i < |a + b| ==> Lower(a + b)[i] == (Lower(a) + Lower(b))[i];
  }

  /** Two strings equal up to ASCII case. */
  predicate SameUpToCase(s: string, t: string) {
    |s| == |t| && forall i :: 0 <= i < |s| ==> LowerChar(s[i]) == LowerChar(t[i])
  }

  lemma SameUpToCaseLower(s: string, t: string)
    requires SameUpToCase(s, t)
    ensures Lower(s) == Lower(t)
  {
  }

  // ---------------------------------------------------------------------
  // strip

  /** Every character of `s` from `lo` up to `hi` is whitespace. */
  predicate SpacesIn(s: string, lo: int, hi: int) {
    forall k :: lo <= k < hi && 0 <= k < |s| ==> IsSpace(s[k])
  }

  predicate OnlySpaces(s: string) {
    SpacesIn(s, 0, |s|)
  }

  /** No leading and no trailing whitespace. */
  predicate Trimmed(r: string) {
    r == [] || (!IsSpace(r[0]) && !IsSpace(r[|r| - 1]))
  }

  /** `r` is the part of `s` that starts at `lo`, and all of `s` around it is whitespace. */
  predicate OuterTrimAt(s: string, r: string, lo: nat) {
    lo + |r| <= |s| && s[lo..lo + |r|] == r && SpacesIn(s, 0, lo) && SpacesIn(s, lo + |r|, |s|)
  }

  /** `r` is `s` with some whitespace removed at both ends and nothing else changed. */
  ghost predicate IsOuterTrim(s: string, r: string) {
    exists lo: nat :: OuterTrimAt(s, r, lo)
  }

  /** `s.lstrip()`: the longest suffix of `s` that does not start with whitespace. */
  function LStrip(s: string): (r: string)
    ensures |r| <= |s| && r == s[|s| - |r|..]
    ensures SpacesIn(s, 0, |s| - |r|)
    ensures r == [] || !IsSpace(r[0])
  {
    if s != [] && IsSpace(s[0]) then LStrip(s[1..]) else s
  }

  /** `s.rstrip()`: the longest prefix of `s` that does not end with whitespace. */
  function RStrip(s: string): (r: string)
    ensures |r| <= |s| && r == s[..|r|]
    ensures SpacesIn(s, |r|, |s|)
    ensures r == [] || !IsSpace(r[|r| - 1])
  {
    if s != [] && IsSpace(s[|s| - 1]) then RStrip(s[..|s| - 1]) else s
  }

  /** `s.strip()`. */
  function Strip(s: string): string {
    RStrip(LStrip(s))
  }

  /** Strip removes whitespace at the two ends only, and removes all of it. */
  lemma StripSound(s: string)
    ensures Trimmed(Strip(s))
    ensures OuterTrimAt(s, Strip(s), |s| - |LStrip(s)|)
    ensures IsOuterTrim(s, Strip(s))
  {
    var l := LStrip(s);
    var r := RStrip(l);
    var lo := |s| - |l|;
    assert s[lo..lo + |r|] == l[..|r|];
    forall k | lo + |r| <= k < |s| ensures IsSpace(s[k]) {
      assert s[k] == l[k - lo];
    }
    assert OuterTrimAt(s, r, lo);
  }

  /** The outer trims of `s` that are themselves trimmed are exactly `Strip(s)`. */
  lemma StripUnique(s: string, r: string)
    requires Trimmed(r) && IsOuterTrim(s, r)
    ensures r == Strip(s)
  {
    var lo: nat :| OuterTrimAt(s, r, lo);
    var l := LStrip(s);
    var lo' := |s| - |l|;
    var t := Strip(s);
    StripSound(s);
    if r == [] {
      assert OnlySpaces(s);
    } else {
      assert s[lo] == r[0];
      // the first non-space character of s sits at lo and at lo'
      assert lo == lo';
      // the last non-space character of s sits at lo + |r| - 1 and at lo + |t| - 1
      assert s[lo + |r| - 1] == r[|r| - 1];
      if |t| > 0 {
        assert s[lo + |t| - 1] == t[|t| - 1];
      }
      assert |t| == |r|;
      assert t == s[lo..lo + |t|];
    }
  }

  /** Padding a trimmed string with whitespace on both sides is undone by Strip. */
  lemma StripPadded(pre: string, r: string, post: string)
    requires OnlySpaces(pre) && OnlySpaces(post) && Trimmed(r)
    ensures Strip(pre + r + post) == r
  {
    var s := pre + r + post;
    assert s[|pre|..|pre| + |r|] == r;
    forall k | |pre| + |r| <= k < |s| ensures IsSpace(s[k]) {
      assert s[k] == post[k - |pre| - |r|];
    }
    assert OuterTrimAt(s, r, |pre|);
    StripUnique(s, r);
  }

  lemma StripIdempotent(s: string)
    ensures Strip(Strip(s)) == Strip(s)
  {
    var r := Strip(s);
    StripSound(s);
    assert r[0..0 + |r|] == r;
    assert OuterTrimAt(r, r, 0);
    StripUnique(r, r);
  }

  lemma StripBlank(s: string)
    ensures Strip(s) == [] <==> OnlySpaces(s)
  {
    StripSound(s);
    if OnlySpaces(s) {
      assert s[0..0] == [];
      assert OuterTrimAt(s, [], 0);
      StripUnique(s, []);
    }
  }

  // ---------------------------------------------------------------------
  // substring test: Python's `needle in haystack`

  predicate Contains(haystack: string, needle: string)
    decreases |haystack|
  {
    needle <= haystack || (haystack != [] && Contains(haystack[1..], needle))
  }

  predicate OccursAt(haystack: string, needle: string, i: nat) {
    i + |needle| <= |haystack| && haystack[i..i + |needle|] == needle
  }

  lemma {:induction false} ContainsAt(haystack: string, needle: string)
    ensures Contains(haystack, needle) <==> exists i: nat :: OccursAt(haystack, needle, i)
    decreases |haystack|
  {
    if needle <= haystack {
      assert OccursAt(haystack, needle, 0);
    } else if haystack != [] {
      var tail := haystack[1..];
      ContainsAt(tail, needle);
      if Contains(tail, needle) {
        var i: nat :| OccursAt(tail, needle, i);
        assert haystack[i + 1..i + 1 + |needle|] == tail[i..i + |needle|];
        assert OccursAt(haystack, needle, i + 1);
      }
      if exists i: nat :: OccursAt(haystack, needle, i) {
        var i: nat :| OccursAt(haystack, needle, i);
        assert tail[i - 1..i - 1 + |needle|] == haystack[i..i + |needle|];
        assert OccursAt(tail, needle, i - 1);
      }
    }
  }

  lemma ContainsInfix(pre: string, needle: string, post: string)
    ensures Contains(pre + needle + post, needle)
  {
    var h := pre + needle + post;
    assert h[|pre|..|pre| + |needle|] == needle;
    assert OccursAt(h, needle, |pre|);
    ContainsAt(h, needle);
  }

  // ---------------------------------------------------------------------
  // join and split

  /** `sep.join(parts)`. */
  function Join(parts: seq<string>, sep: string): string {
    if |parts| == 0 then ""
    else if |parts| == 1 then parts[0]
    else parts[0] + sep + Join(parts[1..], sep)
  }

  /** Every character of a join comes from a part or from the separator. */
  lemma {:induction false} JoinChars(parts: seq<string>, sep: string, p: char -> bool)
    requires forall k, j :: 0 <= k < |parts| && 0 <= j < |parts[k]| ==> p(parts[k][j])
    requires forall j :: 0 <= j < |sep| ==> p(sep[j])
    ensures forall j :: 0 <= j < |Join(parts, sep)| ==> p(Join(parts, sep)[j])
  {
    if |parts| > 1 {
      JoinChars(parts[1..], sep, p);
      var rest := Join(parts[1..], sep);
      assert Join(parts, sep) == parts[0] + sep + rest;
      forall j | 0 <= j < |Join(parts, sep)| ensures p(Join(parts, sep)[j]) {
        if j < |parts[0]| {
        } else if j < |parts[0]| + |sep| {
          assert Join(parts, sep)[j] == sep[j - |parts[0]|];
        } else {
          assert Join(parts, sep)[j] == rest[j - |parts[0]| - |sep|];
        }
      }
    } else if |parts| == 1 {
      assert forall j :: 0 <= j < |parts[0]| ==> p(parts[0][j]);
    }
  }

  /** `s.split(sep)` for a one-character separator: the reference inverse of `Join`. */
  function SplitOn(s: string, sep: char): (r: seq<string>)
    ensures |r| >= 1
  {
    if s == [] then [""]
    else if s[0] == sep then [""] + SplitOn(s[1..], sep)
    else
      var rest := SplitOn(s[1..], sep);
      [[s[0]] + rest[0]] + rest[1..]
  }

  lemma {:induction false} SplitOnPlain(p: string, t: string, sep: char)
    requires sep !in p
    ensures SplitOn(p + t, sep) == [p + SplitOn(t, sep)[0]] + SplitOn(t, sep)[1..]
  {
    var rest := SplitOn(t, sep);
    if p == [] {
      assert p + t == t;
      assert p + rest[0] == rest[0];
      assert [rest[0]] + rest[1..] == rest;
    } else {
      assert (p + t)[0] == p[0];
      assert (p + t)[1..] == p[1..] + t;
      SplitOnPlain(p[1..], t, sep);
      assert [p[0]] + (p[1..] + SplitOn(t, sep)[0]) == p + SplitOn(t, sep)[0];
    }
  }

  /** Splitting a join on its separator gives the parts back when no part holds the separator. */
  lemma {:induction false} SplitJoin(parts: seq<string>, sep: char)
    requires |parts| >= 1
    requires forall k :: 0 <= k < |parts| ==> sep !in parts[k]
    ensures SplitOn(Join(parts, [sep]), sep) == parts
  {
    if |parts| == 1 {
      SplitOnPlain(parts[0], "", sep);
      assert parts[0] + "" == parts[0];
    } else {
      var t := Join(parts[1..], [sep]);
      SplitJoin(parts[1..], sep);
      assert Join(parts, [sep]) == parts[0] + [sep] + t;
      assert parts[0] + [sep] + t == parts[0] + ([sep] + t);
      SplitOnPlain(parts[0], [sep] + t, sep);
      assert ([sep] + t)[0] == sep && ([sep] + t)[1..] == t;
      assert SplitOn([sep] + t, sep) == [""] + parts[1..];
      assert parts[0] + "" == parts[0];
      assert parts == [parts[0]] + parts[1..];
    }
  }

  // ---------------------------------------------------------------------
  // decimal numerals: `str(n)` and `int(s)`

  function DigitChar(d: nat): (c: char)
    requires d < 10
    ensures IsDigit(c)
  {
    ('0' as int + d) as char
  }

  function DigitValue(c: char): nat
    requires IsDigit(c)
  {
    c as int - '0' as int
  }

  /** `str(n)` for a natural number: a non-empty run of digits. */
  function DecimalString(n: nat): (r: string)
    ensures |r| >= 1
    ensures forall k :: 0 <= k < |r| ==> IsDigit(r[k])
  {
    if n < 10 then [DigitChar(n)] else DecimalString(n / 10) + [DigitChar(n % 10)]
  }

  /** `int(s)` for a string of digits: the reference inverse of `DecimalString`. */
  function ParseDecimal(s: string): nat
    requires forall k :: 0 <= k < |s| ==> IsDigit(s[k])
  {
    if s == [] then 0 else ParseDecimal(s[..|s| - 1]) * 10 + DigitValue(s[|s| - 1])
  }

  lemma {:induction false} ParseDecimalString(n: nat)
    ensures ParseDecimal(DecimalString(n)) == n
  {
    if n >= 10 {
      var s := DecimalString(n);
      assert s[..|s| - 1] == DecimalString(n / 10);
      ParseDecimalString(n / 10);
    }
  }
}
