/**
 * Character-level string operations the TypeScript code takes from the
 * JavaScript runtime: the `\s` class, `trim`, `toLowerCase` / `toUpperCase`,
 * `replace(/[...]/g, "")`, `includes` and `startsWith`.
 */
module Chars {

  /** The characters matched by the regular-expression class `\s` and removed by `trim`. */
  const Whitespace: set<char> :=
    {'\t', '\n', '\U{000B}', '\U{000C}', '\r', ' ', '\U{00A0}', '\U{1680}',
     '\U{2000}', '\U{2001}', '\U{2002}', '\U{2003}', '\U{2004}', '\U{2005}',
     '\U{2006}', '\U{2007}', '\U{2008}', '\U{2009}', '\U{200A}',
     '\U{2028}', '\U{2029}', '\U{202F}', '\U{205F}', '\U{3000}', '\U{FEFF}'}

  predicate IsSpace(c: char) {
    c in Whitespace
  }

  predicate NoSpace(s: string) {
    forall i :: 0 <= i < |s| ==> !IsSpace(s[i])
  }

  /**
   * Case folding of one character: Latin A-Z and the Cyrillic capitals
   * (U+0400..U+042F) map to their small letters, everything else is unchanged.
   */
  function LowerChar(c: char): (d: char)
    ensures IsSpace(d) <==> IsSpace(c)
  {
    if 'A' <= c <= 'Z' then (c as int + 0x20) as char
    else if '\U{0410}' <= c <= '\U{042F}' then (c as int + 0x20) as char
    else if '\U{0400}' <= c <= '\U{040F}' then (c as int + 0x50) as char
    else c
  }

  /**
   * Upper-casing of one character: Latin a-z and the Cyrillic small letters
   * (U+0430..U+045F) map to their capitals, everything else is unchanged. On
   * the letters `LowerChar` changes it undoes `LowerChar` (`CaseRoundTrip`).
   */
  function UpperChar(c: char): (d: char)
    ensures IsSpace(d) <==> IsSpace(c)
  {
    if 'a' <= c <= 'z' then (c as int - 0x20) as char
    else if '\U{0430}' <= c <= '\U{044F}' then (c as int - 0x20) as char
    else if '\U{0450}' <= c <= '\U{045F}' then (c as int - 0x50) as char
    else c
  }

  /** Lower-casing a capital and upper-casing the result gives the capital back, and conversely. */
  lemma CaseRoundTrip(c: char)
    ensures 'A' <= c <= 'Z' || '\U{0400}' <= c <= '\U{042F}' ==> LowerChar(c) != c && UpperChar(LowerChar(c)) == c
    ensures 'a' <= c <= 'z' || '\U{0430}' <= c <= '\U{045F}' ==> UpperChar(c) != c && LowerChar(UpperChar(c)) == c
  {
  }

  /** `s.toLowerCase()` */
  function Lower(s: string): (r: string)
    ensures |r| == |s| && forall i :: 0 <= i < |s| ==> r[i] == LowerChar(s[i])
  {
    seq(|s|, i requires 0 <= i < |s| => LowerChar(s[i]))
  }

  /** `s.toUpperCase()` */
  function Upper(s: string): (r: string)
    ensures |r| == |s| && forall i :: 0 <= i < |s| ==> r[i] == UpperChar(s[i])
  {
    seq(|s|, i requires 0 <= i < |s| => UpperChar(s[i]))
  }

  /** `s.replace(/[...]/g, "")`: every character of `drop` is deleted. */
  function Strip(s: string, drop: set<char>): (r: string)
    ensures |r| <= |s|
    ensures forall i :: 0 <= i < |r| ==> r[i] !in drop
    ensures forall c :: c in r ==> c in s
  {
    if s == [] then []
    else (if s[0] in drop then [] else [s[0]]) + Strip(s[1..], drop)
  }

  /** Every character outside `drop` occurs as often in the result as in `s`. */
  lemma {:induction false} StripCounts(s: string, drop: set<char>)
    ensures forall c :: c !in drop ==> multiset(Strip(s, drop))[c] == multiset(s)[c]
  {
    if s != [] {
      StripCounts(s[1..], drop);
      assert s == [s[0]] + s[1..];
    }
  }

  /** A single character is dropped iff it is in `drop`. */
  lemma StripOne(c: char, drop: set<char>)
    ensures Strip([c], drop) == if c in drop then [] else [c]
  {
    assert [c][1..] == [];
  }

  /** Stripping works piece by piece: the kept characters stay in their order. */
  lemma {:induction false} StripConcat(a: string, b: string, drop: set<char>)
    ensures Strip(a + b, drop) == Strip(a, drop) + Strip(b, drop)
  {
    if a == [] {
      assert a + b == b;
    } else {
      var head := if a[0] in drop then [] else [a[0]];
      assert (a + b)[0] == a[0];
      assert (a + b)[1..] == a[1..] + b;
      assert Strip(a + b, drop) == head + Strip(a[1..] + b, drop);
      StripConcat(a[1..], b, drop);
      assert Strip(a, drop) == head + Strip(a[1..], drop);
      ConcatAssoc(head, Strip(a[1..], drop), Strip(b, drop));
    }
  }

  lemma ConcatAssoc(x: string, y: string, z: string)
    ensures x + (y + z) == x + y + z
  {
  }

  /** A string without any character of `drop` is left as it is. */
  lemma {:induction false} StripNothing(s: string, drop: set<char>)
    requires forall i :: 0 <= i < |s| ==> s[i] !in drop
    ensures Strip(s, drop) == s
  {
    if s != [] {
      StripNothing(s[1..], drop);
    }
  }

  function TrimStart(s: string): (r: string)
    ensures |r| <= |s| && r == s[|s| - |r|..]
    ensures r != [] ==> !IsSpace(r[0])
    ensures forall i :: 0 <= i < |s| - |r| ==> IsSpace(s[i])
  {
    if s != [] && IsSpace(s[0]) then TrimStart(s[1..]) else s
  }

  function TrimEnd(s: string): (r: string)
    ensures |r| <= |s| && r == s[..|r|]
    ensures r != [] ==> !IsSpace(r[|r| - 1])
    ensures forall i :: |r| <= i < |s| ==> IsSpace(s[i])
  {
    if s != [] && IsSpace(s[|s| - 1]) then TrimEnd(s[..|s| - 1]) else s
  }

  /** `s.trim()`: leading and trailing whitespace removed. */
  function Trim(s: string): (r: string)
    ensures |r| <= |s|
    ensures r != [] ==> !IsSpace(r[0]) && !IsSpace(r[|r| - 1])
  {
    TrimEnd(TrimStart(s))
  }

  /** A string that neither starts nor ends with whitespace is its own trim. */
  lemma TrimUnchanged(s: string)
    requires s != [] ==> !IsSpace(s[0]) && !IsSpace(s[|s| - 1])
    ensures Trim(s) == s
  {
  }

  /** Trimming every whitespace-only string gives the empty string. */
  lemma {:induction false} TrimAllSpace(s: string)
    requires forall i :: 0 <= i < |s| ==> IsSpace(s[i])
    ensures Trim(s) == []
  {
    if s != [] {
      TrimAllSpace(s[1..]);
    }
  }

  /** `s.includes(t)` */
  predicate Contains(s: string, t: string)
    decreases |s|
  {
    t <= s || (s != [] && Contains(s[1..], t))
  }
}
