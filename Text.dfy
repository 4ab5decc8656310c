/**
 * Python string operations the core relies on: `str.isspace`, `str.strip`,
 * `sep.join`, the substring test `t in s`, slicing `s[i:j]` and the lower-casing
 * of ASCII letters.
 */
module Text {

  /**
   * The characters for which Python's `str.isspace()` holds; a `\s` in a
   * regular expression over `str` matches exactly these.
   */
  predicate IsSpace(c: char) {
    c == ' ' || ('\t' <= c <= '\r') || ('\U{1c}' <= c <= '\U{1f}')
    || c == '\U{85}' || c == '\U{a0}' || c == '\U{1680}'
    || ('\U{2000}' <= c <= '\U{200a}') || c == '\U{2028}' || c == '\U{2029}'
    || c == '\U{202f}' || c == '\U{205f}' || c == '\U{3000}'
  }

  predicate IsAsciiUpper(c: char) { 'A' <= c <= 'Z' }

  predicate IsAsciiLetter(c: char) { 'A' <= c <= 'Z' || 'a' <= c <= 'z' }

  predicate IsAsciiDigit(c: char) { '0' <= c <= '9' }

  /** Every character of `s` is whitespace (this includes the empty string). */
  predicate IsBlank(s: string) {
    forall i :: 0 <= i < |s| ==> IsSpace(s[i])
  }

  /** Neither end of `s` is whitespace: what `str.strip()` leaves behind. */
  predicate Stripped(s: string) {
    s == [] || (!IsSpace(s[0]) && !IsSpace(s[|s| - 1]))
  }

  /** `s.lstrip()` */
  function TrimLeft(s: string): string {
    if s != [] && IsSpace(s[0]) then TrimLeft(s[1..]) else s
  }

  /** `s.rstrip()` */
  function TrimRight(s: string): string {
    if s != [] && IsSpace(s[|s| - 1]) then TrimRight(s[..|s| - 1]) else s
  }

  /** `s.strip()` */
  function Strip(s: string): string {
    TrimRight(TrimLeft(s))
  }

  /** lstrip removes exactly the leading whitespace: a suffix of `s` remains. */
  lemma {:induction false} TrimLeftFacts(s: string)
    ensures var r := TrimLeft(s);
            && |r| <= |s| && r == s[|s| - |r|..]
            && (r == [] || !IsSpace(r[0]))
            && forall i :: 0 <= i < |s| - |r| ==> IsSpace(s[i])
  {
    if s != [] && IsSpace(s[0]) {
      var t := s[1..];
      TrimLeftFacts(t);
      assert TrimLeft(s) == TrimLeft(t);
      assert forall i :: 1 <= i < |s| ==> s[i] == t[i - 1];
    }
  }

  /** rstrip removes exactly the trailing whitespace: a prefix of `s` remains. */
  lemma {:induction false} TrimRightFacts(s: string)
    ensures var r := TrimRight(s);
            && |r| <= |s| && r == s[..|r|]
            && (r == [] || !IsSpace(r[|r| - 1]))
            && forall i :: |r| <= i < |s| ==> IsSpace(s[i])
  {
    if s != [] && IsSpace(s[|s| - 1]) {
      var t := s[..|s| - 1];
      TrimRightFacts(t);
      assert TrimRight(s) == TrimRight(t);
    }
  }

  lemma StripIsStripped(s: string)
    ensures Stripped(Strip(s))
  {
    var l := TrimLeft(s);
    var r := TrimRight(l);
    TrimLeftFacts(s);
    TrimRightFacts(l);
    if r != [] {
      assert r[0] == l[0];
    }
  }

  /** Stripping gives the empty string exactly when the input is all whitespace. */
  lemma StripEmptyIffBlank(s: string)
    ensures Strip(s) == [] <==> IsBlank(s)
  {
    var l := TrimLeft(s);
    TrimLeftFacts(s);
    TrimRightFacts(l);
    if l != [] {
      assert l[0] == s[|s| - |l|];
    }
  }

  /** A string that is already stripped is left as it is. */
  lemma StripStripped(s: string)
    requires Stripped(s)
    ensures Strip(s) == s
  {
  }

  /** One whitespace character in front of a stripped non-empty string is removed by strip. */
  lemma StripLeadingSpace(c: char, s: string)
    requires IsSpace(c) && s != [] && Stripped(s)
    ensures Strip([c] + s) == s
  {
    assert ([c] + s)[1..] == s;
    assert TrimLeft([c] + s) == TrimLeft(s) == s;
    StripStripped(s);
  }

  /** `sep.join(parts)` */
  function Join(parts: seq<string>, sep: string): (r: string)
  {
    if |parts| == 0 then ""
    else if |parts| == 1 then parts[0]
    else Join(parts[..|parts| - 1], sep) + sep + parts[|parts| - 1]
  }

  lemma {:induction false} JoinConcat(a: seq<string>, b: seq<string>, sep: string)
    requires a != [] && b != []
    ensures Join(a + b, sep) == Join(a, sep) + sep + Join(b, sep)
  {
    if |b| == 1 {
      assert (a + b)[..|a + b| - 1] == a;
    } else {
      var b' := b[..|b| - 1];
      assert (a + b)[..|a + b| - 1] == a + b';
      JoinConcat(a, b', sep);
    }
  }

  /** Concatenation of a sequence of sequences, in order. */
  function Flatten<T>(xss: seq<seq<T>>): seq<T> {
    if xss == [] then [] else Flatten(xss[..|xss| - 1]) + xss[|xss| - 1]
  }

  lemma {:induction false} FlattenAppend<T>(xss: seq<seq<T>>, yss: seq<seq<T>>)
    ensures Flatten(xss + yss) == Flatten(xss) + Flatten(yss)
  {
    if yss != [] {
      assert (xss + yss)[..|xss + yss| - 1] == xss + yss[..|yss| - 1];
      FlattenAppend(xss, yss[..|yss| - 1]);
    } else {
      assert xss + yss == xss;
    }
  }

  /** Joined strings of non-empty groups: the same as joining the flattened groups. */
  function JoinEach(groups: seq<seq<string>>, sep: string): (r: seq<string>)
    ensures |r| == |groups|
    ensures forall k :: 0 <= k < |r| ==> r[k] == Join(groups[k], sep)
  {
    if groups == [] then [] else JoinEach(groups[..|groups| - 1], sep) + [Join(groups[|groups| - 1], sep)]
  }

  lemma {:induction false} JoinFlatten(groups: seq<seq<string>>, sep: string)
    requires forall k :: 0 <= k < |groups| ==> groups[k] != []
    ensures Join(JoinEach(groups, sep), sep) == Join(Flatten(groups), sep)
  {
    if |groups| > 1 {
      var init := groups[..|groups| - 1];
      var last := groups[|groups| - 1];
      JoinFlatten(init, sep);
      assert JoinEach(groups, sep)[..|groups| - 1] == JoinEach(init, sep);
      FlattenNonEmpty(init);
      JoinConcat(Flatten(init), last, sep);
    } else if |groups| == 1 {
      assert groups[..0] == [];
      assert Flatten(groups) == groups[0];
      assert JoinEach(groups, sep) == [Join(groups[0], sep)];
    }
  }

  lemma {:induction false} FlattenNonEmpty<T>(xss: seq<seq<T>>)
    requires xss != [] && forall k :: 0 <= k < |xss| ==> xss[k] != []
    ensures Flatten(xss) != []
  {
    assert |Flatten(xss)| >= |xss[|xss| - 1]|;
  }

  /** Joining non-empty stripped strings gives a non-empty stripped string. */
  lemma {:induction false} JoinStripped(parts: seq<string>, sep: string)
    requires parts != []
    requires forall k :: 0 <= k < |parts| ==> parts[k] != [] && Stripped(parts[k])
    ensures Join(parts, sep) != [] && Stripped(Join(parts, sep))
    ensures Join(parts, sep)[0] == parts[0][0]
  {
    if |parts| > 1 {
      JoinStripped(parts[..|parts| - 1], sep);
    }
  }

  /** Python's `t in s` for strings. */
  predicate IsSubstring(t: string, s: string)
    decreases |s|
  {
    t <= s || (s != [] && IsSubstring(t, s[1..]))
  }

  lemma {:induction false} SubstringIsShorter(t: string, s: string)
    requires IsSubstring(t, s)
    ensures |t| <= |s|
    decreases |s|
  {
    if !(t <= s) {
      SubstringIsShorter(t, s[1..]);
    }
  }

  /** `t` occurs in `s` when it is the slice of `s` at some offset `j`. */
  lemma {:induction false} SubstringAt(t: string, s: string, j: nat)
    requires j + |t| <= |s| && s[j..j + |t|] == t
    ensures IsSubstring(t, s)
    decreases j
  {
    if j == 0 {
      assert t <= s;
    } else {
      assert s[1..][j - 1..j - 1 + |t|] == s[j..j + |t|];
      SubstringAt(t, s[1..], j - 1);
    }
  }

  /** Where `t` occurs in `s`. */
  lemma {:induction false} SubstringOffset(t: string, s: string) returns (j: nat)
    requires IsSubstring(t, s)
    ensures j + |t| <= |s| && s[j..j + |t|] == t
    decreases |s|
  {
    if t <= s {
      j := 0;
    } else {
      var j' := SubstringOffset(t, s[1..]);
      j := j' + 1;
      assert s[j..j + |t|] == s[1..][j'..j' + |t|];
    }
  }

  /** Text around an occurrence does not hide it. */
  lemma SubstringWithin(t: string, m: string, a: string, b: string)
    requires IsSubstring(t, m)
    ensures IsSubstring(t, a + m + b)
  {
    var j := SubstringOffset(t, m);
    assert (a + m + b)[|a| + j..|a| + j + |t|] == m[j..j + |t|];
    SubstringAt(t, a + m + b, |a| + j);
  }

  /** `s.strip()` occurs in `s`. */
  lemma StripInside(s: string)
    ensures IsSubstring(Strip(s), s)
  {
    var l := TrimLeft(s);
    var r := TrimRight(l);
    TrimLeftFacts(s);
    TrimRightFacts(l);
    assert s[|s| - |l|..|s| - |l| + |r|] == r;
    SubstringAt(r, s, |s| - |l|);
  }

  /** `s.lstrip()` keeps an occurrence of a text that does not start with whitespace. */
  lemma TrimLeftKeepsSubstring(t: string, s: string)
    requires t != [] && !IsSpace(t[0]) && IsSubstring(t, s)
    ensures IsSubstring(t, TrimLeft(s))
  {
    var j := SubstringOffset(t, s);
    var l := TrimLeft(s);
    TrimLeftFacts(s);
    var d := |s| - |l|;
    assert s[j] == t[0] by {
      assert s[j..j + |t|][0] == s[j];
    }
    assert d <= j;
    assert l[j - d..j - d + |t|] == t by {
      assert l == s[d..];
      assert l[j - d..j - d + |t|] == s[j..j + |t|];
    }
    SubstringAt(t, l, j - d);
  }

  /** `s.rstrip()` keeps an occurrence of a text that does not end with whitespace. */
  lemma TrimRightKeepsSubstring(t: string, s: string)
    requires t != [] && !IsSpace(t[|t| - 1]) && IsSubstring(t, s)
    ensures IsSubstring(t, TrimRight(s))
  {
    var j := SubstringOffset(t, s);
    var r := TrimRight(s);
    TrimRightFacts(s);
    assert s[j + |t| - 1] == t[|t| - 1] by {
      assert s[j..j + |t|][|t| - 1] == s[j + |t| - 1];
    }
    assert j + |t| <= |r|;
    assert r[j..j + |t|] == t by {
      assert r == s[..|r|];
    }
    SubstringAt(t, r, j);
  }

  /**
   * Stripping keeps every occurrence of a non-empty stripped text: the
   * whitespace it removes cannot reach into it.
   */
  lemma StripKeepsSubstring(t: string, s: string)
    requires t != [] && Stripped(t) && IsSubstring(t, s)
    ensures IsSubstring(t, Strip(s))
  {
    TrimLeftKeepsSubstring(t, s);
    TrimRightKeepsSubstring(t, TrimLeft(s));
  }

  /** How Python normalises one bound of a slice `s[i:j]` for a sequence of length n. */
  function SliceBound(n: nat, k: int): (b: nat)
    ensures b <= n
    ensures 0 <= k <= n ==> b == k
  {
    if k < 0 then (if k + n < 0 then 0 else k + n) else if k > n then n else k
  }

  /** Python's `s[i:j]`, negative bounds counting from the end. */
  function PySlice(s: string, i: int, j: int): string {
    var a := SliceBound(|s|, i);
    var b := SliceBound(|s|, j);
    if a < b then s[a..b] else []
  }

  function AsciiLowerChar(c: char): (d: char) {
    if 'A' <= c <= 'Z' then (c as int + 32) as char else c
  }

  /** `s.lower()` on ASCII letters; every other character is kept. */
  function AsciiLower(s: string): (r: string)
    ensures |r| == |s|
    ensures forall i :: 0 <= i < |s| ==> r[i] == AsciiLowerChar(s[i])
  {
    seq(|s|, i requires 0 <= i < |s| => AsciiLowerChar(s[i]))
  }
}
