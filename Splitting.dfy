/**
 * The two `re.split` calls of the semantic chunker, written out: the text is
 * scanned from the left, each leftmost match of the separator pattern cuts
 * the text, and scanning resumes after the match. Neither pattern can match
 * the empty string.
 *   paragraph  `\n\s*\n+`
 *   sentence   `(?<=[.!?])\s+`
 */
module Splitting {
  import opened Wrappers
  import opened Text
  import opened LinePatterns

  datatype Separator = ParagraphBreak | SentenceBreak

  /** The position of the last newline in `s[lo..hi]`, if there is one. */
  function LastNewline(s: string, lo: nat, hi: nat): (r: Option<nat>)
    requires lo <= hi <= |s|
    ensures r.Some? ==> lo <= r.value < hi && s[r.value] == '\n'
    ensures r.Some? ==> forall k :: r.value < k < hi ==> s[k] != '\n'
    ensures r.None? ==> forall k :: lo <= k < hi ==> s[k] != '\n'
    decreases hi - lo
  {
    if lo == hi then None
    else if s[hi - 1] == '\n' then Some(hi - 1)
    else LastNewline(s, lo, hi - 1)
  }

  predicate IsSentenceEnd(c: char) {
    c == '.' || c == '!' || c == '?'
  }

  /**
   * The length of the separator match that starts at `i`, 0 when there is
   * none; `MatchAtMeaning` says which match that is for each pattern.
   */
  function MatchAt(sep: Separator, s: string, i: nat): (m: nat)
    requires i <= |s|
    ensures i + m <= |s|
    ensures m > 0 ==> IsBlank(s[i..i + m])
  {
    match sep
    case ParagraphBreak =>
      if i < |s| && s[i] == '\n' then
        var w := SpaceRun(s, i + 1);
        match LastNewline(s, i + 1, i + 1 + w)
        case None => 0
        case Some(k) =>
          assert forall j :: i <= j < k + 1 ==> IsSpace(s[j]);
          k + 1 - i
      else 0
    case SentenceBreak =>
      if 0 < i < |s| && IsSentenceEnd(s[i - 1]) && IsSpace(s[i]) then
        SpaceRun(s, i)
      else 0
  }

  /**
   * For `\n\s*\n+` the greedy `\s*` gives back characters until `\n+` can
   * match: there is a match at `i` when `s[i]` is a newline and another
   * newline occurs in the whitespace run that follows it, and the match ends
   * at the last newline of that run, so the whitespace left after the match
   * holds no newline. For `(?<=[.!?])\s+` there is a match at `i` when the
   * character before `i` ends a sentence and `s[i]` is whitespace, and the
   * match is the whole whitespace run at `i`.
   */
  lemma MatchAtMeaning(sep: Separator, s: string, i: nat)
    requires i <= |s|
    ensures var m := MatchAt(sep, s, i);
            sep == ParagraphBreak ==>
              (m > 0 <==> i < |s| && s[i] == '\n' && exists k :: i < k <= i + SpaceRun(s, i + 1) && s[k] == '\n')
    ensures var m := MatchAt(sep, s, i);
            sep == ParagraphBreak && m > 0 ==>
              m >= 2 && s[i + m - 1] == '\n'
              && forall k :: i + m <= k < i + m + SpaceRun(s, i + m) ==> s[k] != '\n'
    ensures var m := MatchAt(sep, s, i);
            sep == SentenceBreak ==>
              (m > 0 <==> 0 < i < |s| && IsSentenceEnd(s[i - 1]) && IsSpace(s[i]))
    ensures var m := MatchAt(sep, s, i);
            sep == SentenceBreak && m > 0 ==> i + m == |s| || !IsSpace(s[i + m])
  {
  }

  /** The match length at every position of `s`. */
  function Matches(sep: Separator, s: string): (ms: seq<nat>)
    ensures ValidMatches(s, ms)
  {
    seq(|s|, i requires 0 <= i < |s| => MatchAt(sep, s, i))
  }

  /** Match lengths for `s`: every match stays inside `s` and is whitespace. */
  predicate ValidMatches(s: string, ms: seq<nat>) {
    MatchesInside(s, ms) && forall i :: 0 <= i < |s| && ms[i] > 0 ==> IsBlank(s[i..i + ms[i]])
  }

  /** Match lengths for `s` that stay inside `s`. */
  predicate MatchesInside(s: string, ms: seq<nat>) {
    |ms| == |s| && forall i :: 0 <= i < |s| ==> i + ms[i] <= |s|
  }

  /** The pieces of `s[start..]`, scanning for a separator from position `i` on. */
  function SplitFrom(s: string, ms: seq<nat>, start: nat, i: nat): (pieces: seq<string>)
    requires MatchesInside(s, ms) && start <= i <= |s|
    ensures |pieces| >= 1
    decreases |s| - i
  {
    if i == |s| then [s[start..]]
    else if ms[i] == 0 then SplitFrom(s, ms, start, i + 1)
    else [s[start..i]] + SplitFrom(s, ms, i + ms[i], i + ms[i])
  }

  /** The separator matches that `SplitFrom` cuts out, in order. */
  function SeparatorsFrom(s: string, ms: seq<nat>, start: nat, i: nat): seq<string>
    requires MatchesInside(s, ms) && start <= i <= |s|
    decreases |s| - i
  {
    if i == |s| then []
    else if ms[i] == 0 then SeparatorsFrom(s, ms, start, i + 1)
    else [s[i..i + ms[i]]] + SeparatorsFrom(s, ms, i + ms[i], i + ms[i])
  }

  /** `re.split(pattern, s)` */
  function Split(sep: Separator, s: string): seq<string> {
    SplitFrom(s, Matches(sep, s), 0, 0)
  }

  /** The matches `re.split(pattern, s)` removes. */
  function Separators(sep: Separator, s: string): seq<string> {
    SeparatorsFrom(s, Matches(sep, s), 0, 0)
  }

  /** `pieces[0] + seps[0] + pieces[1] + … + pieces[n - 1]` */
  function Interleave(pieces: seq<string>, seps: seq<string>): string
    requires |pieces| == |seps| + 1
    decreases |seps|
  {
    if seps == [] then pieces[0]
    else pieces[0] + seps[0] + Interleave(pieces[1..], seps[1..])
  }

  /** The pieces of `s[start..]`, put back together with the separators between them, give `s[start..]`. */
  predicate RoundTrips(s: string, ms: seq<nat>, start: nat, i: nat)
    requires MatchesInside(s, ms) && start <= i <= |s|
  {
    |SplitFrom(s, ms, start, i)| == |SeparatorsFrom(s, ms, start, i)| + 1
    && Interleave(SplitFrom(s, ms, start, i), SeparatorsFrom(s, ms, start, i)) == s[start..]
  }

  lemma {:induction false} SplitFromRoundTrip(s: string, ms: seq<nat>, start: nat, i: nat)
    requires MatchesInside(s, ms) && start <= i <= |s|
    ensures RoundTrips(s, ms, start, i)
    decreases |s| - i
  {
    if i < |s| {
      if ms[i] == 0 {
        SplitFromRoundTrip(s, ms, start, i + 1);
      } else {
        SplitFromRoundTrip(s, ms, i + ms[i], i + ms[i]);
        CutRoundTrips(s, ms, start, i);
      }
    }
  }

  /** A cut at `i` keeps the round trip of what follows the match. */
  lemma CutRoundTrips(s: string, ms: seq<nat>, start: nat, i: nat)
    requires MatchesInside(s, ms) && start <= i < |s| && ms[i] > 0
    requires RoundTrips(s, ms, i + ms[i], i + ms[i])
    ensures RoundTrips(s, ms, start, i)
  {
    var m := ms[i];
    InterleaveCons(s[start..i], s[i..i + m], SplitFrom(s, ms, i + m, i + m), SeparatorsFrom(s, ms, i + m, i + m));
    SliceThree(s, start, i, i + m);
  }

  lemma InterleaveCons(piece: string, sep: string, pieces: seq<string>, seps: seq<string>)
    requires |pieces| == |seps| + 1
    ensures Interleave([piece] + pieces, [sep] + seps) == piece + sep + Interleave(pieces, seps)
  {
    assert ([piece] + pieces)[1..] == pieces && ([sep] + seps)[1..] == seps;
  }

  lemma SliceThree(s: string, a: nat, b: nat, c: nat)
    requires a <= b <= c <= |s|
    ensures s[a..] == s[a..b] + s[b..c] + s[c..]
  {
  }

  lemma {:induction false} SeparatorsFromBlank(s: string, ms: seq<nat>, start: nat, i: nat)
    requires ValidMatches(s, ms) && start <= i <= |s|
    ensures forall k :: 0 <= k < |SeparatorsFrom(s, ms, start, i)| ==>
              SeparatorsFrom(s, ms, start, i)[k] != "" && IsBlank(SeparatorsFrom(s, ms, start, i)[k])
    decreases |s| - i
  {
    if i < |s| {
      var m := ms[i];
      if m == 0 {
        SeparatorsFromBlank(s, ms, start, i + 1);
      } else {
        SeparatorsFromBlank(s, ms, i + m, i + m);
      }
    }
  }

  /**
   * Splitting only cuts out separators: the pieces, put back together with
   * the matches between them, give the text again, and every match is a
   * non-empty run of whitespace.
   */
  lemma SplitRoundTrip(sep: Separator, s: string)
    ensures |Split(sep, s)| == |Separators(sep, s)| + 1
    ensures Interleave(Split(sep, s), Separators(sep, s)) == s
    ensures forall k :: 0 <= k < |Separators(sep, s)| ==> Separators(sep, s)[k] != "" && IsBlank(Separators(sep, s)[k])
  {
    SplitFromRoundTrip(s, Matches(sep, s), 0, 0);
    SeparatorsFromBlank(s, Matches(sep, s), 0, 0);
    assert s[0..] == s;
  }

  // ----- Where the text is cut -----

  /** A match cut out of the text: its position and its length. */
  datatype Cut = Cut(at: nat, len: nat)

  /** The cuts `SplitFrom` makes, scanning from position `i` on. */
  function CutsFrom(s: string, ms: seq<nat>, i: nat): seq<Cut>
    requires MatchesInside(s, ms) && i <= |s|
    decreases |s| - i
  {
    if i == |s| then []
    else if ms[i] == 0 then CutsFrom(s, ms, i + 1)
    else [Cut(i, ms[i])] + CutsFrom(s, ms, i + ms[i])
  }

  /** The cuts `re.split(pattern, s)` makes. */
  function Cuts(sep: Separator, s: string): seq<Cut> {
    CutsFrom(s, Matches(sep, s), 0)
  }

  /** Where piece `k` starts: at `start`, or right after the cut before it. */
  function PieceStart(start: nat, cuts: seq<Cut>, k: nat): nat
    requires k <= |cuts|
  {
    if k == 0 then start else cuts[k - 1].at + cuts[k - 1].len
  }

  /** Where piece `k` ends: at the cut after it, or at the end `n` of the text. */
  function PieceEnd(n: nat, cuts: seq<Cut>, k: nat): nat
    requires k <= |cuts|
  {
    if k < |cuts| then cuts[k].at else n
  }

  /** The separator cut out at `c` is a match of length `c.len` starting at `c.at`. */
  predicate SeparatorOk(s: string, ms: seq<nat>, separator: string, c: Cut)
    requires |ms| == |s|
  {
    c.at < |s| && c.at + c.len <= |s| && c.len == ms[c.at] > 0 && separator == s[c.at..c.at + c.len]
  }

  /** The piece is `s[lo..hi]`, and no match starts inside it. */
  predicate PieceOk(s: string, ms: seq<nat>, piece: string, lo: nat, hi: nat)
    requires |ms| == |s|
  {
    lo <= hi <= |s| && piece == s[lo..hi] && forall j :: lo <= j < hi ==> ms[j] == 0
  }

  /** `pieces` and `seps` are the text between the cuts and the text of the cuts. */
  predicate CutsDescribe(s: string, ms: seq<nat>, start: nat, pieces: seq<string>, seps: seq<string>, cuts: seq<Cut>)
    requires |ms| == |s|
  {
    |cuts| == |seps| && |pieces| == |cuts| + 1
    && (forall k :: 0 <= k < |cuts| ==> SeparatorOk(s, ms, seps[k], cuts[k]))
    && (forall k :: 0 <= k < |pieces| ==> PieceOk(s, ms, pieces[k], PieceStart(start, cuts, k), PieceEnd(|s|, cuts, k)))
  }

  lemma {:induction false} CutsFromDescribe(s: string, ms: seq<nat>, start: nat, i: nat)
    requires MatchesInside(s, ms) && start <= i <= |s|
    requires forall j :: start <= j < i ==> ms[j] == 0
    ensures CutsDescribe(s, ms, start, SplitFrom(s, ms, start, i), SeparatorsFrom(s, ms, start, i), CutsFrom(s, ms, i))
    decreases |s| - i
  {
    if i < |s| {
      if ms[i] == 0 {
        CutsFromDescribe(s, ms, start, i + 1);
      } else {
        var e := i + ms[i];
        CutsFromDescribe(s, ms, e, e);
        CutDescribes(s, ms, start, i);
      }
    }
  }

  /** A cut at `i`, in front of what the rest of the scan describes. */
  lemma CutDescribes(s: string, ms: seq<nat>, start: nat, i: nat)
    requires MatchesInside(s, ms) && start <= i < |s| && ms[i] > 0
    requires forall j :: start <= j < i ==> ms[j] == 0
    requires CutsDescribe(s, ms, i + ms[i], SplitFrom(s, ms, i + ms[i], i + ms[i]),
                          SeparatorsFrom(s, ms, i + ms[i], i + ms[i]), CutsFrom(s, ms, i + ms[i]))
    ensures CutsDescribe(s, ms, start, SplitFrom(s, ms, start, i), SeparatorsFrom(s, ms, start, i), CutsFrom(s, ms, i))
  {
    var e := i + ms[i];
    var ps, ss, cs := SplitFrom(s, ms, e, e), SeparatorsFrom(s, ms, e, e), CutsFrom(s, ms, e);
    var c := Cut(i, ms[i]);
    var ps', ss', cs' := [s[start..i]] + ps, [s[i..e]] + ss, [c] + cs;
    assert SplitFrom(s, ms, start, i) == ps';
    assert SeparatorsFrom(s, ms, start, i) == ss';
    assert CutsFrom(s, ms, i) == cs';
    forall k | 0 <= k < |cs'| ensures SeparatorOk(s, ms, ss'[k], cs'[k]) {
      if k > 0 {
        assert ss'[k] == ss[k - 1] && cs'[k] == cs[k - 1];
      }
    }
    forall k | 0 <= k < |ps'|
      ensures PieceOk(s, ms, ps'[k], PieceStart(start, cs', k), PieceEnd(|s|, cs', k))
    {
      if k > 0 {
        assert ps'[k] == ps[k - 1];
        assert PieceStart(start, cs', k) == PieceStart(e, cs, k - 1);
        assert PieceEnd(|s|, cs', k) == PieceEnd(|s|, cs, k - 1);
      }
    }
  }

  /**
   * Where `re.split(pattern, s)` cuts: separator `k` is the match that starts
   * at `Cuts(sep, s)[k].at`, and piece `k` is all of the text between the cut
   * before it (or the start) and the cut after it (or the end), with no match
   * starting anywhere in it. So the text is cut at every leftmost match and
   * nowhere else.
   */
  lemma SplitCutsAtMatches(sep: Separator, s: string)
    ensures |Cuts(sep, s)| == |Separators(sep, s)| && |Split(sep, s)| == |Cuts(sep, s)| + 1
    ensures forall k :: 0 <= k < |Cuts(sep, s)| ==>
              var c := Cuts(sep, s)[k];
              c.at < |s| && c.len == MatchAt(sep, s, c.at) > 0 && Separators(sep, s)[k] == s[c.at..c.at + c.len]
    ensures forall k :: 0 <= k < |Split(sep, s)| ==>
              var lo, hi := PieceStart(0, Cuts(sep, s), k), PieceEnd(|s|, Cuts(sep, s), k);
              lo <= hi <= |s| && Split(sep, s)[k] == s[lo..hi] && forall j :: lo <= j < hi ==> MatchAt(sep, s, j) == 0
  {
    var ms := Matches(sep, s);
    CutsFromDescribe(s, ms, 0, 0);
    forall k | 0 <= k < |Split(sep, s)|
      ensures var lo, hi := PieceStart(0, Cuts(sep, s), k), PieceEnd(|s|, Cuts(sep, s), k);
              forall j :: lo <= j < hi ==> MatchAt(sep, s, j) == 0
    {
      var lo, hi := PieceStart(0, Cuts(sep, s), k), PieceEnd(|s|, Cuts(sep, s), k);
      assert PieceOk(s, ms, Split(sep, s)[k], lo, hi);
      forall j | lo <= j < hi ensures MatchAt(sep, s, j) == 0 {
        assert ms[j] == 0;
      }
    }
  }

  lemma {:induction false} NoMatchNoSplit(s: string, ms: seq<nat>, start: nat, i: nat)
    requires MatchesInside(s, ms) && start <= i <= |s|
    requires forall j :: i <= j < |s| ==> ms[j] == 0
    ensures SplitFrom(s, ms, start, i) == [s[start..]]
    decreases |s| - i
  {
    if i < |s| {
      NoMatchNoSplit(s, ms, start, i + 1);
    }
  }

  /** A text without a newline is one paragraph. */
  lemma SingleLineIsOneParagraph(s: string)
    requires forall j :: 0 <= j < |s| ==> s[j] != '\n'
    ensures Split(ParagraphBreak, s) == [s]
  {
    var ms := Matches(ParagraphBreak, s);
    forall j | 0 <= j < |s| ensures ms[j] == 0 {
      assert ms[j] == MatchAt(ParagraphBreak, s, j);
    }
    NoMatchNoSplit(s, ms, 0, 0);
    assert s[0..] == s;
  }

  /** A text with no whitespace after a `.`, `!` or `?` is one sentence. */
  lemma UnbrokenTextIsOneSentence(s: string)
    requires forall j :: 0 < j < |s| && IsSentenceEnd(s[j - 1]) ==> !IsSpace(s[j])
    ensures Split(SentenceBreak, s) == [s]
  {
    var ms := Matches(SentenceBreak, s);
    forall j | 0 <= j < |s| ensures ms[j] == 0 {
      assert ms[j] == MatchAt(SentenceBreak, s, j);
    }
    NoMatchNoSplit(s, ms, 0, 0);
    assert s[0..] == s;
  }
}
