/**
 * The three line classifiers of the segmenter, written out as string
 * predicates. Each is applied with `re.match`, so it is anchored at the start
 * of the line:
 *   header     `#{1,6}\s+` or `[A-Z][A-Za-z0-9\s]{2,50}:$`
 *   list item  `\s*(\d+\.|-|\*)\s+`
 *   table row  `\|.*\|`
 */
module LinePatterns {
  import opened Text

  /** Number of `#` characters at the start of `line`. */
  function HashRun(line: string): (n: nat)
    ensures n <= |line|
    ensures forall k :: 0 <= k < n ==> line[k] == '#'
    ensures n == |line| || line[n] != '#'
  {
    if line != [] && line[0] == '#' then 1 + HashRun(line[1..]) else 0
  }

  /** Number of whitespace characters in `line` from position `i` on. */
  function SpaceRun(line: string, i: nat): (n: nat)
    requires i <= |line|
    ensures i + n <= |line|
    ensures forall k :: i <= k < i + n ==> IsSpace(line[k])
    ensures i + n == |line| || !IsSpace(line[i + n])
    decreases |line| - i
  {
    if i < |line| && IsSpace(line[i]) then 1 + SpaceRun(line, i + 1) else 0
  }

  /** Number of ASCII digits in `line` from position `i` on. */
  function DigitRun(line: string, i: nat): (n: nat)
    requires i <= |line|
    ensures i + n <= |line|
    ensures forall k :: i <= k < i + n ==> IsAsciiDigit(line[k])
    ensures i + n == |line| || !IsAsciiDigit(line[i + n])
    decreases |line| - i
  {
    if i < |line| && IsAsciiDigit(line[i]) then 1 + DigitRun(line, i + 1) else 0
  }

  /**
   * `#{1,6}\s+`: the greedy `#{1,6}` can only be followed by whitespace when
   * the whole run of leading `#` has at most six characters.
   */
  predicate IsHashHeader(line: string) {
    var n := HashRun(line);
    1 <= n <= 6 && n < |line| && IsSpace(line[n])
  }

  predicate IsLabelChar(c: char) {
    IsAsciiLetter(c) || IsAsciiDigit(c) || IsSpace(c)
  }

  /** `[A-Z][A-Za-z0-9\s]{2,50}:` with the colon at position `k`. */
  predicate LabelColonAt(line: string, k: int) {
    3 <= k <= 51 && k < |line| && IsAsciiUpper(line[0]) && line[k] == ':'
    && forall i :: 1 <= i < k ==> IsLabelChar(line[i])
  }

  /**
   * `[A-Z][A-Za-z0-9\s]{2,50}:$`; since `:` is not a label character the colon
   * is the first character after the label, and `$` matches at the end of the
   * line or just before a final newline.
   */
  predicate IsLabelHeader(line: string) {
    LabelColonAt(line, |line| - 1)
    || (|line| >= 2 && line[|line| - 1] == '\n' && LabelColonAt(line, |line| - 2))
  }

  /** `HEADER_REGEX.match(line)` */
  predicate IsHeader(line: string) {
    IsHashHeader(line) || IsLabelHeader(line)
  }

  /**
   * `LIST_ITEM_REGEX.match(line)`: the markers are not whitespace, so `\s*`
   * takes the whole leading run, and `\d+` the whole run of digits.
   */
  predicate IsListItem(line: string) {
    var i := SpaceRun(line, 0);
    i < |line| &&
    (((line[i] == '-' || line[i] == '*') && i + 1 < |line| && IsSpace(line[i + 1]))
     || (var d := DigitRun(line, i);
         d > 0 && i + d + 1 < |line| && line[i + d] == '.' && IsSpace(line[i + d + 1])))
  }

  /** A second `|` at or after position `i`, with no newline before it (`.` does not match a newline). */
  predicate ClosingPipe(line: string, i: nat)
    decreases |line| - i
  {
    i < |line| && (line[i] == '|' || (line[i] != '\n' && ClosingPipe(line, i + 1)))
  }

  /** `TABLE_ROW_REGEX.match(line)`: the row must begin with `|`. */
  predicate IsTableRow(line: string) {
    |line| >= 1 && line[0] == '|' && ClosingPipe(line, 1)
  }

  /** The text a header leaves as the section name starts with `#` or ends with `:`. */
  predicate IsHeaderTitle(t: string) {
    t != [] && (t[0] == '#' || t[|t| - 1] == ':')
  }

  lemma HeaderTitle(line: string)
    requires IsHeader(line)
    ensures IsHeaderTitle(Strip(line))
  {
    var l := TrimLeft(line);
    var r := TrimRight(l);
    TrimRightFacts(l);
    assert !IsSpace(line[0]);
    assert l == line;
    if IsHashHeader(line) {
      assert r != [] && r[0] == '#';
    } else if LabelColonAt(line, |line| - 1) {
      assert r == line;
    } else {
      assert TrimRight(line[..|line| - 1]) == line[..|line| - 1];
    }
  }

  /** A line that is a header, a list item or a table row is never blank. */
  lemma ClassifiedLineNotBlank(line: string)
    requires IsHeader(line) || IsListItem(line) || IsTableRow(line)
    ensures !IsBlank(line)
  {
    if IsListItem(line) {
      assert !IsSpace(line[SpaceRun(line, 0)]);
    } else {
      assert !IsSpace(line[0]);
    }
  }
}
