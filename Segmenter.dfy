/**
 * `structural_units`: turns pages (each already split into lines) into
 * `(text, page, section)` units. A paragraph buffer collects the lines of a
 * page; only a header line or the end of the page closes it, and the running
 * section survives from one page to the next.
 *
 * Each line is first classified by the tests of the source's `if` chain (see
 * `KindOf`); the fold that builds the units, and the lemmas about it, read
 * only the classified lines.
 */
module Segmenter {
  import opened Wrappers
  import opened Text
  import opened LinePatterns

  /** A structural unit; pages are numbered from 1. */
  datatype Unit = Unit(text: string, page: nat, section: Option<string>)

  /** Which branch of the segmenter's `if` chain a line takes. */
  datatype LineKind = Header | Structured | Blank | Prose

  datatype Line = Line(text: string, kind: LineKind)

  /** The first of the source's tests that the line passes. */
  function KindOf(line: string): LineKind {
    if IsHeader(line) then Header
    else if IsListItem(line) || IsTableRow(line) then Structured
    else if Strip(line) == "" then Blank
    else Prose
  }

  function Classify(lines: seq<string>): (r: seq<Line>)
    ensures |r| == |lines|
    ensures forall i :: 0 <= i < |lines| ==> r[i] == Line(lines[i], KindOf(lines[i]))
  {
    seq(|lines|, i requires 0 <= i < |lines| => Line(lines[i], KindOf(lines[i])))
  }

  function ClassifyPages(pages: seq<seq<string>>): (r: seq<seq<Line>>)
    ensures |r| == |pages|
    ensures forall p :: 0 <= p < |pages| ==> r[p] == Classify(pages[p])
  {
    seq(|pages|, p requires 0 <= p < |pages| => Classify(pages[p]))
  }

  /** A blank line (all whitespace, or empty) takes the blank branch. */
  lemma BlankLineKind(line: string)
    requires IsBlank(line)
    ensures KindOf(line) == Blank
  {
    if IsHeader(line) || IsListItem(line) || IsTableRow(line) {
      ClassifiedLineNotBlank(line);
    }
    StripEmptyIffBlank(line);
  }

  /** A header line leaves a section name that starts with `#` or ends with `:`. */
  lemma HeaderKindTitle(line: string)
    requires KindOf(line) == Header
    ensures IsHeaderTitle(Strip(line))
  {
    HeaderTitle(line);
  }

  /** The loop's state: the units so far, the paragraph buffer and `current_section`. */
  datatype State = State(units: seq<Unit>, buffer: string, section: Option<string>)

  /** What a line that is not a header appends to the buffer. */
  function Contribution(line: Line): string {
    if line.kind == Structured then line.text + "\n"
    else if line.kind == Blank then "\n"
    else line.text + " "
  }

  /** The units once the buffer is closed: it becomes a unit if it holds more than whitespace. */
  function Flush(st: State, page: nat): seq<Unit> {
    if Strip(st.buffer) != "" then st.units + [Unit(Strip(st.buffer), page, st.section)] else st.units
  }

  /** One line of the inner loop. */
  function Feed(st: State, line: Line, page: nat): State {
    if line.kind == Header then
      State(Flush(st, page), (if Strip(st.buffer) != "" then "" else st.buffer) + line.text + "\n", Some(Strip(line.text)))
    else
      State(st.units, st.buffer + Contribution(line), st.section)
  }

  function FeedLines(st: State, lines: seq<Line>, page: nat): State
    decreases |lines|
  {
    if lines == [] then st
    else Feed(FeedLines(st, lines[..|lines| - 1], page), lines[|lines| - 1], page)
  }

  /** The end of a page flushes a buffer that holds more than whitespace. */
  function ClosePage(st: State, page: nat): State {
    State(Flush(st, page), "", st.section)
  }

  /** The state once every page has been processed; the buffer is reset per page, the section is not. */
  function Run(pages: seq<seq<Line>>): State
    decreases |pages|
  {
    if pages == [] then State([], "", None)
    else
      var n := |pages|;
      var st := Run(pages[..n - 1]);
      ClosePage(FeedLines(State(st.units, "", st.section), pages[n - 1], n), n)
  }

  /** The units `structural_units(pages)` returns. */
  function Segment(pages: seq<seq<string>>): seq<Unit> {
    Run(ClassifyPages(pages)).units
  }

  /** The state when page `p` (0-based) begins. */
  function PageStart(pages: seq<seq<Line>>, p: nat): State
    requires p <= |pages|
  {
    var st := Run(pages[..p]);
    State(st.units, "", st.section)
  }

  /** The state just before line `i` of page `p` is read. */
  function BeforeLine(pages: seq<seq<Line>>, p: nat, i: nat): State
    requires p < |pages| && i <= |pages[p]|
  {
    FeedLines(PageStart(pages, p), pages[p][..i], p + 1)
  }

  /** The stripped text of the last header line of `lines`, if there is one. */
  function LastHeader(lines: seq<Line>): Option<string>
    decreases |lines|
  {
    if lines == [] then None
    else if lines[|lines| - 1].kind == Header then Some(Strip(lines[|lines| - 1].text))
    else LastHeader(lines[..|lines| - 1])
  }

  /** The buffer text that a run of non-header lines contributes. */
  function Contributions(lines: seq<Line>): string
    decreases |lines|
  {
    if lines == [] then "" else Contributions(lines[..|lines| - 1]) + Contribution(lines[|lines| - 1])
  }

  /** Every unit has stripped, non-empty text and a page in 1..lastPage, and pages never decrease. */
  predicate UnitsWellFormed(units: seq<Unit>, lastPage: nat) {
    (forall k :: 0 <= k < |units| ==>
       units[k].text != "" && Stripped(units[k].text) && 1 <= units[k].page <= lastPage)
    && (forall k, l :: 0 <= k < l < |units| ==> units[k].page <= units[l].page)
  }

  method StructuralUnits(pages: seq<seq<string>>) returns (units: seq<Unit>)
    ensures units == Segment(pages)
    ensures pages == [] ==> units == []
    ensures UnitsWellFormed(units, |pages|)
    ensures forall p, i :: 0 <= p < |pages| && 0 <= i < |pages[p]| && !IsBlank(pages[p][i]) ==>
              UnitOf(pages, p, i) < |units| && units[UnitOf(pages, p, i)].page == p + 1
              && IsSubstring(Strip(pages[p][i]), units[UnitOf(pages, p, i)].text)
  {
    ghost var cp := ClassifyPages(pages);
    units := [];
    var currentSection: Option<string> := None;
    var p := 0;
    while p < |pages|
      invariant p <= |pages|
      invariant Run(cp[..p]) == State(units, "", currentSection)
    {
      RunStep(cp, p);
      units, currentSection := ReadPage(units, currentSection, pages[p], p + 1);
      p := p + 1;
    }
    assert cp[..p] == cp;
    SegmentWellFormed(pages);
    forall p, i | 0 <= p < |pages| && 0 <= i < |pages[p]| && !IsBlank(pages[p][i])
      ensures UnitOf(pages, p, i) < |units| && units[UnitOf(pages, p, i)].page == p + 1
              && IsSubstring(Strip(pages[p][i]), units[UnitOf(pages, p, i)].text)
    {
      SegmentKeepsLines(pages, p, i);
    }
  }

  /** The body of the page loop: the buffer starts empty, every line is read, and the end of the page flushes. */
  method ReadPage(units0: seq<Unit>, section0: Option<string>, lines: seq<string>, page: nat)
    returns (units: seq<Unit>, currentSection: Option<string>)
    ensures State(units, "", currentSection) == ClosePage(FeedLines(State(units0, "", section0), Classify(lines), page), page)
  {
    ghost var cl := Classify(lines);
    ghost var start := State(units0, "", section0);
    units, currentSection := units0, section0;
    var buffer := "";
    var i := 0;
    while i < |lines|
      invariant i <= |lines|
      invariant FeedLines(start, cl[..i], page) == State(units, buffer, currentSection)
    {
      var line := lines[i];
      assert cl[i] == Line(line, KindOf(line));
      FeedLinesStep(start, cl, i, page);
      FeedCases(State(units, buffer, currentSection), line, page);
      if IsHeader(line) {
        if Strip(buffer) != "" {
          units := units + [Unit(Strip(buffer), page, currentSection)];
          buffer := "";
        }
        currentSection := Some(Strip(line));
        buffer := buffer + line + "\n";
      } else if IsListItem(line) || IsTableRow(line) {
        buffer := buffer + line + "\n";
      } else if Strip(line) == "" {
        buffer := buffer + "\n";
      } else {
        buffer := buffer + line + " ";
      }
      i := i + 1;
    }
    if Strip(buffer) != "" {
      units := units + [Unit(Strip(buffer), page, currentSection)];
    }
    assert cl[..i] == cl;
  }

  lemma RunStep(pages: seq<seq<Line>>, p: nat)
    requires p < |pages|
    ensures Run(pages[..p + 1]) == ClosePage(FeedLines(PageStart(pages, p), pages[p], p + 1), p + 1)
    ensures Run(pages[..p + 1]).buffer == ""
  {
    assert pages[..p + 1][..p] == pages[..p];
  }

  /** `Feed` on a line as read, case by case in the order of the source's tests. */
  lemma FeedCases(st: State, line: string, page: nat)
    ensures var next := Feed(st, Line(line, KindOf(line)), page);
            && (IsHeader(line) ==>
                  next == State(Flush(st, page), (if Strip(st.buffer) != "" then "" else st.buffer) + line + "\n",
                                Some(Strip(line))))
            && (!IsHeader(line) && (IsListItem(line) || IsTableRow(line)) ==>
                  next == State(st.units, st.buffer + line + "\n", st.section))
            && (!IsHeader(line) && !(IsListItem(line) || IsTableRow(line)) && Strip(line) == "" ==>
                  next == State(st.units, st.buffer + "\n", st.section))
            && (!IsHeader(line) && !(IsListItem(line) || IsTableRow(line)) && Strip(line) != "" ==>
                  next == State(st.units, st.buffer + line + " ", st.section))
  {
  }

  lemma FeedLinesStep(st: State, lines: seq<Line>, i: nat, page: nat)
    requires i < |lines|
    ensures FeedLines(st, lines[..i + 1], page) == Feed(FeedLines(st, lines[..i], page), lines[i], page)
  {
    assert lines[..i + 1][..i] == lines[..i];
  }

  // ----- Well-formedness of the units -----

  lemma FlushWellFormed(st: State, page: nat)
    requires 1 <= page && UnitsWellFormed(st.units, page)
    ensures UnitsWellFormed(Flush(st, page), page)
  {
    StripIsStripped(st.buffer);
  }

  lemma {:induction false} FeedLinesWellFormed(st: State, lines: seq<Line>, page: nat)
    requires 1 <= page && UnitsWellFormed(st.units, page)
    ensures UnitsWellFormed(FeedLines(st, lines, page).units, page)
    decreases |lines|
  {
    if lines != [] {
      var prev := FeedLines(st, lines[..|lines| - 1], page);
      FeedLinesWellFormed(st, lines[..|lines| - 1], page);
      FlushWellFormed(prev, page);
    }
  }

  /** Units of earlier pages stay well formed when the page bound grows. */
  lemma WellFormedMonotone(units: seq<Unit>, page: nat, page': nat)
    requires UnitsWellFormed(units, page) && page <= page'
    ensures UnitsWellFormed(units, page')
  {
  }

  lemma {:induction false} RunWellFormed(pages: seq<seq<Line>>)
    ensures UnitsWellFormed(Run(pages).units, |pages|)
    decreases |pages|
  {
    if pages != [] {
      var n := |pages|;
      var st := Run(pages[..n - 1]);
      RunWellFormed(pages[..n - 1]);
      WellFormedMonotone(st.units, n - 1, n);
      var fed := FeedLines(State(st.units, "", st.section), pages[n - 1], n);
      FeedLinesWellFormed(State(st.units, "", st.section), pages[n - 1], n);
      FlushWellFormed(fed, n);
    }
  }

  /**
   * An empty page list gives no units; every unit's text is stripped and
   * non-empty, its page lies in 1..|pages|, and pages never decrease.
   */
  lemma SegmentWellFormed(pages: seq<seq<string>>)
    ensures pages == [] ==> Segment(pages) == []
    ensures UnitsWellFormed(Segment(pages), |pages|)
  {
    RunWellFormed(ClassifyPages(pages));
  }

  // ----- Sections -----

  lemma {:induction false} LastHeaderConcat(a: seq<Line>, b: seq<Line>)
    ensures LastHeader(a + b) == if LastHeader(b).Some? then LastHeader(b) else LastHeader(a)
    decreases |b|
  {
    if b == [] {
      assert a + b == a;
    } else {
      assert (a + b)[..|a + b| - 1] == a + b[..|b| - 1];
      LastHeaderConcat(a, b[..|b| - 1]);
    }
  }

  lemma {:induction false} FeedLinesSection(st: State, lines: seq<Line>, page: nat)
    ensures FeedLines(st, lines, page).section
            == if LastHeader(lines).Some? then LastHeader(lines) else st.section
    decreases |lines|
  {
    if lines != [] {
      FeedLinesSection(st, lines[..|lines| - 1], page);
    }
  }

  /**
   * `current_section` carries over from page to page: after any number of
   * pages it is the stripped text of the last header line read so far, on
   * whatever page that was, and None when no header has been read.
   */
  lemma {:induction false} SectionCarriesAcrossPages(pages: seq<seq<Line>>)
    ensures Run(pages).section == LastHeader(Flatten(pages))
    decreases |pages|
  {
    if pages != [] {
      var n := |pages|;
      var init := pages[..n - 1];
      var st := Run(init);
      SectionCarriesAcrossPages(init);
      var fed := FeedLines(State(st.units, "", st.section), pages[n - 1], n);
      FeedLinesSection(State(st.units, "", st.section), pages[n - 1], n);
      assert Run(pages).section == fed.section;
      assert Flatten(pages) == Flatten(init) + pages[n - 1];
      LastHeaderConcat(Flatten(init), pages[n - 1]);
    }
  }

  /** Before line `i` of page `p`, the section is that of the last header line above it. */
  lemma SectionBeforeLine(pages: seq<seq<Line>>, p: nat, i: nat)
    requires p < |pages| && i <= |pages[p]|
    ensures BeforeLine(pages, p, i).section == LastHeader(Flatten(pages[..p]) + pages[p][..i])
  {
    SectionCarriesAcrossPages(pages[..p]);
    FeedLinesSection(PageStart(pages, p), pages[p][..i], p + 1);
    LastHeaderConcat(Flatten(pages[..p]), pages[p][..i]);
  }

  /**
   * A header line closes the buffer when it holds more than whitespace; the
   * closed unit keeps the section in force before the header (the last header
   * above it), and the header line itself becomes the start of the next
   * buffer and the new section; it is not a unit of its own.
   */
  lemma HeaderClosesUnit(pages: seq<seq<Line>>, p: nat, i: nat)
    requires p < |pages| && i < |pages[p]| && pages[p][i].kind == Header
    ensures var before := BeforeLine(pages, p, i);
            var after := BeforeLine(pages, p, i + 1);
            var line := pages[p][i].text;
            && after.section == Some(Strip(line))
            && (Strip(before.buffer) != "" ==>
                  after.units == before.units + [Unit(Strip(before.buffer), p + 1,
                                                      LastHeader(Flatten(pages[..p]) + pages[p][..i]))]
                  && after.buffer == line + "\n")
            && (Strip(before.buffer) == "" ==>
                  after.units == before.units && after.buffer == before.buffer + line + "\n")
  {
    FeedLinesStep(PageStart(pages, p), pages[p], i, p + 1);
    SectionBeforeLine(pages, p, i);
  }

  /** Feeding lines none of which is a header only appends their contributions. */
  lemma {:induction false} FeedNonHeaders(st: State, lines: seq<Line>, page: nat)
    requires forall k :: 0 <= k < |lines| ==> lines[k].kind != Header
    ensures FeedLines(st, lines, page) == State(st.units, st.buffer + Contributions(lines), st.section)
    decreases |lines|
  {
    if lines != [] {
      var init, last := lines[..|lines| - 1], lines[|lines| - 1];
      assert forall k :: 0 <= k < |init| ==> init[k] == lines[k];
      FeedNonHeaders(st, init, page);
      var prev := FeedLines(st, init, page);
      assert FeedLines(st, lines, page) == Feed(prev, last, page);
      assert Contributions(lines) == Contributions(init) + Contribution(last);
      assert prev.buffer + Contribution(last) == st.buffer + Contributions(lines);
    }
  }

  lemma FeedLinesAppend(st: State, a: seq<Line>, b: seq<Line>, page: nat)
    ensures FeedLines(st, a + b, page) == FeedLines(FeedLines(st, a, page), b, page)
    decreases |b|
  {
    if b != [] {
      assert (a + b)[..|a + b| - 1] == a + b[..|b| - 1];
      FeedLinesAppend(st, a, b[..|b| - 1], page);
    } else {
      assert a + b == a;
    }
  }

  /**
   * Lines that are not headers never close a unit: they leave the units and
   * the section alone and only append to the buffer (a blank line "\n", a list
   * item or table row the line and "\n", prose the line and " ").
   */
  lemma OnlyHeadersClose(pages: seq<seq<Line>>, p: nat, i: nat, j: nat)
    requires p < |pages| && i <= j <= |pages[p]|
    requires forall k :: i <= k < j ==> pages[p][k].kind != Header
    ensures BeforeLine(pages, p, j).units == BeforeLine(pages, p, i).units
    ensures BeforeLine(pages, p, j).section == BeforeLine(pages, p, i).section
    ensures BeforeLine(pages, p, j).buffer == BeforeLine(pages, p, i).buffer + Contributions(pages[p][i..j])
  {
    var lines := pages[p];
    assert lines[..j] == lines[..i] + lines[i..j];
    FeedLinesAppend(PageStart(pages, p), lines[..i], lines[i..j], p + 1);
    FeedNonHeaders(BeforeLine(pages, p, i), lines[i..j], p + 1);
  }

  /**
   * The unit a header line opens is named after that header: until the next
   * header on the page (or the end of the page), the section is the header's
   * stripped text, so whichever of the two closes the buffer tags its unit with it.
   */
  lemma HeaderNamesItsUnit(pages: seq<seq<Line>>, p: nat, i: nat, j: nat)
    requires p < |pages| && i < j <= |pages[p]| && pages[p][i].kind == Header
    requires forall k :: i < k < j ==> pages[p][k].kind != Header
    ensures BeforeLine(pages, p, j).section == Some(Strip(pages[p][i].text))
  {
    HeaderClosesUnit(pages, p, i);
    OnlyHeadersClose(pages, p, i + 1, j);
  }

  /**
   * The end of page `p` closes the buffer when it holds more than whitespace,
   * tagging the unit with page p + 1 and the last header read so far.
   */
  lemma PageEndClosesUnit(pages: seq<seq<Line>>, p: nat)
    requires p < |pages|
    ensures var last := BeforeLine(pages, p, |pages[p]|);
            Run(pages[..p + 1]).units
            == last.units + (if Strip(last.buffer) != "" then
                               [Unit(Strip(last.buffer), p + 1, LastHeader(Flatten(pages[..p + 1])))]
                             else [])
  {
    RunStep(pages, p);
    assert pages[p][..|pages[p]|] == pages[p];
    SectionBeforeLine(pages, p, |pages[p]|);
    assert pages[..p + 1][..p] == pages[..p];
    assert Flatten(pages[..p + 1]) == Flatten(pages[..p]) + pages[p];
  }

  lemma {:induction false} BlankContributions(lines: seq<Line>)
    requires forall k :: 0 <= k < |lines| ==> lines[k].kind == Blank
    ensures IsBlank(Contributions(lines))
    decreases |lines|
  {
    if lines != [] {
      BlankContributions(lines[..|lines| - 1]);
    }
  }

  /** A page whose lines are all blank adds no unit and keeps the section (blank lines never flush). */
  lemma BlankPageAddsNoUnit(pages: seq<seq<Line>>, p: nat)
    requires p < |pages|
    requires forall k :: 0 <= k < |pages[p]| ==> pages[p][k].kind == Blank
    ensures Run(pages[..p + 1]).units == Run(pages[..p]).units
    ensures Run(pages[..p + 1]).section == Run(pages[..p]).section
  {
    var lines := pages[p];
    BlankContributions(lines);
    FeedNonHeaders(PageStart(pages, p), lines, p + 1);
    RunStep(pages, p);
    StripEmptyIffBlank(Contributions(lines));
    assert "" + Contributions(lines) == Contributions(lines);
  }

  /** The same for pages as read: a page of blank lines produces no unit. */
  lemma BlankPageProducesNoUnit(pages: seq<seq<string>>, p: nat)
    requires p < |pages|
    requires forall k :: 0 <= k < |pages[p]| ==> IsBlank(pages[p][k])
    ensures Segment(pages[..p + 1]) == Segment(pages[..p])
  {
    var cp: seq<seq<Line>> := ClassifyPages(pages);
    forall k | 0 <= k < |cp[p]| ensures cp[p][k].kind == Blank {
      BlankLineKind(pages[p][k]);
    }
    BlankPageAddsNoUnit(cp, p);
    assert ClassifyPages(pages[..p + 1]) == cp[..p + 1];
    assert ClassifyPages(pages[..p]) == cp[..p];
  }

  // ----- Every non-blank line is kept, in order -----

  /**
   * The text `x` ends up in unit `k` of `page`: it is still in the buffer and
   * `k` is the next unit to be closed, or unit `k` already holds it.
   */
  predicate Keeps(st: State, x: string, k: nat, page: nat) {
    (k == |st.units| && IsSubstring(x, st.buffer))
    || (k < |st.units| && st.units[k].page == page && IsSubstring(x, st.units[k].text))
  }

  /** A line never takes back what the buffer or the units hold. */
  lemma FeedKeeps(st: State, line: Line, page: nat, x: string, k: nat)
    requires x != "" && Stripped(x) && Keeps(st, x, k, page)
    ensures Keeps(Feed(st, line, page), x, k, page)
  {
    if k == |st.units| {
      StripKeepsSubstring(x, st.buffer);
      SubstringIsShorter(x, Strip(st.buffer));
      if line.kind != Header {
        SubstringWithin(x, st.buffer, "", Contribution(line));
        assert "" + st.buffer + Contribution(line) == st.buffer + Contribution(line);
      }
    }
  }

  lemma {:induction false} FeedLinesKeeps(st: State, lines: seq<Line>, page: nat, x: string, k: nat)
    requires x != "" && Stripped(x) && Keeps(st, x, k, page)
    ensures Keeps(FeedLines(st, lines, page), x, k, page)
    decreases |lines|
  {
    if lines != [] {
      FeedLinesKeeps(st, lines[..|lines| - 1], page, x, k);
      FeedKeeps(FeedLines(st, lines[..|lines| - 1], page), lines[|lines| - 1], page, x, k);
    }
  }

  /** The end of the page closes the buffer, so what it holds is in a unit of that page. */
  lemma ClosePageKeeps(st: State, page: nat, x: string, k: nat)
    requires x != "" && Stripped(x) && Keeps(st, x, k, page)
    ensures k < |ClosePage(st, page).units|
    ensures ClosePage(st, page).units[k].page == page && IsSubstring(x, ClosePage(st, page).units[k].text)
  {
    if k == |st.units| {
      StripKeepsSubstring(x, st.buffer);
      SubstringIsShorter(x, Strip(st.buffer));
    }
  }

  /** A line that is not blank puts its stripped text into the buffer. */
  lemma FeedEnters(st: State, line: Line, page: nat)
    requires line.kind != Blank
    ensures Keeps(Feed(st, line, page), Strip(line.text), |Feed(st, line, page).units|, page)
  {
    StripInside(line.text);
    var rest := if line.kind == Header then "\n" else Contribution(line)[|line.text|..];
    var lead := if line.kind == Header then (if Strip(st.buffer) != "" then "" else st.buffer) else st.buffer;
    assert Feed(st, line, page).buffer == lead + line.text + rest;
    SubstringWithin(Strip(line.text), line.text, lead, rest);
  }

  /** Feeding lines never removes a unit. */
  lemma {:induction false} FeedLinesGrows(st: State, lines: seq<Line>, page: nat)
    ensures st.units <= FeedLines(st, lines, page).units
    decreases |lines|
  {
    if lines != [] {
      FeedLinesGrows(st, lines[..|lines| - 1], page);
    }
  }

  /** The units of the first `q` pages begin the units of all pages. */
  lemma {:induction false} RunGrows(pages: seq<seq<Line>>, q: nat)
    requires q <= |pages|
    ensures Run(pages[..q]).units <= Run(pages).units
    decreases |pages|
  {
    if q == |pages| {
      assert pages[..q] == pages;
    } else {
      var n := |pages|;
      var init := pages[..n - 1];
      RunGrows(init, q);
      assert init[..q] == pages[..q];
      var st := Run(init);
      FeedLinesGrows(State(st.units, "", st.section), pages[n - 1], n);
    }
  }

  /**
   * The unit that receives line `i` of page `p` (both 0-based): the next unit
   * to be closed once the line has been read.
   */
  function UnitOf(pages: seq<seq<string>>, p: nat, i: nat): nat
    requires p < |pages| && i < |pages[p]|
  {
    |BeforeLine(ClassifyPages(pages), p, i + 1).units|
  }

  /** Within one page: what line `i` holds is kept once every line of the page has been read. */
  lemma PageKeepsLine(start: State, lines: seq<Line>, i: nat, page: nat)
    requires i < |lines| && lines[i].kind != Blank
    requires Strip(lines[i].text) != "" && Stripped(Strip(lines[i].text))
    ensures Keeps(FeedLines(start, lines, page), Strip(lines[i].text), |FeedLines(start, lines[..i + 1], page).units|, page)
  {
    var after := FeedLines(start, lines[..i + 1], page);
    FeedLinesStep(start, lines, i, page);
    FeedEnters(FeedLines(start, lines[..i], page), lines[i], page);
    assert lines == lines[..i + 1] + lines[i + 1..];
    FeedLinesAppend(start, lines[..i + 1], lines[i + 1..], page);
    FeedLinesKeeps(after, lines[i + 1..], page, Strip(lines[i].text), |after.units|);
  }

  /** The same on classified pages: what line `i` of page `p` holds ends up in a unit of that page. */
  lemma RunKeepsLine(cp: seq<seq<Line>>, p: nat, i: nat)
    requires p < |cp| && i < |cp[p]| && cp[p][i].kind != Blank
    requires Strip(cp[p][i].text) != "" && Stripped(Strip(cp[p][i].text))
    ensures Keeps(Run(cp[..p + 1]), Strip(cp[p][i].text), |BeforeLine(cp, p, i + 1).units|, p + 1)
  {
    PageKeepsLine(PageStart(cp, p), cp[p], i, p + 1);
    ClosePageKeeps(FeedLines(PageStart(cp, p), cp[p], p + 1), p + 1, Strip(cp[p][i].text), |BeforeLine(cp, p, i + 1).units|);
    RunStep(cp, p);
  }

  /**
   * No line is lost: the stripped text of every line that holds more than
   * whitespace occurs in unit `UnitOf(pages, p, i)`, a unit of that line's page.
   */
  lemma SegmentKeepsLines(pages: seq<seq<string>>, p: nat, i: nat)
    requires p < |pages| && i < |pages[p]| && !IsBlank(pages[p][i])
    ensures UnitOf(pages, p, i) < |Segment(pages)|
    ensures Segment(pages)[UnitOf(pages, p, i)].page == p + 1
    ensures IsSubstring(Strip(pages[p][i]), Segment(pages)[UnitOf(pages, p, i)].text)
  {
    var cp := ClassifyPages(pages);
    var line := pages[p][i];
    assert cp[p][i] == Line(line, KindOf(line));
    StripEmptyIffBlank(line);
    StripIsStripped(line);
    RunKeepsLine(cp, p, i);
    RunGrows(cp, p + 1);
  }

  /** Within a page, the units only grow from one line to the next. */
  lemma GrowsAlongPage(cp: seq<seq<Line>>, p: nat, i: nat, j: nat)
    requires p < |cp| && i <= j <= |cp[p]|
    ensures |BeforeLine(cp, p, i).units| <= |BeforeLine(cp, p, j).units|
  {
    var lines := cp[p];
    assert lines[..j] == lines[..i] + lines[i..j];
    FeedLinesAppend(PageStart(cp, p), lines[..i], lines[i..j], p + 1);
    FeedLinesGrows(BeforeLine(cp, p, i), lines[i..j], p + 1);
  }

  /** The units at the end of page `p` are still there when a later page `q` begins. */
  lemma GrowsAcrossPages(cp: seq<seq<Line>>, p: nat, q: nat)
    requires p < q < |cp|
    ensures |BeforeLine(cp, p, |cp[p]|).units| <= |PageStart(cp, q).units|
  {
    assert cp[p][..|cp[p]|] == cp[p];
    RunStep(cp, p);
    RunGrows(cp[..q], p + 1);
    assert cp[..q][..p + 1] == cp[..p + 1];
  }

  /** A page's lines only add to the units there were when it began. */
  lemma GrowsFromPageStart(cp: seq<seq<Line>>, q: nat, j: nat)
    requires q < |cp| && j <= |cp[q]|
    ensures |PageStart(cp, q).units| <= |BeforeLine(cp, q, j).units|
  {
    FeedLinesGrows(PageStart(cp, q), cp[q][..j], q + 1);
  }

  lemma GrowsInReadingOrder(cp: seq<seq<Line>>, p: nat, i: nat, p': nat, i': nat)
    requires p < |cp| && i <= |cp[p]| && p' < |cp| && i' <= |cp[p']|
    requires p < p' || (p == p' && i <= i')
    ensures |BeforeLine(cp, p, i).units| <= |BeforeLine(cp, p', i').units|
  {
    if p == p' {
      GrowsAlongPage(cp, p, i, i');
    } else {
      GrowsAlongPage(cp, p, i, |cp[p]|);
      GrowsAcrossPages(cp, p, p');
      GrowsFromPageStart(cp, p', i');
    }
  }

  /** The units receive the lines in reading order: a later line never goes to an earlier unit. */
  lemma LinesInOrder(pages: seq<seq<string>>, p: nat, i: nat, p': nat, i': nat)
    requires p < |pages| && i < |pages[p]| && p' < |pages| && i' < |pages[p']|
    requires p < p' || (p == p' && i <= i')
    ensures UnitOf(pages, p, i) <= UnitOf(pages, p', i')
  {
    GrowsInReadingOrder(ClassifyPages(pages), p, i + 1, p', i' + 1);
  }

  // ----- Section names come from header lines -----

  /** `name` is the stripped text of some header line of `pages`. */
  predicate IsHeaderName(pages: seq<seq<string>>, name: string) {
    exists p, i :: 0 <= p < |pages| && 0 <= i < |pages[p]| && KindOf(pages[p][i]) == Header && Strip(pages[p][i]) == name
  }

  /** A section name taken from a header line of `pages`: it starts with `#` or ends with `:`. */
  predicate IsSectionOf(pages: seq<seq<string>>, name: string) {
    IsHeaderTitle(name) && IsHeaderName(pages, name)
  }

  /** Every header line among `lines` leaves a section name of `pages`. */
  predicate LinesTitled(lines: seq<Line>, pages: seq<seq<string>>) {
    forall i :: 0 <= i < |lines| && lines[i].kind == Header ==> IsSectionOf(pages, Strip(lines[i].text))
  }

  predicate SectionsFromHeaders(st: State, pages: seq<seq<string>>) {
    (st.section.Some? ==> IsSectionOf(pages, st.section.value))
    && forall k :: 0 <= k < |st.units| ==> st.units[k].section.Some? ==> IsSectionOf(pages, st.units[k].section.value)
  }

  lemma {:induction false} FeedLinesKeepsSectionsFromHeaders(st: State, lines: seq<Line>, page: nat, pages: seq<seq<string>>)
    requires SectionsFromHeaders(st, pages) && LinesTitled(lines, pages)
    ensures SectionsFromHeaders(FeedLines(st, lines, page), pages)
    decreases |lines|
  {
    if lines != [] {
      var init := lines[..|lines| - 1];
      assert LinesTitled(init, pages) by {
        forall i | 0 <= i < |init| && init[i].kind == Header ensures IsSectionOf(pages, Strip(init[i].text)) {
          assert init[i] == lines[i];
        }
      }
      FeedLinesKeepsSectionsFromHeaders(st, init, page, pages);
    }
  }

  lemma {:induction false} RunSectionsFromHeaders(cp: seq<seq<Line>>, pages: seq<seq<string>>)
    requires forall p :: 0 <= p < |cp| ==> LinesTitled(cp[p], pages)
    ensures SectionsFromHeaders(Run(cp), pages)
    decreases |cp|
  {
    if cp != [] {
      var n := |cp|;
      var init := cp[..n - 1];
      var st := Run(init);
      assert forall p :: 0 <= p < |init| ==> init[p] == cp[p];
      RunSectionsFromHeaders(init, pages);
      assert LinesTitled(cp[n - 1], pages);
      FeedLinesKeepsSectionsFromHeaders(State(st.units, "", st.section), cp[n - 1], n, pages);
    }
  }

  /**
   * Every unit's section, when present, is the stripped text of a header line
   * of the input, so it starts with `#` or ends with `:`.
   */
  lemma SegmentSectionsAreHeaderTitles(pages: seq<seq<string>>)
    ensures forall k :: 0 <= k < |Segment(pages)| ==>
              Segment(pages)[k].section.Some? ==> IsSectionOf(pages, Segment(pages)[k].section.value)
  {
    var cp: seq<seq<Line>> := ClassifyPages(pages);
    forall p | 0 <= p < |cp| ensures LinesTitled(cp[p], pages) {
      forall i | 0 <= i < |cp[p]| && cp[p][i].kind == Header ensures IsSectionOf(pages, Strip(cp[p][i].text)) {
        HeaderKindTitle(pages[p][i]);
        assert KindOf(pages[p][i]) == Header && Strip(pages[p][i]) == Strip(cp[p][i].text);
      }
    }
    RunSectionsFromHeaders(cp, pages);
  }
}
