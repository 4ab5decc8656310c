/**
 * `sliding_window_chunker`: the texts of the structural units are joined with
 * "\n" into one text, which is cut into windows of `chunk_size` characters
 * whose starts advance by `chunk_size - overlap`.
 */
module SlidingWindow {
  import opened Wrappers
  import opened Text
  import opened Segmenter
  import opened Chunks

  datatype ChunkError = ValueError(message: string)

  const OverlapTooLarge := "overlap must be smaller than chunk_size"

  /** `flat_text`: the unit texts, in order, joined with "\n". */
  function FlatText(units: seq<Unit>): string {
    Join(seq(|units|, k requires 0 <= k < |units| => units[k].text), "\n")
  }

  /** `pages_in_chunk`: the page of every unit whose text occurs in `window`, in unit order. */
  function PagesIn(units: seq<Unit>, window: string): seq<nat>
    decreases |units|
  {
    if units == [] then []
    else
      var last := units[|units| - 1];
      PagesIn(units[..|units| - 1], window) + (if IsSubstring(last.text, window) then [last.page] else [])
  }

  /** A page is in `pages_in_chunk` exactly when some unit of that page occurs in the window. */
  lemma {:induction false} PagesInMembers(units: seq<Unit>, window: string)
    ensures forall p :: p in PagesIn(units, window) <==>
              exists k :: 0 <= k < |units| && units[k].page == p && IsSubstring(units[k].text, window)
    decreases |units|
  {
    if units != [] {
      var init := units[..|units| - 1];
      PagesInMembers(init, window);
      assert forall k :: 0 <= k < |init| ==> init[k] == units[k];
    }
  }

  /** The number of windows: the starts 0, step, 2·step, … below `n`, that is ⌈n / step⌉. */
  function WindowCount(n: nat, step: int): nat
    requires step > 0
  {
    (n + step - 1) / step
  }

  /** `start` after `i` rounds of the loop. */
  function Offset(i: nat, step: int): int {
    if i == 0 then 0 else Offset(i - 1, step) + step
  }

  /** Window `i` of `flat_text`, with the units' pages it contains (page 1 when it contains none). */
  function Window(units: seq<Unit>, flat: string, i: nat, step: int, chunkSize: int,
                  documentId: string, clock: nat -> Timestamp): Chunk
  {
    var start := Offset(i, step);
    var text := PySlice(flat, start, start + chunkSize);
    var ps := PagesIn(units, text);
    Chunk(text, ChunkMetadata(documentId,
                              if ps != [] then Lowest(ps) else 1,
                              if ps != [] then Highest(ps) else 1,
                              [], i, clock(i)))
  }

  /** The first `n` windows of `flat`, in order. */
  function Windows(units: seq<Unit>, flat: string, n: nat, step: int, chunkSize: int,
                   documentId: string, clock: nat -> Timestamp): (cs: seq<Chunk>)
    ensures |cs| == n
    ensures forall i :: 0 <= i < n ==> cs[i] == Window(units, flat, i, step, chunkSize, documentId, clock)
  {
    seq(n, i requires 0 <= i => Window(units, flat, i, step, chunkSize, documentId, clock))
  }

  lemma WindowsSnoc(units: seq<Unit>, flat: string, n: nat, step: int, chunkSize: int,
                    documentId: string, clock: nat -> Timestamp)
    ensures Windows(units, flat, n + 1, step, chunkSize, documentId, clock)
            == Windows(units, flat, n, step, chunkSize, documentId, clock)
               + [Window(units, flat, n, step, chunkSize, documentId, clock)]
  {
  }

  /** What `sliding_window_chunker` returns (without the embeddings), or the error it raises. */
  function SlidingWindowChunks(documentId: string, chunkSize: int, pages: seq<seq<string>>, overlap: int,
                               clock: nat -> Timestamp): Result<seq<Chunk>, ChunkError>
  {
    if pages == [] then Success([])
    else
      var units := Segment(pages);
      var flat := FlatText(units);
      var step := chunkSize - overlap;
      if step <= 0 then Failure(ValueError(OverlapTooLarge))
      else Success(Windows(units, flat, WindowCount(|flat|, step), step, chunkSize, documentId, clock))
  }

  method SlidingWindowChunker(documentId: string, chunkSize: int, pages: seq<seq<string>>, overlap: int,
                              clock: nat -> Timestamp)
    returns (r: Result<seq<Chunk>, ChunkError>)
    ensures r == SlidingWindowChunks(documentId, chunkSize, pages, overlap, clock)
  {
    if |pages| == 0 {
      return Success([]);
    }
    var units := StructuralUnits(pages);
    var flatText := FlatText(units);
    var step := chunkSize - overlap;
    if step <= 0 {
      return Failure(ValueError(OverlapTooLarge));
    }
    var chunks := Slide(documentId, chunkSize, units, flatText, step, clock);
    return Success(chunks);
  }

  /** The `while` loop of `sliding_window_chunker`. */
  method Slide(documentId: string, chunkSize: int, units: seq<Unit>, flatText: string, step: int,
               clock: nat -> Timestamp)
    returns (chunks: seq<Chunk>)
    requires step > 0
    ensures chunks == Windows(units, flatText, WindowCount(|flatText|, step), step, chunkSize, documentId, clock)
  {
    chunks := [];
    var start := 0;
    var chunkIndex := 0;
    while start < |flatText|
      invariant start == Offset(chunkIndex, step)
      invariant chunkIndex == 0 || Offset(chunkIndex - 1, step) < |flatText|
      invariant chunks == Windows(units, flatText, chunkIndex, step, chunkSize, documentId, clock)
      decreases |flatText| - start
    {
      var end := start + chunkSize;
      var chunkText := PySlice(flatText, start, end);
      var pagesInChunk := PagesIn(units, chunkText);
      var chunk := Chunk(chunkText, ChunkMetadata(documentId,
                                                  if |pagesInChunk| > 0 then Lowest(pagesInChunk) else 1,
                                                  if |pagesInChunk| > 0 then Highest(pagesInChunk) else 1,
                                                  [], chunkIndex, clock(chunkIndex)));
      assert chunk == Window(units, flatText, chunkIndex, step, chunkSize, documentId, clock);
      WindowsSnoc(units, flatText, chunkIndex, step, chunkSize, documentId, clock);
      chunks := chunks + [chunk];
      chunkIndex := chunkIndex + 1;
      start := start + step;
    }
    LoopCount(|flatText|, step, chunkIndex);
  }

  // ----- Arithmetic of the window starts -----

  lemma {:induction false} OffsetIsProduct(i: nat, step: int)
    ensures Offset(i, step) == i * step
  {
    if i > 0 {
      OffsetIsProduct(i - 1, step);
      assert i * step == (i - 1) * step + step;
    }
  }

  lemma MulMonotone(a: int, b: int, step: int)
    requires a <= b && step > 0
    ensures a * step <= b * step
  {
    assert b * step - a * step == (b - a) * step;
  }

  lemma CeilingBounds(n: nat, step: int)
    requires step > 0
    ensures (WindowCount(n, step) - 1) * step < n <= WindowCount(n, step) * step
  {
    var q := WindowCount(n, step);
    var r := (n + step - 1) % step;
    assert q * step + r == n + step - 1 && 0 <= r < step;
    assert (q - 1) * step == q * step - step;
  }

  /** A loop that stops at the first multiple of `step` reaching `n` has run ⌈n / step⌉ times. */
  lemma CountIsCeiling(n: nat, step: int, c: nat)
    requires step > 0
    requires n <= c * step
    requires c == 0 || (c - 1) * step < n
    ensures c == WindowCount(n, step)
  {
    var q := WindowCount(n, step);
    CeilingBounds(n, step);
    if c < q {
      MulMonotone(c, q - 1, step);
    } else if c > q {
      MulMonotone(q + 1, c, step);
    }
  }

  lemma LoopCount(n: nat, step: int, c: nat)
    requires step > 0
    requires n <= Offset(c, step)
    requires c == 0 || Offset(c - 1, step) < n
    ensures c == WindowCount(n, step)
  {
    OffsetIsProduct(c, step);
    if c > 0 {
      OffsetIsProduct(c - 1, step);
    }
    CountIsCeiling(n, step, c);
  }

  /** The window whose stride holds position `q`: `q // step`. */
  function WindowIndex(q: nat, step: int): (w: nat)
    requires step > 0
    ensures Offset(w, step) <= q < Offset(w, step) + step
  {
    OffsetIsProduct(q / step, step);
    q / step
  }

  /** Every position of the text lies in the stride of one of the windows. */
  lemma WindowOf(q: nat, step: int, n: nat)
    requires 0 < step && q < n
    ensures WindowIndex(q, step) < WindowCount(n, step)
  {
    var k := WindowIndex(q, step);
    OffsetIsProduct(k, step);
    CeilingBounds(n, step);
    if k >= WindowCount(n, step) {
      MulMonotone(WindowCount(n, step), k, step);
    }
  }

  /** Every window starts before the end of the text. */
  lemma StartsInText(i: nat, step: int, n: nat)
    requires 0 < step && i < WindowCount(n, step)
    ensures Offset(i, step) == i * step < n
  {
    OffsetIsProduct(i, step);
    CeilingBounds(n, step);
    MulMonotone(i, WindowCount(n, step) - 1, step);
  }

  // ----- Properties -----

  /** The character at `q` is at offset `q - start` of `flat[start:start + chunk_size]` when the slice reaches it. */
  lemma SliceAt(flat: string, start: int, chunkSize: int, q: nat)
    requires 0 <= start <= q < start + chunkSize && q < |flat|
    ensures q - start < |PySlice(flat, start, start + chunkSize)|
    ensures PySlice(flat, start, start + chunkSize)[q - start] == flat[q]
  {
    var end := SliceBound(|flat|, start + chunkSize);
    assert start <= q < end;
    assert PySlice(flat, start, start + chunkSize) == flat[start..end];
  }

  lemma WindowAt(units: seq<Unit>, flat: string, step: int, chunkSize: int, documentId: string,
                 clock: nat -> Timestamp, k: nat, q: nat)
    requires 0 < step <= chunkSize && q < |flat| && k < WindowCount(|flat|, step)
    requires Offset(k, step) <= q < Offset(k, step) + step
    ensures var cs := Windows(units, flat, WindowCount(|flat|, step), step, chunkSize, documentId, clock);
            k < |cs| && q - Offset(k, step) < |cs[k].text| && cs[k].text[q - Offset(k, step)] == flat[q]
  {
    var cs := Windows(units, flat, WindowCount(|flat|, step), step, chunkSize, documentId, clock);
    OffsetNonNegative(k, step);
    SliceAt(flat, Offset(k, step), chunkSize, q);
  }

  lemma {:induction false} OffsetNonNegative(k: nat, step: int)
    requires step > 0
    ensures Offset(k, step) >= 0
  {
    if k > 0 {
      OffsetNonNegative(k - 1, step);
    }
  }

  /**
   * With `overlap ≥ 0` the windows cover `flat_text`: the character at `q`
   * is in window `w = q // step`, at offset `q - w·step`.
   */
  lemma WindowsCover(documentId: string, chunkSize: int, pages: seq<seq<string>>, overlap: int,
                     clock: nat -> Timestamp, q: nat)
    requires pages != [] && 0 <= overlap < chunkSize
    requires q < |FlatText(Segment(pages))|
    ensures var cs := SlidingWindowChunks(documentId, chunkSize, pages, overlap, clock).value;
            var w := WindowIndex(q, chunkSize - overlap);
            var o := q - Offset(w, chunkSize - overlap);
            w < |cs| && o < |cs[w].text| && cs[w].text[o] == FlatText(Segment(pages))[q]
  {
    var units := Segment(pages);
    var step := chunkSize - overlap;
    WindowOf(q, step, |FlatText(units)|);
    WindowAt(units, FlatText(units), step, chunkSize, documentId, clock, WindowIndex(q, step), q);
  }

  lemma WindowsShape(units: seq<Unit>, flat: string, step: int, chunkSize: int, documentId: string,
                     clock: nat -> Timestamp)
    requires step > 0
    ensures var cs := Windows(units, flat, WindowCount(|flat|, step), step, chunkSize, documentId, clock);
            (|cs| - 1) * step < |flat| <= |cs| * step
            && forall i :: 0 <= i < |cs| ==>
                 i * step < |flat|
                 && cs[i].text == PySlice(flat, i * step, i * step + chunkSize)
                 && cs[i].metadata.chunkIndex == i
                 && cs[i].metadata.sectionPath == []
  {
    var cs := Windows(units, flat, WindowCount(|flat|, step), step, chunkSize, documentId, clock);
    CeilingBounds(|flat|, step);
    forall i | 0 <= i < |cs|
      ensures i * step < |flat| && cs[i].text == PySlice(flat, i * step, i * step + chunkSize)
    {
      StartsInText(i, step, |flat|);
    }
  }

  /**
   * An empty page list gives no windows; otherwise a step that is not
   * positive raises `ValueError`; otherwise there are ⌈|flat_text| / step⌉
   * windows, window `i` is `flat_text[i·step : i·step + chunk_size]`,
   * numbered `i`, with an empty section path.
   */
  lemma SlidingWindowShape(documentId: string, chunkSize: int, pages: seq<seq<string>>, overlap: int,
                           clock: nat -> Timestamp)
    ensures pages == [] ==> SlidingWindowChunks(documentId, chunkSize, pages, overlap, clock) == Success([])
    ensures pages != [] && chunkSize - overlap <= 0 ==>
              SlidingWindowChunks(documentId, chunkSize, pages, overlap, clock) == Failure(ValueError(OverlapTooLarge))
    ensures pages != [] && chunkSize - overlap > 0 ==>
              var flat := FlatText(Segment(pages));
              var step := chunkSize - overlap;
              var cs := SlidingWindowChunks(documentId, chunkSize, pages, overlap, clock).value;
              (|cs| - 1) * step < |flat| <= |cs| * step
              && forall i :: 0 <= i < |cs| ==>
                   i * step < |flat|
                   && cs[i].text == PySlice(flat, i * step, i * step + chunkSize)
                   && cs[i].metadata.chunkIndex == i
                   && cs[i].metadata.sectionPath == []
  {
    if pages != [] && chunkSize - overlap > 0 {
      var units := Segment(pages);
      WindowsShape(units, FlatText(units), chunkSize - overlap, chunkSize, documentId, clock);
    }
  }

  /**
   * The page range of window `c` lies within 1..`lastPage` and is not
   * inverted; it spans the page of every unit whose text occurs in the
   * window, both of its ends are the page of such a unit (so it is the
   * smallest and the largest of those pages), and it is 1..1 when no unit
   * text occurs in the window.
   */
  predicate PageRangeOk(c: Chunk, units: seq<Unit>, lastPage: nat) {
    1 <= c.metadata.pageStart <= c.metadata.pageEnd <= lastPage
    && (forall k :: 0 <= k < |units| && IsSubstring(units[k].text, c.text) ==>
          c.metadata.pageStart <= units[k].page <= c.metadata.pageEnd)
    && ((exists k :: 0 <= k < |units| && IsSubstring(units[k].text, c.text)) ==>
          (exists k :: 0 <= k < |units| && IsSubstring(units[k].text, c.text) && units[k].page == c.metadata.pageStart)
          && (exists k :: 0 <= k < |units| && IsSubstring(units[k].text, c.text) && units[k].page == c.metadata.pageEnd))
    && ((forall k :: 0 <= k < |units| ==> !IsSubstring(units[k].text, c.text)) ==>
          c.metadata.pageStart == c.metadata.pageEnd == 1)
  }

  lemma WindowPagesAt(units: seq<Unit>, flat: string, i: nat, step: int, chunkSize: int, documentId: string,
                      clock: nat -> Timestamp, lastPage: nat)
    requires lastPage >= 1
    requires forall k :: 0 <= k < |units| ==> 1 <= units[k].page <= lastPage
    ensures PageRangeOk(Window(units, flat, i, step, chunkSize, documentId, clock), units, lastPage)
  {
    var c := Window(units, flat, i, step, chunkSize, documentId, clock);
    var ps := PagesIn(units, c.text);
    PagesInMembers(units, c.text);
    if ps != [] {
      LowestIsMinimum(ps);
      HighestIsMaximum(ps);
      forall k | 0 <= k < |units| && IsSubstring(units[k].text, c.text)
        ensures c.metadata.pageStart <= units[k].page <= c.metadata.pageEnd
      {
        assert units[k].page in ps;
      }
    } else {
      forall k | 0 <= k < |units| ensures !IsSubstring(units[k].text, c.text) {
        assert units[k].page !in ps;
      }
    }
  }

  /** Every window's page range is as `PageRangeOk` describes, within the document's pages. */
  lemma WindowPages(documentId: string, chunkSize: int, pages: seq<seq<string>>, overlap: int,
                    clock: nat -> Timestamp, i: nat)
    requires pages != [] && overlap < chunkSize
    requires i < |SlidingWindowChunks(documentId, chunkSize, pages, overlap, clock).value|
    ensures PageRangeOk(SlidingWindowChunks(documentId, chunkSize, pages, overlap, clock).value[i], Segment(pages), |pages|)
  {
    var units := Segment(pages);
    var flat := FlatText(units);
    var step := chunkSize - overlap;
    SegmentWellFormed(pages);
    WindowPagesAt(units, flat, i, step, chunkSize, documentId, clock, |pages|);
  }
}
