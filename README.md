# Chunking and re-ranking core of a document question-answering service

This project models, in Dafny, the two pieces of bespoke logic in a
retrieval-augmented question-answering service.

The first piece is the **chunking pipeline** of `service/chunkings.py`. It has three stages:

- `structural_units` reads pages line by line. It classifies each line with
  three regular expressions: header, list item or table row, blank, and prose.
  It accumulates a buffer and cuts the page into units `(text, page, section)`,
  while a running current section carries from page to page.
- `semantic_chunker` splits every unit into parts: paragraphs, sentences or the
  whole unit. It packs the stripped parts into chunks bounded by
  `max_chunk_size`, numbers them, and records each chunk's page range and
  section path.
- `sliding_window_chunker` joins the unit texts with newlines. It cuts the
  result into windows of `chunk_size` characters that advance by
  `chunk_size - overlap`.

The second piece is the **re-ranking scorer** of `service/file_service.py`:

- `recency_score`, `hierarchy_score`, `adjacency_score` and `final_score`.
- `Vectordb_Service.rerank_chunks`. It takes the chunk indices of the five most
  similar hits as the relevant set, scores every hit, and stably sorts the hits
  by descending final score.
- The point construction of `Vectordb_Service.store_embeddings`.

Each piece takes the form of its source:

- The loops of the chunkers, of `rerank_chunks` and of `store_embeddings` are
  methods with loop invariants. Each is proved equal to a specification
  function, or proved to build what it promises.
- The properties the code promises are lemmas about those functions:
  numbering, size bounds, page ranges, section tracking, coverage, and
  permutation with a stable descending order.
- The scoring helpers are functions whose contracts state their results.

Modules, in dependency order:

- `Wrappers`: Option, Result.
- `Text`: `str.isspace`, `strip`, `join`, slicing, `lower`.
- `LinePatterns`: the three regular expressions.
- `Segmenter`: `structural_units`.
- `Splitting`: the two `re.split` calls.
- `Chunks`: the `Chunk`/`ChunkMetadata` records, `min`, `max`.
- `SemanticChunker`.
- `SlidingWindow`.
- `Scoring`.
- `StableSort`: `sorted`/`list.sort` with `reverse=True`.
- `Rerank`.
- `Store`.
- `ChunkOrigins`: where a semantic chunk's page range and section path come from.
- `ChunkSections`: section paths against `hierarchy_score`.

## Model

| member | source | states |
|---|---|---|
| LinePatterns.HeaderTitle | service/chunkings.py:57-61 | a line `HEADER_REGEX` matches, once stripped, is a non-empty section name that starts with `#` or ends with `:` |
| LinePatterns.ClassifiedLineNotBlank | service/chunkings.py:57-67 | a header, list-item or table-row line is never blank, so the blank-line branch only sees lines the patterns rejected |
| Segmenter.BlankLineKind | service/chunkings.py:57-68 | a line of whitespace only is classified blank (it adds `"\n"` to the buffer) |
| Segmenter.StructuralUnits | service/chunkings.py:49-76 | the nested page/line loop returns exactly `Segment(pages)`, no units for no pages, and well-formed units: text stripped and non-empty, page within 1..number of pages, pages non-decreasing along the output; and the stripped text of every non-blank line occurs in unit `UnitOf(p, i)`, a unit of that line's page |
| Segmenter.ReadPage | service/chunkings.py:54-74 | one page of the loop: the units and current section after the inner line loop and the end-of-page flush are those of the per-line step function |
| Segmenter.SegmentKeepsLines | service/chunkings.py:56-75 | no line is lost: the stripped text of every line that is not blank occurs in a unit of that line's page, namely unit `UnitOf(p, i)`, the next unit to be closed once the line is read |
| Segmenter.LinesInOrder | service/chunkings.py:53-75 | the units receive the lines in reading order: a line later in the document never goes to an earlier unit than a line before it |
| Segmenter.SegmentWellFormed | service/chunkings.py:49-76 | no pages give no units; every unit's text is stripped and non-empty, its page is in 1..number of pages, and pages never decrease |
| Segmenter.SectionCarriesAcrossPages | service/chunkings.py:51-61 | after any number of pages the current section is the stripped text of the last header line seen, on whatever page it was |
| Segmenter.SectionBeforeLine | service/chunkings.py:51-61 | before each line, the current section is the last header among all earlier lines |
| Segmenter.HeaderClosesUnit | service/chunkings.py:57-62 | a header line flushes a non-blank buffer as a unit tagged with the previous section, then becomes the first line of the next buffer; a blank buffer is kept and extended |
| Segmenter.OnlyHeadersClose | service/chunkings.py:57-71 | across any run of non-header lines, no unit is emitted and the section does not change; the buffer only grows by each line's contribution |
| Segmenter.HeaderNamesItsUnit | service/chunkings.py:61-74 | the unit a header line starts is tagged with that header's stripped text |
| Segmenter.PageEndClosesUnit | service/chunkings.py:73-74 | at the end of a page the buffer becomes one more unit, tagged with the current section, when it holds more than whitespace |
| Segmenter.BlankPageProducesNoUnit | service/chunkings.py:67-73 | a page of blank lines adds no unit |
| Segmenter.SegmentSectionsAreHeaderTitles | service/chunkings.py:59-74 | every section a unit carries is the stripped text of some header line of the input (a line at some page `p`, index `i`, that takes the header branch), and so starts with `#` or ends with `:` |
| Splitting.SplitRoundTrip | service/chunkings.py:103-108 | the pieces of `re.split` with the separators between them put back give the text, and every separator is a non-empty run of whitespace |
| Splitting.SingleLineIsOneParagraph | service/chunkings.py:108 | a text without a newline is one paragraph |
| Splitting.UnbrokenTextIsOneSentence | service/chunkings.py:104 | a text where no `.`, `!` or `?` is followed by whitespace is one sentence |
| Splitting.MatchAt | service/chunkings.py:103-108 | a match of either separator pattern stays inside the text and is whitespace |
| Splitting.MatchAtMeaning | service/chunkings.py:103-108 | `\n\s*\n+` matches at `i` exactly when a newline at `i` is followed, after whitespace only, by another newline, and the match ends on a newline with no newline in the whitespace after it; `(?<=[.!?])\s+` matches at `i` exactly when `i` follows `.`, `!` or `?` and starts whitespace, and the match takes the whole whitespace run |
| Splitting.SplitCutsAtMatches | service/chunkings.py:103-108 | `re.split` cuts the text exactly at the leftmost non-overlapping matches: each separator is the text of a match at its offset, each piece is the text between two consecutive matches, and no position inside a piece starts a match |
| Chunks.LowestIsMinimum | service/chunkings.py:120 | `min` (also at lines 141 and 188) of a non-empty list is one of its elements and at most every element |
| Chunks.HighestIsMaximum | service/chunkings.py:121 | `max` (also at lines 142 and 189) of a non-empty list is one of its elements and at least every element |
| Chunks.LowestAtMostHighest | service/chunkings.py:120-121 | `min` is at most `max`, so `page_start <= page_end` |
| SemanticChunker.Kept | service/chunkings.py:110-113 | the parts the loop keeps are stripped and non-empty |
| SemanticChunker.SemanticChunker | service/chunkings.py:79-151 | the loops over units and parts return exactly the chunks of the specification function `SemanticChunks` |
| SemanticChunker.PackParts | service/chunkings.py:110-134 | the inner loop over one unit's parts leaves `embedded_chunks`, `current_text` and `current_pages` as the part-by-part step function says |
| SemanticChunker.EmitOk | service/chunkings.py:115-129 | a closed chunk's text is its parts joined by `"\n"`; it is numbered with the count of earlier chunks and has that index's timestamp; its page range is within the document and not inverted |
| SemanticChunker.SemanticChunksSpec | service/chunkings.py:88-149 | no pages give no chunks; chunk `k` is numbered `k`, stamped with the clock at `k`, and carries its document id; its pages lie within 1..number of pages with start at most end; its section path has at most one entry; its text is its parts joined by `"\n"` and is within `max_chunk_size` unless it is one part; and the parts of all chunks, in order, are exactly the kept parts of all units |
| SemanticChunker.SemanticChunksNumbered | service/chunkings.py:97-144 | the chunk indices are exactly 0..N-1 in output order |
| SemanticChunker.SemanticChunksBounded | service/chunkings.py:110-138 | every chunk text is stripped and non-empty; its length is at most `max_chunk_size` unless the chunk is a single part; its page range is within the document; its section path has at most one entry |
| SemanticChunker.SemanticChunksKeepAllParts | service/chunkings.py:99-149 | the chunk texts joined with `"\n"` equal the non-empty stripped parts of all units, in order, joined with `"\n"`: nothing is dropped or reordered |
| SlidingWindow.SlidingWindowChunker | service/chunkings.py:154-201 | returns exactly `SlidingWindowChunks`: `[]` for no pages, `ValueError` when the step is not positive, else the windows |
| SlidingWindow.Slide | service/chunkings.py:174-199 | the `while` loop builds exactly the first ⌈len(flat_text) / step⌉ windows |
| SlidingWindow.SlidingWindowShape | service/chunkings.py:163-199 | no pages give `[]` whatever the configuration; with pages, a step of 0 or less raises `ValueError("overlap must be smaller than chunk_size")`; otherwise there are ⌈len(flat_text) / step⌉ windows, window `i` starts at `i·step < len(flat_text)`, is `flat_text[i·step : i·step + chunk_size]`, is numbered `i` and has an empty section path |
| SlidingWindow.WindowsCover | service/chunkings.py:170-199 | with `0 <= overlap < chunk_size`, every character of `flat_text` appears in a window (window `q // step`, at the matching offset): the windows leave no gap |
| SlidingWindow.WindowPages | service/chunkings.py:182-189 | a window's page range lies within 1..number of pages; when some unit's text occurs in the window, `page_start` and `page_end` are each the page of such a unit and every such unit's page lies between them; it is 1..1 when no unit text occurs in it |
| SlidingWindow.PagesInMembers | service/chunkings.py:182 | a page is in `pages_in_chunk` exactly when some unit on that page has text that occurs in the window |
| SlidingWindow.WindowIndex | service/chunkings.py:178-199 | position `q` lies in the stride of window `q // step` |
| SlidingWindow.LoopCount | service/chunkings.py:178-199 | a loop that stops at the first multiple of `step` reaching the text length has run ⌈length / step⌉ times |
| Scoring.RecencyScore | service/file_service.py:79-82 | `1 / (1 + age)`: it fails with division by zero exactly when age is -1, and otherwise times `1 + age` gives 1 |
| Scoring.RecencyBounds | service/file_service.py:79-82 | for a non-negative age the score is in (0, 1], and 1 at age 0 |
| Scoring.RecencyDecreasing | service/file_service.py:79-82 | an older chunk scores strictly lower |
| Scoring.HierarchyScore | service/file_service.py:112-116 | against `IMPORTANT_SECTIONS` (line 85): 1 exactly when some lower-cased entry of the path is `definition`, `definitions`, `overview` or `introduction`; otherwise 0, the empty path included |
| Scoring.AdjacencyScore | service/file_service.py:88-96 | 0.5 exactly when `chunk_index - 1` or `chunk_index + 1` is relevant (both still give 0.5), else 0 |
| Scoring.DefaultFinalScore | service/file_service.py:99-109 | the default weights sum to 1; with every component in [0, 1] the score is in [0, 1]; with the other components 0 it is 0.55·similarity; it grows strictly with similarity |
| StableSort.SortDescCorrect | service/file_service.py:291 | for this sort and the one at lines 261-265: the sort is a permutation, its keys never increase, and the elements of any one key keep their input order (stability) |
| StableSort.DescendingSplit | service/file_service.py:261-265 | cutting a descending list after `n` elements: the rest is what lies beyond the first `n`, and none of it has a higher key than any of them |
| Rerank.RerankChunks | service/file_service.py:254-292 | the method returns exactly `Rerank(retrieved_chunks)`, the scored hits stably sorted, or the division-by-zero failure of the first hit with age -1 |
| Rerank.TopSimilarSpec | service/file_service.py:261-265 | `top_similar` has min(5, n) hits taken from the input, and no hit left out has a higher score than any hit kept |
| Rerank.RelevantIndicesSpec | service/file_service.py:261-267 | the relevant set is a subset of the input's chunk indices with at most 5 elements, and all of them when there are at most 5 hits |
| Rerank.DecorateAllSpec | service/file_service.py:269-289 | scoring succeeds exactly when no hit has age -1; then output `k` is input hit `k`, unchanged, with `final_score` = 0.55·sim + 0.20·rec + 0.15·hier + 0.10·adj |
| Rerank.DecorateAllFailureSticks | service/file_service.py:271-273 | an error on an earlier hit is the error of the whole call |
| Rerank.RerankSpec | service/file_service.py:254-292 | `rerank_chunks` succeeds exactly when no hit has age -1; its output has the input's length, is a permutation of the scored hits, never increases in `final_score`, and keeps hits of equal `final_score` in input order |
| Store.StoreEmbeddings | service/file_service.py:121-163 | an empty input gives the "Uploaded doc is not parsable" refusal with `success` false and no upsert; otherwise one point per chunk, in order, goes to `user_docs`, with the chunk's embedding as vector and its metadata, text and the file name as payload |
| Store.PayloadRoundTrip | service/file_service.py:141-150 | the payload records the file name and loses nothing of the chunk: the chunk can be rebuilt from it |
| Store.PayloadInjective | service/file_service.py:141-150 | different chunks or file names give different payloads |
| ChunkOrigins.AddUnitsTraced | service/chunkings.py:99-134 | after any units, every closed chunk's page range is the least and greatest page of its own parts, its section path is the one in effect for the part that closed it, the open pages are those of the open parts, and the current path is the last non-empty section seen |
| ChunkOrigins.SemanticChunkOrigins | service/chunkings.py:99-143 | chunk `k` is built from the parts at positions `GroupStart(k)..GroupStart(k+1)` of all kept parts: `page_start` and `page_end` are pages of those parts with every such page between them, and `section_path` is the path in effect for the next part, or after the last unit for the last chunk |
| ChunkOrigins.ClosingSectionNamesChunk | service/chunkings.py:100-123 | in section mode, two units under sections `a` and `b` whose texts do not fit together give two chunks, the first holding the first text yet tagged `[b]` |
| ChunkSections.SemanticSectionsTitled | service/chunkings.py:99-143 | every section-path entry of a semantic chunk is the stripped text of some header line of the input, and so starts with `#` or ends with `:` |
| ChunkSections.TitlesScoreZero | service/file_service.py:112-116 | no such header text, lower-cased, is an important section name, so `hierarchy_score` is 0 on such paths |
| ChunkSections.SemanticChunksHierarchyZero | service/file_service.py:112-116 | `hierarchy_score` is 0 for every chunk the semantic chunker produces |

Consequence of the last three rows: the stored section names keep their `#`
marker or trailing `:`. So `hierarchy_score` never scores 1 for chunks of
either chunker; the sliding-window chunker stores an empty path.

Behaviours of the code worth noting:

- **Header lines.** A header line is not emitted as a unit of its own. It becomes the first line of the next unit's buffer (`service/chunkings.py:62`).
- **Paragraph mode.** It splits on `\n\s*\n+` (`:108`); it does not keep the unit whole.
- **Sentence mode.** It splits after `.`, `!` or `?` followed by whitespace. No capital letter is required (`:104`).
- **Joining parts.** Parts are joined with a single `"\n"`, not a blank line. `current_text` starts with that `"\n"`, which the strip at `:117`/`:138` removes. The size test at `:115` counts that leading newline, so a chunk of several parts is at most `max_chunk_size` once stripped.
- **Section of a chunk.** A chunk records the section path in effect when it is closed (`:100-101`, `:122`). A chunk closed because a part of a later unit did not fit therefore carries that later unit's section. With `max_chunk_size` 10 in section mode, a unit with text "tail" and section `# Intro` followed by a unit with text "more text" and section `Section Two:` gives a chunk "tail" tagged `Section Two:`.
- **Configuration errors.** `ValueError` is raised only when there are pages (`:163-172`). A negative overlap is accepted.
- **Timestamp errors.** On a well-formed timestamp that carries a timezone offset (or `Z`), the only failure `rerank_chunks` can produce is `ZeroDivisionError`, for an age of exactly -1 s. A timestamp without an offset, such as `2025-01-01T00:00:00`, also parses (`service/file_service.py:75-76`). Subtracting it from the timezone-aware `now` (`:81`) then raises `TypeError`.

## Left out

- PDF/OCR parsing (`Parsers.pdf_parser_from_upload`) is not part of this model. The chunkers take the pages already split into lines, which is what `str.splitlines` gives them.
- Embedding: the embedding model (`embed_chunk`, `embed_query`) is foreign code. The chunkers return the chunks themselves, and `store_embeddings` takes each chunk paired with an arbitrary vector.
- The clock: `datetime.now` is a parameter `clock`. Chunk `k` is stamped with `clock(k)`, since the source reads the clock once per chunk. `uploaded_at` is an integer timestamp.
- Timestamp parsing: ISO parsing (`parse_uploaded_at`) and the subtraction of timestamps are left out. A hit carries its age in seconds as a real number, so malformed timestamps are not modelled. Nor is the `TypeError` raised for a timestamp without a timezone offset, which parses but cannot be subtracted from the timezone-aware `now`.
- Scoring.RecencyScore: scores are exact reals, so floating-point rounding is not modelled. Bounds and the ordering of scores hold exactly, not up to rounding.
- Scoring.HierarchyScore: `str.lower` is modelled on ASCII letters only. For the membership test this gives the same answer: the only non-ASCII characters that lower-case into ASCII letters are the Kelvin sign, which gives `k`, and `İ`, which gives `i` plus a combining dot. `k` occurs in no important name, and the combining dot is not ASCII.
- LinePatterns: `\d` is modelled as the ASCII digits only, so other Unicode decimal digits in list-item numbers are not recognised.
- Rerank.RerankChunks: the in-place `reranked.sort(...)` is modelled as assigning the stable sort of the list. The mutation and aliasing of the caller's list are not modelled.
- Rerank: a hit is a record with typed fields, so missing payload keys and `None` values are not modelled. Each hit passes every other field through unchanged.
- Store.StoreEmbeddings: the random `uuid4` point id and the vector database's reply are left out. The result names the upsert it sends (collection and points) instead of the reply.
- async/await, the Supabase, Qdrant and Groq clients, the upload dispatch and the file-size rounding are I/O or glue with no core logic, and are not part of this model.
- SlidingWindow.WindowsCover: the property is stated only for `overlap >= 0`. A negative overlap is accepted by the source and leaves gaps between windows.
