/**
 * `semantic_chunker`: splits every structural unit into parts (by paragraph,
 * by sentence, or the whole unit for sections), strips them, skips the empty
 * ones, and packs them in order into chunks: a chunk is closed before a part
 * that would take `current_text` past `max_chunk_size`, and the parts of one
 * chunk are joined with "\n".
 *
 * The specification is a fold over the units (`AddUnits`) whose state holds
 * the loop's variables and, besides, the parts each closed chunk was built
 * from (`groups`) and the parts in `current_text` (`cur`); the source does not
 * keep those two, they state which parts make up which chunk.
 */
module SemanticChunker {
  import opened Wrappers
  import opened Text
  import opened Segmenter
  import opened Splitting
  import opened Chunks

  /** `SemanticMode`; any other mode string takes the paragraph branch. */
  datatype Mode = Paragraph | Sentence | Section

  datatype Settings = Settings(documentId: string, maxChunkSize: int, mode: Mode, clock: nat -> Timestamp)

  /** The parts a unit's text is split into, before stripping. */
  function Parts(text: string, mode: Mode): seq<string> {
    if mode == Sentence then Split(SentenceBreak, text)
    else if mode == Section then [text]
    else Split(ParagraphBreak, text)
  }

  /** Every part is non-empty and stripped. */
  predicate PartsOk(parts: seq<string>) {
    forall k :: 0 <= k < |parts| ==> parts[k] != "" && Stripped(parts[k])
  }

  /** The parts the chunker keeps: each one stripped, the empty ones skipped. */
  function Kept(parts: seq<string>): (r: seq<string>)
    ensures PartsOk(r)
    decreases |parts|
  {
    if parts == [] then []
    else
      var last := Strip(parts[|parts| - 1]);
      StripIsStripped(parts[|parts| - 1]);
      Kept(parts[..|parts| - 1]) + (if last == "" then [] else [last])
  }

  /** Every kept part of `units`, in unit order. */
  function AllParts(units: seq<Unit>, mode: Mode): (r: seq<string>)
    ensures PartsOk(r)
    decreases |units|
  {
    if units == [] then []
    else AllParts(units[..|units| - 1], mode) + Kept(Parts(units[|units| - 1].text, mode))
  }

  /** `current_text` for the parts `cur`: each part preceded by "\n". */
  function Prefixed(cur: seq<string>): string
    decreases |cur|
  {
    if cur == [] then "" else Prefixed(cur[..|cur| - 1]) + ("\n" + cur[|cur| - 1])
  }

  /**
   * The loop's variables (`embedded_chunks`, `current_text`, `current_pages`,
   * `current_section_path`; `chunk_index` is `|chunks|`), with the parts of
   * each closed chunk (`groups`) and of `current_text` (`cur`).
   */
  datatype Packer = Packer(
    chunks: seq<Chunk>,
    text: string,
    pages: seq<nat>,
    path: seq<string>,
    groups: seq<seq<string>>,
    cur: seq<string>)

  const Start := Packer([], "", [], [], [], [])

  /** The chunk `current_text` becomes when it is closed. */
  function Emit(st: Packer, cfg: Settings): Chunk {
    var index := |st.chunks|;
    Chunk(Strip(st.text),
          ChunkMetadata(cfg.documentId, Lowest(st.pages), Highest(st.pages), st.path, index, cfg.clock(index)))
  }

  /** One part: stripped, skipped when empty, otherwise appended after closing the chunk if it would overflow. */
  function AddPart(st: Packer, raw: string, page: nat, cfg: Settings): Packer {
    var part := Strip(raw);
    if part == "" then st
    else
      var open :=
        if |st.text| + |part| > cfg.maxChunkSize && st.text != "" then
          Packer(st.chunks + [Emit(st, cfg)], "", [], st.path, st.groups + [st.cur], [])
        else st;
      Packer(open.chunks, open.text + ("\n" + part), open.pages + [page], open.path, open.groups, open.cur + [part])
  }

  function AddParts(st: Packer, parts: seq<string>, page: nat, cfg: Settings): Packer
    decreases |parts|
  {
    if parts == [] then st
    else AddPart(AddParts(st, parts[..|parts| - 1], page, cfg), parts[|parts| - 1], page, cfg)
  }

  /** A unit with a (non-empty) section resets the section path to that one section. */
  function Enter(st: Packer, section: Option<string>): Packer {
    if section.Some? && section.value != "" then st.(path := [section.value]) else st
  }

  function AddUnit(st: Packer, u: Unit, cfg: Settings): Packer {
    AddParts(Enter(st, u.section), Parts(u.text, cfg.mode), u.page, cfg)
  }

  function AddUnits(st: Packer, units: seq<Unit>, cfg: Settings): Packer
    decreases |units|
  {
    if units == [] then st
    else AddUnit(AddUnits(st, units[..|units| - 1], cfg), units[|units| - 1], cfg)
  }

  /** After the last unit, a `current_text` that holds more than whitespace becomes the last chunk. */
  function Finish(st: Packer, cfg: Settings): seq<Chunk> {
    if Strip(st.text) != "" then st.chunks + [Emit(st, cfg)] else st.chunks
  }

  /** The parts of every chunk `Finish` returns. */
  function FinishGroups(st: Packer): seq<seq<string>> {
    if st.cur != [] then st.groups + [st.cur] else st.groups
  }

  /** What `semantic_chunker` returns (without the embeddings). */
  function SemanticChunks(pages: seq<seq<string>>, cfg: Settings): seq<Chunk> {
    if pages == [] then [] else Finish(AddUnits(Start, Segment(pages), cfg), cfg)
  }

  /** The parts that make up each chunk of `SemanticChunks(pages, cfg)`. */
  function ChunkGroups(pages: seq<seq<string>>, cfg: Settings): seq<seq<string>> {
    if pages == [] then [] else FinishGroups(AddUnits(Start, Segment(pages), cfg))
  }

  method SemanticChunker(documentId: string, maxChunkSize: int, pages: seq<seq<string>>, mode: Mode,
                         clock: nat -> Timestamp)
    returns (chunks: seq<Chunk>)
    ensures chunks == SemanticChunks(pages, Settings(documentId, maxChunkSize, mode, clock))
  {
    ghost var cfg := Settings(documentId, maxChunkSize, mode, clock);
    if |pages| == 0 {
      return [];
    }
    var units := StructuralUnits(pages);
    chunks := [];
    var currentText := "";
    var currentPages: seq<nat> := [];
    var currentSectionPath: seq<string> := [];
    var chunkIndex := 0;
    var u := 0;
    while u < |units|
      invariant u <= |units|
      invariant Holds(AddUnits(Start, units[..u], cfg), chunks, currentText, currentPages, currentSectionPath)
      invariant chunkIndex == |chunks|
    {
      var unit := units[u];
      AddUnitsStep(Start, units, u, cfg);
      ghost var before := AddUnits(Start, units[..u], cfg);
      if unit.section.Some? && unit.section.value != "" {
        currentSectionPath := [unit.section.value];
      }
      var parts;
      if mode == Sentence {
        parts := Split(SentenceBreak, unit.text);
      } else if mode == Section {
        parts := [unit.text];
      } else {
        parts := Split(ParagraphBreak, unit.text);
      }
      ghost var entered := Enter(before, unit.section);
      chunks, currentText, currentPages :=
        PackParts(documentId, maxChunkSize, clock, cfg, entered, chunks, currentText, currentPages, currentSectionPath,
                  parts, unit.page);
      chunkIndex := |chunks|;
      u := u + 1;
    }
    ghost var last := AddUnits(Start, units[..u], cfg);
    if Strip(currentText) != "" {
      var chunk := Chunk(Strip(currentText),
                         ChunkMetadata(documentId, Lowest(currentPages), Highest(currentPages),
                                       currentSectionPath, chunkIndex, clock(chunkIndex)));
      assert chunk == Emit(last, cfg);
      chunks := chunks + [chunk];
    }
    assert units[..u] == units;
  }

  /** The inner loop of `semantic_chunker`: the parts of one unit, packed into the open chunk. */
  method PackParts(documentId: string, maxChunkSize: int, clock: nat -> Timestamp, ghost cfg: Settings, ghost st0: Packer,
                   chunks0: seq<Chunk>, text0: string, pages0: seq<nat>, path: seq<string>,
                   parts: seq<string>, page: nat)
    returns (chunks: seq<Chunk>, currentText: string, currentPages: seq<nat>)
    requires cfg.documentId == documentId && cfg.maxChunkSize == maxChunkSize && cfg.clock == clock
    requires Holds(st0, chunks0, text0, pages0, path)
    ensures Holds(AddParts(st0, parts, page, cfg), chunks, currentText, currentPages, path)
  {
    chunks, currentText, currentPages := chunks0, text0, pages0;
    var chunkIndex := |chunks|;
    var j := 0;
    while j < |parts|
      invariant j <= |parts|
      invariant Holds(AddParts(st0, parts[..j], page, cfg), chunks, currentText, currentPages, path)
      invariant chunkIndex == |chunks|
    {
      ghost var st := AddParts(st0, parts[..j], page, cfg);
      AddPartsStep(st0, parts, j, page, cfg);
      AddPartCases(st, parts[j], page, cfg);
      var part := Strip(parts[j]);
      if part != "" {
        if |currentText| + |part| > maxChunkSize && currentText != "" {
          var chunk := Chunk(Strip(currentText),
                             ChunkMetadata(documentId, Lowest(currentPages), Highest(currentPages),
                                           path, chunkIndex, clock(chunkIndex)));
          chunks := chunks + [chunk];
          chunkIndex := chunkIndex + 1;
          currentText := "";
          currentPages := [];
        }
        currentText := currentText + ("\n" + part);
        currentPages := currentPages + [page];
      }
      j := j + 1;
    }
    assert parts[..j] == parts;
  }

  /** `AddPart` case by case. */
  lemma AddPartCases(st: Packer, raw: string, page: nat, cfg: Settings)
    ensures Strip(raw) == "" ==> AddPart(st, raw, page, cfg) == st
    ensures Strip(raw) != "" && |st.text| + |Strip(raw)| > cfg.maxChunkSize && st.text != "" ==>
              AddPart(st, raw, page, cfg)
              == Packer(st.chunks + [Emit(st, cfg)], "\n" + Strip(raw), [page], st.path, st.groups + [st.cur], [Strip(raw)])
    ensures Strip(raw) != "" && !(|st.text| + |Strip(raw)| > cfg.maxChunkSize && st.text != "") ==>
              AddPart(st, raw, page, cfg)
              == Packer(st.chunks, st.text + ("\n" + Strip(raw)), st.pages + [page], st.path, st.groups, st.cur + [Strip(raw)])
  {
    assert "" + ("\n" + Strip(raw)) == "\n" + Strip(raw);
  }

  /** The method's variables agree with the fold's state. */
  predicate Holds(st: Packer, chunks: seq<Chunk>, text: string, pages: seq<nat>, path: seq<string>) {
    st.chunks == chunks && st.text == text && st.pages == pages && st.path == path
  }

  lemma AddPartsStep(st: Packer, parts: seq<string>, j: nat, page: nat, cfg: Settings)
    requires j < |parts|
    ensures AddParts(st, parts[..j + 1], page, cfg) == AddPart(AddParts(st, parts[..j], page, cfg), parts[j], page, cfg)
  {
    assert parts[..j + 1][..j] == parts[..j];
  }

  lemma AddUnitsStep(st: Packer, units: seq<Unit>, u: nat, cfg: Settings)
    requires u < |units|
    ensures AddUnits(st, units[..u + 1], cfg) == AddUnit(AddUnits(st, units[..u], cfg), units[u], cfg)
  {
    assert units[..u + 1][..u] == units[..u];
  }

  // ----- What the chunks are -----

  /** `"\n" + p0 + "\n" + p1 …` is a newline in front of the parts joined with "\n". */
  lemma {:induction false} PrefixedJoin(cur: seq<string>)
    requires cur != []
    ensures Prefixed(cur) == "\n" + Join(cur, "\n")
    decreases |cur|
  {
    var init, last := cur[..|cur| - 1], cur[|cur| - 1];
    if init == [] {
      assert Prefixed(cur) == "" + ("\n" + last);
    } else {
      PrefixedJoin(init);
      assert Prefixed(cur) == ("\n" + Join(init, "\n")) + ("\n" + last);
      assert Join(cur, "\n") == Join(init, "\n") + "\n" + last;
    }
  }

  /** `current_text.strip()` of a non-empty `current_text` is its parts joined with "\n". */
  lemma StripPrefixed(cur: seq<string>)
    requires cur != [] && PartsOk(cur)
    ensures Strip(Prefixed(cur)) == Join(cur, "\n")
    ensures |Join(cur, "\n")| + 1 == |Prefixed(cur)|
  {
    PrefixedJoin(cur);
    JoinStripped(cur, "\n");
    StripLeadingSpace('\n', Join(cur, "\n"));
    assert "\n" + Join(cur, "\n") == ['\n'] + Join(cur, "\n");
  }

  /**
   * Chunk `k`, built from the parts `group`: its text is those parts joined
   * with "\n"; it is no longer than `max_chunk_size` unless it is one part; it
   * is numbered `k`; its page range lies within 1..`lastPage`.
   */
  predicate ChunkOk(c: Chunk, k: nat, group: seq<string>, cfg: Settings, lastPage: nat) {
    group != [] && PartsOk(group) && c.text == Join(group, "\n")
    && (|group| == 1 || |c.text| <= cfg.maxChunkSize)
    && c.metadata.documentId == cfg.documentId
    && c.metadata.chunkIndex == k && c.metadata.uploadedAt == cfg.clock(k)
    && 1 <= c.metadata.pageStart <= c.metadata.pageEnd <= lastPage
    && |c.metadata.sectionPath| <= 1
  }

  /** The invariant of the packing loop. */
  predicate PackerInvariant(st: Packer, cfg: Settings, lastPage: nat) {
    ClosedOk(st.chunks, st.groups, cfg, lastPage)
    && OpenOk(st.text, st.pages, st.cur, cfg, lastPage)
    && |st.path| <= 1
  }

  /** Every closed chunk is as `ChunkOk` describes. */
  predicate ClosedOk(chunks: seq<Chunk>, groups: seq<seq<string>>, cfg: Settings, lastPage: nat) {
    |chunks| == |groups|
    && forall k :: 0 <= k < |chunks| ==> ChunkOk(chunks[k], k, groups[k], cfg, lastPage)
  }

  /** `current_text` is its parts, each after a newline, at most one part beyond the limit. */
  predicate OpenOk(text: string, pages: seq<nat>, cur: seq<string>, cfg: Settings, lastPage: nat) {
    PartsOk(cur) && text == Prefixed(cur) && |pages| == |cur|
    && (forall k :: 0 <= k < |pages| ==> 1 <= pages[k] <= lastPage)
    && (|cur| >= 2 ==> |text| <= cfg.maxChunkSize + 1)
  }

  /** Closing a non-empty `current_text` gives a chunk numbered `len(embedded_chunks)`. */
  lemma EmitOk(st: Packer, cfg: Settings, lastPage: nat)
    requires PackerInvariant(st, cfg, lastPage) && st.cur != []
    ensures ChunkOk(Emit(st, cfg), |st.chunks|, st.cur, cfg, lastPage)
  {
    StripPrefixed(st.cur);
    LowestIsMinimum(st.pages);
    HighestIsMaximum(st.pages);
  }

  /** Appending a part to `current_text` keeps the invariant when it does not overflow. */
  lemma AppendGood(st: Packer, part: string, page: nat, cfg: Settings, lastPage: nat)
    requires PackerInvariant(st, cfg, lastPage) && 1 <= page <= lastPage && part != "" && Stripped(part)
    requires st.text == "" || |st.text| + |part| <= cfg.maxChunkSize
    ensures PackerInvariant(Packer(st.chunks, st.text + ("\n" + part), st.pages + [page], st.path, st.groups, st.cur + [part]),
                 cfg, lastPage)
  {
    AppendOpen(st.text, st.pages, st.cur, part, page, cfg, lastPage);
  }

  lemma AppendOpen(text: string, pages: seq<nat>, cur: seq<string>, part: string, page: nat, cfg: Settings,
                   lastPage: nat)
    requires OpenOk(text, pages, cur, cfg, lastPage) && 1 <= page <= lastPage && part != "" && Stripped(part)
    requires text == "" || |text| + |part| <= cfg.maxChunkSize
    ensures OpenOk(text + ("\n" + part), pages + [page], cur + [part], cfg, lastPage)
  {
    assert (cur + [part])[..|cur|] == cur;
    if cur != [] {
      assert text != "";
    }
  }

  /** Closing the chunk and starting a new one with the part keeps the invariant. */
  lemma CloseGood(st: Packer, part: string, page: nat, cfg: Settings, lastPage: nat)
    requires PackerInvariant(st, cfg, lastPage) && 1 <= page <= lastPage && part != "" && Stripped(part)
    requires st.text != ""
    ensures PackerInvariant(Packer(st.chunks + [Emit(st, cfg)], "\n" + part, [page], st.path, st.groups + [st.cur], [part]),
                 cfg, lastPage)
  {
    EmitOk(st, cfg, lastPage);
    assert Prefixed([part]) == "" + ("\n" + part) by {
      assert [part][..0] == [];
    }
  }

  lemma AddPartGood(st: Packer, raw: string, page: nat, cfg: Settings, lastPage: nat)
    requires PackerInvariant(st, cfg, lastPage) && 1 <= page <= lastPage
    ensures PackerInvariant(AddPart(st, raw, page, cfg), cfg, lastPage)
  {
    var part := Strip(raw);
    StripIsStripped(raw);
    AddPartCases(st, raw, page, cfg);
    if part != "" {
      if |st.text| + |part| > cfg.maxChunkSize && st.text != "" {
        CloseGood(st, part, page, cfg, lastPage);
      } else {
        AppendGood(st, part, page, cfg, lastPage);
      }
    }
  }

  lemma {:induction false} AddPartsGood(st: Packer, parts: seq<string>, page: nat, cfg: Settings, lastPage: nat)
    requires PackerInvariant(st, cfg, lastPage) && 1 <= page <= lastPage
    ensures PackerInvariant(AddParts(st, parts, page, cfg), cfg, lastPage)
    decreases |parts|
  {
    if parts != [] {
      AddPartsGood(st, parts[..|parts| - 1], page, cfg, lastPage);
      AddPartGood(AddParts(st, parts[..|parts| - 1], page, cfg), parts[|parts| - 1], page, cfg, lastPage);
    }
  }

  lemma {:induction false} AddUnitsGood(st: Packer, units: seq<Unit>, cfg: Settings, lastPage: nat)
    requires PackerInvariant(st, cfg, lastPage)
    requires forall k :: 0 <= k < |units| ==> 1 <= units[k].page <= lastPage
    ensures PackerInvariant(AddUnits(st, units, cfg), cfg, lastPage)
    decreases |units|
  {
    if units != [] {
      var u := units[|units| - 1];
      AddUnitsGood(st, units[..|units| - 1], cfg, lastPage);
      AddPartsGood(Enter(AddUnits(st, units[..|units| - 1], cfg), u.section), Parts(u.text, cfg.mode), u.page, cfg, lastPage);
    }
  }

  /** The parts of the closed chunks, then those of `current_text`. */
  function Packed(st: Packer): seq<string> {
    Flatten(st.groups) + st.cur
  }

  /** `AddPart` packs exactly the kept part, after the ones already packed. */
  lemma AddPartPacks(st: Packer, raw: string, page: nat, cfg: Settings)
    ensures Packed(AddPart(st, raw, page, cfg)) == Packed(st) + Kept([raw])
  {
    AddPartCases(st, raw, page, cfg);
    assert [raw][..0] == [];
    if Strip(raw) != "" && |st.text| + |Strip(raw)| > cfg.maxChunkSize && st.text != "" {
      assert (st.groups + [st.cur])[..|st.groups|] == st.groups;
    }
  }

  lemma {:induction false} AddPartsPacks(st: Packer, parts: seq<string>, page: nat, cfg: Settings)
    ensures Packed(AddParts(st, parts, page, cfg)) == Packed(st) + Kept(parts)
    decreases |parts|
  {
    if parts != [] {
      var init, last := parts[..|parts| - 1], parts[|parts| - 1];
      AddPartsPacks(st, init, page, cfg);
      AddPartPacks(AddParts(st, init, page, cfg), last, page, cfg);
      assert Kept(parts) == Kept(init) + Kept([last]) by {
        assert [last][..0] == [];
      }
    }
  }

  lemma {:induction false} AddUnitsPacks(units: seq<Unit>, cfg: Settings)
    ensures Packed(AddUnits(Start, units, cfg)) == AllParts(units, cfg.mode)
    decreases |units|
  {
    if units != [] {
      var u := units[|units| - 1];
      AddUnitsPacks(units[..|units| - 1], cfg);
      AddPartsPacks(Enter(AddUnits(Start, units[..|units| - 1], cfg), u.section), Parts(u.text, cfg.mode), u.page, cfg);
    }
  }

  lemma FinishOk(st: Packer, cfg: Settings, lastPage: nat)
    requires PackerInvariant(st, cfg, lastPage)
    ensures |Finish(st, cfg)| == |FinishGroups(st)|
    ensures forall k :: 0 <= k < |Finish(st, cfg)| ==> ChunkOk(Finish(st, cfg)[k], k, FinishGroups(st)[k], cfg, lastPage)
    ensures Flatten(FinishGroups(st)) == Packed(st)
  {
    if st.cur != [] {
      EmitOk(st, cfg, lastPage);
      StripPrefixed(st.cur);
      JoinStripped(st.cur, "\n");
      assert (st.groups + [st.cur])[..|st.groups|] == st.groups;
    } else {
      assert Strip("") == "";
    }
  }

  /**
   * `semantic_chunker`: every chunk is built from a non-empty run of kept parts
   * joined with "\n", and these runs, one after the other, are all the kept
   * parts of all the units, in order; chunk `k` is numbered `k`, its page range
   * is not inverted and lies within the document, its section path has at most
   * one entry, and it is no longer than `max_chunk_size` unless it is a single
   * part. An empty page list gives no chunks.
   */
  lemma SemanticChunksSpec(pages: seq<seq<string>>, cfg: Settings)
    ensures pages == [] ==> SemanticChunks(pages, cfg) == []
    ensures |SemanticChunks(pages, cfg)| == |ChunkGroups(pages, cfg)|
    ensures forall k :: 0 <= k < |SemanticChunks(pages, cfg)| ==>
              ChunkOk(SemanticChunks(pages, cfg)[k], k, ChunkGroups(pages, cfg)[k], cfg, |pages|)
    ensures Flatten(ChunkGroups(pages, cfg)) == AllParts(Segment(pages), cfg.mode)
  {
    if pages != [] {
      var units := Segment(pages);
      SegmentWellFormed(pages);
      assert PackerInvariant(Start, cfg, |pages|);
      AddUnitsGood(Start, units, cfg, |pages|);
      AddUnitsPacks(units, cfg);
      FinishOk(AddUnits(Start, units, cfg), cfg, |pages|);
    } else {
      assert Flatten<string>([]) == [];
    }
  }

  /** The chunks are numbered 0, 1, … in output order. */
  lemma SemanticChunksNumbered(pages: seq<seq<string>>, cfg: Settings)
    ensures Numbered(SemanticChunks(pages, cfg))
  {
    SemanticChunksSpec(pages, cfg);
  }

  /**
   * Every chunk text is non-empty and at most `max_chunk_size` long unless the
   * chunk is one part on its own; every page range is within the document and
   * not inverted; every section path has at most one entry.
   */
  lemma SemanticChunksBounded(pages: seq<seq<string>>, cfg: Settings)
    ensures forall c :: c in SemanticChunks(pages, cfg) ==>
              c.text != "" && Stripped(c.text)
              && 1 <= c.metadata.pageStart <= c.metadata.pageEnd <= |pages|
              && |c.metadata.sectionPath| <= 1
    ensures |ChunkGroups(pages, cfg)| == |SemanticChunks(pages, cfg)|
    ensures forall k :: 0 <= k < |SemanticChunks(pages, cfg)| ==>
              |SemanticChunks(pages, cfg)[k].text| <= cfg.maxChunkSize
              || ChunkGroups(pages, cfg)[k] == [SemanticChunks(pages, cfg)[k].text]
  {
    var cs, gs := SemanticChunks(pages, cfg), ChunkGroups(pages, cfg);
    SemanticChunksSpec(pages, cfg);
    forall k | 0 <= k < |cs| ensures cs[k].text != "" && Stripped(cs[k].text) {
      JoinStripped(gs[k], "\n");
    }
  }

  /**
   * Nothing is dropped or reordered: the chunk texts joined with "\n" are the
   * kept parts of all the units joined with "\n".
   */
  lemma SemanticChunksKeepAllParts(pages: seq<seq<string>>, cfg: Settings)
    ensures Join(Texts(SemanticChunks(pages, cfg)), "\n") == Join(AllParts(Segment(pages), cfg.mode), "\n")
  {
    var cs, gs := SemanticChunks(pages, cfg), ChunkGroups(pages, cfg);
    SemanticChunksSpec(pages, cfg);
    assert Texts(cs) == JoinEach(gs, "\n");
    JoinFlatten(gs, "\n");
  }
}
