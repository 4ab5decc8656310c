/**
 * The section paths the chunkers store, against the section names
 * `hierarchy_score` looks for: a section name is the stripped text of a
 * header line, which starts with `#` or ends with `:`, and no important
 * section name does either. So the hierarchy component is 0 for every chunk
 * the chunkers produce.
 */
module ChunkSections {
  import opened Text
  import opened LinePatterns
  import opened Segmenter
  import opened Chunks
  import opened SemanticChunker
  import opened Scoring

  /** Every entry of the path starts with `#` or ends with `:`. */
  predicate Titled(path: seq<string>) {
    forall k :: 0 <= k < |path| ==> IsHeaderTitle(path[k])
  }

  /** Every entry of the path is the stripped text of a header line of `pages`. */
  predicate HeaderPath(path: seq<string>, pages: seq<seq<string>>) {
    forall k :: 0 <= k < |path| ==> IsSectionOf(pages, path[k])
  }

  predicate PackerTitled(st: Packer, pages: seq<seq<string>>) {
    HeaderPath(st.path, pages) && forall k :: 0 <= k < |st.chunks| ==> HeaderPath(st.chunks[k].metadata.sectionPath, pages)
  }

  lemma AddPartTitled(st: Packer, raw: string, page: nat, cfg: Settings, pages: seq<seq<string>>)
    requires PackerTitled(st, pages)
    ensures PackerTitled(AddPart(st, raw, page, cfg), pages)
  {
    AddPartCases(st, raw, page, cfg);
  }

  lemma {:induction false} AddPartsTitled(st: Packer, parts: seq<string>, page: nat, cfg: Settings, pages: seq<seq<string>>)
    requires PackerTitled(st, pages)
    ensures PackerTitled(AddParts(st, parts, page, cfg), pages)
    decreases |parts|
  {
    if parts != [] {
      AddPartsTitled(st, parts[..|parts| - 1], page, cfg, pages);
      AddPartTitled(AddParts(st, parts[..|parts| - 1], page, cfg), parts[|parts| - 1], page, cfg, pages);
    }
  }

  lemma {:induction false} AddUnitsTitled(units: seq<Unit>, cfg: Settings, pages: seq<seq<string>>)
    requires forall k :: 0 <= k < |units| && units[k].section.Some? ==> IsSectionOf(pages, units[k].section.value)
    ensures PackerTitled(AddUnits(Start, units, cfg), pages)
    decreases |units|
  {
    if units != [] {
      var init, u := units[..|units| - 1], units[|units| - 1];
      AddUnitsTitled(init, cfg, pages);
      AddPartsTitled(Enter(AddUnits(Start, init, cfg), u.section), Parts(u.text, cfg.mode), u.page, cfg, pages);
    }
  }

  /**
   * Every section-path entry of a semantic chunk is the stripped text of a
   * header line of the input, so it starts with `#` or ends with `:`.
   */
  lemma SemanticSectionsTitled(pages: seq<seq<string>>, cfg: Settings)
    ensures forall c :: c in SemanticChunks(pages, cfg) ==> HeaderPath(c.metadata.sectionPath, pages)
  {
    if pages != [] {
      SegmentSectionsAreHeaderTitles(pages);
      var st := AddUnits(Start, Segment(pages), cfg);
      AddUnitsTitled(Segment(pages), cfg, pages);
      forall c | c in Finish(st, cfg) ensures HeaderPath(c.metadata.sectionPath, pages) {
        var k :| 0 <= k < |Finish(st, cfg)| && Finish(st, cfg)[k] == c;
        if k == |st.chunks| {
          assert c == Emit(st, cfg);
        }
      }
    }
  }

  /** No important section name starts with `#` or ends with `:`. */
  lemma TitlesScoreZero(path: seq<string>)
    requires Titled(path)
    ensures HierarchyScore(path) == 0.0
  {
    forall k | 0 <= k < |path| ensures AsciiLower(path[k]) !in ImportantSections {
      var t := AsciiLower(path[k]);
      assert t[0] == '#' || t[|t| - 1] == ':';
    }
  }

  /** `hierarchy_score` is 0 for every chunk of `semantic_chunker`. */
  lemma SemanticChunksHierarchyZero(pages: seq<seq<string>>, cfg: Settings)
    ensures forall c :: c in SemanticChunks(pages, cfg) ==> HierarchyScore(c.metadata.sectionPath) == 0.0
  {
    SemanticSectionsTitled(pages, cfg);
    forall c | c in SemanticChunks(pages, cfg) ensures HierarchyScore(c.metadata.sectionPath) == 0.0 {
      assert Titled(c.metadata.sectionPath);
      TitlesScoreZero(c.metadata.sectionPath);
    }
  }
}
