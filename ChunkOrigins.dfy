/**
 * Where the page range and the section path of a semantic chunk come from.
 * Every kept part has an origin: the page of its unit, and the section path
 * in effect when the chunker packs it (the last non-empty section among the
 * units up to and including its own). A chunk's page range is the smallest
 * and the largest page of its own parts. Its section path is the one in
 * effect when it is closed: that of the part that did not fit, which may
 * belong to a later section than the chunk's own parts, or, for the last
 * chunk, the one in effect after the last unit.
 */
module ChunkOrigins {
  import opened Wrappers
  import opened Text
  import opened Segmenter
  import opened Chunks
  import opened SemanticChunker

  /** The page of a part's unit and the section path in effect when the part is packed. */
  datatype Origin = Origin(page: nat, path: seq<string>)

  function PagesOf(origins: seq<Origin>): (ps: seq<nat>)
    ensures |ps| == |origins|
    ensures forall k :: 0 <= k < |origins| ==> ps[k] == origins[k].page
  {
    seq(|origins|, k requires 0 <= k < |origins| => origins[k].page)
  }

  function Repeat<T>(x: T, n: nat): (r: seq<T>)
    ensures |r| == n
    ensures forall k :: 0 <= k < n ==> r[k] == x
  {
    seq(n, k => x)
  }

  /** The section path after `units`: the last non-empty section among them, or none. */
  function PathAfter(units: seq<Unit>): seq<string>
    decreases |units|
  {
    if units == [] then []
    else
      var u := units[|units| - 1];
      if u.section.Some? && u.section.value != "" then [u.section.value] else PathAfter(units[..|units| - 1])
  }

  /**
   * The origin of every kept part of `units`, in the order of `AllParts`:
   * each kept part of unit `u` has `u`'s page and the path after the units
   * up to and including `u`.
   */
  function Origins(units: seq<Unit>, mode: Mode): (r: seq<Origin>)
    ensures |r| == |AllParts(units, mode)|
    decreases |units|
  {
    if units == [] then []
    else
      var u := units[|units| - 1];
      Origins(units[..|units| - 1], mode) + Repeat(Origin(u.page, PathAfter(units)), |Kept(Parts(u.text, mode))|)
  }

  /** Where the parts of chunk `k` begin among all the parts. */
  function GroupStart(groups: seq<seq<string>>, k: nat): nat
    requires k <= |groups|
  {
    |Flatten(groups[..k])|
  }

  /** Chunk `c` is built from the parts at `a..b` and was closed when the part at `b` arrived. */
  predicate ClosedFrom(c: Chunk, origins: seq<Origin>, a: nat, b: nat) {
    a <= b < |origins|
    && c.metadata.pageStart == Lowest(PagesOf(origins[a..b]))
    && c.metadata.pageEnd == Highest(PagesOf(origins[a..b]))
    && c.metadata.sectionPath == origins[b].path
  }

  /** The packing state against the origins of the parts packed so far. */
  predicate Traced(st: Packer, origins: seq<Origin>) {
    |st.chunks| == |st.groups|
    && |origins| == |Flatten(st.groups)| + |st.cur|
    && st.pages == PagesOf(origins[|Flatten(st.groups)|..])
    && forall k :: 0 <= k < |st.chunks| ==>
         ClosedFrom(st.chunks[k], origins, GroupStart(st.groups, k), GroupStart(st.groups, k + 1))
  }

  lemma AddPartTraced(st: Packer, raw: string, page: nat, cfg: Settings, origins: seq<Origin>)
    requires Traced(st, origins)
    ensures Traced(AddPart(st, raw, page, cfg), origins + Repeat(Origin(page, st.path), |Kept([raw])|))
    ensures AddPart(st, raw, page, cfg).path == st.path
  {
    AddPartCases(st, raw, page, cfg);
    assert [raw][..0] == [];
    var part := Strip(raw);
    var o := Origin(page, st.path);
    if part != "" {
      assert origins + Repeat(o, |Kept([raw])|) == origins + [o];
      if |st.text| + |part| > cfg.maxChunkSize && st.text != "" {
        CloseTraced(st, part, page, cfg, origins);
      } else {
        AppendTraced(st, part, page, origins);
      }
    } else {
      assert origins + Repeat(o, |Kept([raw])|) == origins;
    }
  }

  /** Closing the chunk before the part records where the closed chunk came from. */
  lemma CloseTraced(st: Packer, part: string, page: nat, cfg: Settings, origins: seq<Origin>)
    requires Traced(st, origins)
    ensures Traced(Packer(st.chunks + [Emit(st, cfg)], "\n" + part, [page], st.path, st.groups + [st.cur], [part]),
                   origins + [Origin(page, st.path)])
  {
    var o := Origin(page, st.path);
    var origins' := origins + [o];
    var f := |Flatten(st.groups)|;
    var groups' := st.groups + [st.cur];
    var chunks' := st.chunks + [Emit(st, cfg)];
    assert Flatten(groups') == Flatten(st.groups) + st.cur by {
      assert groups'[..|st.groups|] == st.groups;
    }
    assert origins'[|Flatten(groups')|..] == [o];
    forall k | 0 <= k < |chunks'|
      ensures ClosedFrom(chunks'[k], origins', GroupStart(groups', k), GroupStart(groups', k + 1))
    {
      if k < |st.chunks| {
        assert groups'[..k] == st.groups[..k] && groups'[..k + 1] == st.groups[..k + 1];
        var a, b := GroupStart(st.groups, k), GroupStart(st.groups, k + 1);
        assert origins'[a..b] == origins[a..b];
      } else {
        assert groups'[..k] == st.groups && groups'[..k + 1] == groups';
        assert origins'[f..|origins|] == origins[f..];
      }
    }
  }

  /** Appending the part to `current_text` keeps the closed chunks' origins. */
  lemma AppendTraced(st: Packer, part: string, page: nat, origins: seq<Origin>)
    requires Traced(st, origins)
    ensures Traced(Packer(st.chunks, st.text + ("\n" + part), st.pages + [page], st.path, st.groups, st.cur + [part]),
                   origins + [Origin(page, st.path)])
  {
    var o := Origin(page, st.path);
    var origins' := origins + [o];
    var f := |Flatten(st.groups)|;
    assert origins'[f..] == origins[f..] + [o];
    forall k | 0 <= k < |st.chunks|
      ensures ClosedFrom(st.chunks[k], origins', GroupStart(st.groups, k), GroupStart(st.groups, k + 1))
    {
      var a, b := GroupStart(st.groups, k), GroupStart(st.groups, k + 1);
      assert origins'[a..b] == origins[a..b];
    }
  }

  lemma {:induction false} AddPartsTraced(st: Packer, parts: seq<string>, page: nat, cfg: Settings, origins: seq<Origin>)
    requires Traced(st, origins)
    ensures Traced(AddParts(st, parts, page, cfg), origins + Repeat(Origin(page, st.path), |Kept(parts)|))
    ensures AddParts(st, parts, page, cfg).path == st.path
    decreases |parts|
  {
    var o := Origin(page, st.path);
    if parts == [] {
      assert origins + Repeat(o, 0) == origins;
    } else {
      var init, last := parts[..|parts| - 1], parts[|parts| - 1];
      AddPartsTraced(st, init, page, cfg, origins);
      var mid := AddParts(st, init, page, cfg);
      AddPartTraced(mid, last, page, cfg, origins + Repeat(o, |Kept(init)|));
      assert |Kept(parts)| == |Kept(init)| + |Kept([last])| by {
        assert [last][..0] == [];
      }
      assert (origins + Repeat(o, |Kept(init)|)) + Repeat(o, |Kept([last])|) == origins + Repeat(o, |Kept(parts)|);
    }
  }

  lemma {:induction false} AddUnitsTraced(units: seq<Unit>, cfg: Settings)
    ensures Traced(AddUnits(Start, units, cfg), Origins(units, cfg.mode))
    ensures AddUnits(Start, units, cfg).path == PathAfter(units)
    decreases |units|
  {
    if units == [] {
      assert Flatten<string>([]) == [];
    } else {
      var init, u := units[..|units| - 1], units[|units| - 1];
      AddUnitsTraced(init, cfg);
      var entered := Enter(AddUnits(Start, init, cfg), u.section);
      AddPartsTraced(entered, Parts(u.text, cfg.mode), u.page, cfg, Origins(init, cfg.mode));
    }
  }

  /**
   * Chunk `c` is built from the parts at `a..b`; its section path is that of
   * the part at `b`, or `lastPath` when no part follows.
   */
  predicate FinishedFrom(c: Chunk, origins: seq<Origin>, a: nat, b: nat, lastPath: seq<string>) {
    a <= b <= |origins|
    && c.metadata.pageStart == Lowest(PagesOf(origins[a..b]))
    && c.metadata.pageEnd == Highest(PagesOf(origins[a..b]))
    && c.metadata.sectionPath == if b < |origins| then origins[b].path else lastPath
  }

  /** The closed chunks keep their origins when `Finish` closes the last one. */
  lemma FinishTraced(st: Packer, origins: seq<Origin>, cfg: Settings)
    requires Traced(st, origins) && |Finish(st, cfg)| == |FinishGroups(st)|
    ensures |origins| == |Flatten(FinishGroups(st))|
    ensures forall k :: 0 <= k < |Finish(st, cfg)| ==>
              FinishedFrom(Finish(st, cfg)[k], origins, GroupStart(FinishGroups(st), k), GroupStart(FinishGroups(st), k + 1),
                           st.path)
  {
    var gs, cs := FinishGroups(st), Finish(st, cfg);
    if st.cur != [] {
      assert gs[..|st.groups|] == st.groups;
    }
    forall k | 0 <= k < |cs|
      ensures FinishedFrom(cs[k], origins, GroupStart(gs, k), GroupStart(gs, k + 1), st.path)
    {
      if k < |st.chunks| {
        assert gs[..k] == st.groups[..k] && gs[..k + 1] == st.groups[..k + 1];
        assert ClosedFrom(st.chunks[k], origins, GroupStart(st.groups, k), GroupStart(st.groups, k + 1));
      } else {
        assert gs[..k] == st.groups && gs[..k + 1] == gs;
        var a := |Flatten(st.groups)|;
        assert origins[a..|origins|] == origins[a..];
        assert cs[k] == Emit(st, cfg);
      }
    }
  }

  /** `c`'s page range runs from the smallest to the largest of the pages `ps`. */
  predicate SpansPages(c: Chunk, ps: seq<nat>) {
    c.metadata.pageStart in ps && c.metadata.pageEnd in ps
    && forall j :: 0 <= j < |ps| ==> c.metadata.pageStart <= ps[j] <= c.metadata.pageEnd
  }

  /**
   * Chunk `c` is built from the parts at `a..b` (at least one): its page
   * range runs from the smallest to the largest of their pages, and its
   * section path is that of the part at `b`, the one that did not fit, or
   * `lastPath` when no part follows.
   */
  predicate BuiltFrom(c: Chunk, origins: seq<Origin>, a: nat, b: nat, lastPath: seq<string>) {
    a < b <= |origins|
    && SpansPages(c, PagesOf(origins[a..b]))
    && c.metadata.sectionPath == if b < |origins| then origins[b].path else lastPath
  }

  /**
   * The page range of semantic chunk `k` runs from the smallest to the
   * largest page of the units its own parts come from. Its section path is
   * the one in effect when the part after it arrived, so it can name a later
   * section than its parts do; the last chunk has the path in effect after
   * the last unit.
   */
  lemma SemanticChunkOrigins(pages: seq<seq<string>>, cfg: Settings)
    ensures |SemanticChunks(pages, cfg)| == |ChunkGroups(pages, cfg)|
    ensures |Origins(Segment(pages), cfg.mode)| == |Flatten(ChunkGroups(pages, cfg))|
    ensures forall k :: 0 <= k < |SemanticChunks(pages, cfg)| ==>
              BuiltFrom(SemanticChunks(pages, cfg)[k], Origins(Segment(pages), cfg.mode),
                        GroupStart(ChunkGroups(pages, cfg), k), GroupStart(ChunkGroups(pages, cfg), k + 1),
                        PathAfter(Segment(pages)))
  {
    var units := Segment(pages);
    GroupsNonEmpty(pages, cfg);
    if pages != [] {
      var st := AddUnits(Start, units, cfg);
      AddUnitsTraced(units, cfg);
      FinishTraced(st, Origins(units, cfg.mode), cfg);
      FinishSpans(st, Origins(units, cfg.mode), cfg);
      assert SemanticChunks(pages, cfg) == Finish(st, cfg) && ChunkGroups(pages, cfg) == FinishGroups(st);
    }
  }

  /** Each chunk `Finish` returns is built from its own parts. */
  lemma FinishSpans(st: Packer, origins: seq<Origin>, cfg: Settings)
    requires |origins| == |Flatten(FinishGroups(st))| && |Finish(st, cfg)| == |FinishGroups(st)|
    requires forall k :: 0 <= k < |FinishGroups(st)| ==> FinishGroups(st)[k] != []
    requires forall k :: 0 <= k < |Finish(st, cfg)| ==>
               FinishedFrom(Finish(st, cfg)[k], origins, GroupStart(FinishGroups(st), k),
                            GroupStart(FinishGroups(st), k + 1), st.path)
    ensures forall k :: 0 <= k < |Finish(st, cfg)| ==>
              BuiltFrom(Finish(st, cfg)[k], origins, GroupStart(FinishGroups(st), k),
                        GroupStart(FinishGroups(st), k + 1), st.path)
  {
    var cs, gs := Finish(st, cfg), FinishGroups(st);
    forall k | 0 <= k < |cs|
      ensures BuiltFrom(cs[k], origins, GroupStart(gs, k), GroupStart(gs, k + 1), st.path)
    {
      var a, b := GroupStart(gs, k), GroupStart(gs, k + 1);
      assert Flatten(gs[..k + 1]) == Flatten(gs[..k]) + gs[k] by {
        assert gs[..k + 1][..k] == gs[..k];
      }
      assert FinishedFrom(cs[k], origins, a, b, st.path);
      LowestHighestSpan(cs[k], PagesOf(origins[a..b]));
    }
  }

  /**
   * A chunk closed by a part of a later section carries that section: in
   * section mode, when the text `t1` of a unit under section `b` does not fit
   * after the text `t0` of a unit under section `a`, the chunk holding `t0`
   * is tagged `b`, not `a`. (With a limit of 10, "tail" under `# Intro`
   * followed by "more text" under `Section Two:` gives a chunk "tail" tagged
   * `Section Two:`.)
   */
  lemma ClosingSectionNamesChunk(t0: string, t1: string, a: string, b: string, p0: nat, p1: nat, cfg: Settings)
    requires t0 != "" && Stripped(t0) && t1 != "" && Stripped(t1) && a != "" && b != ""
    requires cfg.mode == Section && |t0| + 1 + |t1| > cfg.maxChunkSize
    ensures var cs := Finish(AddUnits(Start, [Unit(t0, p0, Some(a)), Unit(t1, p1, Some(b))], cfg), cfg);
            |cs| == 2
            && cs[0].text == t0 && cs[0].metadata.sectionPath == [b]
            && cs[1].text == t1 && cs[1].metadata.sectionPath == [b]
  {
    var u0, u1 := Unit(t0, p0, Some(a)), Unit(t1, p1, Some(b));
    var e1 := Packer([], "\n" + t0, [p0], [b], [], [t0]);
    TwoUnits(u0, u1, e1, cfg);
    FinishTwo(e1, Packer([Emit(e1, cfg)], "\n" + t1, [p1], [b], [[t0]], [t1]), t0, t1, cfg);
  }

  /** The state after the two units: the first chunk closed, the second unit's text open. */
  lemma TwoUnits(u0: Unit, u1: Unit, e1: Packer, cfg: Settings)
    requires u0.text != "" && Stripped(u0.text) && u0.section.Some? && u0.section.value != ""
    requires u1.text != "" && Stripped(u1.text) && u1.section.Some? && u1.section.value != ""
    requires cfg.mode == Section && |u0.text| + 1 + |u1.text| > cfg.maxChunkSize
    requires e1 == Packer([], "\n" + u0.text, [u0.page], [u1.section.value], [], [u0.text])
    ensures AddUnits(Start, [u0, u1], cfg)
            == Packer([Emit(e1, cfg)], "\n" + u1.text, [u1.page], [u1.section.value], [[u0.text]], [u1.text])
  {
    var st0 := Packer([], "\n" + u0.text, [u0.page], [u0.section.value], [], [u0.text]);
    FirstUnit(u0, cfg);
    assert Enter(st0, u1.section) == e1;
    SecondUnit(e1, u1, cfg);
    assert [u0, u1][..1] == [u0];
  }

  /** `Finish` after the second unit closed the first chunk. */
  lemma FinishTwo(e1: Packer, st1: Packer, t0: string, t1: string, cfg: Settings)
    requires t0 != "" && Stripped(t0) && t1 != "" && Stripped(t1)
    requires e1.text == "\n" + t0
    requires st1.chunks == [Emit(e1, cfg)] && st1.text == "\n" + t1 && st1.path == e1.path
    ensures |Finish(st1, cfg)| == 2
    ensures Finish(st1, cfg)[0].text == t0 && Finish(st1, cfg)[0].metadata.sectionPath == e1.path
    ensures Finish(st1, cfg)[1].text == t1 && Finish(st1, cfg)[1].metadata.sectionPath == e1.path
  {
    StripAfterNewline(t0);
    StripAfterNewline(t1);
  }

  /** `("\n" + t).strip()` of a stripped non-empty `t` is `t`. */
  lemma StripAfterNewline(t: string)
    requires t != [] && Stripped(t)
    ensures Strip("\n" + t) == t && Strip(t) == t
  {
    StripStripped(t);
    StripLeadingSpace('\n', t);
    assert "\n" + t == ['\n'] + t;
  }

  /** In section mode a unit is one part. */
  lemma SectionIsOnePart(text: string, mode: Mode)
    requires mode == Section
    ensures Parts(text, mode) == [text]
  {
  }

  /** The state after a first unit in section mode: its text open, its section in effect. */
  lemma FirstUnit(u0: Unit, cfg: Settings)
    requires u0.text != "" && Stripped(u0.text) && u0.section.Some? && u0.section.value != ""
    requires cfg.mode == Section
    ensures AddUnits(Start, [u0], cfg) == Packer([], "\n" + u0.text, [u0.page], [u0.section.value], [], [u0.text])
  {
    var e0 := Packer([], "", [], [u0.section.value], [], []);
    OpenFirstPart(e0, u0.text, u0.page, cfg);
    WholeUnit(Start, u0, cfg);
    OneUnit(Start, u0, cfg);
  }

  /** The first part goes into an empty `current_text`. */
  lemma OpenFirstPart(e0: Packer, t: string, p: nat, cfg: Settings)
    requires t != "" && Stripped(t) && e0.chunks == [] && e0.text == "" && e0.pages == [] && e0.groups == [] && e0.cur == []
    ensures AddPart(e0, t, p, cfg) == Packer([], "\n" + t, [p], e0.path, [], [t])
  {
    StripAfterNewline(t);
    AddPartCases(e0, t, p, cfg);
    assert "" + ("\n" + t) == "\n" + t;
  }

  /** In section mode a unit is its own single part. */
  lemma WholeUnit(st: Packer, u: Unit, cfg: Settings)
    requires cfg.mode == Section
    ensures AddUnit(st, u, cfg) == AddPart(Enter(st, u.section), u.text, u.page, cfg)
  {
    var e := Enter(st, u.section);
    SectionIsOnePart(u.text, cfg.mode);
    assert [u.text][..0] == [];
    assert AddParts(e, [u.text], u.page, cfg) == AddPart(AddParts(e, [], u.page, cfg), u.text, u.page, cfg);
  }

  /** One unit is one `AddUnit` step. */
  lemma OneUnit(st: Packer, u: Unit, cfg: Settings)
    ensures AddUnits(st, [u], cfg) == AddUnit(st, u, cfg)
  {
    assert [u][..0] == [];
  }

  /** A part that does not fit closes the open chunk and opens a new one. */
  lemma SecondUnit(e1: Packer, u1: Unit, cfg: Settings)
    requires u1.text != "" && Stripped(u1.text) && cfg.mode == Section
    requires e1.chunks == [] && e1.groups == [] && e1.text != "" && |e1.text| + |u1.text| > cfg.maxChunkSize
    ensures AddParts(e1, Parts(u1.text, cfg.mode), u1.page, cfg)
            == Packer([Emit(e1, cfg)], "\n" + u1.text, [u1.page], e1.path, [e1.cur], [u1.text])
  {
    var t, p := u1.text, u1.page;
    assert AddPart(e1, t, p, cfg) == Packer([Emit(e1, cfg)], "\n" + t, [p], e1.path, [e1.cur], [t]) by {
      StripAfterNewline(t);
      AddPartCases(e1, t, p, cfg);
    }
    assert AddParts(e1, Parts(t, cfg.mode), p, cfg) == AddPart(e1, t, p, cfg) by {
      SectionIsOnePart(t, cfg.mode);
      assert [t][..0] == [];
    }
  }

  /** Every semantic chunk is built from at least one part. */
  lemma GroupsNonEmpty(pages: seq<seq<string>>, cfg: Settings)
    ensures |SemanticChunks(pages, cfg)| == |ChunkGroups(pages, cfg)|
    ensures |Flatten(ChunkGroups(pages, cfg))| == |AllParts(Segment(pages), cfg.mode)|
    ensures forall k :: 0 <= k < |ChunkGroups(pages, cfg)| ==> ChunkGroups(pages, cfg)[k] != []
  {
    SemanticChunksSpec(pages, cfg);
    forall k | 0 <= k < |ChunkGroups(pages, cfg)| ensures ChunkGroups(pages, cfg)[k] != [] {
      assert ChunkOk(SemanticChunks(pages, cfg)[k], k, ChunkGroups(pages, cfg)[k], cfg, |pages|);
    }
  }

  lemma LowestHighestSpan(c: Chunk, ps: seq<nat>)
    requires ps != []
    requires c.metadata.pageStart == Lowest(ps) && c.metadata.pageEnd == Highest(ps)
    ensures SpansPages(c, ps)
  {
    LowestIsMinimum(ps);
    HighestIsMaximum(ps);
  }
}
