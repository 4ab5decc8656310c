/** The `Chunk` and `ChunkMetadata` records both chunkers produce. */
module Chunks {

  /** `uploaded_at`: the instant the clock gave when the chunk was built. */
  type Timestamp = int

  datatype ChunkMetadata = ChunkMetadata(
    documentId: string,
    pageStart: int,
    pageEnd: int,
    sectionPath: seq<string>,
    chunkIndex: int,
    uploadedAt: Timestamp)

  datatype Chunk = Chunk(text: string, metadata: ChunkMetadata)

  /** The texts of `chunks`, in order. */
  function Texts(chunks: seq<Chunk>): (r: seq<string>)
    ensures |r| == |chunks|
    ensures forall k :: 0 <= k < |chunks| ==> r[k] == chunks[k].text
  {
    seq(|chunks|, k requires 0 <= k < |chunks| => chunks[k].text)
  }

  /** `min(ps)`; callers only apply it to a non-empty list (0 stands for the empty one). */
  function Lowest(ps: seq<int>): int
    decreases |ps|
  {
    if |ps| <= 1 then (if ps == [] then 0 else ps[0])
    else
      var rest := Lowest(ps[1..]);
      if ps[0] <= rest then ps[0] else rest
  }

  /** `max(ps)`; callers only apply it to a non-empty list (0 stands for the empty one). */
  function Highest(ps: seq<int>): int
    decreases |ps|
  {
    if |ps| <= 1 then (if ps == [] then 0 else ps[0])
    else
      var rest := Highest(ps[1..]);
      if ps[0] >= rest then ps[0] else rest
  }

  /** `min` of a non-empty list is one of its elements and no element is below it. */
  lemma {:induction false} LowestIsMinimum(ps: seq<int>)
    requires ps != []
    ensures Lowest(ps) in ps && forall k :: 0 <= k < |ps| ==> Lowest(ps) <= ps[k]
    decreases |ps|
  {
    if |ps| > 1 {
      LowestIsMinimum(ps[1..]);
      assert forall k :: 1 <= k < |ps| ==> ps[k] == ps[1..][k - 1];
    }
  }

  /** `max` of a non-empty list is one of its elements and no element is above it. */
  lemma {:induction false} HighestIsMaximum(ps: seq<int>)
    requires ps != []
    ensures Highest(ps) in ps && forall k :: 0 <= k < |ps| ==> ps[k] <= Highest(ps)
    decreases |ps|
  {
    if |ps| > 1 {
      HighestIsMaximum(ps[1..]);
      assert forall k :: 1 <= k < |ps| ==> ps[k] == ps[1..][k - 1];
    }
  }

  /** The page range of a non-empty list of pages is not inverted. */
  lemma LowestAtMostHighest(ps: seq<int>)
    requires ps != []
    ensures Lowest(ps) <= Highest(ps)
  {
    LowestIsMinimum(ps);
    HighestIsMaximum(ps);
  }

  /** Chunk `k` carries `chunk_index` k: the indices are exactly 0..|chunks|-1, in order. */
  predicate Numbered(chunks: seq<Chunk>) {
    forall k :: 0 <= k < |chunks| ==> chunks[k].metadata.chunkIndex == k
  }
}
