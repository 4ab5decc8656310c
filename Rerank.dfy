/**
 * `Vectordb_Service.rerank_chunks`: the chunk indices of the five most
 * similar hits are the relevant set; every hit gets a final score from its
 * similarity, recency, section path and adjacency to a relevant chunk; the
 * hits are returned stably sorted by descending final score.
 */
module Rerank {
  import opened Wrappers
  import opened Scoring
  import opened StableSort

  /**
   * One search hit. `age` stands for the seconds between `uploaded_at` and
   * `now`; the other payload fields are carried along unchanged.
   */
  datatype Hit = Hit(
    score: real,
    chunkIndex: int,
    sectionPath: seq<string>,
    age: real,
    text: string,
    documentId: string,
    filename: string,
    pageStart: int,
    pageEnd: int)

  /** `{**chunk, "final_score": score}` */
  datatype RankedHit = RankedHit(hit: Hit, finalScore: real)

  function ScoreOf(h: Hit): real { h.score }

  function FinalScoreOf(r: RankedHit): real { r.finalScore }

  const TopCount := 5

  /** `top_similar`: the first five hits after a stable sort by descending similarity. */
  function TopSimilar(hits: seq<Hit>): seq<Hit> {
    var bySimilarity := SortDesc(hits, ScoreOf);
    bySimilarity[..if |bySimilarity| < TopCount then |bySimilarity| else TopCount]
  }

  function ChunkIndices(hits: seq<Hit>): set<int> {
    set h | h in hits :: h.chunkIndex
  }

  /** `relevant_indices` */
  function RelevantIndices(hits: seq<Hit>): set<int> {
    ChunkIndices(TopSimilar(hits))
  }

  /** One hit with its final score; fails where `recency_score` divides by zero. */
  function Decorate(h: Hit, relevant: set<int>): Result<RankedHit, ScoreError> {
    match RecencyScore(h.age)
    case Failure(e) => Failure(e)
    case Success(rec) =>
      Success(RankedHit(h, FinalScore(h.score, rec, HierarchyScore(h.sectionPath),
                                      AdjacencyScore(h.chunkIndex, relevant), DefaultWeights)))
  }

  /** Every hit with its final score, in input order; the first failure stops the loop. */
  function DecorateAll(hits: seq<Hit>, relevant: set<int>): Result<seq<RankedHit>, ScoreError>
    decreases |hits|
  {
    if hits == [] then Success([])
    else
      match DecorateAll(hits[..|hits| - 1], relevant)
      case Failure(e) => Failure(e)
      case Success(rs) =>
        match Decorate(hits[|hits| - 1], relevant)
        case Failure(e) => Failure(e)
        case Success(r) => Success(rs + [r])
  }

  /** What `rerank_chunks` returns, or the error it raises. */
  function Rerank(hits: seq<Hit>): Result<seq<RankedHit>, ScoreError> {
    match DecorateAll(hits, RelevantIndices(hits))
    case Failure(e) => Failure(e)
    case Success(rs) => Success(SortDesc(rs, FinalScoreOf))
  }

  method RerankChunks(retrievedChunks: seq<Hit>) returns (r: Result<seq<RankedHit>, ScoreError>)
    ensures r == Rerank(retrievedChunks)
  {
    var bySimilarity := SortDesc(retrievedChunks, ScoreOf);
    var topSimilar := bySimilarity[..if |bySimilarity| < TopCount then |bySimilarity| else TopCount];
    var relevantIndices := set c | c in topSimilar :: c.chunkIndex;
    assert relevantIndices == RelevantIndices(retrievedChunks);
    var reranked: seq<RankedHit> := [];
    for i := 0 to |retrievedChunks|
      invariant DecorateAll(retrievedChunks[..i], relevantIndices) == Success(reranked)
    {
      var chunk := retrievedChunks[i];
      assert retrievedChunks[..i + 1][..i] == retrievedChunks[..i];
      var sim := chunk.score;
      var rec := RecencyScore(chunk.age);
      if rec.Failure? {
        DecorateAllFailureSticks(retrievedChunks, i + 1, relevantIndices);
        return Failure(rec.error);
      }
      var hier := HierarchyScore(chunk.sectionPath);
      var adj := AdjacencyScore(chunk.chunkIndex, relevantIndices);
      var score := FinalScore(sim, rec.value, hier, adj, DefaultWeights);
      reranked := reranked + [RankedHit(chunk, score)];
    }
    assert retrievedChunks[..|retrievedChunks|] == retrievedChunks;
    reranked := SortDesc(reranked, FinalScoreOf);
    return Success(reranked);
  }

  /** A failure on a prefix of the hits is a failure on all of them. */
  lemma {:induction false} DecorateAllFailureSticks(hits: seq<Hit>, n: nat, relevant: set<int>)
    requires n <= |hits| && DecorateAll(hits[..n], relevant).Failure?
    ensures DecorateAll(hits, relevant) == DecorateAll(hits[..n], relevant)
    decreases |hits| - n
  {
    if n < |hits| {
      assert hits[..n + 1][..n] == hits[..n];
      DecorateAllFailureSticks(hits, n + 1, relevant);
    } else {
      assert hits[..n] == hits;
    }
  }

  /** On success, output `k` is input hit `k` with its final score, and nothing else changed. */
  lemma {:induction false} DecorateAllSpec(hits: seq<Hit>, relevant: set<int>)
    ensures DecorateAll(hits, relevant).Success? <==> forall k :: 0 <= k < |hits| ==> hits[k].age != -1.0
    ensures DecorateAll(hits, relevant).Success? ==>
              var rs := DecorateAll(hits, relevant).value;
              |rs| == |hits|
              && forall k :: 0 <= k < |hits| ==>
                   rs[k].hit == hits[k]
                   && rs[k].finalScore
                      == FinalScore(hits[k].score, RecencyScore(hits[k].age).value, HierarchyScore(hits[k].sectionPath),
                                    AdjacencyScore(hits[k].chunkIndex, relevant), DefaultWeights)
    decreases |hits|
  {
    if hits != [] {
      var init := hits[..|hits| - 1];
      DecorateAllSpec(init, relevant);
      assert forall k :: 0 <= k < |init| ==> init[k] == hits[k];
    }
  }

  lemma ChunkIndicesSize(hits: seq<Hit>)
    ensures |ChunkIndices(hits)| <= |hits|
    decreases |hits|
  {
    if hits != [] {
      var init := hits[..|hits| - 1];
      ChunkIndicesSize(init);
      assert ChunkIndices(hits) == ChunkIndices(init) + {hits[|hits| - 1].chunkIndex} by {
        assert hits == init + [hits[|hits| - 1]];
      }
    }
  }

  /**
   * The top five are taken from the input hits, and the hits left out of
   * them score no higher than any hit in them.
   */
  lemma TopSimilarSpec(hits: seq<Hit>)
    ensures |TopSimilar(hits)| == if |hits| < TopCount then |hits| else TopCount
    ensures multiset(TopSimilar(hits)) <= multiset(hits)
    ensures forall t: Hit, h: Hit :: t in TopSimilar(hits) && h in multiset(hits) - multiset(TopSimilar(hits)) ==>
              h.score <= t.score
  {
    var sorted := SortDesc(hits, ScoreOf);
    SortDescCorrect(hits, ScoreOf);
    var n := if |sorted| < TopCount then |sorted| else TopCount;
    DescendingSplit(sorted, ScoreOf, n);
  }

  /**
   * The relevant set holds the chunk indices of at most five input hits; with
   * five hits or fewer it holds the chunk index of every hit.
   */
  lemma RelevantIndicesSpec(hits: seq<Hit>)
    ensures RelevantIndices(hits) <= ChunkIndices(hits)
    ensures |RelevantIndices(hits)| <= TopCount
    ensures |hits| <= TopCount ==> RelevantIndices(hits) == ChunkIndices(hits)
  {
    var top := TopSimilar(hits);
    TopSimilarSpec(hits);
    forall x | x in top ensures x in hits {
      assert x in multiset(top);
    }
    ChunkIndicesSize(top);
    if |hits| <= TopCount {
      var sorted := SortDesc(hits, ScoreOf);
      SortDescCorrect(hits, ScoreOf);
      assert top == sorted[..|sorted|] == sorted;
      forall x | x in hits ensures x in top {
        assert x in multiset(hits);
      }
    }
  }

  /**
   * `rerank_chunks` succeeds exactly when no hit has age -1; its output then
   * holds every decorated hit once (a permutation of the input, each with only
   * `final_score` added), non-increasing in final score, with hits of equal
   * final score in input order.
   */
  lemma RerankSpec(hits: seq<Hit>)
    ensures Rerank(hits).Success? <==> forall k :: 0 <= k < |hits| ==> hits[k].age != -1.0
    ensures Rerank(hits).Success? ==>
              var decorated := DecorateAll(hits, RelevantIndices(hits)).value;
              var out := Rerank(hits).value;
              |out| == |hits|
              && multiset(out) == multiset(decorated)
              && Descending(out, FinalScoreOf)
              && forall k :: WithKey(out, FinalScoreOf, k) == WithKey(decorated, FinalScoreOf, k)
  {
    DecorateAllSpec(hits, RelevantIndices(hits));
    if Rerank(hits).Success? {
      SortDescCorrect(DecorateAll(hits, RelevantIndices(hits)).value, FinalScoreOf);
    }
  }
}
