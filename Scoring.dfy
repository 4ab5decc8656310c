/**
 * The four component scores of the re-ranker and their weighted sum. Scores
 * are exact reals: the model does not round as floating point does.
 */
module Scoring {
  import opened Wrappers
  import opened Text

  /** Python raises `ZeroDivisionError` for `1.0 / 0.0`. */
  datatype ScoreError = DivisionByZero

  /**
   * `recency_score`: `1 / (1 + age)`, where `age` is the number of seconds
   * between the chunk's upload and now. An age of exactly -1 divides by zero.
   */
  function RecencyScore(age: real): (r: Result<real, ScoreError>)
    ensures r.Failure? <==> age == -1.0
    ensures r.Success? ==> r.value * (1.0 + age) == 1.0
  {
    if 1.0 + age == 0.0 then Failure(DivisionByZero) else Success(1.0 / (1.0 + age))
  }

  /** A chunk uploaded now scores 1; any later age scores in (0, 1]. */
  lemma RecencyBounds(age: real)
    requires age >= 0.0
    ensures RecencyScore(age).Success?
    ensures 0.0 < RecencyScore(age).value <= 1.0
    ensures age == 0.0 ==> RecencyScore(age).value == 1.0
  {
  }

  /** Older chunks score strictly lower. */
  lemma RecencyDecreasing(older: real, newer: real)
    requires 0.0 <= newer < older
    ensures RecencyScore(older).Success? && RecencyScore(newer).Success?
    ensures RecencyScore(older).value < RecencyScore(newer).value
  {
    RecencyBounds(older);
    RecencyBounds(newer);
  }

  /** `IMPORTANT_SECTIONS` */
  const ImportantSections: set<string> := {"definition", "definitions", "overview", "introduction"}

  /**
   * `hierarchy_score`: 1 as soon as one section of the path, lower-cased, is
   * an important section; 0 otherwise, an empty path included.
   */
  function HierarchyScore(sectionPath: seq<string>): (r: real)
    ensures r == 1.0 <==> exists k :: 0 <= k < |sectionPath| && AsciiLower(sectionPath[k]) in ImportantSections
    ensures r == 0.0 || r == 1.0
    decreases |sectionPath|
  {
    if sectionPath == [] then 0.0
    else if AsciiLower(sectionPath[0]) in ImportantSections then 1.0
    else
      var rest := HierarchyScore(sectionPath[1..]);
      assert forall k :: 1 <= k < |sectionPath| ==> sectionPath[k] == sectionPath[1..][k - 1];
      rest
  }

  /**
   * `adjacency_score`: 0.5 when the chunk before or the chunk after is one
   * of the relevant chunks (both present still gives 0.5), 0 otherwise.
   */
  function AdjacencyScore(chunkIndex: int, relevant: set<int>): (r: real)
    ensures r == 0.5 <==> chunkIndex - 1 in relevant || chunkIndex + 1 in relevant
    ensures r == 0.0 || r == 0.5
  {
    if chunkIndex - 1 in relevant then 0.5
    else if chunkIndex + 1 in relevant then 0.5
    else 0.0
  }

  datatype Weights = Weights(w1: real, w2: real, w3: real, w4: real)

  /** The default weights of `final_score`. */
  const DefaultWeights := Weights(0.55, 0.20, 0.15, 0.10)

  /** `final_score` */
  function FinalScore(similarity: real, recency: real, hierarchy: real, adjacency: real, w: Weights): real {
    similarity * w.w1 + recency * w.w2 + hierarchy * w.w3 + adjacency * w.w4
  }

  /**
   * With the default weights (which sum to 1) the final score is a convex
   * combination: with every component in [0, 1] it is in [0, 1], it grows
   * with the similarity, and with the other components 0 it is 0.55·similarity.
   */
  lemma DefaultFinalScore(similarity: real, recency: real, hierarchy: real, adjacency: real)
    ensures DefaultWeights.w1 + DefaultWeights.w2 + DefaultWeights.w3 + DefaultWeights.w4 == 1.0
    ensures 0.0 <= similarity <= 1.0 && 0.0 <= recency <= 1.0 && 0.0 <= hierarchy <= 1.0 && 0.0 <= adjacency <= 1.0
            ==> 0.0 <= FinalScore(similarity, recency, hierarchy, adjacency, DefaultWeights) <= 1.0
    ensures recency == hierarchy == adjacency == 0.0 ==>
              FinalScore(similarity, recency, hierarchy, adjacency, DefaultWeights) == 0.55 * similarity
    ensures forall s :: s > similarity ==>
              FinalScore(s, recency, hierarchy, adjacency, DefaultWeights)
              > FinalScore(similarity, recency, hierarchy, adjacency, DefaultWeights)
  {
  }
}
