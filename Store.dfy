/**
 * `Vectordb_Service.store_embeddings`: every embedded chunk becomes one point
 * whose vector is the chunk's embedding and whose payload copies the file name,
 * the chunk's metadata and its text; the points go to the `user_docs`
 * collection in one upsert. An empty input is refused before any upsert.
 */
module Store {
  import opened Chunks

  /** `{"chunk": chunk, "embedding": embedding}` */
  datatype EmbeddedChunk = EmbeddedChunk(chunk: Chunk, embedding: seq<real>)

  datatype PointPayload = PointPayload(
    filename: string,
    documentId: string,
    pageStart: int,
    pageEnd: int,
    sectionPath: seq<string>,
    chunkIndex: int,
    uploadedAt: Timestamp,
    text: string)

  /** `qmodels.PointStruct` without its random id. */
  datatype Point = Point(vector: seq<real>, payload: PointPayload)

  /**
   * What the call returns: the refusal message, or the upsert it sends (the
   * database's reply is not part of the model).
   */
  datatype StoreResponse =
    | NotParsable(message: string)
    | Upserted(collection: string, points: seq<Point>)
  {
    /** The `"success"` flag of the returned dictionary. */
    predicate Succeeded() { Upserted? }
  }

  const NotParsableMessage := "Uploaded doc is not parsable"

  const Collection := "user_docs"

  /** The payload stored with a chunk. */
  function PayloadOf(filename: string, c: Chunk): PointPayload {
    PointPayload(filename, c.metadata.documentId, c.metadata.pageStart, c.metadata.pageEnd,
                 c.metadata.sectionPath, c.metadata.chunkIndex, c.metadata.uploadedAt, c.text)
  }

  /** The chunk a payload describes, as a reader of the collection rebuilds it. */
  function ChunkOf(p: PointPayload): Chunk {
    Chunk(p.text, ChunkMetadata(p.documentId, p.pageStart, p.pageEnd, p.sectionPath, p.chunkIndex, p.uploadedAt))
  }

  /** A payload loses nothing of its chunk and records the file name. */
  lemma PayloadRoundTrip(filename: string, c: Chunk)
    ensures ChunkOf(PayloadOf(filename, c)) == c
    ensures PayloadOf(filename, c).filename == filename
  {
  }

  /** A payload is determined by its file name and chunk. */
  lemma PayloadInjective(f1: string, c1: Chunk, f2: string, c2: Chunk)
    requires PayloadOf(f1, c1) == PayloadOf(f2, c2)
    ensures f1 == f2 && c1 == c2
  {
    PayloadRoundTrip(f1, c1);
    PayloadRoundTrip(f2, c2);
  }

  /**
   * An empty input is refused; otherwise point `i` carries embedding `i` as
   * its vector and chunk `i` (with the file name) as its payload, in input
   * order, and all of them go to `user_docs`.
   */
  method StoreEmbeddings(embeddedChunks: seq<EmbeddedChunk>, filename: string) returns (r: StoreResponse)
    ensures r.NotParsable? <==> embeddedChunks == []
    ensures r.NotParsable? ==> r.message == NotParsableMessage && !r.Succeeded()
    ensures r.Upserted? ==>
              r.Succeeded()
              && r.collection == Collection
              && |r.points| == |embeddedChunks|
              && forall i :: 0 <= i < |embeddedChunks| ==>
                   r.points[i].vector == embeddedChunks[i].embedding
                   && r.points[i].payload.filename == filename
                   && ChunkOf(r.points[i].payload) == embeddedChunks[i].chunk
  {
    if |embeddedChunks| == 0 {
      return NotParsable(NotParsableMessage);
    }
    var points: seq<Point> := [];
    for i := 0 to |embeddedChunks|
      invariant |points| == i
      invariant forall j :: 0 <= j < i ==>
                  points[j].vector == embeddedChunks[j].embedding
                  && points[j].payload == PayloadOf(filename, embeddedChunks[j].chunk)
    {
      var item := embeddedChunks[i];
      points := points + [Point(item.embedding, PayloadOf(filename, item.chunk))];
    }
    return Upserted(Collection, points);
  }
}
