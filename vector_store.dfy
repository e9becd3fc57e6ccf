/** app/services/vector_store.py: the filter loop over index candidates in
    `query` and the record-building loop of `upsert_chunks`. The embedding
    service, the Pinecone index and uuid generation are parameters. */
module VectorStore {
  import opened Wrappers

  /** One candidate the index returns: its id, raw score and metadata. */
  datatype IndexHit = IndexHit(id: string, score: real, document: string, page: int)

  /** One match of `query`. The similarity is the raw score (rounding to four
      places is not modelled). */
  datatype VectorMatch = VectorMatch(chunkId: string, document: string, page: int, similarity: real)

  /** The metadata of a chunk handed to `upsert_chunks`; any key may be missing. */
  datatype ChunkMeta = ChunkMeta(document: Option<string>, page: Option<int>, chunkId: Option<string>)

  datatype Chunk = Chunk(text: string, metadata: ChunkMeta)

  /** One record sent to the index. */
  datatype IndexVector = IndexVector(id: string, values: seq<real>, document: string, page: int)

  /** What `upsert_chunks` does: nothing for no chunks, an upsert of the
      records, or an IndexError when the embedding service returned fewer
      embeddings than there are chunks (nothing is upserted then). */
  datatype UpsertOutcome = NothingToUpsert | Upserted(vectors: seq<IndexVector>) | EmbeddingMissing

  const DefaultDocument: string := "unknown.pdf"
  const DefaultPage: int := 0

  // ---------------------------------------------------------------------------
  // query
  // ---------------------------------------------------------------------------

  /** The number of candidates asked of the index. */
  function CandidateCount(topK: int): int
  {
    topK * 2
  }

  /** The most matches the loop keeps. It appends a passing match before it
      compares the count with `top_k`, so even a `top_k` below 1 lets the
      first passing match through: the cap is `max(top_k, 1)`. */
  function MatchCap(topK: int): (cap: nat)
    ensures cap >= 1 && cap >= topK
    ensures cap == 1 || cap == topK
  {
    if topK < 1 then 1 else topK
  }

  function MatchOf(h: IndexHit): VectorMatch
  {
    VectorMatch(h.id, h.document, h.page, h.score)
  }

  /** The candidates whose score reaches the threshold, in index order. */
  function Admitted(hits: seq<IndexHit>, minSimilarity: real): seq<VectorMatch>
  {
    if hits == [] then []
    else
      var earlier := Admitted(hits[..|hits| - 1], minSimilarity);
      var h := hits[|hits| - 1];
      if h.score < minSimilarity then earlier else earlier + [MatchOf(h)]
  }

  /** The matches `query` returns for the candidate list `hits`. */
  function QueryResult(hits: seq<IndexHit>, topK: int, minSimilarity: real): seq<VectorMatch>
  {
    var admitted := Admitted(hits, minSimilarity);
    if |admitted| <= MatchCap(topK) then admitted else admitted[..MatchCap(topK)]
  }

  /** A match is admitted exactly when it comes from a candidate whose score
      reaches the threshold; no more matches are admitted than candidates. */
  lemma {:induction false} AdmittedMembers(hits: seq<IndexHit>, minSimilarity: real)
    ensures |Admitted(hits, minSimilarity)| <= |hits|
    ensures forall m :: m in Admitted(hits, minSimilarity) <==>
              exists i :: 0 <= i < |hits| && hits[i].score >= minSimilarity && m == MatchOf(hits[i])
  {
    if hits != [] {
      var init := hits[..|hits| - 1];
      AdmittedMembers(init, minSimilarity);
      forall m
        ensures m in Admitted(hits, minSimilarity) <==>
                exists i :: 0 <= i < |hits| && hits[i].score >= minSimilarity && m == MatchOf(hits[i])
      {
        if exists i :: 0 <= i < |init| && init[i].score >= minSimilarity && m == MatchOf(init[i]) {
          var i :| 0 <= i < |init| && init[i].score >= minSimilarity && m == MatchOf(init[i]);
          assert hits[i] == init[i];
        }
        if exists i :: 0 <= i < |hits| && hits[i].score >= minSimilarity && m == MatchOf(hits[i]) {
          var i :| 0 <= i < |hits| && hits[i].score >= minSimilarity && m == MatchOf(hits[i]);
          if i < |init| {
            assert init[i] == hits[i];
          }
        }
      }
    }
  }

  /** Admitting fewer candidates admits a prefix: the matches keep the index
      order. */
  lemma {:induction false} AdmittedPrefix(hits: seq<IndexHit>, k: nat, minSimilarity: real)
    requires k <= |hits|
    ensures var p := Admitted(hits[..k], minSimilarity);
            |p| <= |Admitted(hits, minSimilarity)| && p == Admitted(hits, minSimilarity)[..|p|]
    decreases |hits|
  {
    if k < |hits| {
      var init := hits[..|hits| - 1];
      assert init[..k] == hits[..k];
      AdmittedPrefix(init, k, minSimilarity);
    } else {
      assert hits[..k] == hits;
    }
  }

  /** Every match reaches the threshold, there are at most `max(top_k, 1)` of
      them, and they are the longest such prefix of the admitted candidates. */
  lemma QueryResultSpec(hits: seq<IndexHit>, topK: int, minSimilarity: real)
    ensures var r := QueryResult(hits, topK, minSimilarity);
            && (forall i :: 0 <= i < |r| ==> r[i].similarity >= minSimilarity)
            && (forall i :: 0 <= i < |r| ==> exists j :: 0 <= j < |hits| && r[i] == MatchOf(hits[j]))
            && |r| <= MatchCap(topK)
            && (topK >= 1 ==> |r| <= topK)
            && r == Admitted(hits, minSimilarity)[..|r|]
            && (|r| < MatchCap(topK) ==> r == Admitted(hits, minSimilarity))
  {
    var r := QueryResult(hits, topK, minSimilarity);
    var a := Admitted(hits, minSimilarity);
    AdmittedMembers(hits, minSimilarity);
    forall i | 0 <= i < |r|
      ensures r[i].similarity >= minSimilarity
      ensures exists j :: 0 <= j < |hits| && r[i] == MatchOf(hits[j])
    {
      assert r[i] == a[i] && a[i] in a;
    }
  }

  /** The filter loop of `query` over the candidate list. */
  method FilterMatches(hits: seq<IndexHit>, topK: int, minSimilarity: real) returns (matches: seq<VectorMatch>)
    ensures matches == QueryResult(hits, topK, minSimilarity)
  {
    matches := [];
    var i := 0;
    while i < |hits|
      invariant 0 <= i <= |hits|
      invariant matches == Admitted(hits[..i], minSimilarity)
      invariant |matches| < MatchCap(topK)
    {
      assert hits[..i + 1][..i] == hits[..i];
      var h := hits[i];
      if h.score < minSimilarity {
        i := i + 1;
        continue;
      }
      matches := matches + [VectorMatch(h.id, h.document, h.page, h.score)];
      if |matches| >= topK {
        AdmittedPrefix(hits, i + 1, minSimilarity);
        return;
      }
      i := i + 1;
    }
    assert hits[..i] == hits;
  }

  /** `query`: embed the question, ask the index for `2 * top_k` candidates,
      and filter them. */
  method Query(question: string, topK: int, minSimilarity: real,
               embed: string -> seq<real>, index: (seq<real>, int) -> seq<IndexHit>)
    returns (matches: seq<VectorMatch>)
    ensures matches == QueryResult(index(embed(question), CandidateCount(topK)), topK, minSimilarity)
  {
    var queryEmbedding := embed(question);
    var results := index(queryEmbedding, topK * 2);
    matches := FilterMatches(results, topK, minSimilarity);
  }

  // ---------------------------------------------------------------------------
  // upsert_chunks
  // ---------------------------------------------------------------------------

  function Texts(chunks: seq<Chunk>): (texts: seq<string>)
    ensures |texts| == |chunks|
    ensures forall i :: 0 <= i < |chunks| ==> texts[i] == chunks[i].text
  {
    seq(|chunks|, i requires 0 <= i < |chunks| => chunks[i].text)
  }

  /** The record for the `i`-th chunk. Its id is the `i`-th fresh identifier,
      whatever chunk id the metadata carries. */
  function VectorOf(chunk: Chunk, embedding: seq<real>, id: string): IndexVector
  {
    IndexVector(id, embedding, chunk.metadata.document.GetOr(DefaultDocument), chunk.metadata.page.GetOr(DefaultPage))
  }

  function VectorsOf(chunks: seq<Chunk>, embeddings: seq<seq<real>>, freshId: nat -> string): (r: seq<IndexVector>)
    requires |embeddings| >= |chunks|
    ensures |r| == |chunks|
    ensures forall i :: 0 <= i < |chunks| ==> r[i] == VectorOf(chunks[i], embeddings[i], freshId(i))
  {
    seq(|chunks|, i requires 0 <= i < |chunks| => VectorOf(chunks[i], embeddings[i], freshId(i)))
  }

  function UpsertOutcomeOf(chunks: seq<Chunk>, embed: seq<string> -> seq<seq<real>>, freshId: nat -> string): UpsertOutcome
  {
    if chunks == [] then NothingToUpsert
    else
      var embeddings := embed(Texts(chunks));
      if |embeddings| < |chunks| then EmbeddingMissing
      else Upserted(VectorsOf(chunks, embeddings, freshId))
  }

  /** `upsert_chunks`: one record per chunk, built in a loop. */
  method UpsertChunks(chunks: seq<Chunk>, embed: seq<string> -> seq<seq<real>>, freshId: nat -> string)
    returns (outcome: UpsertOutcome)
    ensures outcome == UpsertOutcomeOf(chunks, embed, freshId)
  {
    if chunks == [] {
      return NothingToUpsert;
    }
    var texts := Texts(chunks);
    var embeddings := embed(texts);
    var vectors: seq<IndexVector> := [];
    for i := 0 to |chunks|
      invariant |vectors| == i
      invariant i <= |embeddings| ==> forall j :: 0 <= j < i ==> vectors[j] == VectorOf(chunks[j], embeddings[j], freshId(j))
      invariant i <= |embeddings|
    {
      if i >= |embeddings| {
        return EmbeddingMissing;
      }
      var chunkId := freshId(i);
      var meta := chunks[i].metadata;
      vectors := vectors + [IndexVector(chunkId, embeddings[i], meta.document.GetOr(DefaultDocument), meta.page.GetOr(DefaultPage))];
    }
    return Upserted(vectors);
  }

  /** One record per chunk, in chunk order, with the chunk's own document and
      page, or "unknown.pdf" and page 0 where the metadata lacks them; no
      chunks means no upsert. */
  lemma UpsertSpec(chunks: seq<Chunk>, embed: seq<string> -> seq<seq<real>>, freshId: nat -> string)
    ensures chunks == [] <==> UpsertOutcomeOf(chunks, embed, freshId) == NothingToUpsert
    ensures UpsertOutcomeOf(chunks, embed, freshId).Upserted? ==>
              var vs := UpsertOutcomeOf(chunks, embed, freshId).vectors;
              && |vs| == |chunks|
              && (forall i :: 0 <= i < |chunks| ==> vs[i].id == freshId(i))
              && (forall i :: 0 <= i < |chunks| ==> vs[i].document == chunks[i].metadata.document.GetOr("unknown.pdf"))
              && (forall i :: 0 <= i < |chunks| ==> vs[i].page == chunks[i].metadata.page.GetOr(0))
              && (forall i :: 0 <= i < |chunks| ==> vs[i].values == embed(Texts(chunks))[i])
  {
  }

  /** The record ids do not depend on the chunk ids in the metadata: two chunk
      lists that differ only there produce the same records. */
  lemma UpsertIgnoresChunkIds(chunks: seq<Chunk>, other: seq<Chunk>, embed: seq<string> -> seq<seq<real>>, freshId: nat -> string)
    requires |chunks| == |other|
    requires forall i :: 0 <= i < |chunks| ==>
               other[i].text == chunks[i].text
               && other[i].metadata.document == chunks[i].metadata.document
               && other[i].metadata.page == chunks[i].metadata.page
    ensures UpsertOutcomeOf(chunks, embed, freshId) == UpsertOutcomeOf(other, embed, freshId)
  {
    assert Texts(chunks) == Texts(other);
  }
}
