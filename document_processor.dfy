/** app/services/document_processor.py: the module's own copy of the
    paragraph chunker. PDF reading, storage, indexing and graph building in
    that file are not part of this model. */
module DocumentProcessor {
  import opened Text
  import Helpers

  /** `semantic_chunk_text` as redefined in this module. Its loop is the same
      as the one in app/utils/helpers.py, and so is its result on every input:
      both are proved equal to `Helpers.Chunks`. */
  method SemanticChunkText(text: string, maxTokens: int) returns (chunks: seq<string>)
    ensures chunks == Helpers.Chunks(text, maxTokens)
    ensures chunks != []
    ensures Helpers.Paragraphs(text) != [] ==>
              Join(chunks, Helpers.ParagraphBreak) == Join(Helpers.Paragraphs(text), Helpers.ParagraphBreak)
  {
    var paragraphs := Helpers.Paragraphs(text);
    var limit := maxTokens * Helpers.CharsPerToken;
    chunks := [];
    var current := "";
    for i := 0 to |paragraphs|
      invariant Helpers.PackFrom(paragraphs[i..], limit, chunks, current)
             == Helpers.PackFrom(paragraphs, limit, [], "")
    {
      var para := paragraphs[i];
      Helpers.PackStep(paragraphs[i..], limit, chunks, current);
      assert paragraphs[i..][1..] == paragraphs[i + 1..];
      if |current| + |para| + 2 < limit {
        current := current + (if current != [] then Helpers.ParagraphBreak + para else para);
      } else {
        if current != [] {
          chunks := chunks + [current];
        }
        current := para;
      }
    }
    assert paragraphs[|paragraphs|..] == [];
    if current != [] {
      chunks := chunks + [current];
    }
    assert chunks == Helpers.PackFrom(paragraphs, limit, [], "");
    if chunks == [] {
      chunks := [Prefix(text, limit)];
    }
    Helpers.ChunksProperties(text, maxTokens);
  }
}
