# explainable-rag-chatbot: a Dafny model of the answer pipeline

This project models the deterministic core of explainable-rag-chatbot. That
service answers a question from two kinds of evidence: document chunks found by
a vector index (Pinecone), and paths in a knowledge graph (Neo4j). It then
refuses the answer, or returns it with citations and a structured explanation.
The model covers:

- **hybrid retrieval** (`RagPipeline`, `VectorStore`):
  - the score filter and the cap of the vector query;
  - hydrating matches with stored chunk text;
  - graph lookups for the first three entities;
  - claim paths, fetched for two or more entities;
  - the title-case fallback of entity extraction;
- **the decision** (`RagPipeline`):
  - the composite confidence score;
  - refusal on missing evidence, on unsupported claims, or on low confidence;
  - the High/Medium label;
  - citations deduplicated by (document, page);
- **the explanation** (`Explanation`):
  - deduplicated document sources;
  - at most five rendered graph entries;
  - the supported claims and their "text + KG" / "text" / "KG" labels;
  - the three-tier summary and the confidence signals;
- **claim verification** (`Verification`): the count of entailed claims, the support score, and the failure fallbacks of the two model calls;
- **prompt context** (`LlmService`): the excerpt and graph-fact sections of the prompt to the answer model, with their truncation and cap;
- **text utilities** (`Helpers`, `DocumentProcessor`, `KgUtils`): whitespace normalisation, paragraph chunking (both copies) and path formatting;
- **evaluation** (`Evaluate`, `BenchmarkAutomation`): the token-set F1 score of both scripts.

Three shared modules carry no logic of the system:

- `Wrappers` holds `Option` and `JsonReply`. A `JsonReply` is a decoded model reply: `Unparsable`, `MissingKey` or `Field(value)`.
- `Text` models the Python string operations the code relies on: `split()`, `split(sep)`, `strip()`, `join`, `lower()`, `istitle()`, `in` on strings, `s[:n]` and `str(int)`.
- `Evidence` holds the records passed between stages, the mean similarity, and first-occurrence deduplication.

The external services are parameters: function-typed arguments, or the
`RagPipeline.Services` record. These are:

- the embedding service and the vector index;
- the SQLite chunk-text lookup;
- the graph lookups `get_related_entities` and `get_evidence_for_claim`;
- the language model (answer generation, entity extraction, claim splitting and entailment);
- the claim verifier;
- Python's `str` of a graph-evidence dictionary;
- uuid generation.

The methods are written the way the source is written, with loops over
appended lists, `seen` sets and counters. Each method is proved equal to a
specification function, and the lemmas state what the source promises about
those functions.

The refusal threshold is 0.4 (`RagPipeline.RefusalThreshold`), as in
app/services/rag_pipeline.py:131.

`verify_claims`, which the pipeline and the explanation builder import, is not
defined in app/services/verification.py. Only `verify_claims_nli` is. So the
verifier the pipeline calls is a parameter. Its result is the record those two
files read: claims, unsupported claims, unsupported count, and an optional
support ratio. The count is a number of claims, so the model makes it a
natural number.

## Model

| member | source | states |
|---|---|---|
| Text.Words | evaluate.py:15 | every piece `split()` yields is a non-empty run of non-whitespace characters |
| Text.WordsOfJoin | app/utils/helpers.py:6 | splitting words joined by single spaces gives back the same words |
| Text.JoinSplit | app/utils/helpers.py:16 | joining the pieces of `split(sep)` with `sep` rebuilds the string |
| Text.Strip | app/utils/helpers.py:16 | the stripped text neither starts nor ends with whitespace |
| Text.StripSlice | app/utils/helpers.py:16 | the stripped text is the slice of the text that follows its leading whitespace, and everything cut off before or after it is whitespace |
| Text.IsSubstringIff | app/services/explanation.py:85 | the substring test holds exactly when the needle occurs at some position |
| Text.Prefix | app/utils/helpers.py:31 | `s[:n]` is a prefix of `s` of length min(n, len(s)), counted from the end for negative n |
| Helpers.CleanText | app/utils/helpers.py:4-6 | the result has no leading or trailing whitespace, and every whitespace in it is a single space between two non-spaces |
| Helpers.JoinWordsNormalised | app/utils/helpers.py:6 | words joined by single spaces are in that normal form |
| Helpers.CleanTextIdempotent | app/utils/helpers.py:4-6 | normalising keeps the words of the text, so normalising twice is normalising once |
| Helpers.Paragraphs | app/utils/helpers.py:16 | every paragraph kept is non-empty |
| Helpers.PackEmptyIff | app/utils/helpers.py:17-29 | packing yields no chunk exactly when there is no paragraph and nothing pending |
| Helpers.PackJoin | app/utils/helpers.py:20-29 | the chunks joined by a blank line equal the pending text and the paragraphs joined the same way |
| Helpers.PackFits | app/utils/helpers.py:21-26 | every emitted chunk is non-empty, and shorter than the limit or a single paragraph |
| Helpers.ChunksProperties | app/utils/helpers.py:16-31 | at least one chunk; with no paragraph, `[text[:max_tokens*4]]`; otherwise the chunks regroup the paragraphs in order and each fits |
| Helpers.SemanticChunkText | app/utils/helpers.py:12-31 | the loop returns the chunks the specification gives, never an empty list |
| DocumentProcessor.SemanticChunkText | app/services/document_processor.py:89-109 | the module's copy returns the same chunks as the helpers version on every input, at least one, regrouping the paragraphs in order |
| KgUtils.FormatKgPath | app/utils/kg_utils.py:3-12 | "" for an empty path, else the segments in order, joined by `SegmentSeparator` (space, vertical bar, space) |
| KgUtils.SegmentShape | app/utils/kg_utils.py:10 | a segment starts with the start (or '?'), ends with the target (or '?'), and shows the relation between them |
| KgUtils.CalculateGraphCentrality | app/utils/kg_utils.py:14-16 | the placeholder score lies strictly between 0 and 1 |
| KgUtils.CentralityIgnoresNode | app/utils/kg_utils.py:14-16 | every node gets the same score, 0.5 |
| Evaluate.CalculateF1 | evaluate.py:11-28 | the score lies in [0, 1] |
| Evaluate.CommonBounded | evaluate.py:21-23 | the shared tokens are no more than either token set, so precision and recall are at most 1 |
| Evaluate.HarmonicOfRatios | evaluate.py:22-28 | the harmonic mean of c/p and c/t is 2c/(p+t) |
| Evaluate.F1ClosedForm | evaluate.py:15-28 | 0.0 when either token set is empty; 0.0 exactly when no token is shared; otherwise 2·shared/(predicted + truth) |
| Evaluate.F1Symmetric | evaluate.py:21-28 | swapping prediction and truth does not change the score |
| Evaluate.F1Perfect | evaluate.py:21-28 | equal non-empty token sets score 1.0 |
| Evaluate.F1CaseInsensitive | evaluate.py:15-16 | lower-casing a text first does not change the score |
| Evaluate.TokenSetOfRepetition | evaluate.py:15-16 | a text repeated after a space has the same token set |
| Evaluate.F1IgnoresRepetition | evaluate.py:15-16 | repeating the prediction does not change the score |
| BenchmarkAutomation.AgreesWithEvaluate | benchmark_automation.py:6-14 | the benchmark score equals the evaluation score on all inputs; it lies in [0, 1], is symmetric, and is 0.0 without shared tokens |
| Evidence.SumSimilarityBounds | app/services/rag_pipeline.py:85 | the sum of similarities in [0, 1] lies between 0 and the number of items |
| Evidence.MeanSimilarityInUnit | app/services/explanation.py:76-79 | the average similarity (0.0 without evidence) lies in [0, 1] when every similarity does |
| Evidence.FirstOccurrencesMembers | app/services/rag_pipeline.py:94-106 | deduplication keeps every key and adds none |
| Evidence.FirstOccurrencesDistinct | app/services/rag_pipeline.py:94-106 | deduplication keeps each key once |
| Evidence.FirstOccurrencesOrdered | app/services/rag_pipeline.py:94-106 | deduplicated keys are ordered by their first occurrence |
| Evidence.DedupStep | app/services/rag_pipeline.py:97-105 | one more item adds its key exactly when the `seen` set lacks it |
| Evidence.DedupKeysCover | app/services/rag_pipeline.py:94-106 | every item's key survives deduplication, and every surviving key is some item's key |
| Evidence.DedupKeysSpec | app/services/explanation.py:31-40 | the deduplicated keys are distinct, are exactly the keys of the evidence, and follow first occurrence |
| Explanation.SupportedByTextIff | app/services/explanation.py:82-87 | the text check holds exactly when the lower-cased claim occurs in some lower-cased evidence text |
| Explanation.SupportLabelMeaning | app/services/explanation.py:59-64 | "text + KG" exactly when both checks hold; "text" exactly when only the text check holds; "KG" exactly when the text check fails |
| Explanation.SupportedClaimsExact | app/services/explanation.py:57-64 | the supported claims are exactly the claims not listed as unsupported, each with the label of its own evidence |
| Explanation.KeptClaims | app/services/explanation.py:57-59 | the claims kept by the filter are at most the claims, and a claim is kept exactly when it is not listed as unsupported |
| Explanation.SupportedClaimsInOrder | app/services/explanation.py:57-64 | the claims of the supported list are the claims not listed as unsupported, in claim order and with their multiplicity |
| Explanation.SummaryTiers | app/services/explanation.py:66-71 | "All claims…" exactly when nothing is unsupported; "Most claims…" exactly when fewer than half are; "Significant portions…" otherwise |
| Explanation.ExplanationShape | app/services/explanation.py:19-55 | at most five graph entries: the first five, a reasoning path exactly for entries with a path, else a fact; coverage is the raw graph count; unsupported claims pass through; retrieval similarity in [0, 1] |
| Explanation.DocumentsOrdered | app/services/explanation.py:31-40 | the document sources are pairwise distinct and follow the first occurrence of each (document, page) |
| Explanation.DocumentsCover | app/services/explanation.py:31-40 | every (document, page) of the text evidence is a "text_chunk" source, and no other source appears |
| Explanation.ExplanationDocuments | app/services/explanation.py:31-40 | the document list holds each (document, page) of the evidence once, nothing else, in first-occurrence order |
| Explanation.CollectDocuments | app/services/explanation.py:31-40 | the `seen_docs` loop returns the specified document sources |
| Explanation.CollectKgPaths | app/services/explanation.py:42-55 | the graph loop renders the specified sources of the first five entries |
| Explanation.CollectSupportedClaims | app/services/explanation.py:57-64 | the claims loop returns the specified supported claims with their labels |
| Explanation.BuildExplanation | app/services/explanation.py:4-73 | the three loops build the specified explanation |
| VectorStore.MatchCap | app/services/vector_store.py:79-80 | the cap on matches is max(top_k, 1): at least 1, at least `top_k`, and one of the two |
| VectorStore.AdmittedMembers | app/services/vector_store.py:68-77 | a candidate becomes a match exactly when its score reaches the threshold |
| VectorStore.AdmittedPrefix | app/services/vector_store.py:67-82 | the matches from earlier candidates come first: index order is kept |
| VectorStore.QueryResultSpec | app/services/vector_store.py:67-82 | every match reaches the threshold and comes from a candidate; at most max(top_k, 1) matches; the result is the longest such prefix of the admitted candidates |
| VectorStore.FilterMatches | app/services/vector_store.py:67-82 | the loop with `continue` and the early exit returns the specified matches |
| VectorStore.Query | app/services/vector_store.py:54-82 | the index is asked for `2 * top_k` candidates for the question's embedding, and those are filtered |
| VectorStore.UpsertChunks | app/services/vector_store.py:32-51 | the loop builds the specified records; nothing for no chunks; an error when embeddings are missing |
| VectorStore.UpsertSpec | app/services/vector_store.py:32-49 | no upsert exactly for no chunks; one record per chunk, in order, with a fresh id, the chunk's own document and page ("unknown.pdf" and page 0 when its metadata lacks them), and the chunk's embedding |
| VectorStore.UpsertIgnoresChunkIds | app/services/vector_store.py:40-49 | the records do not depend on the chunk ids carried in the metadata |
| Verification.CheckEntailment | app/services/verification.py:54-73 | supported exactly when the reply decodes with "supported" true; false on any failure |
| Verification.EvidenceBlob | app/services/verification.py:17 | the evidence shown is the first 10000 characters of the newline-joined texts |
| Verification.CountSupportedSpec | app/services/verification.py:20-29 | the counter is the number of supported entries, at most their number, and equal to it exactly when all are supported |
| Verification.VerifyClaimsNli | app/services/verification.py:6-36 | the loop builds the specified verdicts and score |
| Verification.RatioIsOne | app/services/verification.py:31 | a count over a positive total lies in [0, 1] and is 1 exactly when the count is the total |
| Verification.NliResultSpec | app/services/verification.py:13-36 | no claims (or a failed claim reply) gives the {score 0.0, details []} shape; otherwise one entry per claim in claim order, supported exactly when the judge answers true for it against the evidence, and a score in [0, 1], equal to 1 exactly when all are supported |
| LlmService.ExcerptText | app/services/llm_service.py:24 | an excerpt shows a prefix of its text of at most 1000 characters |
| LlmService.AppendExcerpts | app/services/llm_service.py:21-25 | the excerpt loop appends the specified parts |
| LlmService.AppendKgFacts | app/services/llm_service.py:29-34 | the graph loop appends the parts of the first ten entries |
| LlmService.GenerateAnswer | app/services/llm_service.py:17-68 | the answer is the stripped model reply to the prompt built around the newline-joined context parts |
| LlmService.PromptPaths | app/services/llm_service.py:29 | the shown entries are the first ten graph entries, or all of them when there are fewer |
| LlmService.ContextExcerptsLayout | app/services/llm_service.py:17-36 | the context opens with the excerpt header and one part per item, in order, only with text evidence; its length adds the graph header and the shown entries, only with graph evidence |
| LlmService.ContextFactsLayout | app/services/llm_service.py:27-34 | after the excerpt section come the graph header and one part per shown entry, in order, only with graph evidence |
| LlmService.ExcerptTruncated | app/services/llm_service.py:22-24 | each excerpt part carries a prefix of its text of at most 1000 characters, the whole text when it is that short |
| RagPipeline.TitleWordsMembers | app/services/rag_pipeline.py:35 | the kept words are exactly the title-case words of the question |
| RagPipeline.EntityExtractionSpec | app/services/rag_pipeline.py:29-35 | the reply's entities when present; [] when the key is missing; otherwise exactly the first min(5, n) of the n title-case words, in order |
| RagPipeline.HybridTextSpec | app/services/rag_pipeline.py:41-60 | the text evidence has one item per vector match, at most max(top_k, 1), in order, each with its document, page and similarity (at least the threshold), tagged "vector", with the stored text or "" when none is stored; the entities are those of the extraction |
| RagPipeline.RelatedPathsLocal | app/services/rag_pipeline.py:64-66 | the graph paths depend only on the lookups of the entities looked up |
| RagPipeline.TagClaimPathAsWritten | app/services/rag_pipeline.py:70 | as written, a path that already has a "source" keeps it, and only a path without one gets "claim_path" |
| RagPipeline.ClaimPathTagLost | app/services/rag_pipeline.py:70 | every claim path from the graph store has a source entity, so the tag as written never appears |
| RagPipeline.TagClaimPath | app/services/rag_pipeline.py:70 | a tagged claim path has source "claim_path" and keeps every other field |
| RagPipeline.HybridRetrieval | app/services/rag_pipeline.py:37-76 | the retrieval returns the specified bundle |
| RagPipeline.HybridGraphSpec | app/services/rag_pipeline.py:61-70 | only the first three entities are looked up; claim paths appear only with at least two entities, and each is tagged "claim_path" |
| RagPipeline.KgCoverageSpec | app/services/rag_pipeline.py:87 | graph coverage lies in [0, 1], is 1 exactly from five graph items on, and is count/5 below that |
| RagPipeline.ClaimSupportInUnit | app/services/rag_pipeline.py:89-90 | the claim-support term lies in [0, 1] and is 1 with no unsupported claim |
| RagPipeline.WeightedSumInUnit | app/services/rag_pipeline.py:92 | the 0.4/0.3/0.3 weighting of three terms in [0, 1] lies in [0, 1] |
| RagPipeline.ConfidenceInUnit | app/services/rag_pipeline.py:78-92 | the confidence lies in [0, 1] when similarities do and 0 ≤ unsupported ≤ claims |
| RagPipeline.ExtractCitations | app/services/rag_pipeline.py:94-106 | the `seen`-set loop returns the specified citations |
| RagPipeline.CitationsOrdered | app/services/rag_pipeline.py:94-106 | no (document, page) is cited twice, and citations follow the first occurrence of each pair |
| RagPipeline.CitationsCover | app/services/rag_pipeline.py:94-106 | every (document, page) of the text evidence is cited as "text", and nothing else is |
| RagPipeline.CitationsSpec | app/services/rag_pipeline.py:94-106 | no (document, page) is cited twice, every pair in the evidence is cited, nothing else is, in first-occurrence order |
| RagPipeline.RunRagPipeline | app/services/rag_pipeline.py:108-153 | the orchestration returns the specified outcome |
| RagPipeline.NoEvidenceSpec | app/services/rag_pipeline.py:114-121 | refusal before generation exactly when both evidence lists are empty, with confidence 0.0, no citations and the no-evidence answer and reason; neither the answer model nor the verifier is consulted |
| RagPipeline.RefusalIff | app/services/rag_pipeline.py:131-138 | refusal exactly when a claim is unsupported or the confidence is below 0.4, carrying the unsupported claims, the refusal answer and the "lacked supporting evidence" reason |
| RagPipeline.AcceptedSpec | app/services/rag_pipeline.py:140-153 | an accepted answer has confidence ≥ 0.4; it is "High" exactly above 0.8; source counts are the evidence sizes; citations have no duplicates; no claim is unsupported, so the summary is "All claims…" |
| RagPipeline.SingleSupportedClaimAccepted | app/services/rag_pipeline.py:78-92 | one item of similarity 0.9, no graph evidence and one supported claim give confidence 0.66, accepted as Medium |

## Left out

- `round(...)` is not modelled (rag_pipeline.py:135 and 144, vector_store.py:76, explanation.py:27 and 79). Scores and the returned confidence keep their exact real value, and the decision uses that unrounded value, as the code does.
- Floating point is modelled by exact reals. Python's float division and its `==` / `<` can differ from these in the last bits.
- The network calls are parameters:
  - the OpenAI embedding and chat calls;
  - Pinecone index creation, polling, upsert and deletion;
  - the Neo4j Cypher queries (app/services/kg_store.py is not part of this model);
  - SQLite storage (app/database/connection.py and app/database/repository.py are not part of this model).
- For each of those calls, what is modelled is the value the code receives. The prompts sent to the entity, claim and entailment models are not.
- The system prompt and the sampling settings of the answer model are part of the `generate` parameter.
- The JSON decoding of model replies is a parameter of type `JsonReply`, whose value is assumed to have the expected type (a list of strings, a boolean). A reply whose "entities" or "claims" value has another JSON type is not modelled.
- `str(dict)` of a graph entry is the parameter `show`. The quoting and key order of Python's dict repr are not modelled.
- `LlmService.ExtractEntitiesRelations`: a decoded reply is returned as given. The model assumes it has the entities/relationships shape; the source returns any decoded JSON value unchanged.
- Exceptions raised by the collaborators are not modelled; they propagate in the source. An `IndexError` in `upsert_chunks` when the embeddings are fewer than the chunks is modelled as `EmbeddingMissing`. Other exceptions the core can raise on malformed graph data (a relation without "type", a `None` description) are not modelled.
- `Evidence.Relation`: a description is present or absent. A description that is present but `None` is not modelled: `r.get('description', '').strip()` raises `AttributeError` on it (explanation.py:45), and the prompt shows it as "None" (llm_service.py:31).
- Python's `lower()`, `isspace()` and `istitle()` are modelled on ASCII letters and on Python's whitespace set. Unicode case mapping is not modelled.
- `page` values are integers. A page that is another JSON type is not modelled.
- `session_id` of `run_rag_pipeline` is not used by the pipeline and is dropped.
- `top_k` and `min_similarity_threshold` come from settings in the source and are parameters here. app/core/config.py is not part of this model.
- Not part of this model:
  - `generate_hash` (MD5) in helpers.py;
  - `calculate_semantic_similarity` (embeddings and cosine similarity) and the evaluation, ablation, reset and debug scripts;
  - `process_uploaded_file` and the PDF text extraction in document_processor.py;
  - app/services/kg_builder.py;
  - the HTTP layer (app/api/routes.py, app/main.py, app/models/schemas.py);
  - `delete_all_vectors` and `get_index_stats` in vector_store.py.
- Vector ids are fresh uuids (vector_store.py:41). The chunk ids stored in SQLite are different uuids (document_processor.py:23), so the text lookup during retrieval may find nothing. The model keeps the lookup as a parameter and proves that a missing text becomes "" rather than dropping the match (`RagPipeline.HybridTextSpec`).
- `RagPipeline.HybridRetrieval`, `RagPipeline.HybridGraphSpec`, `RagPipeline.HybridEvidence` and `RagPipeline.RunRagPipeline` tag claim paths with the corrected `RagPipeline.TagClaimPath` (see "## Findings"). The code as written keeps the graph store's entity name as the "source" of a claim path (`RagPipeline.TagClaimPathAsWritten`).
- A negative `unsupported_count` from the verifier is not modelled: `Evidence.Verification` holds a natural number, because the field counts claims.
- `Text.Strip`: the function's own contract states only that the result has no whitespace at either end. That it is the slice of the input with only whitespace cut off around it is stated by `Text.StripSlice`.
- `KgUtils.CalculateGraphCentrality`: the function's own contract only bounds the score to (0, 1). That the score is always 0.5 is stated by `KgUtils.CentralityIgnoresNode`.

## Findings

| source | as written | input that shows it | evidently intended | confidence | as-written member | corrected member |
|---|---|---|---|---|---|---|
| app/services/rag_pipeline.py:70 | `{"source": "claim_path", **p}` puts the tag first, so a "source" key in `p` overrides it; the claim-path query (app/services/kg_store.py:75) always returns `entity1 AS source` | a claim path `{"source": "Alice", "target": "Bob", …}` stays tagged "Alice" (`RagPipeline.ClaimPathTagLost`) | every claim path tagged `source = "claim_path"` | not executed | RagPipeline.TagClaimPathAsWritten | RagPipeline.TagClaimPath |
