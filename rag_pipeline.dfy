/** app/services/rag_pipeline.py: hybrid retrieval, the composite confidence
    score, citation extraction and the accept/refuse decision. The embedding
    service, the vector index, the chunk-text store, the graph store, the
    language model and the claim verifier are parameters. */
module RagPipeline {
  import opened Wrappers
  import opened Text
  import opened Evidence
  import opened VectorStore
  import Explanation
  import LlmService

  /** Below this confidence the pipeline refuses. */
  const RefusalThreshold: real := 0.4

  /** Above this confidence an accepted answer is labelled High. */
  const HighConfidence: real := 0.8

  const SimilarityWeight: real := 0.4
  const CoverageWeight: real := 0.3
  const SupportWeight: real := 0.3

  /** The graph coverage saturates at this many graph evidence items. */
  const CoverageSaturation: real := 5.0

  /** Only the first three entities are looked up in the graph. */
  const EntityLookupCap: nat := 3

  /** The title-case fallback keeps at most five words. */
  const TitleWordCap: nat := 5

  const LookupDepth: nat := 2

  /** Claim paths need at least two entities. */
  const MinClaimEntities: nat := 2

  const ClaimPathTag: string := "claim_path"
  const VectorSourceTag: string := "vector"

  const NoEvidenceAnswer: string := "I don't have sufficient evidence to answer this question."
  const NoEvidenceReason: string := "No relevant chunks or KG paths found."
  const LowConfidenceAnswer: string := "I cannot confidently answer this based on the available evidence."
  const LowConfidenceReason: string := "Significant claims in the potential answer lacked supporting evidence."

  /** The collaborators of the pipeline. `related(entity, depth)` is the graph
      neighbourhood lookup, `claimEvidence(entities)` the shortest paths between
      the entities, `chunkTexts(ids)` the stored texts found for the ids,
      `entityReply(question)` the decoded entity-extraction reply, `generate`
      the answer model from its user message, `verify` the claim verifier and
      `show` Python's `str` of a graph entry. */
  datatype Services = Services(
    embed: string -> seq<real>,
    index: (seq<real>, int) -> seq<IndexHit>,
    chunkTexts: seq<string> -> map<string, string>,
    entityReply: string -> JsonReply<seq<string>>,
    related: (string, nat) -> seq<KgEntry>,
    claimEvidence: seq<string> -> seq<KgEntry>,
    generate: string -> string,
    verify: (string, Bundle) -> Verification,
    show: KgEntry -> string)

  // ---------------------------------------------------------------------------
  // Entity extraction
  // ---------------------------------------------------------------------------

  /** The title-case words, in order. */
  function TitleWords(ws: seq<string>): seq<string>
  {
    if ws == [] then []
    else
      var earlier := TitleWords(ws[..|ws| - 1]);
      if IsTitle(ws[|ws| - 1]) then earlier + [ws[|ws| - 1]] else earlier
  }

  lemma {:induction false} TitleWordsMembers(ws: seq<string>)
    ensures |TitleWords(ws)| <= |ws|
    ensures forall w :: w in TitleWords(ws) <==> w in ws && IsTitle(w)
  {
    if ws != [] {
      var init := ws[..|ws| - 1];
      TitleWordsMembers(init);
      assert ws == init + [ws[|ws| - 1]];
    }
  }

  /** `[word for word in question.split() if word.istitle()][:5]`. */
  function TitleFallback(question: string): seq<string>
  {
    var titles := TitleWords(Words(question));
    if |titles| <= TitleWordCap then titles else titles[..TitleWordCap]
  }

  /** `extract_entities_from_question`: the "entities" list of the decoded
      reply, [] when the reply decodes without that key, and the title-case
      fallback when it does not decode. */
  function ExtractEntitiesFromQuestion(question: string, reply: JsonReply<seq<string>>): seq<string>
  {
    match reply
    case Field(entities) => entities
    case MissingKey => []
    case Unparsable => TitleFallback(question)
  }

  /** A reply with the key is used as given and one without it yields no
      entity. The fallback keeps the title-case words of the question in
      order, at most five of them, and all of them when there are at most
      five. */
  lemma EntityExtractionSpec(question: string, reply: JsonReply<seq<string>>)
    ensures reply.Field? ==> ExtractEntitiesFromQuestion(question, reply) == reply.value
    ensures reply.MissingKey? ==> ExtractEntitiesFromQuestion(question, reply) == []
    ensures reply.Unparsable? ==>
              var r := ExtractEntitiesFromQuestion(question, reply);
              && |r| <= TitleWordCap
              && |r| == (if |TitleWords(Words(question))| <= TitleWordCap then |TitleWords(Words(question))| else TitleWordCap)
              && r == TitleWords(Words(question))[..|r|]
              && (forall w :: w in r ==> w in Words(question) && IsTitle(w))
              && (|TitleWords(Words(question))| <= TitleWordCap ==>
                    forall w :: w in Words(question) && IsTitle(w) ==> w in r)
  {
    var titles := TitleWords(Words(question));
    TitleWordsMembers(Words(question));
    if |titles| > TitleWordCap {
      assert forall w :: w in titles[..TitleWordCap] ==> w in titles;
    }
  }

  // ---------------------------------------------------------------------------
  // hybrid_retrieval
  // ---------------------------------------------------------------------------

  function ChunkIds(matches: seq<VectorMatch>): (ids: seq<string>)
    ensures |ids| == |matches|
    ensures forall i :: 0 <= i < |matches| ==> ids[i] == matches[i].chunkId
  {
    seq(|matches|, i requires 0 <= i < |matches| => matches[i].chunkId)
  }

  /** `chunk_texts.get(cid, "")`. */
  function TextFor(chunkTexts: map<string, string>, id: string): string
  {
    if id in chunkTexts then chunkTexts[id] else ""
  }

  /** One text evidence item per vector match, in match order; a chunk whose
      text was not found keeps its place with the empty text. */
  function RagEvidenceOf(matches: seq<VectorMatch>, chunkTexts: map<string, string>): (rag: seq<TextEvidence>)
    ensures |rag| == |matches|
    ensures forall i :: 0 <= i < |matches| ==>
              && rag[i].document == matches[i].document
              && rag[i].page == matches[i].page
              && rag[i].similarity == matches[i].similarity
              && rag[i].source == VectorSourceTag
              && (matches[i].chunkId in chunkTexts ==> rag[i].text == chunkTexts[matches[i].chunkId])
              && (matches[i].chunkId !in chunkTexts ==> rag[i].text == "")
  {
    seq(|matches|, i requires 0 <= i < |matches| =>
      TextEvidence(TextFor(chunkTexts, matches[i].chunkId), matches[i].document, matches[i].page, matches[i].similarity, VectorSourceTag))
  }

  /** The entities looked up in the graph: `entities[:3]`. */
  function LookedUp(entities: seq<string>): seq<string>
  {
    if |entities| <= EntityLookupCap then entities else entities[..EntityLookupCap]
  }

  /** The neighbourhoods of the entities, concatenated in entity order. */
  function RelatedPaths(entities: seq<string>, related: (string, nat) -> seq<KgEntry>): seq<KgEntry>
  {
    if entities == [] then []
    else RelatedPaths(entities[..|entities| - 1], related) + related(entities[|entities| - 1], LookupDepth)
  }

  /** The graph lookups only depend on the entities looked up: two lookup
      services that agree on them give the same paths. */
  lemma {:induction false} RelatedPathsLocal(entities: seq<string>, related: (string, nat) -> seq<KgEntry>, other: (string, nat) -> seq<KgEntry>)
    requires forall i :: 0 <= i < |entities| ==> related(entities[i], LookupDepth) == other(entities[i], LookupDepth)
    ensures RelatedPaths(entities, related) == RelatedPaths(entities, other)
  {
    if entities != [] {
      RelatedPathsLocal(entities[..|entities| - 1], related, other);
    }
  }

  /** `{"source": "claim_path", **p}` as written: a "source" key already in
      the path wins over the tag. */
  function TagClaimPathAsWritten(p: KgEntry): (tagged: KgEntry)
    ensures p.source.Some? ==> tagged == p
    ensures p.source.None? ==> tagged == p.(source := Some(ClaimPathTag))
  {
    p.(source := Some(p.source.GetOr(ClaimPathTag)))
  }

  /** Every claim path from the graph store carries its first entity under
      "source" (the query returns `entity1 AS source`), so the tag as written
      never appears: the first entity stays the source. */
  lemma ClaimPathTagLost(entity: string, p: KgEntry)
    requires p.source == Some(entity) && entity != ClaimPathTag
    ensures TagClaimPathAsWritten(p) == p
    ensures TagClaimPathAsWritten(p).source != Some(ClaimPathTag)
  {
  }

  /** The tag as intended: the path with its source set to "claim_path". */
  function TagClaimPath(p: KgEntry): (tagged: KgEntry)
    ensures tagged.source == Some(ClaimPathTag)
    ensures tagged.start == p.start && tagged.target == p.target && tagged.targetType == p.targetType
    ensures tagged.path == p.path && tagged.hops == p.hops
  {
    p.(source := Some(ClaimPathTag))
  }

  function TagClaimPaths(paths: seq<KgEntry>): (tagged: seq<KgEntry>)
    ensures |tagged| == |paths|
    ensures forall i :: 0 <= i < |paths| ==> tagged[i] == TagClaimPath(paths[i])
  {
    seq(|paths|, i requires 0 <= i < |paths| => TagClaimPath(paths[i]))
  }

  /** The graph evidence: the neighbourhoods of the first three entities, then
      the tagged claim paths when there are at least two entities. */
  function KgEvidenceOf(entities: seq<string>, s: Services): seq<KgEntry>
  {
    RelatedPaths(LookedUp(entities), s.related)
    + (if |entities| >= MinClaimEntities then TagClaimPaths(s.claimEvidence(entities)) else [])
  }

  /** The evidence bundle `hybrid_retrieval` returns. */
  function HybridEvidence(question: string, topK: int, minSimilarity: real, s: Services): Bundle
  {
    var matches := QueryResult(s.index(s.embed(question), CandidateCount(topK)), topK, minSimilarity);
    var entities := ExtractEntitiesFromQuestion(question, s.entityReply(question));
    Bundle(RagEvidenceOf(matches, s.chunkTexts(ChunkIds(matches))), KgEvidenceOf(entities, s), entities)
  }

  /** The text half of the bundle: one item per vector match, in match order,
      with the match's document, page and similarity and the "vector" tag; the
      stored text of the match's chunk id, or "" when the store has none. Every
      item reaches the similarity threshold and there are at most
      `max(top_k, 1)` of them. The entities are the extracted ones. */
  lemma HybridTextSpec(question: string, topK: int, minSimilarity: real, s: Services)
    ensures var matches := QueryResult(s.index(s.embed(question), CandidateCount(topK)), topK, minSimilarity);
            var texts := s.chunkTexts(ChunkIds(matches));
            var ev := HybridEvidence(question, topK, minSimilarity, s);
            && |ev.rag| == |matches| <= MatchCap(topK)
            && ev.entities == ExtractEntitiesFromQuestion(question, s.entityReply(question))
            && (forall i :: 0 <= i < |ev.rag| ==>
                  && ev.rag[i].document == matches[i].document
                  && ev.rag[i].page == matches[i].page
                  && ev.rag[i].similarity == matches[i].similarity
                  && ev.rag[i].similarity >= minSimilarity
                  && ev.rag[i].source == VectorSourceTag
                  && (matches[i].chunkId in texts ==> ev.rag[i].text == texts[matches[i].chunkId])
                  && (matches[i].chunkId !in texts ==> ev.rag[i].text == ""))
  {
    var hits := s.index(s.embed(question), CandidateCount(topK));
    QueryResultSpec(hits, topK, minSimilarity);
  }

  /** `hybrid_retrieval`. */
  method HybridRetrieval(question: string, topK: int, minSimilarity: real, s: Services) returns (evidence: Bundle)
    ensures evidence == HybridEvidence(question, topK, minSimilarity, s)
  {
    var vectorResults := Query(question, topK, minSimilarity, s.embed, s.index);
    var chunkIds := ChunkIds(vectorResults);
    var chunkTexts := s.chunkTexts(chunkIds);
    var ragEvidence := RagEvidenceOf(vectorResults, chunkTexts);

    var entities := ExtractEntitiesFromQuestion(question, s.entityReply(question));
    var kgEvidence: seq<KgEntry> := [];
    var lookups := LookedUp(entities);
    for i := 0 to |lookups|
      invariant kgEvidence == RelatedPaths(lookups[..i], s.related)
    {
      assert lookups[..i + 1][..i] == lookups[..i];
      var paths := s.related(lookups[i], 2);
      kgEvidence := kgEvidence + paths;
    }
    assert lookups[..|lookups|] == lookups;

    if |entities| >= 2 {
      var claimPaths := s.claimEvidence(entities);
      kgEvidence := kgEvidence + TagClaimPaths(claimPaths);
    }
    evidence := Bundle(ragEvidence, kgEvidence, entities);
  }

  /** The graph part of the bundle: only the first three entities are looked
      up (another lookup service that agrees on them gives the same bundle),
      claim paths come only with at least two entities, and each of them is
      tagged as a claim path. */
  lemma HybridGraphSpec(question: string, topK: int, minSimilarity: real, s: Services,
                        other: (string, nat) -> seq<KgEntry>)
    requires var entities := ExtractEntitiesFromQuestion(question, s.entityReply(question));
             forall i :: 0 <= i < |entities| && i < EntityLookupCap ==>
               s.related(entities[i], LookupDepth) == other(entities[i], LookupDepth)
    ensures HybridEvidence(question, topK, minSimilarity, s) == HybridEvidence(question, topK, minSimilarity, s.(related := other))
    ensures var entities := ExtractEntitiesFromQuestion(question, s.entityReply(question));
            var kg := HybridEvidence(question, topK, minSimilarity, s).kg;
            var lookups := RelatedPaths(LookedUp(entities), s.related);
            && (|entities| < MinClaimEntities ==> kg == lookups)
            && (|entities| >= MinClaimEntities ==>
                  |kg| == |lookups| + |s.claimEvidence(entities)|
                  && forall i :: |lookups| <= i < |kg| ==> kg[i].source == Some(ClaimPathTag))
  {
    var entities := ExtractEntitiesFromQuestion(question, s.entityReply(question));
    var lookups := LookedUp(entities);
    assert forall i :: 0 <= i < |lookups| ==> lookups[i] == entities[i];
    RelatedPathsLocal(lookups, s.related, other);
  }

  // ---------------------------------------------------------------------------
  // calculate_confidence
  // ---------------------------------------------------------------------------

  /** `min(len(kg) / 5.0, 1.0)`. */
  function KgCoverage(kgCount: nat): real
  {
    var ratio := kgCount as real / CoverageSaturation;
    if ratio <= 1.0 then ratio else 1.0
  }

  /** `1.0 - unsupported / max(len(claims), 1)`. */
  function ClaimSupport(unsupportedCount: int, claimCount: nat): real
  {
    var total := if claimCount < 1 then 1 else claimCount;
    1.0 - unsupportedCount as real / total as real
  }

  /** `calculate_confidence`. */
  function CalculateConfidence(v: Verification, ev: Bundle): real
  {
    MeanSimilarity(ev.rag) * SimilarityWeight
    + KgCoverage(|ev.kg|) * CoverageWeight
    + ClaimSupport(v.unsupportedCount, |v.claims|) * SupportWeight
  }

  lemma KgCoverageSpec(kgCount: nat)
    ensures 0.0 <= KgCoverage(kgCount) <= 1.0
    ensures KgCoverage(kgCount) == 1.0 <==> kgCount >= 5
    ensures kgCount <= 5 ==> KgCoverage(kgCount) * CoverageSaturation == kgCount as real
  {
  }

  lemma ClaimSupportInUnit(unsupportedCount: int, claimCount: nat)
    requires 0 <= unsupportedCount <= claimCount
    ensures 0.0 <= ClaimSupport(unsupportedCount, claimCount) <= 1.0
    ensures unsupportedCount == 0 ==> ClaimSupport(unsupportedCount, claimCount) == 1.0
  {
    if claimCount >= 1 {
      QuotientInUnit(unsupportedCount as real, claimCount as real);
    }
  }

  lemma WeightedSumInUnit(a: real, b: real, c: real)
    requires 0.0 <= a <= 1.0 && 0.0 <= b <= 1.0 && 0.0 <= c <= 1.0
    ensures 0.0 <= a * 0.4 + b * 0.3 + c * 0.3 <= 1.0
  {
  }

  /** The confidence lies in [0, 1] when the similarities do and the
      unsupported count is between 0 and the number of claims. */
  lemma ConfidenceInUnit(v: Verification, ev: Bundle)
    requires SimilaritiesInUnit(ev.rag)
    requires 0 <= v.unsupportedCount <= |v.claims|
    ensures 0.0 <= CalculateConfidence(v, ev) <= 1.0
  {
    MeanSimilarityInUnit(ev.rag);
    KgCoverageSpec(|ev.kg|);
    ClaimSupportInUnit(v.unsupportedCount, |v.claims|);
    WeightedSumInUnit(MeanSimilarity(ev.rag), KgCoverage(|ev.kg|), ClaimSupport(v.unsupportedCount, |v.claims|));
  }

  // ---------------------------------------------------------------------------
  // extract_citations
  // ---------------------------------------------------------------------------

  datatype Citation = Citation(document: string, page: int, source: string)

  function CitationOf(k: SourceKey): Citation
  {
    Citation(k.document, k.page, "text")
  }

  function CitationsFor(keys: seq<SourceKey>): (cs: seq<Citation>)
    ensures |cs| == |keys|
    ensures forall i :: 0 <= i < |keys| ==> cs[i] == CitationOf(keys[i])
  {
    if keys == [] then [] else CitationsFor(keys[..|keys| - 1]) + [CitationOf(keys[|keys| - 1])]
  }

  /** The citations of the text evidence. */
  function CitationsOf(rag: seq<TextEvidence>): seq<Citation>
  {
    CitationsFor(FirstOccurrences(Keys(rag)))
  }

  /** `extract_citations`: a `seen` set and an appended list. */
  method ExtractCitations(evidence: Bundle) returns (citations: seq<Citation>)
    ensures citations == CitationsOf(evidence.rag)
  {
    var rag := evidence.rag;
    citations := [];
    var seen: set<SourceKey> := {};
    ghost var uniq: seq<SourceKey> := [];
    for i := 0 to |rag|
      invariant uniq == FirstOccurrences(Keys(rag[..i]))
      invariant citations == CitationsFor(uniq)
      invariant forall k :: k in seen <==> k in uniq
    {
      var ev := rag[i];
      var key := SourceKey(ev.document, ev.page);
      DedupStep(rag, i);
      if key !in seen {
        citations := citations + [Citation(ev.document, ev.page, "text")];
        seen := seen + {key};
        uniq := uniq + [key];
      }
    }
    assert rag[..|rag|] == rag;
  }

  /** The citations are pairwise distinct in (document, page) and follow the
      first occurrence of each pair. */
  lemma CitationsOrdered(rag: seq<TextEvidence>)
    ensures var cs := CitationsOf(rag);
            && (forall i, j :: 0 <= i < j < |cs| ==> (cs[i].document, cs[i].page) != (cs[j].document, cs[j].page))
            && (forall i, j :: 0 <= i < j < |cs| ==>
                  FirstSeenBefore(rag, SourceKey(cs[i].document, cs[i].page), SourceKey(cs[j].document, cs[j].page)))
  {
    var uniq := FirstOccurrences(Keys(rag));
    var cs := CitationsFor(uniq);
    assert forall i :: 0 <= i < |cs| ==> SourceKey(cs[i].document, cs[i].page) == uniq[i];
    DedupKeysSpec(rag);
  }

  /** Every (document, page) of the text evidence is cited, as text, and
      nothing else is. */
  lemma CitationsCover(rag: seq<TextEvidence>)
    ensures var cs := CitationsOf(rag);
            && (forall i :: 0 <= i < |rag| ==> Citation(rag[i].document, rag[i].page, "text") in cs)
            && (forall c :: c in cs ==> c.source == "text")
            && (forall c :: c in cs ==>
                  exists i :: 0 <= i < |rag| && c.document == rag[i].document && c.page == rag[i].page)
  {
    var uniq := FirstOccurrences(Keys(rag));
    var cs := CitationsFor(uniq);
    DedupKeysCover(rag);
    forall i | 0 <= i < |rag|
      ensures Citation(rag[i].document, rag[i].page, "text") in cs
    {
      var k :| 0 <= k < |uniq| && uniq[k] == KeyOf(rag[i]);
      assert cs[k] == CitationOf(uniq[k]);
    }
    forall c | c in cs
      ensures exists i :: 0 <= i < |rag| && c.document == rag[i].document && c.page == rag[i].page
    {
      var k :| 0 <= k < |cs| && cs[k] == c;
      assert uniq[k] in uniq;
      var i :| 0 <= i < |rag| && uniq[k] == KeyOf(rag[i]);
    }
  }

  /** No (document, page) pair is cited twice, every pair of the text evidence
      is cited, nothing else is, and the citations follow the first occurrence
      of each pair. */
  lemma CitationsSpec(rag: seq<TextEvidence>)
    ensures var cs := CitationsOf(rag);
            && (forall i, j :: 0 <= i < j < |cs| ==> (cs[i].document, cs[i].page) != (cs[j].document, cs[j].page))
            && (forall i :: 0 <= i < |rag| ==> Citation(rag[i].document, rag[i].page, "text") in cs)
            && (forall c :: c in cs ==> c.source == "text")
            && (forall c :: c in cs ==>
                  exists i :: 0 <= i < |rag| && c.document == rag[i].document && c.page == rag[i].page)
            && (forall i, j :: 0 <= i < j < |cs| ==>
                  FirstSeenBefore(rag, SourceKey(cs[i].document, cs[i].page), SourceKey(cs[j].document, cs[j].page)))
  {
    CitationsOrdered(rag);
    CitationsCover(rag);
  }

  // ---------------------------------------------------------------------------
  // run_rag_pipeline
  // ---------------------------------------------------------------------------

  datatype ConfidenceLevel = High | Medium

  /** The three outcomes: a refusal before generation when there is no
      evidence at all (confidence 0.0, no citations), a refusal after
      verification, and an accepted answer. */
  datatype PipelineResult =
    | NoEvidence
    | Refused(confidence: real, unsupportedClaims: seq<string>)
    | Answered(answer: string, confidence: real, level: ConfidenceLevel, citations: seq<Citation>,
               explanation: Explanation.Trace, vectorChunks: nat, kgPaths: nat)
  {
    predicate IsRefusal()
    {
      !Answered?
    }

    function Confidence(): real
    {
      if NoEvidence? then 0.0 else confidence
    }

    function Citations(): seq<Citation>
    {
      if Answered? then citations else []
    }

    function AnswerText(): string
    {
      match this
      case NoEvidence => NoEvidenceAnswer
      case Refused(_, _) => LowConfidenceAnswer
      case Answered(answer, _, _, _, _, _, _) => answer
    }

    /** The "explanation" string of a refusal; an accepted answer carries the
        structured explanation instead. */
    function RefusalReason(): Option<string>
    {
      match this
      case NoEvidence => Some(NoEvidenceReason)
      case Refused(_, _) => Some(LowConfidenceReason)
      case Answered(_, _, _, _, _, _, _) => None
    }
  }

  function LevelOf(confidence: real): ConfidenceLevel
  {
    if confidence > HighConfidence then High else Medium
  }

  /** The decision once an answer has been generated and verified. */
  function Decide(answer: string, v: Verification, ev: Bundle, show: KgEntry -> string): PipelineResult
  {
    var confidence := CalculateConfidence(v, ev);
    if v.unsupportedCount > 0 || confidence < RefusalThreshold then Refused(confidence, v.unsupported)
    else Answered(answer, confidence, LevelOf(confidence), CitationsOf(ev.rag),
                  Explanation.ExplanationOf(answer, v, ev, show), |ev.rag|, |ev.kg|)
  }

  /** The answer `generate_answer` returns for the bundle. */
  function AnswerFor(question: string, ev: Bundle, s: Services): string
  {
    Strip(s.generate(LlmService.UserPrompt(question, LlmService.Context(ev, s.show))))
  }

  /** The result of `run_rag_pipeline`. */
  function PipelineOutcome(question: string, topK: int, minSimilarity: real, s: Services): PipelineResult
  {
    var ev := HybridEvidence(question, topK, minSimilarity, s);
    if ev.rag == [] && ev.kg == [] then NoEvidence
    else
      var answer := AnswerFor(question, ev, s);
      Decide(answer, s.verify(answer, ev), ev, s.show)
  }

  /** `run_rag_pipeline`. The session id is not used by the pipeline. */
  method RunRagPipeline(question: string, topK: int, minSimilarity: real, s: Services) returns (result: PipelineResult)
    ensures result == PipelineOutcome(question, topK, minSimilarity, s)
  {
    var evidence := HybridRetrieval(question, topK, minSimilarity, s);
    if evidence.rag == [] && evidence.kg == [] {
      return NoEvidence;
    }
    var answer := LlmService.GenerateAnswer(question, evidence, s.show, s.generate);
    var verification := s.verify(answer, evidence);
    var confidence := CalculateConfidence(verification, evidence);
    if verification.unsupportedCount > 0 || confidence < RefusalThreshold {
      return Refused(confidence, verification.unsupported);
    }
    var explanation := Explanation.BuildExplanation(answer, verification, evidence, s.show);
    var citations := ExtractCitations(evidence);
    result := Answered(answer, confidence, if confidence > HighConfidence then High else Medium, citations,
                       explanation, |evidence.rag|, |evidence.kg|);
  }

  /** Without text and graph evidence the pipeline refuses with confidence 0.0
      and no citations, and neither the answer model nor the verifier is
      consulted: replacing them does not change the result. */
  lemma NoEvidenceSpec(question: string, topK: int, minSimilarity: real, s: Services,
                       generate: string -> string, verify: (string, Bundle) -> Verification)
    ensures var ev := HybridEvidence(question, topK, minSimilarity, s);
            var r := PipelineOutcome(question, topK, minSimilarity, s);
            && (ev.rag == [] && ev.kg == [] <==> r.NoEvidence?)
            && (r.NoEvidence? ==>
                  && r.IsRefusal() && r.Confidence() == 0.0 && r.Citations() == []
                  && r.AnswerText() == NoEvidenceAnswer && r.RefusalReason() == Some(NoEvidenceReason)
                  && PipelineOutcome(question, topK, minSimilarity, s.(generate := generate, verify := verify)) == r)
  {
    var ev := HybridEvidence(question, topK, minSimilarity, s);
    var s2 := s.(generate := generate, verify := verify);
    assert HybridEvidence(question, topK, minSimilarity, s2) == ev;
  }

  /** After verification the pipeline refuses exactly when some claim is
      unsupported or the confidence is below 0.4, and a refusal carries the
      unsupported claims, the refusal answer and the refusal reason. */
  lemma RefusalIff(answer: string, v: Verification, ev: Bundle, show: KgEntry -> string)
    ensures Decide(answer, v, ev, show).IsRefusal() <==>
            v.unsupportedCount > 0 || CalculateConfidence(v, ev) < RefusalThreshold
    ensures Decide(answer, v, ev, show).IsRefusal() ==>
              && Decide(answer, v, ev, show) == Refused(CalculateConfidence(v, ev), v.unsupported)
              && Decide(answer, v, ev, show).AnswerText() == LowConfidenceAnswer
              && Decide(answer, v, ev, show).RefusalReason() == Some(LowConfidenceReason)
  {
  }

  /** An accepted answer has no unsupported claim, a confidence of at least
      0.4, the level High exactly when the confidence exceeds 0.8, source
      counts equal to the evidence sizes, citations without duplicates, and the
      explanation's "all claims supported" summary: the other two summaries
      cannot occur on an accepted answer. */
  lemma AcceptedSpec(answer: string, v: Verification, ev: Bundle, show: KgEntry -> string)
    ensures var r := Decide(answer, v, ev, show);
            r.Answered? ==>
              && v.unsupportedCount == 0
              && r.confidence >= RefusalThreshold
              && (r.level == High <==> r.confidence > HighConfidence)
              && r.vectorChunks == |ev.rag| && r.kgPaths == |ev.kg|
              && r.answer == answer
              && (forall i, j :: 0 <= i < j < |r.citations| ==>
                    (r.citations[i].document, r.citations[i].page) != (r.citations[j].document, r.citations[j].page))
              && r.explanation.summary == Explanation.AllSupportedSummary
  {
    CitationsSpec(ev.rag);
    Explanation.SummaryTiers(v.unsupportedCount, |v.claims|);
  }

  /** One text evidence item of similarity 0.9, no graph evidence and one
      supported claim give the confidence 0.66: the answer is accepted with
      the level Medium. */
  lemma SingleSupportedClaimAccepted(answer: string, item: TextEvidence, claim: string, show: KgEntry -> string)
    requires item.similarity == 0.9
    ensures var ev := Bundle([item], [], []);
            var v := Verification([claim], [], 0, Some(1.0));
            && CalculateConfidence(v, ev) == 0.66
            && Decide(answer, v, ev, show).Answered?
            && Decide(answer, v, ev, show).level == Medium
  {
    var ev := Bundle([item], [], []);
    assert SumSimilarity([item]) == 0.9 by {
      assert [item][..0] == [];
    }
  }
}
