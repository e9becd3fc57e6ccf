/** app/services/explanation.py: the structured explanation attached to an
    accepted answer. */
module Explanation {
  import opened Wrappers
  import opened Text
  import opened Evidence

  const DefaultSummary: string := "The answer is grounded in retrieved document chunks and knowledge graph paths."
  const AllSupportedSummary: string := "All claims in the answer are fully supported by retrieved evidence from documents and/or the knowledge graph."
  const MostSupportedSummary: string := "Most claims are supported, but some lack direct evidence."
  const WeakSummary: string := "Significant portions of the answer lack sufficient supporting evidence."

  /** At most this many graph entries are rendered. */
  const PathCap: nat := 5

  const PathArrow: string := " \U{2192} "

  const TextAndGraph: string := "text + KG"
  const TextOnly: string := "text"
  const GraphOnly: string := "KG"

  /** An entry of `sources.documents` (its "type" is "text_chunk"). */
  datatype DocSource = DocSource(document: string, page: int, kind: string)

  /** An entry of `sources.kg_paths`. */
  datatype KgSource = ReasoningPath(path: string) | Fact(fact: string)

  datatype SupportedClaim = SupportedClaim(claim: string, supportedBy: string)

  datatype Signals = Signals(retrievalSimilarity: real, kgCoverage: nat, claimSupportRatio: real)

  /** The explanation dictionary. */
  datatype Trace = Trace(
    summary: string,
    supportedClaims: seq<SupportedClaim>,
    unsupportedClaims: seq<string>,
    documents: seq<DocSource>,
    kgPaths: seq<KgSource>,
    signals: Signals)

  // ---------------------------------------------------------------------------
  // Sources
  // ---------------------------------------------------------------------------

  function DocSourceOf(k: SourceKey): DocSource
  {
    DocSource(k.document, k.page, "text_chunk")
  }

  function DocSources(keys: seq<SourceKey>): (r: seq<DocSource>)
    ensures |r| == |keys|
    ensures forall i :: 0 <= i < |keys| ==> r[i] == DocSourceOf(keys[i])
  {
    if keys == [] then [] else DocSources(keys[..|keys| - 1]) + [DocSourceOf(keys[|keys| - 1])]
  }

  /** `sources.documents`: one entry per distinct (document, page). */
  function DocumentsOf(rag: seq<TextEvidence>): seq<DocSource>
  {
    DocSources(FirstOccurrences(Keys(rag)))
  }

  /** `f"{r['type']} ({r.get('description', '').strip()})"`. */
  function RelationLabel(r: Relation): string
  {
    r.relType + " (" + Strip(r.description.GetOr("")) + ")"
  }

  function RelationLabels(rels: seq<Relation>): (r: seq<string>)
    ensures |r| == |rels|
    ensures forall i :: 0 <= i < |rels| ==> r[i] == RelationLabel(rels[i])
  {
    seq(|rels|, i requires 0 <= i < |rels| => RelationLabel(rels[i]))
  }

  /** A graph entry as the explanation shows it: a reasoning path
      "start rel (desc) → … target" with '?' for a missing start or target
      when the entry has a path, otherwise its dictionary text. */
  function KgSourceOf(entry: KgEntry, show: KgEntry -> string): KgSource
  {
    match entry.path
    case Some(rels) =>
      ReasoningPath(entry.start.GetOr("?") + " " + Join(RelationLabels(rels), PathArrow) + " " + entry.target.GetOr("?"))
    case None => Fact(show(entry))
  }

  function KgSources(kg: seq<KgEntry>, show: KgEntry -> string): (r: seq<KgSource>)
    ensures |r| == |kg|
    ensures forall i :: 0 <= i < |kg| ==> r[i] == KgSourceOf(kg[i], show)
  {
    if kg == [] then [] else KgSources(kg[..|kg| - 1], show) + [KgSourceOf(kg[|kg| - 1], show)]
  }

  /** Python `kg[:5]`. */
  function ShownPaths(kg: seq<KgEntry>): seq<KgEntry>
  {
    if |kg| <= PathCap then kg else kg[..PathCap]
  }

  // ---------------------------------------------------------------------------
  // Claim support labels
  // ---------------------------------------------------------------------------

  /** `_supported_by_text`: the lower-cased claim occurs in the lower-cased
      text of some evidence item; the loop returns at the first match. */
  predicate SupportedByText(claim: string, rag: seq<TextEvidence>)
    decreases |rag|
  {
    rag != [] && (IsSubstring(Lower(claim), Lower(rag[0].text)) || SupportedByText(claim, rag[1..]))
  }

  /** `_supported_by_text` holds exactly when some evidence text contains the
      claim, ignoring case. */
  lemma {:induction false} SupportedByTextIff(claim: string, rag: seq<TextEvidence>)
    ensures SupportedByText(claim, rag) <==>
            exists i :: 0 <= i < |rag| && IsSubstring(Lower(claim), Lower(rag[i].text))
    decreases |rag|
  {
    if rag != [] {
      SupportedByTextIff(claim, rag[1..]);
      if exists i :: 0 <= i < |rag[1..]| && IsSubstring(Lower(claim), Lower(rag[1..][i].text)) {
        var i :| 0 <= i < |rag[1..]| && IsSubstring(Lower(claim), Lower(rag[1..][i].text));
        assert rag[i + 1] == rag[1..][i];
      }
      if exists i :: 0 <= i < |rag| && IsSubstring(Lower(claim), Lower(rag[i].text)) {
        var i :| 0 <= i < |rag| && IsSubstring(Lower(claim), Lower(rag[i].text));
        if i > 0 {
          assert rag[1..][i - 1] == rag[i];
        }
      }
    }
  }

  /** The lower-cased claim occurs in the lower-cased text of some graph entry. */
  predicate MentionedInGraph(claim: string, kg: seq<KgEntry>, show: KgEntry -> string)
  {
    exists i :: 0 <= i < |kg| && IsSubstring(Lower(claim), Lower(show(kg[i])))
  }

  /** `_supported_by_both`. */
  predicate SupportedByBoth(claim: string, ev: Bundle, show: KgEntry -> string)
  {
    SupportedByText(claim, ev.rag) && MentionedInGraph(claim, ev.kg, show)
  }

  /** The "supported_by" label of a supported claim. */
  function SupportLabel(claim: string, ev: Bundle, show: KgEntry -> string): string
  {
    if SupportedByBoth(claim, ev, show) then TextAndGraph
    else if SupportedByText(claim, ev.rag) then TextOnly
    else GraphOnly
  }

  /** The label names exactly the evidence the lexical checks found: "text + KG"
      when both hold, "text" when only the text check holds, and "KG" whenever
      the text check fails, whatever the graph check says. */
  lemma SupportLabelMeaning(claim: string, ev: Bundle, show: KgEntry -> string)
    ensures SupportLabel(claim, ev, show) == TextAndGraph <==>
            SupportedByText(claim, ev.rag) && MentionedInGraph(claim, ev.kg, show)
    ensures SupportLabel(claim, ev, show) == TextOnly <==>
            SupportedByText(claim, ev.rag) && !MentionedInGraph(claim, ev.kg, show)
    ensures SupportLabel(claim, ev, show) == GraphOnly <==> !SupportedByText(claim, ev.rag)
  {
    assert TextAndGraph != TextOnly && TextAndGraph != GraphOnly && TextOnly != GraphOnly by {
      assert TextAndGraph[4] == ' ' && TextOnly[0] == 't' && GraphOnly[0] == 'K';
    }
  }

  /** The claims not listed as unsupported, in claim order, with their labels. */
  function SupportedClaims(claims: seq<string>, unsupported: seq<string>, ev: Bundle, show: KgEntry -> string): seq<SupportedClaim>
  {
    if claims == [] then []
    else
      var earlier := SupportedClaims(claims[..|claims| - 1], unsupported, ev, show);
      var claim := claims[|claims| - 1];
      if claim !in unsupported then earlier + [SupportedClaim(claim, SupportLabel(claim, ev, show))] else earlier
  }

  /** `supported_claims` holds exactly the claims that are not listed as
      unsupported, each with the label of its own evidence, and no more entries
      than there are claims. */
  lemma {:induction false} SupportedClaimsExact(claims: seq<string>, unsupported: seq<string>, ev: Bundle, show: KgEntry -> string)
    ensures |SupportedClaims(claims, unsupported, ev, show)| <= |claims|
    ensures forall c :: (exists j :: 0 <= j < |SupportedClaims(claims, unsupported, ev, show)|
                                  && SupportedClaims(claims, unsupported, ev, show)[j].claim == c)
                        <==> c in claims && c !in unsupported
    ensures forall j :: 0 <= j < |SupportedClaims(claims, unsupported, ev, show)| ==>
              SupportedClaims(claims, unsupported, ev, show)[j].supportedBy
              == SupportLabel(SupportedClaims(claims, unsupported, ev, show)[j].claim, ev, show)
  {
    if claims != [] {
      var init := claims[..|claims| - 1];
      var claim := claims[|claims| - 1];
      assert claims == init + [claim];
      SupportedClaimsExact(init, unsupported, ev, show);
      var earlier := SupportedClaims(init, unsupported, ev, show);
      var r := SupportedClaims(claims, unsupported, ev, show);
      forall c
        ensures (exists j :: 0 <= j < |r| && r[j].claim == c) <==> c in claims && c !in unsupported
      {
        if c in claims && c !in unsupported {
          if c == claim {
            assert r[|r| - 1].claim == c;
          } else {
            assert c in init;
            var j :| 0 <= j < |earlier| && earlier[j].claim == c;
            assert r[j] == earlier[j];
          }
        }
        if exists j :: 0 <= j < |r| && r[j].claim == c {
          var j :| 0 <= j < |r| && r[j].claim == c;
          if j < |earlier| {
            assert r[j] == earlier[j];
          }
        }
      }
    }
  }

  /** The claims not listed as unsupported, in claim order and with their
      multiplicity: `[c for c in claims if c not in unsupported]`, read from
      the front. */
  function KeptClaims(claims: seq<string>, unsupported: seq<string>): (kept: seq<string>)
    ensures |kept| <= |claims|
    ensures forall c :: c in kept <==> c in claims && c !in unsupported
  {
    if claims == [] then []
    else (if claims[0] in unsupported then [] else [claims[0]]) + KeptClaims(claims[1..], unsupported)
  }

  /** Filtering a sequence with one more claim at its end extends the filter
      by that claim when it is kept. */
  lemma {:induction false} KeptClaimsSnoc(claims: seq<string>, claim: string, unsupported: seq<string>)
    ensures KeptClaims(claims + [claim], unsupported)
            == KeptClaims(claims, unsupported) + (if claim in unsupported then [] else [claim])
  {
    if claims == [] {
      assert (claims + [claim])[1..] == [];
    } else {
      assert (claims + [claim])[0] == claims[0];
      assert (claims + [claim])[1..] == claims[1..] + [claim];
      KeptClaimsSnoc(claims[1..], claim, unsupported);
    }
  }

  /** The claim texts of a list of supported claims. */
  function ClaimTexts(supported: seq<SupportedClaim>): (texts: seq<string>)
    ensures |texts| == |supported|
    ensures forall j :: 0 <= j < |supported| ==> texts[j] == supported[j].claim
  {
    seq(|supported|, j requires 0 <= j < |supported| => supported[j].claim)
  }

  /** The claims of `supported_claims` are exactly the kept claims, in claim
      order and with their multiplicity. */
  lemma {:induction false} SupportedClaimsInOrder(claims: seq<string>, unsupported: seq<string>, ev: Bundle, show: KgEntry -> string)
    ensures ClaimTexts(SupportedClaims(claims, unsupported, ev, show)) == KeptClaims(claims, unsupported)
  {
    if claims != [] {
      var init := claims[..|claims| - 1];
      var claim := claims[|claims| - 1];
      assert claims == init + [claim];
      SupportedClaimsInOrder(init, unsupported, ev, show);
      KeptClaimsSnoc(init, claim, unsupported);
      var earlier := SupportedClaims(init, unsupported, ev, show);
      if claim !in unsupported {
        var r := earlier + [SupportedClaim(claim, SupportLabel(claim, ev, show))];
        assert ClaimTexts(r) == ClaimTexts(earlier) + [claim];
      }
    }
  }

  // ---------------------------------------------------------------------------
  // Summary and the explanation as a whole
  // ---------------------------------------------------------------------------

  /** The three-tier summary, from the number of unsupported claims and the
      number of claims (`unsupported_count < len(claims) / 2` in real
      arithmetic). */
  function Summary(unsupportedCount: int, claimCount: nat): string
  {
    if unsupportedCount == 0 then AllSupportedSummary
    else if (unsupportedCount as real) < (claimCount as real) / 2.0 then MostSupportedSummary
    else WeakSummary
  }

  /** Which summary is chosen, in integer terms: "All…" for no unsupported
      claim, "Most…" when fewer than half the claims are unsupported, and
      "Significant portions…" otherwise. */
  lemma SummaryTiers(unsupportedCount: int, claimCount: nat)
    ensures Summary(unsupportedCount, claimCount) == AllSupportedSummary <==> unsupportedCount == 0
    ensures Summary(unsupportedCount, claimCount) == MostSupportedSummary <==>
            unsupportedCount != 0 && 2 * unsupportedCount < claimCount
    ensures Summary(unsupportedCount, claimCount) == WeakSummary <==>
            unsupportedCount != 0 && 2 * unsupportedCount >= claimCount
  {
    assert |AllSupportedSummary| == 109 && |MostSupportedSummary| == 57 && |WeakSummary| == 71;
  }

  /** The explanation `build_explanation` returns. The answer text is not
      consulted. */
  function ExplanationOf(answer: string, v: Verification, ev: Bundle, show: KgEntry -> string): Trace
  {
    Trace(
      Summary(v.unsupportedCount, |v.claims|),
      SupportedClaims(v.claims, v.unsupported, ev, show),
      v.unsupported,
      DocumentsOf(ev.rag),
      KgSources(ShownPaths(ev.kg), show),
      Signals(MeanSimilarity(ev.rag), |ev.kg|, v.supportRatio.GetOr(1.0)))
  }

  /** The graph part of the explanation: at most five entries, the first five
      graph evidence items in order, each a reasoning path exactly when the item
      has a path and otherwise its dictionary text; the coverage signal counts
      every graph item, not only the shown ones; the unsupported claims are
      passed through; and the retrieval signal is a similarity in [0, 1]. */
  lemma ExplanationShape(answer: string, v: Verification, ev: Bundle, show: KgEntry -> string)
    ensures var t := ExplanationOf(answer, v, ev, show);
            && |t.kgPaths| == (if |ev.kg| <= PathCap then |ev.kg| else PathCap)
            && (forall i :: 0 <= i < |t.kgPaths| ==> (t.kgPaths[i].ReasoningPath? <==> ev.kg[i].path.Some?))
            && (forall i :: 0 <= i < |t.kgPaths| && ev.kg[i].path.None? ==> t.kgPaths[i] == Fact(show(ev.kg[i])))
            && t.signals.kgCoverage == |ev.kg|
            && t.unsupportedClaims == v.unsupported
            && (SimilaritiesInUnit(ev.rag) ==> 0.0 <= t.signals.retrievalSimilarity <= 1.0)
  {
    var shown := ShownPaths(ev.kg);
    assert forall i :: 0 <= i < |shown| ==> shown[i] == ev.kg[i];
    if SimilaritiesInUnit(ev.rag) {
      MeanSimilarityInUnit(ev.rag);
    }
  }

  /** The deduplicated documents are pairwise distinct and follow the first
      occurrence of each (document, page). */
  lemma DocumentsOrdered(rag: seq<TextEvidence>)
    ensures var docs := DocumentsOf(rag);
            && (forall i, j :: 0 <= i < j < |docs| ==> docs[i] != docs[j])
            && (forall i, j :: 0 <= i < j < |docs| ==>
                  FirstSeenBefore(rag, SourceKey(docs[i].document, docs[i].page), SourceKey(docs[j].document, docs[j].page)))
  {
    var uniq := FirstOccurrences(Keys(rag));
    var docs := DocSources(uniq);
    assert forall i :: 0 <= i < |docs| ==> SourceKey(docs[i].document, docs[i].page) == uniq[i];
    DedupKeysSpec(rag);
  }

  /** The deduplicated documents name every (document, page) of the text
      evidence, as text chunks, and nothing else. */
  lemma DocumentsCover(rag: seq<TextEvidence>)
    ensures var docs := DocumentsOf(rag);
            && (forall i :: 0 <= i < |rag| ==> DocSource(rag[i].document, rag[i].page, "text_chunk") in docs)
            && (forall d :: d in docs ==> d.kind == "text_chunk")
            && (forall d :: d in docs ==>
                  exists i :: 0 <= i < |rag| && d.document == rag[i].document && d.page == rag[i].page)
  {
    var uniq := FirstOccurrences(Keys(rag));
    var docs := DocSources(uniq);
    DedupKeysCover(rag);
    forall i | 0 <= i < |rag|
      ensures DocSource(rag[i].document, rag[i].page, "text_chunk") in docs
    {
      var k :| 0 <= k < |uniq| && uniq[k] == KeyOf(rag[i]);
      assert docs[k] == DocSourceOf(uniq[k]);
    }
    forall d | d in docs
      ensures exists i :: 0 <= i < |rag| && d.document == rag[i].document && d.page == rag[i].page
    {
      var k :| 0 <= k < |docs| && docs[k] == d;
      assert uniq[k] in uniq;
      var i :| 0 <= i < |rag| && uniq[k] == KeyOf(rag[i]);
    }
  }

  /** The document list names each (document, page) of the text evidence
      exactly once, in the order of first occurrence, and nothing else. */
  lemma ExplanationDocuments(answer: string, v: Verification, ev: Bundle, show: KgEntry -> string)
    ensures var docs := ExplanationOf(answer, v, ev, show).documents;
            && (forall i, j :: 0 <= i < j < |docs| ==> docs[i] != docs[j])
            && (forall i :: 0 <= i < |ev.rag| ==> DocSource(ev.rag[i].document, ev.rag[i].page, "text_chunk") in docs)
            && (forall d :: d in docs ==> d.kind == "text_chunk")
            && (forall d :: d in docs ==>
                  exists i :: 0 <= i < |ev.rag| && d.document == ev.rag[i].document && d.page == ev.rag[i].page)
            && (forall i, j :: 0 <= i < j < |docs| ==>
                  FirstSeenBefore(ev.rag, SourceKey(docs[i].document, docs[i].page), SourceKey(docs[j].document, docs[j].page)))
  {
    assert ExplanationOf(answer, v, ev, show).documents == DocumentsOf(ev.rag);
    DocumentsOrdered(ev.rag);
    DocumentsCover(ev.rag);
  }

  /** The first loop of `build_explanation`: the documents, deduplicated with
      a `seen` set. */
  method CollectDocuments(rag: seq<TextEvidence>) returns (documents: seq<DocSource>)
    ensures documents == DocumentsOf(rag)
  {
    documents := [];
    var seen: set<SourceKey> := {};
    ghost var uniq: seq<SourceKey> := [];
    for i := 0 to |rag|
      invariant uniq == FirstOccurrences(Keys(rag[..i]))
      invariant documents == DocSources(uniq)
      invariant forall k :: k in seen <==> k in uniq
    {
      var item := rag[i];
      var key := SourceKey(item.document, item.page);
      DedupStep(rag, i);
      if key !in seen {
        documents := documents + [DocSource(item.document, item.page, "text_chunk")];
        seen := seen + {key};
        uniq := uniq + [key];
      }
    }
    assert rag[..|rag|] == rag;
  }

  /** The second loop: the first five graph entries, rendered. */
  method CollectKgPaths(kg: seq<KgEntry>, show: KgEntry -> string) returns (kgPaths: seq<KgSource>)
    ensures kgPaths == KgSources(ShownPaths(kg), show)
  {
    kgPaths := [];
    var shown := ShownPaths(kg);
    for i := 0 to |shown|
      invariant kgPaths == KgSources(shown[..i], show)
    {
      assert shown[..i + 1][..i] == shown[..i];
      var path := shown[i];
      if path.path.Some? {
        var pathStr := Join(RelationLabels(path.path.value), PathArrow);
        kgPaths := kgPaths + [ReasoningPath(path.start.GetOr("?") + " " + pathStr + " " + path.target.GetOr("?"))];
      } else {
        kgPaths := kgPaths + [Fact(show(path))];
      }
    }
    assert shown[..|shown|] == shown;
  }

  /** The third loop: the claims not listed as unsupported, labelled. */
  method CollectSupportedClaims(claims: seq<string>, unsupported: seq<string>, ev: Bundle, show: KgEntry -> string)
    returns (supported: seq<SupportedClaim>)
    ensures supported == SupportedClaims(claims, unsupported, ev, show)
  {
    supported := [];
    for i := 0 to |claims|
      invariant supported == SupportedClaims(claims[..i], unsupported, ev, show)
    {
      assert claims[..i + 1][..i] == claims[..i];
      var claim := claims[i];
      if claim !in unsupported {
        var supportedBy := if SupportedByBoth(claim, ev, show) then "text + KG"
                     else if SupportedByText(claim, ev.rag) then "text"
                     else "KG";
        supported := supported + [SupportedClaim(claim, supportedBy)];
      }
    }
    assert claims[..|claims|] == claims;
  }

  /** `build_explanation`: the default summary, the signals, three passes over
      the evidence and the claims, and the final summary. */
  method BuildExplanation(answer: string, v: Verification, ev: Bundle, show: KgEntry -> string) returns (t: Trace)
    ensures t == ExplanationOf(answer, v, ev, show)
  {
    var summary := DefaultSummary;
    var signals := Signals(MeanSimilarity(ev.rag), |ev.kg|, v.supportRatio.GetOr(1.0));
    var documents := CollectDocuments(ev.rag);
    var kgPaths := CollectKgPaths(ev.kg, show);
    var supported := CollectSupportedClaims(v.claims, v.unsupported, ev, show);
    if v.unsupportedCount == 0 {
      summary := AllSupportedSummary;
    } else if (v.unsupportedCount as real) < (|v.claims| as real) / 2.0 {
      summary := MostSupportedSummary;
    } else {
      summary := WeakSummary;
    }
    t := Trace(summary, supported, v.unsupported, documents, kgPaths, signals);
  }
}
