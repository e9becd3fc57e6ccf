/** The records the answer pipeline passes between its stages: text evidence
    from the vector index, graph evidence from the knowledge graph, the
    evidence bundle, and the claim-verification result. Also the two
    computations several stages share: the mean similarity of the text
    evidence and first-occurrence deduplication by (document, page). */
module Evidence {
  import opened Wrappers

  /** One hydrated vector hit of `hybrid_retrieval`. */
  datatype TextEvidence = TextEvidence(text: string, document: string, page: int, similarity: real, source: string)

  /** One relationship on a graph path; `description` may be missing. */
  datatype Relation = Relation(relType: string, description: Option<string>)

  /** One graph evidence dictionary. Paths from `get_related_entities` carry
      start, target, target_type and path; claim paths from
      `get_evidence_for_claim` carry source, target, path and hops. */
  datatype KgEntry = KgEntry(
    start: Option<string>,
    source: Option<string>,
    target: Option<string>,
    targetType: Option<string>,
    path: Option<seq<Relation>>,
    hops: Option<int>)

  /** The dictionary `hybrid_retrieval` returns. */
  datatype Bundle = Bundle(rag: seq<TextEvidence>, kg: seq<KgEntry>, entities: seq<string>)

  /** The claim-verification result the pipeline and the explanation builder
      read: the claims, the unsupported ones, their count, and the support
      ratio, which may be missing. The count is a number of claims, so never
      negative. */
  datatype Verification = Verification(
    claims: seq<string>,
    unsupported: seq<string>,
    unsupportedCount: nat,
    supportRatio: Option<real>)

  // ---------------------------------------------------------------------------
  // Mean similarity
  // ---------------------------------------------------------------------------

  function SumSimilarity(rag: seq<TextEvidence>): real
  {
    if rag == [] then 0.0 else SumSimilarity(rag[..|rag| - 1]) + rag[|rag| - 1].similarity
  }

  /** `sum(e["similarity"] for e in rag) / len(rag)`, and 0.0 for no evidence. */
  function MeanSimilarity(rag: seq<TextEvidence>): real
  {
    if rag == [] then 0.0 else SumSimilarity(rag) / |rag| as real
  }

  predicate SimilaritiesInUnit(rag: seq<TextEvidence>)
  {
    forall i :: 0 <= i < |rag| ==> 0.0 <= rag[i].similarity <= 1.0
  }

  lemma {:induction false} SumSimilarityBounds(rag: seq<TextEvidence>)
    requires SimilaritiesInUnit(rag)
    ensures 0.0 <= SumSimilarity(rag) <= |rag| as real
  {
    if rag != [] {
      SumSimilarityBounds(rag[..|rag| - 1]);
    }
  }

  lemma QuotientInUnit(x: real, y: real)
    requires 0.0 < y && 0.0 <= x <= y
    ensures 0.0 <= x / y <= 1.0
  {
  }

  /** The mean of similarities in [0, 1] lies in [0, 1]. */
  lemma MeanSimilarityInUnit(rag: seq<TextEvidence>)
    requires SimilaritiesInUnit(rag)
    ensures 0.0 <= MeanSimilarity(rag) <= 1.0
  {
    if rag != [] {
      SumSimilarityBounds(rag);
      QuotientInUnit(SumSimilarity(rag), |rag| as real);
    }
  }

  // ---------------------------------------------------------------------------
  // Deduplication by (document, page)
  // ---------------------------------------------------------------------------

  datatype SourceKey = SourceKey(document: string, page: int)

  function KeyOf(ev: TextEvidence): SourceKey
  {
    SourceKey(ev.document, ev.page)
  }

  /** The (document, page) key of each text evidence item, in order. */
  function Keys(rag: seq<TextEvidence>): (keys: seq<SourceKey>)
    ensures |keys| == |rag|
    ensures forall i :: 0 <= i < |rag| ==> keys[i] == KeyOf(rag[i])
  {
    seq(|rag|, i requires 0 <= i < |rag| => KeyOf(rag[i]))
  }

  /** Each element the first time it occurs, in order: what a loop that keeps
      a `seen` set and appends unseen elements produces. */
  function FirstOccurrences<T(==)>(xs: seq<T>): seq<T>
  {
    if xs == [] then []
    else
      var earlier := FirstOccurrences(xs[..|xs| - 1]);
      if xs[|xs| - 1] in earlier then earlier else earlier + [xs[|xs| - 1]]
  }

  predicate Distinct<T(==)>(xs: seq<T>)
  {
    forall i, j :: 0 <= i < j < |xs| ==> xs[i] != xs[j]
  }

  /** The position where `x` first occurs in `xs`. */
  function FirstIndex<T(==)>(xs: seq<T>, x: T): (k: nat)
    requires x in xs
    ensures k < |xs| && xs[k] == x && x !in xs[..k]
  {
    if xs[0] == x then 0
    else
      var k := FirstIndex(xs[1..], x);
      assert xs[..k + 1] == [xs[0]] + xs[1..][..k];
      k + 1
  }

  lemma {:induction false} FirstIndexAppend<T>(xs: seq<T>, x: T, y: T)
    requires y in xs
    ensures FirstIndex(xs + [x], y) == FirstIndex(xs, y)
  {
    if xs[0] != y {
      assert (xs + [x])[1..] == xs[1..] + [x];
      FirstIndexAppend(xs[1..], x, y);
    }
  }

  lemma {:induction false} FirstIndexOfNew<T>(xs: seq<T>, x: T)
    requires x !in xs
    ensures FirstIndex(xs + [x], x) == |xs|
  {
    if xs != [] {
      assert (xs + [x])[1..] == xs[1..] + [x];
      FirstIndexOfNew(xs[1..], x);
    }
  }

  /** Deduplication keeps every element and adds none. */
  lemma {:induction false} FirstOccurrencesMembers<T>(xs: seq<T>)
    ensures forall x :: x in FirstOccurrences(xs) <==> x in xs
  {
    if xs != [] {
      FirstOccurrencesMembers(xs[..|xs| - 1]);
      assert xs == xs[..|xs| - 1] + [xs[|xs| - 1]];
    }
  }

  /** Deduplication keeps each element once. */
  lemma {:induction false} FirstOccurrencesDistinct<T>(xs: seq<T>)
    ensures Distinct(FirstOccurrences(xs))
  {
    if xs != [] {
      FirstOccurrencesDistinct(xs[..|xs| - 1]);
    }
  }

  /** Deduplication orders the elements by where each first occurs. */
  lemma {:induction false} FirstOccurrencesOrdered<T>(xs: seq<T>)
    ensures forall x :: x in FirstOccurrences(xs) ==> x in xs
    ensures forall i, j :: 0 <= i < j < |FirstOccurrences(xs)| ==>
              FirstIndex(xs, FirstOccurrences(xs)[i]) < FirstIndex(xs, FirstOccurrences(xs)[j])
  {
    FirstOccurrencesMembers(xs);
    if xs != [] {
      var init := xs[..|xs| - 1];
      var x := xs[|xs| - 1];
      assert xs == init + [x];
      FirstOccurrencesOrdered(init);
      FirstOccurrencesMembers(init);
      var earlier := FirstOccurrences(init);
      var u := FirstOccurrences(xs);
      forall i, j | 0 <= i < j < |u|
        ensures FirstIndex(xs, u[i]) < FirstIndex(xs, u[j])
      {
        assert u[i] == earlier[i];
        assert u[i] in init;
        FirstIndexAppend(init, x, u[i]);
        if j < |earlier| {
          assert u[j] == earlier[j];
          assert u[j] in init;
          FirstIndexAppend(init, x, u[j]);
        } else {
          assert x !in earlier && u[j] == x;
          FirstIndexOfNew(init, x);
        }
      }
    }
  }

  /** `k1` occurs among the keys of `rag`, and does so before `k2` first does. */
  predicate FirstSeenBefore(rag: seq<TextEvidence>, k1: SourceKey, k2: SourceKey)
  {
    k1 in Keys(rag) && k2 in Keys(rag) && FirstIndex(Keys(rag), k1) < FirstIndex(Keys(rag), k2)
  }

  /** Reading one more evidence item adds its key to the deduplicated keys
      exactly when the key was not seen before. */
  lemma DedupStep(rag: seq<TextEvidence>, i: nat)
    requires i < |rag|
    ensures var earlier := FirstOccurrences(Keys(rag[..i]));
            FirstOccurrences(Keys(rag[..i + 1]))
            == if KeyOf(rag[i]) in earlier then earlier else earlier + [KeyOf(rag[i])]
  {
    var ks := Keys(rag[..i + 1]);
    assert ks[..|ks| - 1] == Keys(rag[..i]);
    assert ks[|ks| - 1] == KeyOf(rag[i]);
  }

  /** The (document, page) keys of the text evidence, each once, in the order
      of their first occurrence: what the citation list and the explanation's
      document list are built from. */
  lemma DedupKeysSpec(rag: seq<TextEvidence>)
    ensures Distinct(FirstOccurrences(Keys(rag)))
    ensures forall k :: k in FirstOccurrences(Keys(rag)) <==> k in Keys(rag)
    ensures forall i, j :: 0 <= i < j < |FirstOccurrences(Keys(rag))| ==>
              FirstSeenBefore(rag, FirstOccurrences(Keys(rag))[i], FirstOccurrences(Keys(rag))[j])
  {
    FirstOccurrencesDistinct(Keys(rag));
    FirstOccurrencesMembers(Keys(rag));
    FirstOccurrencesOrdered(Keys(rag));
  }

  /** Every evidence item's key is among the deduplicated keys, and every
      deduplicated key is the key of some item. */
  lemma DedupKeysCover(rag: seq<TextEvidence>)
    ensures forall i :: 0 <= i < |rag| ==> KeyOf(rag[i]) in FirstOccurrences(Keys(rag))
    ensures forall k :: k in FirstOccurrences(Keys(rag)) ==> exists i :: 0 <= i < |rag| && k == KeyOf(rag[i])
  {
    var keys := Keys(rag);
    FirstOccurrencesMembers(keys);
    forall i | 0 <= i < |rag|
      ensures KeyOf(rag[i]) in FirstOccurrences(keys)
    {
      assert keys[i] in keys;
    }
  }
}
