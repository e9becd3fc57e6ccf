/** app/services/llm_service.py: the evidence context that `generate_answer`
    hands to the language model, and the fallback of
    `extract_entities_relations`. The model itself is a parameter. */
module LlmService {
  import opened Wrappers
  import opened Text
  import opened Evidence

  const ExcerptHeader: string := "=== Relevant Document Excerpts ===\n"
  const KgHeader: string := "=== Knowledge Graph Facts ===\n"

  /** Each excerpt shows at most this many characters of its text. */
  const ExcerptLimit: nat := 1000

  /** At most this many graph entries are rendered. */
  const PromptPathCap: nat := 10

  const RelationSeparator: string := " -> "

  /** The first 1000 characters of an excerpt's text. */
  function ExcerptText(text: string): (t: string)
    ensures t <= text
    ensures |t| == if |text| <= ExcerptLimit then |text| else ExcerptLimit
  {
    Prefix(text, ExcerptLimit)
  }

  /** "Document: {document} (Page {page})\nText: {text[:1000]}\n". */
  function ExcerptPart(ev: TextEvidence): string
  {
    "Document: " + ev.document + " (Page " + IntToString(ev.page) + ")\n" + "Text: " + ExcerptText(ev.text) + "\n"
  }

  function ExcerptParts(rag: seq<TextEvidence>): (parts: seq<string>)
    ensures |parts| == |rag|
    ensures forall i :: 0 <= i < |rag| ==> parts[i] == ExcerptPart(rag[i])
  {
    seq(|rag|, i requires 0 <= i < |rag| => ExcerptPart(rag[i]))
  }

  /** "{type} ({description})", with "" for a missing description. */
  function RelationText(r: Relation): string
  {
    r.relType + " (" + r.description.GetOr("") + ")"
  }

  function RelationTexts(rels: seq<Relation>): (texts: seq<string>)
    ensures |texts| == |rels|
    ensures forall i :: 0 <= i < |rels| ==> texts[i] == RelationText(rels[i])
  {
    seq(|rels|, i requires 0 <= i < |rels| => RelationText(rels[i]))
  }

  /** A graph entry with a path renders as "start rel (desc) -> … target",
      with "" for a missing start or target; any other entry renders as its
      dictionary text. */
  function KgPart(entry: KgEntry, show: KgEntry -> string): string
  {
    match entry.path
    case Some(rels) =>
      entry.start.GetOr("") + " " + Join(RelationTexts(rels), RelationSeparator) + " " + entry.target.GetOr("") + "\n"
    case None => show(entry) + "\n"
  }

  function KgParts(kg: seq<KgEntry>, show: KgEntry -> string): (parts: seq<string>)
    ensures |parts| == |kg|
    ensures forall i :: 0 <= i < |kg| ==> parts[i] == KgPart(kg[i], show)
  {
    seq(|kg|, i requires 0 <= i < |kg| => KgPart(kg[i], show))
  }

  /** Python `kg[:10]`. */
  function PromptPaths(kg: seq<KgEntry>): (shown: seq<KgEntry>)
    ensures |shown| == if |kg| <= PromptPathCap then |kg| else PromptPathCap
    ensures forall i :: 0 <= i < |shown| ==> shown[i] == kg[i]
  {
    if |kg| <= PromptPathCap then kg else kg[..PromptPathCap]
  }

  /** Two optional sections, each a header followed by its items. */
  function Sections<T>(useA: bool, headA: T, itemsA: seq<T>, useB: bool, headB: T, itemsB: seq<T>): seq<T>
  {
    (if useA then [headA] + itemsA else []) + (if useB then [headB] + itemsB else [])
  }

  /** Where each header and item of two optional sections lands. */
  lemma SectionsLayout<T>(useA: bool, headA: T, itemsA: seq<T>, useB: bool, headB: T, itemsB: seq<T>)
    ensures var ps := Sections(useA, headA, itemsA, useB, headB, itemsB);
            var nA := if useA then 1 + |itemsA| else 0;
            && |ps| == nA + (if useB then 1 + |itemsB| else 0)
            && (useA ==> ps[0] == headA && forall i :: 0 <= i < |itemsA| ==> ps[1 + i] == itemsA[i])
            && (useB ==> ps[nA] == headB && forall i :: 0 <= i < |itemsB| ==> ps[nA + 1 + i] == itemsB[i])
  {
  }

  /** Where the header of the second section lands. */
  lemma SectionsHeadB<T>(useA: bool, headA: T, itemsA: seq<T>, useB: bool, headB: T, itemsB: seq<T>)
    requires useB
    ensures var nA := if useA then 1 + |itemsA| else 0;
            nA < |Sections(useA, headA, itemsA, useB, headB, itemsB)|
            && Sections(useA, headA, itemsA, useB, headB, itemsB)[nA] == headB
  {
  }

  /** Where one item of the second section lands. */
  lemma SectionsItemB<T>(useA: bool, headA: T, itemsA: seq<T>, useB: bool, headB: T, itemsB: seq<T>, i: nat)
    requires useB && i < |itemsB|
    ensures var nA := if useA then 1 + |itemsA| else 0;
            nA + 1 + i < |Sections(useA, headA, itemsA, useB, headB, itemsB)|
            && Sections(useA, headA, itemsA, useB, headB, itemsB)[nA + 1 + i] == itemsB[i]
  {
  }

  /** The list `context_parts` in append order. */
  function ContextParts(ev: Bundle, show: KgEntry -> string): seq<string>
  {
    Sections(ev.rag != [], ExcerptHeader, ExcerptParts(ev.rag), ev.kg != [], KgHeader, KgParts(PromptPaths(ev.kg), show))
  }

  function Context(ev: Bundle, show: KgEntry -> string): string
  {
    Join(ContextParts(ev, show), "\n")
  }

  /** The user message: the stripped f-string around the context. */
  function UserPrompt(question: string, context: string): string
  {
    "Evidence:\n" + context + "\n\nQuestion: " + question + "\n\nAnswer:"
  }

  /** The first loop of `generate_answer`: one part per text evidence item. */
  method AppendExcerpts(rag: seq<TextEvidence>) returns (parts: seq<string>)
    ensures parts == ExcerptParts(rag)
  {
    parts := [];
    for i := 0 to |rag|
      invariant parts == ExcerptParts(rag[..i])
    {
      assert rag[..i + 1][..i] == rag[..i];
      var item := rag[i];
      parts := parts + ["Document: " + item.document + " (Page " + IntToString(item.page) + ")\n"
                        + "Text: " + Prefix(item.text, 1000) + "\n"];
    }
    assert rag[..|rag|] == rag;
  }

  /** The second loop of `generate_answer`: one part per shown graph entry. */
  method AppendKgFacts(kg: seq<KgEntry>, show: KgEntry -> string) returns (parts: seq<string>)
    ensures parts == KgParts(PromptPaths(kg), show)
  {
    parts := [];
    var shown := PromptPaths(kg);
    for i := 0 to |shown|
      invariant parts == KgParts(shown[..i], show)
    {
      assert shown[..i + 1][..i] == shown[..i];
      var path := shown[i];
      if path.path.Some? {
        var rels := Join(RelationTexts(path.path.value), " -> ");
        parts := parts + [path.start.GetOr("") + " " + rels + " " + path.target.GetOr("") + "\n"];
      } else {
        parts := parts + [show(path) + "\n"];
      }
    }
    assert shown[..|shown|] == shown;
  }

  /** `generate_answer`. The model, with its fixed system prompt and sampling
      settings, is `generate`, from the user message to the reply. */
  method GenerateAnswer(question: string, ev: Bundle, show: KgEntry -> string, generate: string -> string)
    returns (answer: string)
    ensures answer == Strip(generate(UserPrompt(question, Context(ev, show))))
  {
    var contextParts: seq<string> := [];
    if ev.rag != [] {
      var excerpts := AppendExcerpts(ev.rag);
      assert [] + [ExcerptHeader] + excerpts == [ExcerptHeader] + excerpts;
      contextParts := contextParts + [ExcerptHeader] + excerpts;
    }
    assert contextParts == if ev.rag != [] then [ExcerptHeader] + ExcerptParts(ev.rag) else [];
    if ev.kg != [] {
      var facts := AppendKgFacts(ev.kg, show);
      assert contextParts + [KgHeader] + facts == contextParts + ([KgHeader] + facts);
      contextParts := contextParts + [KgHeader] + facts;
    }
    assert contextParts == ContextParts(ev, show);
    var context := Join(contextParts, "\n");
    var userPrompt := "Evidence:\n" + context + "\n\nQuestion: " + question + "\n\nAnswer:";
    answer := Strip(generate(userPrompt));
  }

  /** The number of context parts before the graph section. */
  function ExcerptSectionSize(rag: seq<TextEvidence>): nat
  {
    if rag != [] then 1 + |rag| else 0
  }

  /** The layout of the context, first half: the excerpt header and one part
      per text evidence item, in order, only when there is text evidence; the
      whole context is that and the graph section, a header and one part for
      each of the first ten graph entries, only when there is graph evidence. */
  lemma ContextExcerptsLayout(ev: Bundle, show: KgEntry -> string)
    ensures var ps := ContextParts(ev, show);
            && |ps| == ExcerptSectionSize(ev.rag) + (if ev.kg != [] then 1 + |PromptPaths(ev.kg)| else 0)
            && (ev.rag != [] ==> ps[0] == ExcerptHeader)
            && (forall i :: 0 <= i < |ev.rag| ==> ps[1 + i] == ExcerptPart(ev.rag[i]))
  {
    var shown := PromptPaths(ev.kg);
    SectionsLayout(ev.rag != [], ExcerptHeader, ExcerptParts(ev.rag), ev.kg != [], KgHeader, KgParts(shown, show));
  }

  /** One graph part of the context. */
  lemma ContextFactAt(ev: Bundle, show: KgEntry -> string, i: nat)
    requires i < |PromptPaths(ev.kg)|
    ensures ExcerptSectionSize(ev.rag) + 1 + i < |ContextParts(ev, show)|
    ensures ContextParts(ev, show)[ExcerptSectionSize(ev.rag) + 1 + i] == KgPart(ev.kg[i], show)
  {
    var shown := PromptPaths(ev.kg);
    var facts := KgParts(shown, show);
    SectionsItemB(ev.rag != [], ExcerptHeader, ExcerptParts(ev.rag), ev.kg != [], KgHeader, facts, i);
    assert shown[i] == ev.kg[i];
  }

  /** The layout of the context, second half: after the excerpt section come
      the graph header and one part for each of the first ten graph entries
      (fewer when there are fewer), in order, only when there is graph
      evidence. */
  lemma ContextFactsLayout(ev: Bundle, show: KgEntry -> string)
    ensures var ps := ContextParts(ev, show);
            var n := ExcerptSectionSize(ev.rag);
            && (ev.kg != [] ==> n < |ps| && ps[n] == KgHeader)
            && (forall i :: 0 <= i < |PromptPaths(ev.kg)| ==>
                  n + 1 + i < |ps| && ps[n + 1 + i] == KgPart(ev.kg[i], show))
  {
    if ev.kg != [] {
      SectionsHeadB(ev.rag != [], ExcerptHeader, ExcerptParts(ev.rag), ev.kg != [], KgHeader, KgParts(PromptPaths(ev.kg), show));
    }
    forall i | 0 <= i < |PromptPaths(ev.kg)|
      ensures ExcerptSectionSize(ev.rag) + 1 + i < |ContextParts(ev, show)|
              && ContextParts(ev, show)[ExcerptSectionSize(ev.rag) + 1 + i] == KgPart(ev.kg[i], show)
    {
      ContextFactAt(ev, show, i);
    }
  }

  /** Each excerpt part carries a prefix of its text of at most 1000
      characters, the whole text when it is that short. */
  lemma ExcerptTruncated(ev: TextEvidence)
    ensures exists head :: ExcerptPart(ev) == head + "Text: " + ExcerptText(ev.text) + "\n"
    ensures |ExcerptText(ev.text)| <= ExcerptLimit && ExcerptText(ev.text) <= ev.text
    ensures |ev.text| <= ExcerptLimit ==> ExcerptText(ev.text) == ev.text
  {
    var head := "Document: " + ev.document + " (Page " + IntToString(ev.page) + ")\n";
    assert ExcerptPart(ev) == head + "Text: " + ExcerptText(ev.text) + "\n";
  }

  // ---------------------------------------------------------------------------
  // extract_entities_relations
  // ---------------------------------------------------------------------------

  datatype ExtractedEntity = ExtractedEntity(name: string, entityType: string)

  datatype ExtractedRelationship = ExtractedRelationship(source: string, target: string, relation: string, description: string)

  datatype KgExtraction = KgExtraction(entities: seq<ExtractedEntity>, relationships: seq<ExtractedRelationship>)

  /** The decoded reply, or empty lists when it does not decode. */
  function ExtractEntitiesRelations(decoded: Option<KgExtraction>): (r: KgExtraction)
    ensures decoded.None? ==> r.entities == [] && r.relationships == []
    ensures decoded.Some? ==> r == decoded.value
  {
    decoded.GetOr(KgExtraction([], []))
  }
}
