/** app/utils/helpers.py: whitespace normalisation and paragraph chunking. */
module Helpers {
  import opened Text

  // ---------------------------------------------------------------------------
  // clean_text
  // ---------------------------------------------------------------------------

  /** Text in normal form: no leading or trailing whitespace, and every
      whitespace character is a single space between two non-spaces. */
  predicate Normalised(r: string)
  {
    && (r == [] || (!IsSpace(r[0]) && !IsSpace(r[|r| - 1])))
    && (forall i :: 0 <= i < |r| && IsSpace(r[i]) ==> r[i] == ' ')
    && (forall i :: 0 <= i < |r| - 1 ==> !(IsSpace(r[i]) && IsSpace(r[i + 1])))
  }

  /** Words joined by single spaces are in normal form. */
  lemma {:induction false} JoinWordsNormalised(ws: seq<string>)
    requires forall i :: 0 <= i < |ws| ==> IsWord(ws[i])
    ensures Normalised(Join(ws, " "))
    ensures ws != [] ==> Join(ws, " ") != []
  {
    if |ws| > 1 {
      JoinWordsNormalised(ws[1..]);
      var w := ws[0];
      var tail := Join(ws[1..], " ");
      var r := w + " " + tail;
      assert Join(ws, " ") == r;
      assert forall i :: 0 <= i < |w| ==> r[i] == w[i];
      assert forall i :: |w| < i < |r| ==> r[i] == tail[i - |w| - 1];
      assert r[|w|] == ' ';
      assert forall i :: 0 <= i < |r| && IsSpace(r[i]) ==> r[i] == ' ';
      assert forall i :: 0 <= i < |r| - 1 ==> !(IsSpace(r[i]) && IsSpace(r[i + 1]));
      assert r[|r| - 1] == tail[|tail| - 1];
    }
  }

  /** Python `" ".join(text.split())`: the words of `text` separated by single
      spaces. */
  function CleanText(text: string): (r: string)
    ensures Normalised(r)
  {
    JoinWordsNormalised(Words(text));
    Join(Words(text), " ")
  }

  /** Normalising keeps the words of the text, so normalising twice changes
      nothing. */
  lemma CleanTextIdempotent(text: string)
    ensures Words(CleanText(text)) == Words(text)
    ensures CleanText(CleanText(text)) == CleanText(text)
  {
    WordsOfJoin(Words(text));
  }

  // ---------------------------------------------------------------------------
  // semantic_chunk_text
  // ---------------------------------------------------------------------------

  const ParagraphBreak: string := "\n\n"

  /** Characters per token used when turning `max_tokens` into a length. */
  const CharsPerToken: int := 4

  /** The list comprehension `[p.strip() for p in parts if p.strip()]`. */
  function NonBlankStripped(parts: seq<string>): (r: seq<string>)
    ensures forall i :: 0 <= i < |r| ==> r[i] != []
  {
    if parts == [] then []
    else
      var p := Strip(parts[0]);
      (if p != [] then [p] else []) + NonBlankStripped(parts[1..])
  }

  /** The stripped, non-blank paragraphs of `text`, in order. */
  function Paragraphs(text: string): (ps: seq<string>)
    ensures forall i :: 0 <= i < |ps| ==> ps[i] != []
  {
    NonBlankStripped(Split(text, ParagraphBreak))
  }

  /** The chunker's state after the paragraphs before `paras` were read:
      finished `chunks` and the chunk being filled, `current`. The result is
      what the loop and the final flush produce from there. */
  function PackFrom(paras: seq<string>, limit: int, chunks: seq<string>, current: string): seq<string>
    decreases |paras|
  {
    if paras == [] then
      (if current != [] then chunks + [current] else chunks)
    else
      var para := paras[0];
      if |current| + |para| + 2 < limit then
        PackFrom(paras[1..], limit, chunks, current + (if current != [] then ParagraphBreak + para else para))
      else
        PackFrom(paras[1..], limit, if current != [] then chunks + [current] else chunks, para)
  }

  /** What `semantic_chunk_text(text, max_tokens)` returns. */
  function Chunks(text: string, maxTokens: int): seq<string>
  {
    var packed := PackFrom(Paragraphs(text), maxTokens * CharsPerToken, [], "");
    if packed != [] then packed else [Prefix(text, maxTokens * CharsPerToken)]
  }

  /** The chunk being filled, as a list of at most one element. */
  function Pending(current: string): seq<string>
  {
    if current != [] then [current] else []
  }

  /** Packing produces nothing exactly when there is nothing to pack. */
  lemma {:induction false} PackEmptyIff(paras: seq<string>, limit: int, chunks: seq<string>, current: string)
    requires forall i :: 0 <= i < |paras| ==> paras[i] != []
    ensures PackFrom(paras, limit, chunks, current) == [] <==> paras == [] && chunks == [] && current == []
    decreases |paras|
  {
    if paras != [] {
      var para := paras[0];
      var next := current + (if current != [] then ParagraphBreak + para else para);
      assert next != [];
      PackEmptyIff(paras[1..], limit, chunks, next);
      PackEmptyIff(paras[1..], limit, if current != [] then chunks + [current] else chunks, para);
    }
  }

  /** Packing only regroups paragraphs: the chunks joined by a paragraph break
      are the pending text and the remaining paragraphs joined the same way. */
  lemma {:induction false} PackJoin(paras: seq<string>, limit: int, chunks: seq<string>, current: string)
    requires forall i :: 0 <= i < |paras| ==> paras[i] != []
    ensures Join(PackFrom(paras, limit, chunks, current), ParagraphBreak)
         == Join(chunks + Pending(current) + paras, ParagraphBreak)
    decreases |paras|
  {
    if paras == [] {
      assert PackFrom(paras, limit, chunks, current) == chunks + Pending(current);
      assert chunks + Pending(current) + paras == chunks + Pending(current);
    } else {
      var para := paras[0];
      var rest := paras[1..];
      assert paras == [para] + rest;
      if |current| + |para| + 2 < limit {
        if current != [] {
          var next := current + (ParagraphBreak + para);
          assert next == current + ParagraphBreak + para;
          PackJoin(rest, limit, chunks, next);
          assert Pending(next) == [current + ParagraphBreak + para];
          JoinMerge(chunks, current, para, rest, ParagraphBreak);
          assert chunks + [current, para] + rest == chunks + Pending(current) + paras;
        } else {
          assert current + para == para;
          PackJoin(rest, limit, chunks, para);
          assert chunks + Pending(para) + rest == chunks + Pending(current) + paras;
        }
      } else {
        var flushed := if current != [] then chunks + [current] else chunks;
        PackJoin(rest, limit, flushed, para);
        assert flushed == chunks + Pending(current);
        assert flushed + Pending(para) + rest == chunks + Pending(current) + paras;
      }
    }
  }

  /** A chunk the chunker may emit: non-empty, and shorter than the limit unless
      it is one of the paragraphs on its own. */
  predicate ChunkFits(c: string, limit: int, paras: seq<string>)
  {
    c != [] && (|c| < limit || c in paras)
  }

  /** Every chunk packing emits fits, given that what it starts from fits. */
  lemma {:induction false} PackFits(paras: seq<string>, limit: int, chunks: seq<string>, current: string, all: seq<string>)
    requires forall i :: 0 <= i < |paras| ==> paras[i] != [] && paras[i] in all
    requires forall i :: 0 <= i < |chunks| ==> ChunkFits(chunks[i], limit, all)
    requires current == [] || ChunkFits(current, limit, all)
    ensures forall c :: c in PackFrom(paras, limit, chunks, current) ==> ChunkFits(c, limit, all)
    decreases |paras|
  {
    if paras != [] {
      var para := paras[0];
      assert forall i :: 0 <= i < |paras[1..]| ==> paras[1..][i] == paras[i + 1];
      if |current| + |para| + 2 < limit {
        var next := current + (if current != [] then ParagraphBreak + para else para);
        assert |next| < limit;
        PackFits(paras[1..], limit, chunks, next, all);
      } else {
        var flushed := if current != [] then chunks + [current] else chunks;
        PackFits(paras[1..], limit, flushed, para, all);
      }
    }
  }

  /** What `semantic_chunk_text` promises: at least one chunk; with no
      paragraphs, the text cut to the length limit; otherwise non-empty chunks
      that regroup the paragraphs in order and are each under the limit or a
      single oversize paragraph. */
  lemma ChunksProperties(text: string, maxTokens: int)
    ensures Chunks(text, maxTokens) != []
    ensures Paragraphs(text) == [] ==>
              Chunks(text, maxTokens) == [Prefix(text, maxTokens * CharsPerToken)]
    ensures Paragraphs(text) != [] ==>
              Join(Chunks(text, maxTokens), ParagraphBreak) == Join(Paragraphs(text), ParagraphBreak)
    ensures Paragraphs(text) != [] ==>
              forall c :: c in Chunks(text, maxTokens) ==>
                ChunkFits(c, maxTokens * CharsPerToken, Paragraphs(text))
  {
    var ps := Paragraphs(text);
    var limit := maxTokens * CharsPerToken;
    assert Chunks(text, maxTokens)
           == if PackFrom(ps, limit, [], "") != [] then PackFrom(ps, limit, [], "") else [Prefix(text, limit)];
    PackedParagraphs(ps, limit);
  }

  /** Packing a list of paragraphs from the empty state: nothing exactly for
      no paragraphs; otherwise chunks that rebuild the paragraphs and fit. */
  lemma PackedParagraphs(ps: seq<string>, limit: int)
    requires forall i :: 0 <= i < |ps| ==> ps[i] != []
    ensures PackFrom(ps, limit, [], "") == [] <==> ps == []
    ensures ps != [] ==> Join(PackFrom(ps, limit, [], ""), ParagraphBreak) == Join(ps, ParagraphBreak)
    ensures ps != [] ==> forall c :: c in PackFrom(ps, limit, [], "") ==> ChunkFits(c, limit, ps)
  {
    PackEmptyIff(ps, limit, [], "");
    if ps != [] {
      PackJoin(ps, limit, [], "");
      assert [] + Pending("") + ps == ps;
      PackFits(ps, limit, [], "", ps);
    }
  }

  /** One step of packing: the first paragraph joins the pending chunk when
      the result stays under the limit, and otherwise starts a new one. */
  lemma PackStep(paras: seq<string>, limit: int, chunks: seq<string>, current: string)
    requires paras != []
    ensures |current| + |paras[0]| + 2 < limit ==>
              PackFrom(paras, limit, chunks, current)
              == PackFrom(paras[1..], limit, chunks, current + (if current != [] then ParagraphBreak + paras[0] else paras[0]))
    ensures |current| + |paras[0]| + 2 >= limit ==>
              PackFrom(paras, limit, chunks, current)
              == PackFrom(paras[1..], limit, if current != [] then chunks + [current] else chunks, paras[0])
  {
  }

  /** `semantic_chunk_text`: greedily packs paragraphs into chunks shorter
      than `max_tokens * 4` characters. */
  method SemanticChunkText(text: string, maxTokens: int) returns (chunks: seq<string>)
    ensures chunks == Chunks(text, maxTokens)
    ensures chunks != []
  {
    var paragraphs := Paragraphs(text);
    var limit := maxTokens * CharsPerToken;
    chunks := [];
    var current := "";
    for i := 0 to |paragraphs|
      invariant PackFrom(paragraphs[i..], limit, chunks, current) == PackFrom(paragraphs, limit, [], "")
    {
      var para := paragraphs[i];
      PackStep(paragraphs[i..], limit, chunks, current);
      assert paragraphs[i..][1..] == paragraphs[i + 1..];
      if |current| + |para| + 2 < limit {
        current := current + (if current != [] then ParagraphBreak + para else para);
      } else {
        if current != [] {
          chunks := chunks + [current];
        }
        current := para;
      }
    }
    assert paragraphs[|paragraphs|..] == [];
    if current != [] {
      chunks := chunks + [current];
    }
    assert chunks == PackFrom(paragraphs, limit, [], "");
    if chunks == [] {
      chunks := [Prefix(text, limit)];
    }
  }
}
