/**
 * The RAG query service: the retrieved `(chunk id, score)` pairs are hydrated
 * from the corpus tables into citation sources and a context text, the LLM is
 * asked for an answer (its failure becomes a fixed apology), and the response
 * carries the number of citations and, on request, a debug block. Embedding,
 * vector search and the LLM are parameters.
 */
module Rag {
  import opened Wrappers
  import opened Text
  import opened Records
  import Corpus
  import Vector

  /** Characters of chunk text shown before "..." in a citation. */
  const SnippetChars: nat := 300

  /** The apology returned when the LLM call raises. */
  const Apology: string := "Xin lỗi, hiện không thể kết nối LLM. Vui lòng thử lại sau."

  // ---------------------------------------------------------------------------
  // The score map

  /** `{cid: score for cid, score in retrieved}`: a later pair overwrites an earlier one. */
  function ScoreMap(retrieved: seq<(int, real)>): map<int, real> {
    if retrieved == [] then map[]
    else
      var last := retrieved[|retrieved| - 1];
      ScoreMap(retrieved[..|retrieved| - 1])[last.0 := last.1]
  }

  /** No pair retrieved, no id: `if not chunk_ids` is the empty-retrieval test. */
  lemma ScoreMapEmpty(retrieved: seq<(int, real)>)
    ensures |ScoreMap(retrieved)| == 0 <==> retrieved == []
  {
    if retrieved != [] {
      assert retrieved[|retrieved| - 1].0 in ScoreMap(retrieved);
    }
  }

  /** The ids in the score map are exactly the retrieved ids. */
  lemma {:induction false} ScoreMapKeys(retrieved: seq<(int, real)>)
    ensures forall id :: id in ScoreMap(retrieved) <==> exists i :: 0 <= i < |retrieved| && retrieved[i].0 == id
  {
    if retrieved != [] {
      var init := retrieved[..|retrieved| - 1];
      ScoreMapKeys(init);
      forall id | id in ScoreMap(retrieved)
        ensures exists i :: 0 <= i < |retrieved| && retrieved[i].0 == id
      {
        if id != retrieved[|retrieved| - 1].0 {
          assert id in ScoreMap(init);
          var i :| 0 <= i < |init| && init[i].0 == id;
          assert retrieved[i] == init[i];
        }
      }
      forall id, i | 0 <= i < |retrieved| && retrieved[i].0 == id
        ensures id in ScoreMap(retrieved)
      {
        if i < |init| {
          assert init[i] == retrieved[i];
        }
      }
    }
  }

  /** With duplicate ids the last pair wins: an id's score is that of its last occurrence. */
  lemma {:induction false} ScoreMapLastWins(retrieved: seq<(int, real)>, j: nat)
    requires j < |retrieved|
    requires forall k :: j < k < |retrieved| ==> retrieved[k].0 != retrieved[j].0
    ensures retrieved[j].0 in ScoreMap(retrieved) && ScoreMap(retrieved)[retrieved[j].0] == retrieved[j].1
  {
    var n := |retrieved| - 1;
    if j < n {
      var init := retrieved[..n];
      assert init[j] == retrieved[j];
      assert forall k :: j < k < |init| ==> init[k] == retrieved[k];
      ScoreMapLastWins(init, j);
    }
  }

  // ---------------------------------------------------------------------------
  // Hydration

  /** `select(Chunk).where(Chunk.id.in_(chunk_ids))`, in table order. */
  function Selected(t: Corpus.Tables, scores: map<int, real>): seq<Chunk> {
    Filter(t.chunks, (c: Chunk) => c.id in scores)
  }

  /** A selected chunk is a chunk of the table with one of the retrieved ids, and every such chunk is selected. */
  lemma SelectedSpec(t: Corpus.Tables, retrieved: seq<(int, real)>)
    ensures forall c :: c in Selected(t, ScoreMap(retrieved)) <==>
      c in t.chunks && exists i :: 0 <= i < |retrieved| && retrieved[i].0 == c.id
  {
    ScoreMapKeys(retrieved);
    FilterMembers(t.chunks, (c: Chunk) => c.id in ScoreMap(retrieved));
  }

  /** `chunk.chapter`: the first chapter row with the given id. */
  function FindChapter(chapters: seq<Chapter>, id: nat): (r: Option<Chapter>)
    ensures r.Some? ==> r.value in chapters && r.value.id == id
  {
    if chapters == [] then None
    else if chapters[0].id == id then Some(chapters[0])
    else FindChapter(chapters[1..], id)
  }

  /** Under the foreign key the chapter of a chunk is always found. */
  lemma {:induction false} FindChapterFound(chapters: seq<Chapter>, id: nat)
    requires id in Keys(chapters, ChapterKey)
    ensures FindChapter(chapters, id).Some?
  {
    if chapters[0].id != id {
      var c :| c in chapters && ChapterKey(c) == id;
      assert c in chapters[1..];
      FindChapterFound(chapters[1..], id);
    }
  }

  /** `chunk.quotes`: the quote rows of a chunk, in table order. */
  function QuotesOf(quotes: seq<Quote>, chunkId: nat): seq<Quote> {
    Filter(quotes, (q: Quote) => q.chunkId == chunkId)
  }

  /** The citation text: the chunk text cut at 300 characters plus "...", unless the first quote has text. */
  function Snippet(text: string, quotes: seq<Quote>): string {
    if quotes != [] && quotes[0].text != "" then quotes[0].text
    else if |text| > SnippetChars then text[..SnippetChars] + "..."
    else text
  }

  lemma SnippetSpec(text: string, quotes: seq<Quote>)
    ensures quotes != [] && quotes[0].text != "" ==> Snippet(text, quotes) == quotes[0].text
    ensures (quotes == [] || quotes[0].text == "") && |text| <= SnippetChars ==> Snippet(text, quotes) == text
    ensures (quotes == [] || quotes[0].text == "") && |text| > SnippetChars ==>
      |Snippet(text, quotes)| == SnippetChars + 3
      && Snippet(text, quotes)[..SnippetChars] == text[..SnippetChars] && Snippet(text, quotes)[SnippetChars..] == "..."
  {
  }

  /** The page number of the first quote, if the chunk has any. */
  function PageNumber(quotes: seq<Quote>): Option<int> {
    if quotes == [] then None else quotes[0].pageNumber
  }

  /** One citation. */
  datatype Source = Source(documentId: nat, chapterId: nat, chunkId: nat, pageNumber: Option<int>, text: string, score: real)

  /** `s` cites chunk `c` of the tables, scored from `scores`. */
  ghost predicate Cites(s: Source, t: Corpus.Tables, c: Chunk, scores: map<int, real>) {
    FindChapter(t.chapters, c.chapterId).Some?
    && s.documentId == FindChapter(t.chapters, c.chapterId).value.documentId
    && s.chapterId == c.chapterId && s.chunkId == c.id
    && s.pageNumber == PageNumber(QuotesOf(t.quotes, c.id))
    && s.text == Snippet(c.text, QuotesOf(t.quotes, c.id))
    && c.id in scores && s.score == scores[c.id]
  }

  /**
   * `_get_context_from_chunks`: nothing retrieved gives no source and an empty
   * context; otherwise one source and one context part per selected chunk, in
   * table order, the context being the raw chunk texts joined by a blank line.
   */
  method ContextFromChunks(t: Corpus.Tables, retrieved: seq<(int, real)>)
    returns (sources: seq<Source>, context: string)
    requires Corpus.Linked(t)
    ensures retrieved == [] ==> sources == [] && context == ""
    ensures retrieved != [] ==>
      var cs := Selected(t, ScoreMap(retrieved));
      |sources| == |cs|
      && (forall i :: 0 <= i < |cs| ==> Cites(sources[i], t, cs[i], ScoreMap(retrieved)))
      && context == Join(Corpus.Texts(cs), "\n\n")
  {
    var scores := ScoreMap(retrieved);
    ScoreMapEmpty(retrieved);
    if |scores| == 0 {
      return [], "";
    }
    var chunks := Selected(t, scores);
    FilterMembers(t.chunks, (c: Chunk) => c.id in scores);
    sources := [];
    var parts: seq<string> := [];
    var i := 0;
    while i < |chunks|
      invariant 0 <= i <= |chunks|
      invariant |sources| == i && parts == Corpus.Texts(chunks[..i])
      invariant forall k :: 0 <= k < i ==> Cites(sources[k], t, chunks[k], scores)
    {
      var chunk := chunks[i];
      assert chunk in t.chunks;
      FindChapterFound(t.chapters, chunk.chapterId);
      var chapter := FindChapter(t.chapters, chunk.chapterId);
      var quotes := QuotesOf(t.quotes, chunk.id);
      var source := Source(chapter.value.documentId, chunk.chapterId, chunk.id, PageNumber(quotes),
                           Snippet(chunk.text, quotes), scores[chunk.id]);
      sources := sources + [source];
      TextsSnoc(chunks, i);
      parts := parts + [chunk.text];
      i := i + 1;
    }
    assert chunks[..i] == chunks;
    context := Join(parts, "\n\n");
  }

  lemma TextsSnoc(cs: seq<Chunk>, i: nat)
    requires i < |cs|
    ensures Corpus.Texts(cs[..i + 1]) == Corpus.Texts(cs[..i]) + [cs[i].text]
  {
  }

  /** Every source cites a chunk that was retrieved, with the score of that id's last retrieval. */
  lemma SourcesRetrieved(t: Corpus.Tables, retrieved: seq<(int, real)>, sources: seq<Source>)
    requires |sources| == |Selected(t, ScoreMap(retrieved))|
    requires forall i :: 0 <= i < |sources| ==>
      Cites(sources[i], t, Selected(t, ScoreMap(retrieved))[i], ScoreMap(retrieved))
    ensures forall i :: 0 <= i < |sources| ==>
      Selected(t, ScoreMap(retrieved))[i] in t.chunks
      && (exists j :: 0 <= j < |retrieved| && retrieved[j].0 == sources[i].chunkId
            && (forall k :: j < k < |retrieved| ==> retrieved[k].0 != sources[i].chunkId)
            && sources[i].score == retrieved[j].1)
  {
    var cs := Selected(t, ScoreMap(retrieved));
    SelectedSpec(t, retrieved);
    forall i | 0 <= i < |sources|
      ensures cs[i] in t.chunks
        && (exists j :: 0 <= j < |retrieved| && retrieved[j].0 == sources[i].chunkId
              && (forall k :: j < k < |retrieved| ==> retrieved[k].0 != sources[i].chunkId)
              && sources[i].score == retrieved[j].1)
    {
      assert cs[i] in cs;
      var j := LastIndex(retrieved, sources[i].chunkId);
      ScoreMapLastWins(retrieved, j);
      assert 0 <= j < |retrieved| && retrieved[j].0 == sources[i].chunkId
        && (forall k :: j < k < |retrieved| ==> retrieved[k].0 != sources[i].chunkId)
        && sources[i].score == retrieved[j].1;
    }
  }

  /** The position of the last pair carrying `id`, for an id that occurs. */
  lemma LastIndex(retrieved: seq<(int, real)>, id: int) returns (j: nat)
    requires exists i :: 0 <= i < |retrieved| && retrieved[i].0 == id
    ensures j < |retrieved| && retrieved[j].0 == id
    ensures forall k :: j < k < |retrieved| ==> retrieved[k].0 != id
  {
    var n := |retrieved| - 1;
    if retrieved[n].0 == id {
      j := n;
    } else {
      var i :| 0 <= i < |retrieved| && retrieved[i].0 == id;
      assert retrieved[..n][i] == retrieved[i];
      j := LastIndex(retrieved[..n], id);
      assert retrieved[j] == retrieved[..n][j];
      assert forall k :: j < k < n ==> retrieved[k] == retrieved[..n][k];
    }
  }

  // ---------------------------------------------------------------------------
  // Answer and response

  /** `_generate_answer`: the model's content, or the apology when the call raised (`None`). */
  function GenerateAnswer(outcome: Option<string>): (answer: string)
    ensures outcome.Some? ==> answer == outcome.value
    ensures outcome.None? ==> answer == Apology
  {
    if outcome.Some? then outcome.value else Apology
  }

  /** The timing fields of the debug block are not modelled. */
  datatype DebugInfo = DebugInfo(retrievedChunks: seq<int>)

  datatype ChatResponse = ChatResponse(answer: string, sources: seq<Source>, numCitations: int, debug: Option<DebugInfo>)

  /** `min(len(sources), RAG_TOP_K)`. */
  function NumCitations(sourceCount: nat, ragTopK: int): (n: int)
    ensures n <= sourceCount && n <= ragTopK
    ensures n == sourceCount || n == ragTopK
  {
    if sourceCount <= ragTopK then sourceCount else ragTopK
  }

  /**
   * `query`: search with the question's embedding and the default top-k, hydrate
   * the hits, always ask the LLM (even with an empty context), and assemble the
   * response; the debug block lists the retrieved ids in retrieval order.
   */
  method Query(question: string, includeDebug: bool, t: Corpus.Tables, ragTopK: int,
               embed: string -> seq<real>, client: Vector.SearchRequest -> seq<Vector.ScoredPoint>,
               llm: (string, string) -> Option<string>)
    returns (response: ChatResponse, request: Vector.SearchRequest)
    requires Corpus.Linked(t)
    ensures request == Vector.SearchRequest(embed(question), ragTopK, None)
    ensures var hits := client(request);
      var retrieved := seq(|hits|, i requires 0 <= i < |hits| => (hits[i].id, hits[i].score));
      var context := if hits == [] then "" else Join(Corpus.Texts(Selected(t, ScoreMap(retrieved))), "\n\n");
      response.answer == GenerateAnswer(llm(question, context))
      && (hits == [] ==> response.sources == [])
      && (hits != [] ==>
            |response.sources| == |Selected(t, ScoreMap(retrieved))|
            && forall i :: 0 <= i < |response.sources| ==>
                 Cites(response.sources[i], t, Selected(t, ScoreMap(retrieved))[i], ScoreMap(retrieved)))
      && response.numCitations == NumCitations(|response.sources|, ragTopK)
      && (response.debug.Some? <==> includeDebug)
      && (includeDebug ==> response.debug.value.retrievedChunks == seq(|hits|, i requires 0 <= i < |hits| => hits[i].id))
  {
    var retrieved;
    request, retrieved := Vector.Search(embed(question), None, None, ragTopK, client);
    ghost var hits := client(request);
    assert retrieved == seq(|hits|, i requires 0 <= i < |hits| => (hits[i].id, hits[i].score));
    var sources, context := ContextFromChunks(t, retrieved);
    var answer := GenerateAnswer(llm(question, context));
    var debug: Option<DebugInfo> := None;
    if includeDebug {
      debug := Some(DebugInfo(seq(|retrieved|, i requires 0 <= i < |retrieved| => retrieved[i].0)));
    }
    response := ChatResponse(answer, sources, NumCitations(|sources|, ragTopK), debug);
  }
}
