/**
 * Retrieval (`backend/lib/rag.ts`): the question is embedded, the vector
 * index is asked for its nearest records, each match becomes a search result
 * with defaults for missing fields, and the results are joined into the
 * context of the prompt. The embedder, the index query and the model are
 * parameters; a failure of any of them is the failure of the whole call.
 */
module Retrieval {
  import opened Wrappers
  import opened Strings
  import opened Types
  import opened VectorStore
  import Gemini
  import Ingestion

  /** One match of an index query; a match may come back without metadata. */
  datatype Match = Match(id: string, score: real, metadata: Option<Metadata>)

  datatype QueryRequest = QueryRequest(vector: Vector, topK: int, includeMetadata: bool)

  /** The index's answer; its `matches` may be absent. */
  datatype QueryResponse = QueryResponse(matches: Option<seq<Match>>)

  datatype Services = Services(
    embed: string -> Result<Vector>,
    query: QueryRequest -> Result<QueryResponse>,
    generate: string -> Result<string>)

  /** `md?.[key] as string || ''`: a missing or empty string reads as `""`. */
  function StrField(md: Option<Metadata>, key: string): (s: string)
    ensures (md.None? || key !in md.value || !md.value[key].Str?) ==> s == ""
  {
    if md.Some? && key in md.value && md.value[key].Str? then md.value[key].s else ""
  }

  /** `md?.[key] as number || 0`: a missing number reads as 0 (and 0 stays 0). */
  function NumField(md: Option<Metadata>, key: string): (n: int)
    ensures (md.None? || key !in md.value || !md.value[key].Num?) ==> n == 0
  {
    if md.Some? && key in md.value && md.value[key].Num? then md.value[key].n else 0
  }

  /** One match as a search result: id and score copied, stored fields read with their defaults. */
  function ToResult(m: Match): (r: SearchResult)
    ensures r.id == m.id && r.score == m.score
    ensures m.metadata.None? ==> r.content == "" && r.metadata == DocumentMetadata("", "", 0, 0)
  {
    SearchResult(m.id, m.score, StrField(m.metadata, "content"),
      DocumentMetadata(StrField(m.metadata, "source"), StrField(m.metadata, "title"),
        NumField(m.metadata, "chunkIndex"), NumField(m.metadata, "totalChunks")))
  }

  /** `searchResponse.matches?.map(...) || []`: one result per match, in the index's order. */
  function ToResults(resp: QueryResponse): (rs: seq<SearchResult>)
    ensures resp.matches.None? ==> rs == []
    ensures resp.matches.Some? ==> |rs| == |resp.matches.value|
    ensures resp.matches.Some? ==> forall i :: 0 <= i < |rs| ==> rs[i] == ToResult(resp.matches.value[i])
  {
    match resp.matches
    case None => []
    case Some(ms) => seq(|ms|, i requires 0 <= i < |ms| => ToResult(ms[i]))
  }

  /** `searchDocuments(query, topK)`. */
  function SearchDocuments(sv: Services, query: string, topK: int): Result<seq<SearchResult>> {
    match sv.embed(query)
    case Failure(e) => Failure(e)
    case Success(v) =>
      match sv.query(QueryRequest(v, topK, true))
      case Failure(e) => Failure(e)
      case Success(resp) => Success(ToResults(resp))
  }

  /**
   * The index is asked for exactly `topK` matches of the question's
   * embedding, with metadata; the results mirror its matches one for one,
   * and a failure of either call is passed on.
   */
  lemma SearchDocumentsQuery(sv: Services, query: string, topK: int)
    ensures sv.embed(query).Failure? ==> SearchDocuments(sv, query, topK) == Failure(sv.embed(query).error)
    ensures sv.embed(query).Success? ==>
      var req := QueryRequest(sv.embed(query).value, topK, true);
      && req.topK == topK && req.includeMetadata
      && (sv.query(req).Failure? ==> SearchDocuments(sv, query, topK) == Failure(sv.query(req).error))
      && (sv.query(req).Success? ==> SearchDocuments(sv, query, topK) == Success(ToResults(sv.query(req).value)))
  {
  }

  /**
   * A record written by ingestion comes back from a search as the chunk's
   * own content and metadata, with the id it was stored under.
   */
  lemma StoredChunkRoundTrip(chunk: DocumentChunk, values: Vector, score: real)
    ensures var rec := Ingestion.RecordFor(chunk, values);
      ToResult(Match(rec.id, score, Some(rec.metadata))) == SearchResult(chunk.id, score, chunk.content, chunk.metadata)
  {
    var md := Ingestion.RecordFor(chunk, values).metadata;
    assert md["content"] == Str(chunk.content);
    assert md["source"] == Str(chunk.metadata.source);
    assert md["title"] == Str(chunk.metadata.title);
    assert md["chunkIndex"] == Num(chunk.metadata.chunkIndex);
    assert md["totalChunks"] == Num(chunk.metadata.totalChunks);
  }

  // ------------------------------------------------------------ context

  /** `Source: ${title}\nContent: ${content}`. */
  function Block(r: SearchResult): (b: string)
    ensures |b| >= 8 && b[..8] == "Source: "
  {
    "Source: " + r.metadata.title + "\nContent: " + r.content
  }

  function Blocks(rs: seq<SearchResult>): (bs: seq<string>)
    ensures |bs| == |rs| && forall i :: 0 <= i < |rs| ==> bs[i] == Block(rs[i])
  {
    seq(|rs|, i requires 0 <= i < |rs| => Block(rs[i]))
  }

  /** The context given to the model: the blocks joined by blank lines. */
  function Context(rs: seq<SearchResult>): string {
    Join("\n\n", Blocks(rs))
  }

  /** The context is empty exactly when there are no results. */
  lemma ContextEmptyIff(rs: seq<SearchResult>)
    ensures Context(rs) == [] <==> rs == []
  {
    if rs != [] {
      var bs := Blocks(rs);
      assert |bs[0]| >= 8;
      if |bs| > 1 {
        assert Context(rs) == bs[0] + "\n\n" + Join("\n\n", bs[1..]);
      }
    }
  }

  /** Results enter the context in their order: one more result adds a blank line and its block at the end. */
  lemma ContextAppend(rs: seq<SearchResult>, r: SearchResult)
    ensures rs == [] ==> Context(rs + [r]) == Block(r)
    ensures rs != [] ==> Context(rs + [r]) == Context(rs) + "\n\n" + Block(r)
  {
    assert Blocks(rs + [r]) == Blocks(rs) + [Block(r)];
    if rs != [] {
      JoinAppend("\n\n", Blocks(rs), Block(r));
    }
  }

  // ------------------------------------------------------------- answer

  /** `generateRAGResponse(query, topK)`: search, join the context, ask the model. */
  function GenerateRAGResponse(sv: Services, query: string, topK: int): Result<RAGResponse> {
    match SearchDocuments(sv, query, topK)
    case Failure(e) => Failure(e)
    case Success(rs) =>
      match Gemini.GenerateResponse(sv.generate, query, Some(Context(rs)))
      case Failure(e) => Failure(e)
      case Success(text) => Success(RAGResponse(text, rs))
  }

  /** The sources of an answer are exactly the search results it was built from. */
  lemma AnswerSourcesAreResults(sv: Services, query: string, topK: int)
    requires GenerateRAGResponse(sv, query, topK).Success?
    ensures SearchDocuments(sv, query, topK).Success?
    ensures GenerateRAGResponse(sv, query, topK).value.sources == SearchDocuments(sv, query, topK).value
  {
  }

  /** The prompt an answer is generated from: the bare question when the search finds nothing, otherwise the question wrapped in the joined results. */
  lemma AnswerPrompt(query: string, rs: seq<SearchResult>)
    ensures rs == [] ==> Gemini.FullPrompt(query, Some(Context(rs))) == query
    ensures rs != [] ==> Gemini.FullPrompt(query, Some(Context(rs)))
                         == Gemini.Instruction + Gemini.ContextLabel + Context(rs) + Gemini.QuestionLabel + query
  {
    ContextEmptyIff(rs);
  }
}
