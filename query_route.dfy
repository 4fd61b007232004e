/**
 * The question endpoint (`src/app/api/query/route.ts`): it refuses to run
 * without the three service variables, then reads the question and `topK`
 * from the decoded body, runs retrieval and reports a short summary of each
 * source. The environment is a map from names to values; the body's JSON
 * decoding is given as a `Body` value.
 */
module QueryRoute {
  import opened Wrappers
  import opened Strings
  import opened Types
  import opened Constants
  import Formatting
  import Validation
  import Retrieval

  /** The decoded request: unreadable JSON, or an object with an optional question and `topK`. */
  datatype Body = Unparseable | Parsed(query: Option<string>, topK: Option<int>)

  /** The endpoint's answer: an error status and message, or the answer with its source summaries. */
  datatype Outcome =
    | Error(status: int, message: string)
    | Answered(query: string, response: string, sources: seq<SourceSummary>)

  const MissingEnvVars: string := "Missing required environment variables"
  const QueryRequired: string := "Query is required"
  const FailedToProcess: string := "Failed to process query"

  /** The gate of the handler: all three service variables are set and non-empty. */
  predicate EnvReady(env: map<string, string>) {
    !Validation.Unset(env, "PINECONE_API_KEY") && !Validation.Unset(env, "PINECONE_INDEX_NAME") &&
    !Validation.Unset(env, "GOOGLE_API_KEY")
  }

  /** The handler's gate agrees with the environment validator over the required list. */
  lemma EnvReadyIsValid(env: map<string, string>)
    ensures EnvReady(env) <==> Validation.Missing(env, RequiredEnvVars) == []
  {
    Validation.MissingEmptyIff(env, RequiredEnvVars);
    assert RequiredEnvVars[0] == "PINECONE_API_KEY";
    assert RequiredEnvVars[1] == "PINECONE_INDEX_NAME";
    assert RequiredEnvVars[2] == "GOOGLE_API_KEY";
  }

  /** One source as reported: title, source and score, and the first 200 characters of the content with `...`. */
  function Summary(r: SearchResult): SourceSummary {
    SourceSummary(r.metadata.title, r.metadata.source, r.score,
      Formatting.Prefix(r.content, MaxContentPreviewLength) + "...")
  }

  function Summaries(rs: seq<SearchResult>): (ss: seq<SourceSummary>)
    ensures |ss| == |rs| && forall i :: 0 <= i < |rs| ==> ss[i] == Summary(rs[i])
  {
    seq(|rs|, i requires 0 <= i < |rs| => Summary(rs[i]))
  }

  /**
   * A summary keeps the result's title, source and score; its content is the
   * result's content cut to at most 200 characters and always followed by
   * `...`, even when nothing was cut.
   */
  lemma SummaryShape(r: SearchResult)
    ensures var s := Summary(r);
      var n := if |r.content| < MaxContentPreviewLength then |r.content| else MaxContentPreviewLength;
      && s.title == r.metadata.title && s.source == r.metadata.source && s.score == r.score
      && |s.content| == n + 3
      && s.content[..n] == r.content[..n]
      && s.content[n..] == "..."
  {
    var p := Formatting.Prefix(r.content, MaxContentPreviewLength);
    assert p + "..." == Summary(r).content;
    assert (p + "...")[..|p|] == p;
  }

  /** `POST`: environment gate, body, question, retrieval, summaries. */
  function Handle(env: map<string, string>, body: Body, sv: Retrieval.Services): Outcome {
    if !EnvReady(env) then Error(500, MissingEnvVars)
    else match body
      case Unparseable => Error(500, FailedToProcess)
      case Parsed(query, topK) =>
        if query.None? || query.value == [] then Error(400, QueryRequired)
        else
          match Retrieval.GenerateRAGResponse(sv, query.value, topK.GetOr(DefaultTopK))
          case Failure(_) => Error(500, FailedToProcess)
          case Success(answer) => Answered(query.value, answer.response, Summaries(answer.sources))
  }

  /**
   * The gate comes first: with a variable missing the answer is the same
   * 500 whatever the body; an unreadable body, a failed retrieval and nothing
   * else give the generic 500; an absent or empty question gives 400.
   */
  lemma HandleOrder(env: map<string, string>, body: Body, sv: Retrieval.Services)
    ensures Validation.Missing(env, RequiredEnvVars) != [] ==> Handle(env, body, sv) == Error(500, MissingEnvVars)
    ensures EnvReady(env) && body.Unparseable? ==> Handle(env, body, sv) == Error(500, FailedToProcess)
    ensures EnvReady(env) && body.Parsed? && (body.query.None? || body.query == Some("")) ==>
      Handle(env, body, sv) == Error(400, QueryRequired)
    ensures EnvReady(env) && body.Parsed? && body.query.Some? && body.query.value != [] ==>
      (Handle(env, body, sv).Error? <==>
       Retrieval.GenerateRAGResponse(sv, body.query.value, body.topK.GetOr(DefaultTopK)).Failure?)
    ensures Handle(env, body, sv).Error? ==> Handle(env, body, sv).status in {400, 500}
  {
    EnvReadyIsValid(env);
  }

  /**
   * An answered question echoes the question, carries the model's answer and
   * summarises every source of the retrieval, in order; retrieval ran with
   * the requested `topK`, or 5 when none was sent.
   */
  lemma AnsweredShape(env: map<string, string>, query: string, topK: Option<int>, sv: Retrieval.Services)
    requires Handle(env, Parsed(Some(query), topK), sv).Answered?
    ensures var answer := Retrieval.GenerateRAGResponse(sv, query, topK.GetOr(DefaultTopK));
      var out := Handle(env, Parsed(Some(query), topK), sv);
      && answer.Success?
      && out.query == query
      && out.response == answer.value.response
      && |out.sources| == |answer.value.sources|
      && forall i :: 0 <= i < |out.sources| ==> out.sources[i] == Summary(answer.value.sources[i])
  {
  }

  /** Leaving `topK` out is the same request as sending 5. */
  lemma TopKDefault(env: map<string, string>, query: Option<string>, sv: Retrieval.Services)
    ensures Handle(env, Parsed(query, None), sv) == Handle(env, Parsed(query, Some(5)), sv)
  {
  }
}
