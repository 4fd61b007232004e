/**
 * The voice assistant's chat endpoint (`src/app/api/vapi/route.ts`): it checks
 * the request in a fixed order, picks one of three sample documents (or a
 * help text) by keywords in the last user message, and streams the answer in
 * 3-character pieces. The JSON decoding of the request is given as a `Body`
 * value, the environment variable as an option, and the stream as the
 * sequence of pieces it sends.
 */
module VapiRoute {
  import opened Wrappers
  import opened Strings
  import opened Constants
  import opened TextUtils
  import FallbackRag
  import Streaming

  /** A chat message of the request; the role is compared as a string. */
  datatype ChatMessage = ChatMessage(role: string, content: string)

  /** The decoded request: unreadable JSON, or an object whose `messages` may be absent. */
  datatype Body = Unparseable | Parsed(messages: Option<seq<ChatMessage>>)

  /** What the handler returns: an error response, or the answer text it streams. */
  datatype Outcome = Rejected(status: int, text: string) | Answer(text: string)

  /** This route's own keyword lists: the first four words of each fallback list. */
  const RouteApiKeywords: seq<string> := ["api", "authentication", "key", "endpoint"]
  const RouteUserKeywords: seq<string> := ["user", "account", "registration", "profile"]
  const RouteTechnicalKeywords: seq<string> := ["technical", "system", "architecture", "infrastructure"]

  const InternalError: string := "Internal server error"
  const MissingKey: string := "Missing VAPI_PRIVATE_API_KEY"
  const InvalidFormat: string := "Invalid message format"

  /** `!process.env.VAPI_PRIVATE_API_KEY` is false: the variable is set and non-empty. */
  predicate KeySet(key: Option<string>) {
    key.Some? && key.value != []
  }

  /** The category chosen for the lowercased query: api, then user, then technical; none for the help text. */
  function RouteCategory(query: string): Option<FallbackRag.DocCategory> {
    if ContainsAny(query, RouteApiKeywords) then Some(FallbackRag.Api)
    else if ContainsAny(query, RouteUserKeywords) then Some(FallbackRag.UserGuide)
    else if ContainsAny(query, RouteTechnicalKeywords) then Some(FallbackRag.Technical)
    else None
  }

  /** `relevantDoc`: the category's sample document, or the default help text. */
  function RelevantDoc(query: string): string {
    match RouteCategory(query)
    case Some(c) => FallbackRag.FallbackDoc(c)
    case None => FallbackRag.GenericHelpResponse
  }

  /** What follows the quoted message: the closing quote and the document. */
  function AnswerTail(content: string): string {
    FallbackRag.QuoteSuffix + RelevantDoc(Lower(content))
  }

  /** The answer: the message quoted in its original case, then the chosen document. */
  function ResponseText(content: string): string {
    FallbackRag.QuotePrefix + content + AnswerTail(content)
  }

  /** `POST` up to the stream: decode, key check, last-message check, then the answer. */
  function Handle(body: Body, key: Option<string>): Outcome {
    match body
    case Unparseable => Rejected(500, InternalError)
    case Parsed(messages) =>
      if !KeySet(key) then Rejected(500, MissingKey)
      else if messages.None? then Rejected(500, InternalError)
      else
        var ms := messages.value;
        if ms == [] || ms[|ms| - 1].role != "user" then Rejected(400, InvalidFormat)
        else Answer(ResponseText(ms[|ms| - 1].content))
  }

  /**
   * The checks come in order: an unreadable body is an internal error; then a
   * missing key is reported whatever the messages are; then an absent list is
   * an internal error; then an empty list, or one whose last message is not
   * from the user, is a format error. Every request that passes gets an answer.
   */
  lemma HandleOrder(body: Body, key: Option<string>)
    ensures body.Unparseable? ==> Handle(body, key) == Rejected(500, InternalError)
    ensures body.Parsed? && !KeySet(key) ==> Handle(body, key) == Rejected(500, MissingKey)
    ensures body.Parsed? && KeySet(key) && body.messages.None? ==> Handle(body, key) == Rejected(500, InternalError)
    ensures body.Parsed? && KeySet(key) && body.messages == Some([]) ==> Handle(body, key) == Rejected(400, InvalidFormat)
    ensures Handle(body, key).Answer? <==>
      (body.Parsed? && KeySet(key) && body.messages.Some? && body.messages.value != [] &&
       body.messages.value[|body.messages.value| - 1].role == "user")
  {
  }

  /** Only the last message is read: lists with the same last message get the same outcome. */
  lemma OnlyLastMessageMatters(front1: seq<ChatMessage>, front2: seq<ChatMessage>, last: ChatMessage, key: Option<string>)
    ensures Handle(Parsed(Some(front1 + [last])), key) == Handle(Parsed(Some(front2 + [last])), key)
    ensures KeySet(key) && last.role == "user" ==> Handle(Parsed(Some(front1 + [last])), key) == Answer(ResponseText(last.content))
  {
    assert (front1 + [last])[|front1 + [last]| - 1] == last;
    assert (front2 + [last])[|front2 + [last]| - 1] == last;
  }

  /**
   * The category follows the keyword priority: any api word wins, a user word
   * wins over a technical word, and a query with none of them gets the help text.
   */
  lemma RouteCategoryPriority(query: string)
    ensures ContainsAny(query, RouteApiKeywords) ==> RouteCategory(query) == Some(FallbackRag.Api)
    ensures RouteCategory(query) == Some(FallbackRag.UserGuide) <==>
      !ContainsAny(query, RouteApiKeywords) && ContainsAny(query, RouteUserKeywords)
    ensures RouteCategory(query) == Some(FallbackRag.Technical) <==>
      !ContainsAny(query, RouteApiKeywords) && !ContainsAny(query, RouteUserKeywords) && ContainsAny(query, RouteTechnicalKeywords)
    ensures RouteCategory(query) == None <==>
      !ContainsAny(query, RouteApiKeywords) && !ContainsAny(query, RouteUserKeywords) && !ContainsAny(query, RouteTechnicalKeywords)
    ensures RouteCategory(query).None? ==> RelevantDoc(query) == FallbackRag.GenericHelpResponse
    ensures RouteCategory(query).Some? ==> RelevantDoc(query) == FallbackRag.FallbackDoc(RouteCategory(query).value)
  {
  }

  /** The route's api words are fallback api words, so a route api answer is also a fallback api answer. */
  lemma RouteApiIsFallbackApi(content: string)
    requires ContainsAny(Lower(content), RouteApiKeywords)
    ensures RouteCategory(Lower(content)) == Some(FallbackRag.Api)
    ensures FallbackRag.CategorizeQuery(content) == FallbackRag.Api
  {
    var k :| 0 <= k < |RouteApiKeywords| && IsSubstring(RouteApiKeywords[k], Lower(content));
    assert RouteApiKeywords[k] == ApiKeywords[k];
    LowerWithoutUpper(ApiKeywords[k]);
    FallbackRag.CategorizeApiWins(content);
  }

  /** The answer quotes the message in its original case and ends with the chosen document. */
  lemma ResponseShape(content: string)
    ensures var r := ResponseText(content);
      && r[..|FallbackRag.QuotePrefix|] == FallbackRag.QuotePrefix
      && OccursAt(content, r, |FallbackRag.QuotePrefix|)
      && r[|FallbackRag.QuotePrefix| + |content|..] == AnswerTail(content)
  {
    ThreeParts(FallbackRag.QuotePrefix, content, AnswerTail(content));
  }

  /** After the closing quote comes the chosen document, and nothing else. */
  lemma AnswerTailShape(content: string)
    ensures AnswerTail(content)[..|FallbackRag.QuoteSuffix|] == FallbackRag.QuoteSuffix
    ensures AnswerTail(content)[|FallbackRag.QuoteSuffix|..] == RelevantDoc(Lower(content))
  {
    ThreeParts(FallbackRag.QuoteSuffix, RelevantDoc(Lower(content)), []);
    assert FallbackRag.QuoteSuffix + RelevantDoc(Lower(content)) + [] == AnswerTail(content);
  }

  /**
   * `POST`: an error response carries its status and text and no pieces; an
   * answer is sent as 3-character pieces that spell it exactly.
   */
  method Post(body: Body, key: Option<string>) returns (status: int, pieces: seq<string>)
    ensures Handle(body, key).Rejected? ==> status == Handle(body, key).status && pieces == [Handle(body, key).text]
    ensures Handle(body, key).Answer? ==> status == 200 && Concat(pieces) == Handle(body, key).text
    ensures Handle(body, key).Answer? ==> forall k :: 0 <= k < |pieces| ==> 1 <= |pieces[k]| <= StreamingChunkSize
  {
    var outcome := Handle(body, key);
    if outcome.Rejected? {
      return outcome.status, [outcome.text];
    }
    status := 200;
    pieces := Streaming.StreamPieces(outcome.text, StreamingChunkSize);
    Streaming.PiecesConcat(outcome.text, StreamingChunkSize, 0);
    forall k | 0 <= k < |pieces| ensures 1 <= |pieces[k]| <= StreamingChunkSize {
      Streaming.PieceLengths(outcome.text, StreamingChunkSize, k);
    }
  }
}
