/**
 * The keyword-based answers used when the real services are not configured
 * (`src/lib/fallback-rag.ts`): a query is put in one of three categories by
 * keyword and answered with that category's sample document.
 */
module FallbackRag {
  import opened Strings
  import opened Constants
  import opened TextUtils

  datatype DocCategory = Api | UserGuide | Technical

  const ApiDoc: string := "API Documentation: All API requests require authentication using an API key. Include your API key in the Authorization header: 'Authorization: Bearer YOUR_API_KEY'. The API base URL is: https://api.example.com/v1. Endpoints include GET /users, POST /users, GET /products, and GET /products/{id}."
  const UserDoc: string := "User Manual: Create your account by visiting the registration page. Verify your email address and complete your profile information. Set up two-factor authentication for enhanced security. The dashboard provides quick access to all features, recent activity summary, and notifications."
  const TechnicalDoc: string := "Technical Specs: Our platform is built using React 18 with TypeScript, Node.js 18+, Express.js, PostgreSQL 14+, and Redis 6+. The system uses microservices architecture with AWS cloud infrastructure. API performance: < 200ms response time, 10,000 requests per second, 99.9% uptime SLA."

  /** `FALLBACK_DOCS[category]`. */
  function FallbackDoc(c: DocCategory): string {
    match c
    case Api => ApiDoc
    case UserGuide => UserDoc
    case Technical => TechnicalDoc
  }

  /** `categorizeQuery`: api keywords first, then user, then technical; api when nothing matches. */
  function CategorizeQuery(query: string): (c: DocCategory)
    ensures c == UserGuide <==> !ContainsKeywords(query, ApiKeywords) && ContainsKeywords(query, UserKeywords)
    ensures c == Technical <==>
      !ContainsKeywords(query, ApiKeywords) && !ContainsKeywords(query, UserKeywords) && ContainsKeywords(query, TechnicalKeywords)
  {
    var lowerQuery := Lower(query);
    ContainsKeywordsIgnoresCase(query, ApiKeywords);
    ContainsKeywordsIgnoresCase(query, UserKeywords);
    ContainsKeywordsIgnoresCase(query, TechnicalKeywords);
    if ContainsKeywords(lowerQuery, ApiKeywords) then Api
    else if ContainsKeywords(lowerQuery, UserKeywords) then UserGuide
    else if ContainsKeywords(lowerQuery, TechnicalKeywords) then Technical
    else Api
  }

  /** Any api keyword wins over the other lists, and a query that matches no list falls back to api. */
  lemma CategorizeApiWins(query: string)
    ensures ContainsKeywords(query, ApiKeywords) ==> CategorizeQuery(query) == Api
    ensures !ContainsKeywords(query, ApiKeywords) && !ContainsKeywords(query, UserKeywords) && !ContainsKeywords(query, TechnicalKeywords)
      ==> CategorizeQuery(query) == Api
  {
  }

  /** The category does not depend on the case of the query. */
  lemma CategorizeIgnoresCase(query: string)
    ensures CategorizeQuery(Upper(query)) == CategorizeQuery(query)
    ensures CategorizeQuery(Lower(query)) == CategorizeQuery(query)
  {
    ContainsKeywordsIgnoresCase(query, ApiKeywords);
    ContainsKeywordsIgnoresCase(query, UserKeywords);
    ContainsKeywordsIgnoresCase(query, TechnicalKeywords);
  }

  /** Matching is by substring: any query whose lowercased form contains `key` (as in "monkey") is an api query. */
  lemma KeyMeansApi(query: string)
    requires IsSubstring("key", Lower(query))
    ensures CategorizeQuery(query) == Api
  {
    assert Lower(ApiKeywords[2]) == "key";
    CategorizeApiWins(query);
  }

  /** "monkey account" holds a user keyword, but the `key` inside "monkey" makes it an api query. */
  lemma SubstringMatchExample(q: string)
    requires q == "monkey account"
    ensures CategorizeQuery(q) == Api
  {
    MonkeyHoldsKey(q);
    KeyMeansApi(q);
  }

  /** "monkey account" is already lower case, and `key` sits at its offset 3. */
  lemma MonkeyHoldsKey(q: string)
    requires q == "monkey account"
    ensures IsSubstring("key", Lower(q))
  {
    LowerWithoutUpper(q);
    assert OccursAt("key", q, 3);
  }

  const HelpIntro: string :=
    "I can help you with API documentation, user guides, or technical specifications. Here's some information that might be relevant:\n\n"
  const QuotePrefix: string := "Based on the documentation, here's what I found about \""
  const QuoteSuffix: string := "\":\n\n"
  const DemoNote: string :=
    "\n\nNote: This is a demo response using sample documentation. To get real-time answers from your actual documentation, please configure your Google Gemini and Pinecone API keys in the .env.local file."

  /** The query asks for help: its lowercased form contains `help` or `what`. */
  predicate AsksForHelp(query: string) {
    IsSubstring("help", Lower(query)) || IsSubstring("what", Lower(query))
  }

  /** The text before the document: the help introduction, or the query quoted in its original case. */
  function Opening(query: string): string {
    if AsksForHelp(query) then HelpIntro else QuotePrefix + query + QuoteSuffix
  }

  /** `generateFallbackResponse`. */
  function FallbackResponse(query: string): string {
    Opening(query) + FallbackDoc(CategorizeQuery(query)) + DemoNote
  }

  /**
   * Every fallback answer holds the document of the query's category right
   * after its opening and ends with the demo note; a help question opens
   * with the help introduction, any other query is quoted in its original case.
   */
  lemma FallbackResponseShape(query: string)
    ensures var r := FallbackResponse(query);
      var open := Opening(query);
      var doc := FallbackDoc(CategorizeQuery(query));
      && OccursAt(doc, r, |open|)
      && r[|open| + |doc|..] == DemoNote
      && r[..|open|] == open
    ensures AsksForHelp(query) ==> Opening(query) == HelpIntro
    ensures !AsksForHelp(query) ==>
      (Opening(query)[..|QuotePrefix|] == QuotePrefix && Opening(query)[|QuotePrefix|..|QuotePrefix| + |query|] == query)
  {
    ThreeParts(Opening(query), FallbackDoc(CategorizeQuery(query)), DemoNote);
    if !AsksForHelp(query) {
      ThreeParts(QuotePrefix, query, QuoteSuffix);
    }
  }

  /** `generateGenericHelpResponse()`, the same text every time. */
  const GenericHelpResponse: string :=
    "I can help you with API documentation, user guides, or technical specifications. Please ask about specific topics like 'API authentication', 'user account setup', or 'technical requirements'."
}
