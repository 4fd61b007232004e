/** Application constants (`src/lib/constants.ts`). */
module Constants {

  const DefaultTopK: int := 5
  const MaxContentPreviewLength: nat := 200
  const StreamingChunkSize: nat := 3

  /** The keyword lists of the fallback categoriser. */
  const ApiKeywords: seq<string> := ["api", "authentication", "key", "endpoint", "request", "response"]
  const UserKeywords: seq<string> := ["user", "account", "registration", "profile", "signup", "login"]
  const TechnicalKeywords: seq<string> := ["technical", "system", "architecture", "infrastructure", "specs", "requirements"]

  /** The environment variables the indexing and query paths need. */
  const RequiredEnvVars: seq<string> := ["PINECONE_API_KEY", "PINECONE_INDEX_NAME", "GOOGLE_API_KEY"]
}
