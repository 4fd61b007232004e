/**
 * The application's records. Scores and embedding values are floating-point
 * numbers in the system; the model never computes with them, so they are
 * carried as opaque reals.
 */
module Types {

  /** The embedding vector of a text. */
  type Vector = seq<real>

  datatype DocumentMetadata = DocumentMetadata(source: string, title: string, chunkIndex: int, totalChunks: int)

  /** One indexed piece of a document. */
  datatype DocumentChunk = DocumentChunk(id: string, content: string, metadata: DocumentMetadata)

  /** One match of a similarity search, with its stored fields. */
  datatype SearchResult = SearchResult(id: string, score: real, content: string, metadata: DocumentMetadata)

  datatype RAGResponse = RAGResponse(response: string, sources: seq<SearchResult>)

  /** What the query endpoint reports about one source. */
  datatype SourceSummary = SourceSummary(title: string, source: string, score: real, content: string)

  /**
   * A message's role. The type names three roles, but a voice transcript's
   * role string is cast without a check, so any other name can arrive too.
   */
  datatype Role = User | Assistant | System | OtherRole(name: string)

  /** The role's name as it is sent in a request body. */
  function RoleName(r: Role): string {
    match r
    case User => "user"
    case Assistant => "assistant"
    case System => "system"
    case OtherRole(name) => name
  }

  /** The role a name stands for; any name outside the three is carried as it is. */
  function RoleOf(name: string): (r: Role)
    ensures RoleName(r) == name
  {
    if name == "user" then User
    else if name == "assistant" then Assistant
    else if name == "system" then System
    else OtherRole(name)
  }

  /** A chat message; `createdAt` is a clock reading in milliseconds. */
  datatype Message = Message(id: string, role: Role, content: string, createdAt: int)
}
