/** The record types of the RAG application (custom_types.py), plus the
    Option/Result wrappers used for absent values and raised errors. */
module RagTypes {

  datatype Option<+T> = None | Some(value: T) {
    function GetOr(default: T): T {
      match this
      case Some(v) => v
      case None => default
    }
  }

  /** The errors the modelled code raises. */
  datatype Error =
    | MissingKey(key: string)       // a `data["..."]` lookup on an absent key
    | EmptyEmbedding                // `embed_texts([question])[0]` on an empty batch

  datatype Result<+T> = Ok(value: T) | Err(error: Error)

  /** A point in time (`datetime`), as a count of ticks since an epoch. */
  type Timestamp = int

  /** An embedding vector; its numbers are never computed on in this model. */
  type Vector = seq<real>

  /** RAGChunkAndSrc: the output of the "load-and-chunk" step. */
  datatype ChunkAndSrc = ChunkAndSrc(chunks: seq<string>, sourceId: string)

  /** RAGUpsertResult. */
  datatype UpsertResult = UpsertResult(ingested: nat)

  /** RAGSearchResult: what the vector store's search returns. */
  datatype SearchResult = SearchResult(contexts: seq<string>, sources: seq<string>)

  /** RAGQueryResult: the output of a query run. */
  datatype QueryResult = QueryResult(answer: string, sources: seq<string>, numContexts: nat)

  /** ChatMessage: one question/answer exchange. */
  datatype ChatMessage = ChatMessage(question: string, answer: string, timestamp: Timestamp, sources: seq<string>)

  /** ChatSession: a conversation about one document. */
  datatype ChatSession = ChatSession(sessionId: string, pdfName: string, messages: seq<ChatMessage>, createdAt: Timestamp)
}
