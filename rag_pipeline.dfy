/** The two workflow functions of the RAG service (main.py): ingesting a
    PDF (load and chunk, then embed and upsert) and answering a question
    (embed and search, build the prompt, ask the language model).

    The chunker, the embedder, the vector store's search, the name-based
    UUID and the HTTP call to the language model are parameters of the
    model: opaque, deterministic functions. */
module RagPipeline {
  import opened RagTypes
  import Text

  // =====================================================================
  // Ingest: rag_ingest_pdf
  // =====================================================================

  /** The data of a "rag/ingest_pdf" event; `None` is an absent key. */
  datatype IngestEvent = IngestEvent(pdfPath: Option<string>, sourceId: Option<string>)

  /** Step "load-and-chunk" (`_load`): read `pdf_path` (a missing key
      fails the run), default `source_id` to it, and chunk the document. */
  function LoadAndChunk(event: IngestEvent, loadAndChunkPdf: string -> seq<string>): (r: Result<ChunkAndSrc>)
    ensures r.Err? <==> event.pdfPath.None?
    ensures r.Err? ==> r.error == MissingKey("pdf_path")
    ensures r.Ok? ==> r.value.chunks == loadAndChunkPdf(event.pdfPath.value)
    ensures r.Ok? && event.sourceId.None? ==> r.value.sourceId == event.pdfPath.value
    ensures r.Ok? && event.sourceId.Some? ==> r.value.sourceId == event.sourceId.value
  {
    match event.pdfPath
    case None => Err(MissingKey("pdf_path"))
    case Some(path) => Ok(ChunkAndSrc(loadAndChunkPdf(path), event.sourceId.GetOr(path)))
  }

  /** The name `f"{source_id}:{i}"` from which the id of chunk `i` is derived. */
  function PointKey(sourceId: string, i: nat): (key: string)
    ensures |sourceId| < |key| && key[..|sourceId|] == sourceId && key[|sourceId|] == ':'
    ensures forall k :: |sourceId| < k < |key| ==> Text.IsDigit(key[k])
    ensures Text.DigitsValue(key[|sourceId| + 1..]) == i
    ensures |sourceId| + 1 < |key| && (key[|sourceId| + 1] == '0' ==> i == 0)
  {
    var key := sourceId + ":" + Text.Decimal(i);
    Text.DecimalValue(i);
    assert key[|sourceId| + 1..] == Text.Decimal(i);
    key
  }

  /** Two chunks, of the same source or of different sources, never share
      a key: the key determines both the source id and the chunk index. */
  lemma PointKeyInjective(s1: string, i: nat, s2: string, j: nat)
    requires PointKey(s1, i) == PointKey(s2, j)
    ensures s1 == s2 && i == j
  {
    var k1, k2 := PointKey(s1, i), PointKey(s2, j);
    var d1, d2 := Text.Decimal(i), Text.Decimal(j);
    LastColon(s1, i);
    LastColon(s2, j);
    assert s1 == k1[..|s1|] == k2[..|s2|] == s2;
    assert d1 == k1[|s1| + 1..] == k2[|s2| + 1..] == d2;
    Text.DecimalInjective(i, j);
  }

  /** The separator after the source id is the last colon of the key: the
      decimal index holds none. */
  lemma LastColon(sourceId: string, i: nat)
    ensures var key := PointKey(sourceId, i);
            key[|sourceId|] == ':' && forall k :: |sourceId| < k < |key| ==> key[k] != ':'
  {
    var key, d := PointKey(sourceId, i), Text.Decimal(i);
    forall k | |sourceId| < k < |key| ensures key[k] != ':' {
      assert key[k] == d[k - |sourceId| - 1];
    }
  }

  /** Within one ingest the keys of distinct chunks are distinct. */
  lemma PointKeysDistinct(sourceId: string, i: nat, j: nat)
    requires i != j
    ensures PointKey(sourceId, i) != PointKey(sourceId, j)
  {
    if PointKey(sourceId, i) == PointKey(sourceId, j) {
      PointKeyInjective(sourceId, i, sourceId, j);
    }
  }

  /** The payload stored beside each vector. */
  datatype Payload = Payload(source: string, text: string)

  /** The arguments of one `QdrantStorage().upsert(ids, vecs, payloads)` call. */
  datatype UpsertBatch = UpsertBatch(ids: seq<string>, vectors: seq<Vector>, payloads: seq<Payload>)

  /** What an ingest run does: the batch it hands to the store and the
      result it returns. */
  datatype IngestRun = IngestRun(batch: UpsertBatch, result: UpsertResult)

  /** `[uuid5(NAMESPACE_URL, f"{source_id}:{i}") for i in range(n)]`. */
  function PointIds(sourceId: string, n: nat, uuid5: string -> string): (ids: seq<string>)
    ensures |ids| == n
    ensures forall i :: 0 <= i < n ==> ids[i] == uuid5(PointKey(sourceId, i))
  {
    seq(n, i requires 0 <= i => uuid5(PointKey(sourceId, i)))
  }

  /** `[{"source": source_id, "text": chunks[i]} for i in range(len(chunks))]`. */
  function Payloads(sourceId: string, chunks: seq<string>): (ps: seq<Payload>)
    ensures |ps| == |chunks|
    ensures forall i :: 0 <= i < |chunks| ==> ps[i].source == sourceId && ps[i].text == chunks[i]
  {
    seq(|chunks|, i requires 0 <= i < |chunks| => Payload(sourceId, chunks[i]))
  }

  /** Step "embed-and-upsert" (`_upsert`): one id, one vector slot and one
      payload per chunk, index-aligned with the chunks, and `ingested` is
      the number of chunks. */
  function EmbedAndUpsert(cs: ChunkAndSrc, embedTexts: seq<string> -> seq<Vector>, uuid5: string -> string): (run: IngestRun)
    ensures |run.batch.ids| == |run.batch.payloads| == |cs.chunks| == run.result.ingested
    ensures forall i :: 0 <= i < |cs.chunks| ==>
              run.batch.ids[i] == uuid5(PointKey(cs.sourceId, i)) &&
              run.batch.payloads[i] == Payload(cs.sourceId, cs.chunks[i])
    ensures run.batch.vectors == embedTexts(cs.chunks)
  {
    var vecs := embedTexts(cs.chunks);
    var ids := PointIds(cs.sourceId, |cs.chunks|, uuid5);
    var payloads := Payloads(cs.sourceId, cs.chunks);
    IngestRun(UpsertBatch(ids, vecs, payloads), UpsertResult(|cs.chunks|))
  }

  /** Re-ingesting the same source with the same number of chunks produces
      the same id list, whatever the chunks' text. */
  lemma ReingestSameIds(sourceId: string, c1: seq<string>, c2: seq<string>,
                        embedTexts: seq<string> -> seq<Vector>, uuid5: string -> string)
    requires |c1| == |c2|
    ensures EmbedAndUpsert(ChunkAndSrc(c1, sourceId), embedTexts, uuid5).batch.ids
         == EmbedAndUpsert(ChunkAndSrc(c2, sourceId), embedTexts, uuid5).batch.ids
  {
  }

  /** If the name-based UUID has no collision among the distinct keys of
      this batch, the ids of the batch are pairwise distinct: distinct chunk
      indices always give distinct keys. */
  lemma BatchIdsDistinct(cs: ChunkAndSrc, embedTexts: seq<string> -> seq<Vector>, uuid5: string -> string, i: nat, j: nat)
    requires forall a: nat, b: nat :: a < b < |cs.chunks| ==>
               PointKey(cs.sourceId, a) == PointKey(cs.sourceId, b) ||
               uuid5(PointKey(cs.sourceId, a)) != uuid5(PointKey(cs.sourceId, b))
    requires i < j < |cs.chunks|
    ensures EmbedAndUpsert(cs, embedTexts, uuid5).batch.ids[i] != EmbedAndUpsert(cs, embedTexts, uuid5).batch.ids[j]
  {
    PointKeysDistinct(cs.sourceId, i, j);
  }

  /** rag_ingest_pdf: the two steps in sequence. */
  method RagIngestPdf(event: IngestEvent, loadAndChunkPdf: string -> seq<string>,
                      embedTexts: seq<string> -> seq<Vector>, uuid5: string -> string)
    returns (r: Result<IngestRun>)
    ensures r.Err? <==> event.pdfPath.None?
    ensures r.Ok? ==>
              var chunks := loadAndChunkPdf(event.pdfPath.value);
              var sourceId := event.sourceId.GetOr(event.pdfPath.value);
              && r.value.result.ingested == |chunks|
              && r.value.batch.ids == PointIds(sourceId, |chunks|, uuid5)
              && r.value.batch.payloads == Payloads(sourceId, chunks)
              && r.value.batch.vectors == embedTexts(chunks)
  {
    var loaded := LoadAndChunk(event, loadAndChunkPdf);
    match loaded {
      case Err(e) =>
        r := Err(e);
      case Ok(cs) =>
        var run := EmbedAndUpsert(cs, embedTexts, uuid5);
        r := Ok(run);
    }
  }

  // =====================================================================
  // Query: rag_query_pdf_ai
  // =====================================================================

  /** The data of a "rag/query_pdf_ai" event; `None` is an absent key. */
  datatype QueryEvent = QueryEvent(question: Option<string>, topK: Option<int>)

  /** `top_k` when the event does not carry one. */
  const DefaultTopK: int := 5

  /** Step "embed-and-search" (`_search`): embed the question alone and
      search with the first vector; an empty embedding batch fails. */
  function EmbedAndSearch(question: string, topK: int, embedTexts: seq<string> -> seq<Vector>,
                          search: (Vector, int) -> SearchResult): (r: Result<SearchResult>)
    ensures r.Err? <==> embedTexts([question]) == []
    ensures r.Err? ==> r.error == EmptyEmbedding
    ensures r.Ok? ==> r.value == search(embedTexts([question])[0], topK)
  {
    var vecs := embedTexts([question]);
    if vecs == [] then Err(EmptyEmbedding) else Ok(search(vecs[0], topK))
  }

  /** The separator between two contexts in the prompt: a blank line. */
  const ContextSeparator: string := "\n\n"

  /** `"\n\n".join(found.contexts)`. */
  function ContextBlock(contexts: seq<string>): (block: string)
    ensures forall i :: 0 <= i < |contexts| ==>
              var at := Text.Offset(ContextSeparator, contexts, i);
              at + |contexts[i]| <= |block| && block[at..at + |contexts[i]|] == contexts[i]
  {
    Text.JoinHoldsPieces(ContextSeparator, contexts);
    Text.Join(ContextSeparator, contexts)
  }

  const PromptHead: string := "Answer the question using ONLY the context below. Be concise and accurate.\n\nCONTEXT:\n"
  const PromptMiddle: string := "\n\nQUESTION: "
  const PromptTail: string :=
    "\n\nIf the answer cannot be found in the context, say \"I cannot find the answer in the provided documents.\"\n\nANSWER:"

  /** A template with two slots. */
  function Fill(head: string, block: string, middle: string, question: string, tail: string): string {
    head + block + middle + question + tail
  }

  /** The prompt f-string, with the context block and the question filled in. */
  function Prompt(contextBlock: string, question: string): (p: string)
    ensures var qs := |PromptHead| + |contextBlock| + |PromptMiddle|;
            && |p| == qs + |question| + |PromptTail|
            && p[..|PromptHead|] == PromptHead
            && p[|PromptHead|..|PromptHead| + |contextBlock|] == contextBlock
            && p[|PromptHead| + |contextBlock|..qs] == PromptMiddle
            && p[qs..qs + |question|] == question
            && p[qs + |question|..] == PromptTail
  {
    TemplateSlots(PromptHead, contextBlock, PromptMiddle, question, PromptTail);
    Fill(PromptHead, contextBlock, PromptMiddle, question, PromptTail)
  }

  /** Where the question starts in the prompt built from `contexts`. */
  function QuestionStart(contexts: seq<string>): nat {
    |PromptHead| + |ContextBlock(contexts)| + |PromptMiddle|
  }

  /** A template `head + block + middle + question + tail` holds the block
      and the question verbatim at fixed positions. */
  lemma TemplateSlots(head: string, block: string, middle: string, question: string, tail: string)
    ensures var p := Fill(head, block, middle, question, tail);
            var qs := |head| + |block| + |middle|;
            && p[..|head|] == head
            && p[|head|..|head| + |block|] == block
            && p[|head| + |block|..qs] == middle
            && p[qs..qs + |question|] == question
            && p[qs + |question|..] == tail
  {
    var p := head + block + middle + question + tail;
    assert p == head + (block + middle + question + tail);
    assert p == head + block + (middle + question + tail);
    assert p == (head + block + middle) + question + tail;
    assert p == (head + block + middle + question) + tail;
  }

  /** In a template whose first slot holds `sep.join(xs)`, piece `i` of
      `xs` sits verbatim at `|head| + Offset(sep, xs, i)`, ends before any
      later piece starts, and every piece ends before the middle text. */
  lemma PiecesInTemplate(head: string, sep: string, xs: seq<string>, middle: string, question: string, tail: string, i: nat)
    requires i < |xs|
    ensures var p := Fill(head, Text.Join(sep, xs), middle, question, tail);
            var at := |head| + Text.Offset(sep, xs, i);
            && at + |xs[i]| <= |head| + |Text.Join(sep, xs)|
            && p[at..at + |xs[i]|] == xs[i]
            && (forall k :: i < k < |xs| ==> at + |xs[i]| + |sep| <= |head| + Text.Offset(sep, xs, k))
  {
    var block, rest := Text.Join(sep, xs), middle + question + tail;
    var o := Text.Offset(sep, xs, i);
    assert Fill(head, block, middle, question, tail) == head + (block + rest);
    Text.JoinPieces(sep, xs, i);
    Text.SliceOfSuffix(head, block + rest, o, o + |xs[i]|);
    assert (block + rest)[o..o + |xs[i]|] == block[o..o + |xs[i]|];
    forall k | i < k < |xs|
      ensures |head| + o + |xs[i]| + |sep| <= |head| + Text.Offset(sep, xs, k)
    {
      Text.OffsetIncreasing(sep, xs, i, k);
    }
  }

  /** The prompt holds every context, verbatim and in its original order,
      each ending before the next one starts and all before the question. */
  lemma PromptContextsInOrder(contexts: seq<string>, question: string, i: nat)
    requires i < |contexts|
    ensures var p := Prompt(ContextBlock(contexts), question);
            var at := |PromptHead| + Text.Offset(ContextSeparator, contexts, i);
            && at + |contexts[i]| + |PromptMiddle| <= QuestionStart(contexts)
            && p[at..at + |contexts[i]|] == contexts[i]
            && (forall k :: i < k < |contexts| ==>
                  at + |contexts[i]| < |PromptHead| + Text.Offset(ContextSeparator, contexts, k))
  {
    PiecesInTemplate(PromptHead, ContextSeparator, contexts, PromptMiddle, question, PromptTail, i);
  }

  /** After the contexts the prompt holds the question verbatim, followed
      only by the fixed instructions. */
  lemma PromptQuestionLast(contexts: seq<string>, question: string)
    ensures var p := Prompt(ContextBlock(contexts), question);
            var qs := QuestionStart(contexts);
            && p[qs..qs + |question|] == question
            && p[qs + |question|..] == PromptTail
  {
    TemplateSlots(PromptHead, ContextBlock(contexts), PromptMiddle, question, PromptTail);
  }

  /** The request body sent to the chat-completions endpoint. */
  datatype GroqRequest = GroqRequest(model: string, prompt: string, temperature: real,
                                     maxTokens: nat, topP: real, timeoutSeconds: nat)

  function GroqRequestFor(prompt: string): (req: GroqRequest)
    ensures req.prompt == prompt
    ensures 0.0 <= req.temperature <= 1.0 && 0.0 < req.topP <= 1.0
    ensures req.maxTokens == 1024 && req.timeoutSeconds == 30
  {
    GroqRequest("llama-3.1-8b-instant", prompt, 0.1, 1024, 0.9, 30)
  }

  /** What `requests.post` produced: a transport failure (connection error,
      timeout) or an HTTP reply whose body did or did not yield a string at
      `choices[0].message.content`. */
  datatype LlmReply = TransportFailure | HttpReply(statusCode: int, content: Option<string>)

  /** `raise_for_status` raises for the 4xx and 5xx status codes. */
  predicate IsHttpError(statusCode: int) {
    400 <= statusCode < 600
  }

  /** The fixed text returned whenever the call to the model fails. */
  const Apology: string := "I apologize, but I'm having trouble generating a response right now. Please try again."

  /** The model's reply: stripped, then each backslash-`n` pair made a newline.
      The first clause names the two steps; what each step computes is fixed
      by the contract of `Text.Strip` and by the identity clause of
      `Text.ReplaceEscapedNewlines` with `Text.ReplaceAtFirstPair`. */
  function NormalizeAnswer(content: string): (answer: string)
    ensures answer == Text.ReplaceEscapedNewlines(Text.Strip(content))
    ensures Text.NoEscapedNewline(answer)
    ensures |answer| <= |content|
  {
    Text.ReplaceEscapedNewlines(Text.Strip(content))
  }

  /** get_groq_answer, with the HTTP exchange as its argument: any failure
      gives the apology; a success gives the normalized content. */
  function GetGroqAnswer(reply: LlmReply): (answer: string)
    ensures reply.TransportFailure? ==> answer == Apology
    ensures reply.HttpReply? && (IsHttpError(reply.statusCode) || reply.content.None?) ==> answer == Apology
    ensures reply.HttpReply? && !IsHttpError(reply.statusCode) && reply.content.Some? ==>
              answer == NormalizeAnswer(reply.content.value) && Text.NoEscapedNewline(answer)
  {
    match reply
    case TransportFailure => Apology
    case HttpReply(code, content) =>
      if IsHttpError(code) || content.None? then Apology else NormalizeAnswer(content.value)
  }

  /** An answer the model returned already stripped and without escaped
      newlines is passed through unchanged. */
  lemma NormalizeKeepsCleanAnswer(content: string)
    requires Text.Strip(content) == content && Text.NoEscapedNewline(content)
    ensures NormalizeAnswer(content) == content
  {
  }

  /** rag_query_pdf_ai: read the question (a missing key fails the run) and
      `top_k` (default 5), search, ask the model, and report the answer,
      the search's sources unchanged and the number of contexts. */
  method RagQueryPdfAi(event: QueryEvent, embedTexts: seq<string> -> seq<Vector>,
                       search: (Vector, int) -> SearchResult, llm: GroqRequest -> LlmReply)
    returns (r: Result<QueryResult>)
    ensures event.question.None? ==> r == Err(MissingKey("question"))
    ensures event.question.Some? ==> (r.Err? <==> embedTexts([event.question.value]) == [])
    ensures r.Ok? ==>
              var question := event.question.value;
              var found := search(embedTexts([question])[0], event.topK.GetOr(DefaultTopK));
              && r.value.numContexts == |found.contexts|
              && r.value.sources == found.sources
              && r.value.answer == GetGroqAnswer(llm(GroqRequestFor(Prompt(ContextBlock(found.contexts), question))))
  {
    if event.question.None? {
      return Err(MissingKey("question"));
    }
    var question := event.question.value;
    var topK := event.topK.GetOr(DefaultTopK);
    var searched := EmbedAndSearch(question, topK, embedTexts, search);
    if searched.Err? {
      return Err(searched.error);
    }
    var found := searched.value;
    var prompt := Prompt(ContextBlock(found.contexts), question);
    var answer := GetGroqAnswer(llm(GroqRequestFor(prompt)));
    r := Ok(QueryResult(answer, found.sources, |found.contexts|));
  }
}
