# RAG PDF assistant: a verified model of its core logic

The application answers questions about uploaded PDF documents. An *ingest*
workflow chunks a document, embeds the chunks and upserts them into a vector
store under ids derived from `"{source_id}:{i}"`. A *query* workflow embeds
the question, searches the store, builds a prompt from the retrieved
contexts and asks a language model. The answer is normalised, and any
failure becomes a fixed apology. The Streamlit front end sends these events
and polls the run of a query until it reaches a terminal status or a
deadline. A chat-history store keeps one record per conversation.

This project models that logic in Dafny and proves its properties:

- `rag_types.dfy` (`RagTypes`): the records of `custom_types.py`, with
  `Option`/`Result` for absent keys and raised errors.
- `text.dfy` (`Text`): the string operations the code relies on. These are
  decimal rendering of an index, `"\n\n".join`, `str.strip` and
  `str.replace('\\n', '\n')`. Each is pinned down by its contract together
  with the lemmas beside it: decimal rendering reads back as the number,
  every joined piece sits at its offset with one separator between pieces,
  `strip` is determined by its contract, and `replace` by its identity
  clause and the lemma for the first pair.
- `rag_pipeline.dfy` (`RagPipeline`): `main.py`. The chunker, the embedder,
  the vector-store search, `uuid5` and the language-model HTTP exchange are
  function-typed parameters, i.e. opaque and deterministic.
- `chat_history.dfy` (`ChatHistory`): `ChatHistoryManager` as a class. Its
  storage directory is a `map<string, ChatSession>` field keyed by file
  stem. A file write is a whole-record map update and a file read is a map
  lookup.
- `streamlit_client.dfy` (`StreamlitClient`): `streamlit_app.py`, meaning
  the events the front end sends, the event id it keeps, and
  `wait_for_run_output`. That function is a loop over a sequence of
  polls, where each poll holds the runs the status endpoint returned and the
  clock reading. The loop's method is proved equal to a specification
  function, and the lemmas characterise every way the loop can end.

Three behaviours of the code worth noting:

- A missing `source_id` defaults to the full `pdf_path`, not to the file
  name (`main.py:68`).
- A non-positive `top_k` is passed through to the store rather than
  rejected (`main.py:98`).
- The answer is stripped before the backslash-`n` pairs are replaced
  (`main.py:46-47`).

## Model

| member | source | states |
|---|---|---|
| Text.Decimal | Desktop/RAGPROJECT/main.py:76 | `f"{i}"` for `i >= 0`: a non-empty string of digits, a single digit exactly when `i < 10`, and a leading `0` only for zero |
| Text.DecimalValue | Desktop/RAGPROJECT/main.py:76 | reading the rendering of `i` back as decimal digits gives `i` |
| Text.DecimalInjective | Desktop/RAGPROJECT/main.py:76 | distinct indices render as distinct decimal strings |
| Text.Join | Desktop/RAGPROJECT/main.py:102 | `sep.join(xs)`: no pieces give `""` and one piece gives that piece; the layout of longer joins is stated by `Text.JoinPieces` and `Text.JoinSeparators` |
| Text.JoinHoldsPieces | Desktop/RAGPROJECT/main.py:102 | every piece of `sep.join(xs)` sits verbatim at its offset |
| Text.JoinPieces | Desktop/RAGPROJECT/main.py:102 | `sep.join(xs)` holds each piece verbatim at its offset, and nothing follows the last piece |
| Text.JoinSeparators | Desktop/RAGPROJECT/main.py:102 | in `sep.join(xs)` one separator follows every piece except the last |
| Text.OffsetNext | Desktop/RAGPROJECT/main.py:102 | piece `i + 1` of a join starts right after piece `i` and one separator |
| Text.OffsetIncreasing | Desktop/RAGPROJECT/main.py:102 | every later piece starts after an earlier piece and its separator end, so the join keeps the original order |
| Text.LeadingSpaces | Desktop/RAGPROJECT/main.py:46 | the leading part `strip` removes: every character before the count is whitespace and the character at the count is not |
| Text.TrailingSpaces | Desktop/RAGPROJECT/main.py:46 | the trailing part `strip` removes, never reaching into the leading part: every counted character is whitespace and the last kept character is not |
| Text.Strip | Desktop/RAGPROJECT/main.py:46 | `strip`: the result is a contiguous part of the input, everything around it is whitespace, and it neither starts nor ends with whitespace |
| Text.StripIdempotent | Desktop/RAGPROJECT/main.py:46 | stripping twice equals stripping once |
| Text.ReplaceEscapedNewlines | Desktop/RAGPROJECT/main.py:47 | the result holds no backslash followed by `n`; an input without such a pair is returned unchanged; the result is no longer than the input |
| Text.ReplaceAtFirstPair | Desktop/RAGPROJECT/main.py:47 | everything before the first backslash-`n` pair is kept, the pair becomes one newline and the rest is replaced in turn; with the identity on pair-free input this fixes the whole result |
| Text.PairFreeTail | Desktop/RAGPROJECT/main.py:47 | the scan copies the first character of a pair-free prefix and continues after it |
| RagPipeline.LoadAndChunk | Desktop/RAGPROJECT/main.py:66-70 | of the errors the code itself raises, fails exactly when `pdf_path` is absent; the chunks are those of `pdf_path`; `source_id` is the event's, or defaults to `pdf_path` |
| RagPipeline.LastColon | Desktop/RAGPROJECT/main.py:76 | in `"{source_id}:{i}"` the colon after the source id is the last colon |
| RagPipeline.PointKey | Desktop/RAGPROJECT/main.py:76 | `f"{source_id}:{i}"`: the source id, then a colon, then digits that read back as `i`, with no leading zero unless `i` is 0 |
| RagPipeline.PointKeyInjective | Desktop/RAGPROJECT/main.py:76 | equal keys imply the same source id and the same chunk index, within one ingest and across sources |
| RagPipeline.PointKeysDistinct | Desktop/RAGPROJECT/main.py:76 | within one ingest, distinct chunk indices give distinct key strings |
| RagPipeline.PointIds | Desktop/RAGPROJECT/main.py:76 | exactly `n` ids, and id `i` is `uuid5` of key `i` |
| RagPipeline.Payloads | Desktop/RAGPROJECT/main.py:77 | one payload per chunk, and payload `i` has `source == source_id` and `text == chunks[i]` |
| RagPipeline.EmbedAndUpsert | Desktop/RAGPROJECT/main.py:72-79 | one id and one payload per chunk, index-aligned with the chunks; `ingested` equals the number of chunks; the vectors are the embedder's output for the chunks |
| RagPipeline.ReingestSameIds | Desktop/RAGPROJECT/main.py:76 | re-ingesting the same source with the same chunk count gives the identical id list |
| RagPipeline.BatchIdsDistinct | Desktop/RAGPROJECT/main.py:76 | when `uuid5` has no collision among the distinct keys of the batch, the ids of the batch are pairwise distinct |
| RagPipeline.RagIngestPdf | Desktop/RAGPROJECT/main.py:65-83 | of the errors the code itself raises, the ingest run fails exactly when `pdf_path` is absent; otherwise it upserts the aligned ids, vectors and payloads and reports `ingested == len(chunks)` |
| RagPipeline.EmbedAndSearch | Desktop/RAGPROJECT/main.py:91-95 | of the errors the code itself raises, fails exactly when embedding the question yields no vector; otherwise it returns the search result for the first vector and `top_k` |
| RagPipeline.ContextBlock | Desktop/RAGPROJECT/main.py:102 | `"\n\n".join(found.contexts)` holds every context verbatim at its offset |
| RagPipeline.Prompt | Desktop/RAGPROJECT/main.py:102-113 | the prompt is the fixed head, the context block, the fixed middle, the question and the fixed tail, each at its own position |
| RagPipeline.TemplateSlots | Desktop/RAGPROJECT/main.py:104-113 | the prompt template holds the head, the context block, the middle text and the question verbatim at fixed positions, followed by the fixed tail |
| RagPipeline.PiecesInTemplate | Desktop/RAGPROJECT/main.py:102-113 | a joined block in the template holds each piece verbatim and in order |
| RagPipeline.PromptContextsInOrder | Desktop/RAGPROJECT/main.py:102-113 | the prompt holds every context verbatim, in the original order, each before the next and all before the question |
| RagPipeline.PromptQuestionLast | Desktop/RAGPROJECT/main.py:104-113 | after the contexts the prompt holds the question verbatim, followed only by the fixed instructions |
| RagPipeline.GroqRequestFor | Desktop/RAGPROJECT/main.py:25-44 | the request carries the prompt, `max_tokens` 1024, a 30-second timeout, and temperature and `top_p` within [0, 1] |
| RagPipeline.NormalizeAnswer | Desktop/RAGPROJECT/main.py:46-47 | the answer is the reply stripped first and then with each backslash-`n` pair replaced by a newline; it holds no such pair and is no longer than the reply |
| RagPipeline.GetGroqAnswer | Desktop/RAGPROJECT/main.py:23-51 | a transport failure, a 4xx/5xx status or a body without content gives the fixed apology; otherwise the result is the normalised content and holds no backslash-`n` pair |
| RagPipeline.NormalizeKeepsCleanAnswer | Desktop/RAGPROJECT/main.py:46-47 | a reply already stripped and free of escaped newlines is returned unchanged |
| RagPipeline.RagQueryPdfAi | Desktop/RAGPROJECT/main.py:90-121 | a missing question fails the run; otherwise, of the errors the code itself raises, it fails exactly when the embedding is empty; on success `num_contexts == len(found.contexts)`, `sources` is the search's unchanged, and the answer is the model's answer to the prompt built from those contexts, with `top_k` defaulting to 5 |
| ChatHistory.Write | Desktop/RAGPROJECT/chat_history.py:51-55 | a save stores the whole record under its own session id and leaves every other file as it was |
| ChatHistory.Read | Desktop/RAGPROJECT/chat_history.py:57-74 | a load finds a record exactly when a file with that id exists, and returns that record |
| ChatHistory.ReadAfterWrite | Desktop/RAGPROJECT/chat_history.py:51-74 | loading an id right after saving a session with that id yields that session; loading any other id is unaffected by the save |
| ChatHistory.WithMessage | Desktop/RAGPROJECT/chat_history.py:28-34 | appending keeps id, `pdf_name`, `created_at` and the earlier messages, and adds exactly one message at the end |
| ChatHistory.InsertNewestFirst | Desktop/RAGPROJECT/chat_history.py:49 | inserting into a newest-first list keeps it newest-first and adds exactly that session |
| ChatHistory.SortNewestFirst | Desktop/RAGPROJECT/chat_history.py:49 | sorting by `created_at` descending yields a permutation ordered newest first |
| ChatHistory.RecordsOf | Desktop/RAGPROJECT/chat_history.py:44-48 | the records loaded for a list of ids, one per id, in order |
| ChatHistory.ChatHistoryManager.constructor | Desktop/RAGPROJECT/chat_history.py:9-11 | the manager opens on whatever the directory already holds |
| ChatHistory.ChatHistoryManager.SaveSession | Desktop/RAGPROJECT/chat_history.py:51-55 | the directory after the save is the whole-record write of the session |
| ChatHistory.ChatHistoryManager.CreateSession | Desktop/RAGPROJECT/chat_history.py:13-22 | stores a new session with the given `pdf_name`, no messages and `created_at == now` under the fresh id, returns that id, leaves every other session unchanged, and keeps each record under its own id |
| ChatHistory.ChatHistoryManager.AddMessage | Desktop/RAGPROJECT/chat_history.py:24-35 | an unknown id leaves the store unchanged; a known id gets exactly one message appended with everything else in it unchanged; when every record sits under its own id, no other session changes and the session reads back with the message |
| ChatHistory.ChatHistoryManager.GetSessionHistory | Desktop/RAGPROJECT/chat_history.py:37-40 | returns `[]` for an unknown id and otherwise that session's messages in order |
| ChatHistory.ChatHistoryManager.GetAllSessions | Desktop/RAGPROJECT/chat_history.py:42-49 | visits every stored file exactly once and returns a permutation of the stored records, ordered by `created_at` non-increasing |
| StreamlitClient.UploadPath | Desktop/RAGPROJECT/streamlit_app.py:69-75 | an upload is saved under a path whose name is the uploaded file's name |
| StreamlitClient.IngestEventFor | Desktop/RAGPROJECT/streamlit_app.py:77-87 | the ingest event carries the resolved path and the path's file name as `source_id` |
| StreamlitClient.UploadIngestedUnderFileName | Desktop/RAGPROJECT/streamlit_app.py:84 | an uploaded file is chunked from its resolved path and ingested with its own file name as source id |
| StreamlitClient.QueryEventFor | Desktop/RAGPROJECT/streamlit_app.py:89-98 | the query event carries the question and `top_k == 5` |
| StreamlitClient.SelectEventId | Desktop/RAGPROJECT/streamlit_app.py:100 | the first event id returned by the send, or `""` when it returned none |
| StreamlitClient.StatusClassesDisjoint | Desktop/RAGPROJECT/streamlit_app.py:121-124 | no status is both terminal-success and terminal-failure |
| StreamlitClient.OutputOrEmpty | Desktop/RAGPROJECT/streamlit_app.py:122 | a missing or falsy output becomes `{}`; any other output is returned as is |
| StreamlitClient.Observe | Desktop/RAGPROJECT/streamlit_app.py:120 | `last_status` either stays or becomes a recorded (non-empty) status, never reverts to none once recorded, and stays when no run is listed |
| StreamlitClient.WaitSpec | Desktop/RAGPROJECT/streamlit_app.py:115-127 | the loop as a function of its polls: a fetch error on the first poll ends it with that error; it is still polling only when every poll continued, and then reports the threaded `last_status`; every other way it ends is stated by the `Wait*At` lemmas |
| StreamlitClient.LastStatusSnoc | Desktop/RAGPROJECT/streamlit_app.py:120 | one more poll updates `last_status` exactly as one loop iteration does |
| StreamlitClient.LastStatusIsMostRecent | Desktop/RAGPROJECT/streamlit_app.py:120 | the `last_status` the loop carries is the most recent non-empty status seen |
| StreamlitClient.WaitSpecSkip | Desktop/RAGPROJECT/streamlit_app.py:115-127 | polls that only continue the loop change nothing but `last_status` |
| StreamlitClient.WaitSucceedsAt | Desktop/RAGPROJECT/streamlit_app.py:116-122 | a success status (Completed/Succeeded/Success/Finished) ends the loop with that run's output or `{}`, and takes precedence over the deadline |
| StreamlitClient.WaitFailsAt | Desktop/RAGPROJECT/streamlit_app.py:123-124 | a Failed or Cancelled status ends the loop with an error and no output, and takes precedence over the deadline |
| StreamlitClient.WaitTimesOutAt | Desktop/RAGPROJECT/streamlit_app.py:125-126 | a non-terminal poll past the deadline ends the loop with a timeout reporting the most recent non-empty status |
| StreamlitClient.WaitFetchFailsAt | Desktop/RAGPROJECT/streamlit_app.py:116 | a failed fetch of the runs ends the loop with that error |
| StreamlitClient.WaitKeepsPolling | Desktop/RAGPROJECT/streamlit_app.py:115-127 | empty run lists and non-terminal statuses before the deadline never end the loop |
| StreamlitClient.WaitOutcomeWitnessed | Desktop/RAGPROJECT/streamlit_app.py:115-127 | a timeout only happens after a clock reading past `timeout_s`; an output only after a success status; an error only after a failure status or a failed fetch |
| StreamlitClient.WaitForRunOutput | Desktop/RAGPROJECT/streamlit_app.py:112-127 | the loop's outcome equals the specification `WaitSpec` over the polls it sees |

## Left out

- Workflow durability is not modelled. Step memoisation, retries, the
  throttle (2 per minute) and the per-`source_id` rate limit (1 per 4 hours)
  are configuration handed to the workflow library (`main.py:53-64`). The
  source holds no code for them.
- Concurrency and the async execution of steps are not modelled.
- The vector store (`vector_db.py`) is not part of this model. Its `upsert`
  is represented by the batch handed to it, and its `search` by an opaque
  function. No similarity ordering or overwrite semantics is claimed.
- `data_loader.py` (PDF reading, sentence splitting, embeddings) is
  represented by opaque functions. No chunk-size or overlap property is
  claimed, and embedding vectors are never computed on.
- `uuid5` (name-based SHA-1, section 4.3 of RFC 4122) is an opaque
  deterministic function of the key string. `uuid4` (section 4.4 of RFC 4122)
  is a fresh-id input, which `CreateSession` requires to be unused.
- The HTTP calls (`requests.post`, `fetch_runs`), `time.time`, `time.sleep`
  and `datetime.now` are inputs: a reply, a fetch result, a clock reading,
  a timestamp. `timeout_s` is a parameter of `WaitForRunOutput`; its 120 s
  default is not modelled. `poll_interval_s` only paces the sleeps, so it has no effect
  in the model.
- JSON and ISO-8601 (de)serialisation of session files are abstracted to
  storing the record itself. So is a file that fails to parse.
- Event payloads are typed: `top_k` is an integer when present. The `int()`
  conversion of other values is not modelled.
- RagPipeline.GetGroqAnswer: the apology itself is not proved free of
  backslash-`n` pairs. It contains no backslash, but proving that about the
  literal is not done; the guarantee is stated for successful replies.
- StreamlitClient.WaitForRunOutput: the loop runs over a finite sequence of
  polls. When they run out before the loop ends, the outcome is
  `StillPolling`, which stands for "has not returned yet".
- The collaborators given as function parameters (`load_and_chunk_pdf`,
  `embed_texts`, `QdrantStorage().upsert` and `.search`) never raise in the
  model. In the code a missing or unreadable PDF, a failing embedding call
  or a failing store call fails the step; those failures are not modelled.
- JSON numbers in run outputs are integers, so the falsiness of `0.0` is
  not modelled.
- Clock readings are mathematical reals, not floating-point numbers.
- An uploaded file name is taken to be a single path component.
- Streamlit rendering, CSS, `st.session_state` handling and the bytes
  written by `save_uploaded_pdf` are presentation and I/O.
