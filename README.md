# Work-Your-Docs, modelled in Dafny

Work-Your-Docs is a documentation assistant. Its back end cuts text files into
chunks, embeds each chunk and writes it to a vector index (Pinecone). To answer
a question, it embeds the question and fetches the nearest chunks. These are
joined into a context, and a language model (Gemini) is asked to answer from
that context.

Around that core sit several smaller pieces:

- a keyword-based fallback answerer used when the services are not configured;
- two HTTP endpoints: the voice assistant's chat endpoint and the question endpoint;
- text, formatting, environment-validation and streaming helpers;
- the browser hooks that keep the chat message list and the voice call state;
- a Python fetcher that asks a Context7 tool server for a library's documentation.

This project models that logic in Dafny and proves what each piece promises.
The modules follow the program's files:

| module | file |
|---|---|
| `Chunker` | `chunkText` of `backend/lib/document-processor.ts`, as written, for natural chunk sizes and overlaps |
| `FixedChunker` | a corrected `chunkText` (see Findings) |
| `Ingestion`, `VectorStore` | the rest of `backend/lib/document-processor.ts` and the vector index |
| `Retrieval` | `backend/lib/rag.ts` |
| `Gemini` | the prompt template of `backend/lib/gemini.ts` |
| `FallbackRag` | `src/lib/fallback-rag.ts` |
| `Constants`, `Types` | `src/lib/constants.ts` and `src/types/index.ts` |
| `TextUtils`, `Formatting`, `Validation`, `Streaming` | `src/lib/utils/text.ts`, `formatting.ts`, `validation.ts` and `api.ts` |
| `VapiRoute`, `QueryRoute` | the two endpoints, `src/app/api/vapi/route.ts` and `src/app/api/query/route.ts` |
| `MessagesHook` | `src/hooks/useMessages.ts` |
| `VoiceCall` | `src/hooks/useVapiVoiceCall.ts` |
| `Context7` | `backend/fetchers/context7_fetcher.py` |
| `Strings`, `Wrappers` | shared string functions and `Option`/`Result` |

The code's shape carries over into the model:

- **Loops.** Code that loops and updates variables is a Dafny `method` with a
  loop (`ChunkText`, `IndexDocumentChunks`, `ProcessAllDocuments`,
  `ValidateEnvironmentVariables`, `GetLastUserMessage`, `StreamPieces`,
  `Choose`, `Normalize`, `ReadReply`). Each is proved equal to a
  specification function, and the lemmas are stated about that function.
- **State.** State the source updates in place is a `class`: the vector
  index, the chat session (messages and two flags) and the voice call session.
- **Services and the environment.** External services, the file system, JSON
  decoding, clocks and ids are parameters.

## Model

| member | source | states |
|---|---|---|
| Chunker.SliceIndex | backend/lib/document-processor.ts:23 | JavaScript's slice index stays within the text and is the index itself when that lies inside the text |
| Chunker.Slice | backend/lib/document-processor.ts:23 | `slice` never yields more than the text, and inside the text it is the ordinary sub-sequence |
| Chunker.LastIndexOfIsLast | backend/lib/document-processor.ts:27-28 | `lastIndexOf` points at the character searched for, and that character does not occur after it |
| Chunker.Candidate | backend/lib/document-processor.ts:22-23 | the unsnapped window has at most `chunkSize` characters and is no longer than the text |
| Chunker.BreakPoint | backend/lib/document-processor.ts:27-29 | the break point is -1 or an offset inside the window |
| Chunker.BreakPointIsLastBreak | backend/lib/document-processor.ts:27-29 | the break point is the offset of the window's last `.` or `\n`, and -1 when the window has neither |
| Chunker.Window | backend/lib/document-processor.ts:22-33 | after any snapping, each raw window still has at most `chunkSize` characters |
| Chunker.WindowShape | backend/lib/document-processor.ts:26-33 | an unsnapped window is the whole slice; a snapped one is the slice up to and including its last break, so it ends in `.` or `\n` |
| Chunker.WindowAtCursor | backend/lib/document-processor.ts:22-23 | from a cursor inside the text, the window is the slice of the text that starts at the cursor |
| Chunker.NoSnapPastHalfChunk | backend/lib/document-processor.ts:31 | because the threshold is absolute, no window whose cursor is at least about half a chunk in can be snapped |
| Chunker.ProgressWithoutOverlap | backend/lib/document-processor.ts:21-37 | with no overlap and a positive chunk size, one step moves the cursor strictly forward and never past the end |
| Chunker.CursorStaysBelowEnd | backend/lib/document-processor.ts:21-37 | with a positive overlap (or a zero chunk size), a cursor below the text length stays below it after a step |
| Chunker.FixedPoint | backend/lib/document-processor.ts:21-37 | when `0 < overlap <= min(chunkSize, text.length)`, the cursor `text.length - overlap` lies inside the text and the step maps it to itself |
| Chunker.ShortTextReachesFixedPoint | backend/lib/document-processor.ts:21-37 | text no longer than one chunk reaches that cursor after the first iteration and stays there |
| Chunker.StaysAtFixedPoint | backend/lib/document-processor.ts:21-37 | once at the fixed point, every later iteration leaves the cursor there |
| Chunker.NeverExits | backend/lib/document-processor.ts:21-37 | with a positive overlap (or a zero chunk size), the loop over non-empty text never exits after any number of iterations |
| Chunker.CursorAdvances | backend/lib/document-processor.ts:21-37 | with no overlap, after `n` iterations the cursor is at least `min(n, text.length)` |
| Chunker.TerminatesIff | backend/lib/document-processor.ts:21-37 | for non-empty text the loop exits exactly when `overlap == 0` and `chunkSize >= 1` (both directions) |
| Chunker.BreakBelow | backend/lib/document-processor.ts:27-29 | the break looked up in place is -1 or an offset inside the stretch |
| Chunker.BreakBelowNone | backend/lib/document-processor.ts:27-29 | a stretch without `.` or `\n` has no break |
| Chunker.BreakPointInPlace | backend/lib/document-processor.ts:27-29 | the break point of a slice equals the last break found in place in the text |
| Chunker.WindowLength | backend/lib/document-processor.ts:22-33 | the window length is at most `chunkSize`, stays inside the text, and is positive from a cursor before the end |
| Chunker.WindowFromCursor | backend/lib/document-processor.ts:22-33 | from a cursor inside the text, the window is the slice of that length at the cursor |
| Chunker.Pushed | backend/lib/document-processor.ts:36 | one chunk is pushed per iteration |
| Chunker.PushedAt | backend/lib/document-processor.ts:36 | pushed entry `k` is the trimmed raw window of iteration `k` |
| Chunker.NonEmpty | backend/lib/document-processor.ts:40 | the filter keeps exactly the non-empty chunks and adds nothing |
| Chunker.KeptFromPicks | backend/lib/document-processor.ts:40 | from a position on, filter result `j` is the entry at the `j`-th kept position |
| Chunker.KeptFromExact | backend/lib/document-processor.ts:40 | the kept positions increase strictly, and a position is kept exactly when its entry is non-empty |
| Chunker.NonEmptyInOrder | backend/lib/document-processor.ts:40 | the filter keeps the non-empty entries in their order and with their multiplicity: result `j` is the entry at the `j`-th kept position, and those positions are exactly the non-empty ones, increasing |
| Chunker.NonEmptyAppend | backend/lib/document-processor.ts:40 | filtering a concatenation is the concatenation of the filtered parts |
| Chunker.NonEmptySingle | backend/lib/document-processor.ts:40 | one entry passes the filter exactly when it is non-empty |
| Chunker.TilesAt | backend/lib/document-processor.ts:22-37 | in a tiling, cut `k` is the window at its own cursor, and the next cut starts where it ends; the last cut ends at the end of the text |
| Chunker.TilesJoined | backend/lib/document-processor.ts:22-37 | the pieces of a tiling, written one after the other, are the text from its first cursor on |
| Chunker.CutsAreTiles | backend/lib/document-processor.ts:21-37 | with no overlap, the loop's cuts tile the text from the cursor on |
| Chunker.CutAt | backend/lib/document-processor.ts:21-37 | cut `k` is the window taken at its own cursor, which lies inside the text, and the next cut starts where it ends |
| Chunker.CutsTile | backend/lib/document-processor.ts:22-37 | each raw window is a slice of the text of 1 to `chunkSize` characters, and the first one starts at 0 |
| Chunker.CutsCoverText | backend/lib/document-processor.ts:21-37 | with no overlap, the raw windows concatenate to exactly the text |
| Chunker.LateCutsAreUnsnapped | backend/lib/document-processor.ts:31 | every cut whose cursor is at least about half a chunk in is a full, unsnapped window of `min(chunkSize, rest)` characters |
| Chunker.ChunksInOrder | backend/lib/document-processor.ts:21-40 | chunk `j` is the trim of the window of cut `k_j`, the `k_j` increase strictly, and a cut yields a chunk exactly when its trim is non-empty |
| Chunker.ChunksAreTrimmedWindows | backend/lib/document-processor.ts:22-40 | every returned chunk is non-empty and is the trim of one raw window, which is a slice of the text at its cursor |
| Chunker.TakeWindow | backend/lib/document-processor.ts:22-33 | the head of the loop body computes the window of the given length at the cursor |
| Chunker.CutsStep | backend/lib/document-processor.ts:36-37 | one iteration moves the cut at the cursor from the cuts still to come to the cuts done, and advances the cursor |
| Chunker.ChunkText | backend/lib/document-processor.ts:17-41 | in its one terminating configuration, the loop returns the non-empty trimmed windows of the tiling, in order |
| FixedChunker.FixedWindow | backend/lib/document-processor.ts:22-33 | a corrected window has at most `chunkSize` characters and is the slice of the text at its cursor |
| FixedChunker.Advance | backend/lib/document-processor.ts:37 | the corrected cursor moves forward by `raw - overlap` when that is positive, and otherwise by one |
| FixedChunker.FixedNext | backend/lib/document-processor.ts:21-37 | the corrected cursor strictly increases and never passes the end of the text |
| FixedChunker.FixedSnapKeepsBackHalf | backend/lib/document-processor.ts:31-32 | a window snapped by the corrected test ends in `.` or `\n` and keeps more than half a chunk |
| FixedChunker.FixedWindowShift | backend/lib/document-processor.ts:22-33 | the corrected window at any cursor equals the window at 0 of the text from that cursor on, so a break is judged by its place in its own window |
| FixedChunker.MixedFrameShiftAsWritten | backend/lib/document-processor.ts:31 | the original window fails that shift: on the sample text its window at 10 differs from the window at 0 of the text from 10 on |
| FixedChunker.FixedCutsCover | backend/lib/document-processor.ts:21-37 | every character of the text lies inside some raw window of the corrected loop |
| FixedChunker.FixedCutAt | backend/lib/document-processor.ts:21-37 | corrected cut `k` is the window at its own cursor, and the next cut starts at the advanced cursor |
| FixedChunker.FixedCutsOverlap | backend/lib/document-processor.ts:37 | consecutive corrected windows overlap by exactly `overlap` characters when the window is longer than that, and never leave a gap |
| FixedChunker.FixedCutsCount | backend/lib/document-processor.ts:21 | the corrected loop makes at most one cut per character of the text |
| FixedChunker.FixedCutIsSlice | backend/lib/document-processor.ts:22-23 | each corrected raw window is the slice of the text at its cursor |
| FixedChunker.FixedChunksInOrder | backend/lib/document-processor.ts:21-40 | corrected chunk `j` is the trim of the window of cut `k_j`, the `k_j` increase strictly, and a cut yields a chunk exactly when its trim is non-empty |
| FixedChunker.FixedChunksAreTrimmedWindows | backend/lib/document-processor.ts:36-40 | each corrected chunk is non-empty and is the trim of a raw window |
| FixedChunker.LateBreaksIgnoredAsWritten | backend/lib/document-processor.ts:31 | past the first half chunk, the original test ignores a break in the back half of the window that the corrected test would use |
| FixedChunker.MixedFrameBreaks | backend/lib/document-processor.ts:27-29 | in the sample text the first ten characters hold no break, and the next ten hold one at offset 7 |
| FixedChunker.MixedFrameAsWritten | backend/lib/document-processor.ts:31 | the original loop keeps the sample's second window "aaaaaaa.aa" whole |
| FixedChunker.MixedFrameCorrected | backend/lib/document-processor.ts:31-32 | the corrected loop cuts that window back to its break, "aaaaaaa." |
| FixedChunker.ChunkTextFixed | backend/lib/document-processor.ts:17-41 | the corrected loop terminates for every chunk size and overlap, and returns the corrected chunks |
| Ingestion.ProcessDocument | backend/lib/document-processor.ts:48-57 | one record is made per chunk |
| Ingestion.ProcessDocumentRecord | backend/lib/document-processor.ts:48-57 | record `i` has id `fileName-i`, the `i`-th non-empty chunk as content, source = path, title = file name, `chunkIndex = i` and `totalChunks` = the number of chunks |
| Ingestion.ChunkIdInjective | backend/lib/document-processor.ts:49 | within one file, different chunk numbers give different ids |
| Ingestion.ProcessDocumentIdsDistinct | backend/lib/document-processor.ts:48-57 | no two records of one document share an id |
| Ingestion.IndexAllUntouched | backend/lib/document-processor.ts:65-84 | a key that no successful chunk writes keeps its old record, or stays absent |
| Ingestion.IndexAllLastWriter | backend/lib/document-processor.ts:65-84 | with duplicate ids, the last successful chunk decides the record |
| Ingestion.IndexAllOverlay | backend/lib/document-processor.ts:65-84 | indexing writes over the old index exactly what it would write into an empty one |
| Ingestion.IndexAllIdempotent | backend/lib/document-processor.ts:65-84 | indexing the same chunks twice leaves the index as indexing them once |
| Ingestion.IndexAllAppend | backend/lib/document-processor.ts:65 | chunks are handled in order: two batches in a row are one batch of both |
| Ingestion.DocumentChunkStored | backend/lib/document-processor.ts:65-84 | every chunk of a document that is indexed can be found under its own id, holding its content and metadata |
| Ingestion.IndexDocumentChunks | backend/lib/document-processor.ts:62-85 | the index after the loop is that of the chunk-by-chunk specification, and a chunk whose embedding or upsert fails changes nothing |
| Ingestion.TextFiles | backend/lib/document-processor.ts:89 | exactly the listed names ending in `.txt` are kept |
| Ingestion.TextFilesAppend | backend/lib/document-processor.ts:89 | the filter keeps the listing's order |
| Ingestion.ProcessFilesAppend | backend/lib/document-processor.ts:93-104 | files are handled in listing order |
| Ingestion.SkipsUnreadableFile | backend/lib/document-processor.ts:97-103 | a file that cannot be read has the effect of a missing file, and the files after it still run |
| Ingestion.IgnoresOtherFiles | backend/lib/document-processor.ts:89 | a listed name without the `.txt` suffix is never processed |
| Ingestion.ProcessAllDocuments | backend/lib/document-processor.ts:87-105 | a directory that cannot be listed is an error that changes nothing; otherwise each `.txt` file is indexed in listing order, and the result says which files could be read |
| VectorStore.VectorIndex.constructor | backend/lib/document-processor.ts:63 | the index starts empty |
| VectorStore.VectorIndex.Upsert | backend/lib/document-processor.ts:69-78 | an upsert replaces any earlier record with the same id and changes nothing else |
| Retrieval.StrField | backend/lib/rag.ts:29-32 | a missing metadata object, a missing key or a non-string value reads as `""` |
| Retrieval.NumField | backend/lib/rag.ts:33-34 | a missing metadata object, a missing key or a non-number value reads as 0 |
| Retrieval.ToResult | backend/lib/rag.ts:26-35 | id and score are copied from the match, and a match without metadata gives empty fields |
| Retrieval.ToResults | backend/lib/rag.ts:26-36 | there is one result per match, in the index's order, and an absent `matches` gives no results |
| Retrieval.SearchDocumentsQuery | backend/lib/rag.ts:16-37 | the index is asked for exactly `topK` matches with metadata; any error is passed on |
| Retrieval.StoredChunkRoundTrip | backend/lib/rag.ts:26-35 | a record written by ingestion is read back as the chunk's own content and metadata (round trip) |
| Retrieval.Block | backend/lib/rag.ts:48 | each block begins with `Source: ` |
| Retrieval.Blocks | backend/lib/rag.ts:47-48 | there is one block per result, in result order |
| Retrieval.ContextEmptyIff | backend/lib/rag.ts:47-49 | the context is empty exactly when there are no results |
| Retrieval.ContextAppend | backend/lib/rag.ts:47-49 | one more result adds a blank line and its block at the end of the context |
| Retrieval.AnswerSourcesAreResults | backend/lib/rag.ts:54-57 | an answer's sources are exactly the search results |
| Retrieval.AnswerPrompt | backend/lib/rag.ts:47-52 | with no results the model gets the bare question; otherwise the question is wrapped in the joined results |
| Gemini.FullPromptWithoutContext | backend/lib/gemini.ts:22-24 | without a context, or with an empty one, the question is sent verbatim |
| Gemini.FullPromptWithContext | backend/lib/gemini.ts:22-23 | with a context, the prompt starts with the fixed instruction, holds the context verbatim after the label, and ends with the question label and the question |
| Gemini.FullPromptRecoversQuestion | backend/lib/gemini.ts:22-24 | the question can be read back from the end of the prompt |
| FallbackRag.CategorizeQuery | src/lib/fallback-rag.ts:20-37 | user is chosen exactly when no api keyword matches and a user keyword does; technical exactly when only a technical keyword matches |
| FallbackRag.CategorizeApiWins | src/lib/fallback-rag.ts:23-36 | any api keyword wins, and a query that matches nothing is api |
| FallbackRag.CategorizeIgnoresCase | src/lib/fallback-rag.ts:21 | the category does not depend on the query's case |
| FallbackRag.KeyMeansApi | src/lib/fallback-rag.ts:21-25 | matching is by substring, so any query containing `key` is api |
| FallbackRag.SubstringMatchExample | src/lib/fallback-rag.ts:21-25 | "monkey account" is answered from the api document, although it names a user keyword |
| FallbackRag.MonkeyHoldsKey | src/lib/fallback-rag.ts:21 | the lowercased "monkey account" contains `key` |
| FallbackRag.FallbackResponseShape | src/lib/fallback-rag.ts:42-51 | the answer is the opening, then the category's document, then the demo note; help questions get the help introduction, other queries are quoted in their original case |
| TextUtils.GetLastUserMessage | src/lib/utils/text.ts:6-13 | there is no result exactly when no message has role `user`; otherwise the result is a user message with no user message after it |
| TextUtils.LowerAll | src/lib/utils/text.ts:20 | each keyword is lowercased in place |
| TextUtils.ContainsKeywords | src/lib/utils/text.ts:18-21 | the test holds exactly when some lowercased keyword occurs in the lowercased query, so an empty list never matches |
| TextUtils.ContainsKeywordsIgnoresCase | src/lib/utils/text.ts:19-20 | the test does not change when the case of the query or of the keywords changes |
| Formatting.Prefix | src/lib/utils/formatting.ts:8 | `substring(0, e)` is a prefix of the text of length `e` when `e` lies inside it |
| Formatting.TruncateTextShape | src/lib/utils/formatting.ts:6-9 | text that fits is unchanged; longer text becomes its first `maxLength` characters followed by `...` (`maxLength + 3` characters); either way the result begins with a prefix of the text |
| Formatting.Capitalize | src/lib/utils/formatting.ts:24-26 | capitalising keeps the length |
| Formatting.CapitalizeOnlyFirst | src/lib/utils/formatting.ts:24-26 | only the first character changes, to its upper-case form, and capitalising twice is capitalising once |
| Validation.Missing | src/lib/utils/validation.ts:16-19 | exactly the required names that are unset or empty are reported |
| Validation.MissingAppend | src/lib/utils/validation.ts:16-19 | the missing names keep the order of the required list |
| Validation.AnyPlaceholderAppend | src/lib/utils/validation.ts:18-22 | one more name raises the flag exactly when it is set and contains `placeholder` |
| Validation.MissingEmptyIff | src/lib/utils/validation.ts:26 | nothing is missing exactly when every required variable is set |
| Validation.ValidateStep | src/lib/utils/validation.ts:16-23 | after one more name, the missing list and the flag describe one more prefix of the list |
| Validation.ValidateEnvironmentVariables | src/lib/utils/validation.ts:8-30 | `missing` lists the unset names in order, `isValid` holds exactly when every name is set, the placeholder flag holds exactly when a set value contains `placeholder`, and an empty list is valid |
| Validation.ValidateDefault | src/lib/utils/validation.ts:8 | the default call checks `PINECONE_API_KEY`, `PINECONE_INDEX_NAME` and `GOOGLE_API_KEY` |
| Streaming.PiecesConcat | src/lib/utils/api.ts:32-44 | the pieces concatenate to the text |
| Streaming.PieceAt | src/lib/utils/api.ts:38-40 | piece `k` starts at offset `k * chunkSize` and runs for `chunkSize` characters, or to the end |
| Streaming.PiecesCount | src/lib/utils/api.ts:33-40 | there are `ceil(length / chunkSize)` pieces, and none for empty text |
| Streaming.PieceLengths | src/lib/utils/api.ts:38-40 | every piece but the last has exactly `chunkSize` characters, and the last is non-empty |
| Streaming.StreamPieces | src/lib/utils/api.ts:26-51 | the loop sends the specified pieces |
| VapiRoute.HandleOrder | src/app/api/vapi/route.ts:10-73 | checks run in order: an unreadable body gives 500, then a missing key gives 500, then no last user message gives 400; exactly the requests that pass get an answer |
| VapiRoute.OnlyLastMessageMatters | src/app/api/vapi/route.ts:22-25 | only the last message is inspected |
| VapiRoute.RouteCategoryPriority | src/app/api/vapi/route.ts:28-40 | routing is api, then user, then technical, then the default help text (each case in both directions) |
| VapiRoute.RouteApiIsFallbackApi | src/app/api/vapi/route.ts:31 | a query this route sends to the api document is also an api query for the fallback categoriser |
| VapiRoute.ResponseShape | src/app/api/vapi/route.ts:42 | the answer is the fixed prefix, then the message in its original case, then the closing text |
| VapiRoute.AnswerTailShape | src/app/api/vapi/route.ts:42 | after the closing quote come `:` and a blank line, then the chosen document and nothing else |
| VapiRoute.Post | src/app/api/vapi/route.ts:10-73 | an error comes with its status and text; an answer gets status 200 and is sent in 3-character pieces that spell it exactly |
| QueryRoute.EnvReadyIsValid | src/app/api/query/route.ts:7 | the endpoint's gate agrees with the environment validator over the required list |
| QueryRoute.Summaries | src/app/api/query/route.ts:30-35 | there is one summary per source, in order |
| QueryRoute.SummaryShape | src/app/api/query/route.ts:31-34 | a summary keeps the title, source and score, and holds the content cut to 200 characters followed by `...`, even when nothing was cut |
| QueryRoute.HandleOrder | src/app/api/query/route.ts:4-44 | a missing variable gives 500 whatever the body; an unreadable body gives 500; an absent or empty query gives 400; a processed query fails exactly when retrieval fails |
| QueryRoute.AnsweredShape | src/app/api/query/route.ts:24-36 | an answer echoes the query, carries the model's response and summarises every source in order |
| QueryRoute.TopKDefault | src/app/api/query/route.ts:14 | leaving `topK` out is the same request as sending 5 |
| MessagesHook.Project | src/hooks/useMessages.ts:59 | the request body holds the role and content of each message, in order |
| MessagesHook.Without | src/hooks/useMessages.ts:32 | the filter keeps exactly the messages with a different id |
| MessagesHook.WithoutAppend | src/hooks/useMessages.ts:32 | the filter keeps the relative order of what it keeps |
| MessagesHook.WithoutAbsent | src/hooks/useMessages.ts:32 | a list without the id is kept as it is |
| MessagesHook.UpdatedShape | src/hooks/useMessages.ts:30-43 | after an update exactly one message has the id; it is last, an assistant message with the new content, and the others keep their order |
| MessagesHook.UpdateAbsentAppends | src/hooks/useMessages.ts:30-43 | updating an absent id is a plain append |
| MessagesHook.ReplayAccumulates | src/hooks/useMessages.ts:74-80 | after the reads, one assistant message holds everything read, appended after the other messages |
| MessagesHook.ReplayStep | src/hooks/useMessages.ts:78-79 | after `k` reads the accumulated text is the concatenation of the first `k` pieces, and the last message holds it |
| MessagesHook.AfterReplyFresh | src/hooks/useMessages.ts:63-91 | a refused call adds only the apology; a reply adds one assistant message with the whole reply, followed by the apology when a read failed |
| MessagesHook.ChatSession.constructor | src/hooks/useMessages.ts:7-17 | the list starts with the greeting, and both flags are false |
| MessagesHook.ChatSession.AddMessage | src/hooks/useMessages.ts:19-28 | exactly one new message is appended, and the earlier ones are unchanged |
| MessagesHook.ChatSession.UpdateAssistantMessage | src/hooks/useMessages.ts:30-43 | the list becomes the old one without the id, followed by the new assistant message |
| MessagesHook.ChatSession.AddReceivedMessage | src/hooks/useMessages.ts:97-99 | exactly the given message is appended |
| MessagesHook.ChatSession.ReadReply | src/hooks/useMessages.ts:70-80 | the read loop leaves the list of the specification replay |
| MessagesHook.ChatSession.ReceiveReply | src/hooks/useMessages.ts:53-91 | the reply is read into the assistant message, and a refused call or a failed read appends the apology |
| MessagesHook.ChatSession.SendMessage | src/hooks/useMessages.ts:45-95 | whitespace-only content changes nothing; otherwise the untrimmed content is appended, the request carries the earlier messages and it, the reply is read, and both flags end false |
| VoiceCall.Target | src/hooks/useVapiVoiceCall.ts:105-121 | the configured assistant is used exactly when it is set, non-empty and not a placeholder |
| VoiceCall.TranscriptMessage | src/hooks/useVapiVoiceCall.ts:55-65 | a chat message is made exactly from a transcript event with a non-empty transcript, and it carries that text and role |
| VoiceCall.VoiceCallSession.constructor | src/hooks/useVapiVoiceCall.ts:15-32 | the call starts idle, and a client exists only with a usable public key |
| VoiceCall.VoiceCallSession.OnCallStart | src/hooks/useVapiVoiceCall.ts:35-41 | call start gives an active, connected call, whatever came before |
| VoiceCall.VoiceCallSession.OnCallEnd | src/hooks/useVapiVoiceCall.ts:43-49 | call end gives the idle state, whatever came before |
| VoiceCall.VoiceCallSession.OnError | src/hooks/useVapiVoiceCall.ts:67-74 | an error gives no call and the error status, whatever came before |
| VoiceCall.VoiceCallSession.StartCall | src/hooks/useVapiVoiceCall.ts:86-131 | without a client nothing changes; during a call only the status changes, to "Ending call..."; otherwise the session shows it is connecting and starts the chosen assistant, and a failed start gives no call and "Failed to connect" |
| Context7.Or | backend/fetchers/context7_fetcher.py:96-100 | Python's `or` gives its first operand when that is truthy, and otherwise its second |
| Context7.FirstIn | backend/fetchers/context7_fetcher.py:34-38 | the result is the first candidate, in candidate order, that the server offers, and none exactly when no candidate is offered |
| Context7.Choose | backend/fetchers/context7_fetcher.py:34-38 | the scan returns that first offered candidate |
| Context7.LibIdOf | backend/fetchers/context7_fetcher.py:96-100 | the id is truthy exactly when one of the three keys holds a truthy value |
| Context7.LibIdPrecedence | backend/fetchers/context7_fetcher.py:96-100 | `libraryId` wins over `library_id`, which wins over `id`, each only when it is truthy |
| Context7.NonObjectPayloadFails | backend/fetchers/context7_fetcher.py:93-103 | a truthy payload that is not an object makes the attempt fail, so the fetcher retries |
| Context7.FalsyPayloadResolvesNothing | backend/fetchers/context7_fetcher.py:95-100 | a falsy payload resolves no id without failing |
| Context7.DocsArgs | backend/fetchers/context7_fetcher.py:123-128 | with an id, the docs arguments are `{libraryId, limit}`; otherwise they are `{name, limit}`, plus `version` exactly when it is truthy |
| Context7.DocsRetryArgs | backend/fetchers/context7_fetcher.py:133 | the second docs call uses `library_id` when there is an id, and otherwise the same arguments |
| Context7.SearchQueryWithoutVersion | backend/fetchers/context7_fetcher.py:136 | without a version the search query is the trimmed library name |
| Context7.NormalizeItemFields | backend/fetchers/context7_fetcher.py:146-154 | title and url are truthy or empty; a non-object item gives empty title and url and the raw text |
| Context7.NormalizeAll | backend/fetchers/context7_fetcher.py:144-155 | there is one record per item, in order |
| Context7.Normalize | backend/fetchers/context7_fetcher.py:144-155 | the normalisation loop appends those records in order |
| Context7.FetchFailures | backend/fetchers/context7_fetcher.py:61-159 | only a missing url raises; a failed connection or a server with no docs or search tool returns no records |
| Context7.FetchNormalises | backend/fetchers/context7_fetcher.py:143-155 | a successful docs or search call is normalised item by item |
| Context7.FetchAsync | backend/fetchers/context7_fetcher.py:61-159 | the steps of the fetch give the specified result |
| Context7.EmptyEnvDefaults | backend/fetchers/context7_fetcher.py:19-22 | an empty environment gives no url, the library `react`, no version and the limit 10 |
| Context7.BlankVersionIsUnset | backend/fetchers/context7_fetcher.py:21 | a version setting of only whitespace counts as no version |
| Context7.FetchDocsDefaults | backend/fetchers/context7_fetcher.py:161-167 | an empty library name and a zero limit take the settings like absent ones; an explicit empty version overrides the setting |
| Context7.FetchWithoutVersion | backend/fetchers/context7_fetcher.py:87-139 | an empty version and an absent one fetch the same way |
| Context7.ResolveWithoutVersion | backend/fetchers/context7_fetcher.py:88-106 | an empty version adds nothing to the resolve arguments |
| Context7.DocsCallWithoutVersion | backend/fetchers/context7_fetcher.py:122-139 | an empty version adds nothing to the docs arguments or the search query |
| Types.RoleOf | src/types/index.ts:3-8 | the role read from a name gives that name back |
| Strings.TrimShape | src/hooks/useMessages.ts:46 | the trim is the slice `s[a..b]` with only whitespace before `a` and after `b`; it neither starts nor ends with whitespace, and is empty exactly when the text is all whitespace |
| Strings.IsSubstring | src/lib/utils/text.ts:20 | `includes` holds exactly when the word occurs at some offset of the text |
| Strings.TrimAppendSpace | backend/fetchers/context7_fetcher.py:136 | whitespace added at the end is removed again by the trim |
| Strings.ContainsAny | src/app/api/vapi/route.ts:31-35 | the disjunction of `includes` tests holds exactly when some word occurs in the text |
| Strings.Join | backend/lib/rag.ts:49 | a join holds all the parts' characters plus one separator between each two neighbours, and starts with the first part |
| Strings.JoinAppend | backend/lib/rag.ts:49 | joining one more part adds the separator and that part at the end |
| Strings.NatToStringInjective | backend/lib/document-processor.ts:49 | distinct chunk numbers print differently |

## Left out

- JSON decoding, path operations, the Pinecone, Gemini and Vapi clients and the MCP websocket session are parameters. The index handle is always available: `getPineconeIndex()` throwing inside the per-file `try` of `processAllDocuments` would fail every file, one after the other, and the model's services cannot fail there. So are `readFileSync`/`readdirSync`, clocks and random ids, so each call sees a single `now`.
- Console output, `alert`, the SSL context and `certifi` are not modelled: they do not change the results.
- Encoding and decoding of the streams (`TextEncoder`/`TextDecoder`), the `ReadableStream` object and the `setTimeout` delays are not modelled; only the sequence of pieces is.
- Lengths count characters, not UTF-16 code units. JavaScript's `length`, `slice` and `substring` count code units, and a Dafny `char` is a Unicode scalar value. On text with characters outside the Basic Multilingual Plane (emoji, for example), the source cuts at other places and can split a surrogate pair. This affects the chunk windows of Chunker and FixedChunker, Formatting.Prefix and Formatting.TruncateText, the 200-unit cut of QueryRoute.Summary and the 3-unit pieces of Streaming.Pieces. The model shows neither the other cut points nor lone surrogates.
- Casing and trimming are ASCII only. `toLowerCase`, `toUpperCase`, `trim` and Python's `strip` use an explicit whitespace set, with no Unicode rules.
- Scores and embedding values are opaque reals: the code never computes with them.
- JSON numbers in the fetcher are integers: it only tests them for truthiness.
- Retrieval.ToResult: a match always carries an id and a score. In the source `match.id!` and `match.score!` only silence the type checker, so a match without them gives `undefined`.
- Retrieval.StrField: a stored value of the wrong type reads as the default. In the source the `as string` cast does not convert it.
- Retrieval.NumField: a stored value that is not a number reads as 0. In the source `as number || 0` passes a truthy non-number (such as the string `"3"`) through unchanged, and the result type here holds only numbers.
- Chunker: sizes and overlap are natural numbers. The source's `number` also admits negative and fractional values, which its only call site (1000 and 200) never passes.
- Chunker.ChunkText: requires `overlap == 0` and `chunkSize >= 1`. `TerminatesIff` proves this is the only case in which the loop as written returns on non-empty text, so with the defaults 1000/200 `chunkText` never returns.
- Chunker.TakeWindow: requires a cursor inside the text. The loop guard ensures this.
- Streaming.StreamPieces: requires `chunkSize >= 1`. With 0 the source's cursor never moves, and the stream never closes on non-empty text.
- Ingestion: uses the corrected chunker of `FixedChunker`, because the as-written one does not return with the default sizes.
- Session calls (`call_tool`), the embedder and the model are pure functions of their arguments. One call with the same arguments always gives the same answer.
- `messages` and the hook closures: `sendMessage` reads the list it was created with, and React batches state updates. The model applies each update at once, so a message arriving during a send is not reflected in the request.
- Vapi route: a message content that is not a string makes the source throw, which gives 500. The model's messages always carry strings.
- Query route: a truthy non-string `query` and a `topK` of `null` are not modelled; the body holds an optional string and an optional integer.
- The `stop()` call of the voice effect's cleanup, and the volume handler, are not modelled: neither changes the state.
- `int()` of the results limit is a parameter, and its failure is a failed configuration.
- `test_websocket_connection` and the `__main__` block of the fetcher are left out: they only print.
- `createApiResponse`, `safeJsonParse` and `formatTime` in the utilities are left out: they are JSON, time and locale plumbing.

## Findings

| source | as written | input that shows it | evidently intended | confidence | as-written member | corrected member |
|---|---|---|---|---|---|---|
| backend/lib/document-processor.ts:21-37 | `start = start + chunk.length - overlap` keeps the cursor below `text.length` whenever `overlap > 0` (or `chunkSize == 0`), so the loop never exits on non-empty text. With the default overlap 200 every non-empty file hangs; text of 200 to 1000 characters reaches the fixed point `text.length - 200` after one iteration (`FixedPoint`, `ShortTextReachesFixedPoint`, `TerminatesIff`) | `chunkText("a")`, with the defaults 1000/200 | stop after the window that reaches the end of the text, and always move the cursor forward by at least one character; the windows then cover the text and overlap by `overlap` characters (`FixedCutsCover`, `FixedCutsOverlap`, `FixedCutsCount`) | high, proved; not executed | Chunker.NeverExits | FixedChunker.ChunkTextFixed |
| backend/lib/document-processor.ts:31 | the break offset inside the window is compared with the absolute `start + chunkSize * 0.5`, so no window whose cursor is at least about half a chunk in is ever snapped (`NoSnapPastHalfChunk`, `LateBreaksIgnoredAsWritten`) | the 21-character text of ten `a`, then `aaaaaaa.aa`, then `a`, with chunk size 10 and overlap 0: the second window is kept whole as "aaaaaaa.aa" | compare the offset with half the chunk size, so each window is snapped at a break in its own back half: "aaaaaaa." (`MixedFrameCorrected`, `FixedSnapKeepsBackHalf`, `FixedWindowShift`; the original fails the shift, `MixedFrameShiftAsWritten`) | high, proved; not executed | FixedChunker.MixedFrameAsWritten | FixedChunker.FixedWindowShift |
