# Policy question answering service, modelled in Dafny

This project models the deterministic core of a policy question-answering
service (retrieval-augmented generation over policy documents). The model
covers these pieces:

- **Retriever.** It filters the vector store's scored nodes by a threshold and
  prints each kept node as a `--- Source Document ---` block.
- **Reranker.** It cuts such a dump into sections and parses each into
  name, page, score and content. It keeps the complete ones, sorts them with
  Python's stable sort, highest score first, and renders the first.
- **Retriever-reranker tool.** It chains the two; the model proves that the
  parser reads back what the formatter wrote.
- **Conversation tool.** It keeps the `chat_sessions` / `chat_messages` tables,
  renders the recent history and appends turns.
- **Crew hooks.** The before-kickoff hook stores the user's turn; the
  after-kickoff hook stores the last task's answer.
- **API service.** It takes the chat id from the `pga4_session` cookie, the
  request or a fresh id, in that order. It also selects the last user
  message, builds the streamed reply, and publishes the model list.
- **Test client.** It builds the request payload and reads the streamed reply
  back. The model proves that it recovers the server's text.
- **Ingestion.** The converter writes `# Source: <file name>` headers and
  skips files already converted. The ingester checks the embedding
  dimension, reads the header back as `doc_source`, numbers the nodes, and
  writes chunks fifty at a time.

Modules follow the source files:

| module | file |
|---|---|
| `Retriever` | `retriever.dfy` |
| `Reranker` | `reranker.dfy` |
| `RetrieverReranker` | `retriever_reranker.dfy` |
| `Conversation` | `conversation.dfy` |
| `Crew` | `crew.dfy` |
| `Service` | `service.dfy` |
| `SseClient` | `sse_client.dfy` |
| `Ingester` | `ingester.dfy` |
| `MdConverter` | `md_converter.dfy` |

Shared helper modules:

| module | what it holds |
|---|---|
| `Wrappers` | `Option` and `Result` |
| `Text` | Python `str` operations over `seq<char>` |
| `TextFacts` | lemmas about those operations |
| `Scores` | scores as integer thousandths, `:.3f` and `float()` |
| `Json` | JSON values and an abstract `json.dumps`/`json.loads` pair |

Code that changes state in place is modelled with classes:

- **Database tables:** `ChatStore`.
- **Conversation tool:** `ConversationTool`, with its default chat id.
- **Crew:** `PolicyCrew`, with its session data.
- **Documents and nodes whose metadata is updated:** `Document` and `Node`.
- **Vector database:** `Store`, modelled as a trace of events.
- **Markdown output directory:** `OutputDir`.
- **Converter:** `Converter`, with its printed lines.

The loops of the source are methods with invariants, each proved against a
specification function:

| loop | method | specification |
|---|---|---|
| reranker `_parse` | `ParseSection` | `Parse` |
| SSE client | `ParseSseText` | `SseText` |
| tagging | `TagSources` | `Tagged` |
| numbering | `NumberPages` | `Numbered` |
| batching | `InsertBatches` | `Batches` |
| file selection | `FilesToProcess` | `Selected` |
| conversion | `ConvertEach` | `Written` / `Reports` |

Pure code is modelled as functions and lemmas.

Collaborators that are library code or I/O are passed in as values:

- the vector store's query engine;
- the crew run's output;
- the JSON codec, with its laws stated by `Json.Lawful`;
- the random hex of `uuid4`, and the clock;
- the embedding dimension;
- the loaded documents, parsed nodes and split chunks;
- the document converter;
- the directory listing.

## Model

| member | source | states |
|---|---|---|
| Retriever.Kept | src/retriever/retriever.py:36 | at most as many nodes as the engine returned |
| Retriever.KeptMembers | src/retriever/retriever.py:36 | a node is kept iff it is one of the engine's nodes and its score reaches the threshold |
| Retriever.KeptAppend | src/retriever/retriever.py:36 | the filter keeps the engine's order (it distributes over concatenation) |
| Retriever.DocName | src/retriever/retriever.py:41 | a truthy `doc_source` names the document; when it is missing or falsy, `file_name` does; with neither the name is `Unknown Document` |
| Retriever.FalsySourceIgnored | src/retriever/retriever.py:41 | an empty, zero or `None` `doc_source` is passed over by `or`: the name is the one the metadata gives without it |
| Retriever.PageOf | src/retriever/retriever.py:42 | a present `page_label` is the page even when falsy; without it a present `page_number` is; with neither key the page is `N/A` |
| Retriever.BlockText | src/retriever/retriever.py:44-50 | a block opens with the `--- Source Document ---` line, ends with the node's text and a blank line, and adds 71 characters of labels to the values it interpolates |
| Retriever.Chunks | src/retriever/retriever.py:39-50 | one formatted block per kept node |
| Retriever.ChunksNonEmpty | src/retriever/retriever.py:39-50 | no block is empty |
| Retriever.SearchTextEmpty | src/retriever/retriever.py:36-52 | the search result is the empty string iff no node reaches the threshold |
| Retriever.Search | src/retriever/retriever.py:31-52 | `Vector store not initialized` exactly when there is no engine; otherwise a text that is empty iff no node reaches the threshold |
| Retriever.Retriever.SearchNodes | src/retriever/retriever.py:31-52 | raises `Vector store not initialized` without an engine, else returns the joined blocks of the kept nodes |
| Scores.FormatScoreShape | src/retriever/retriever.py:48 | a printed score is digits, one point and possibly a leading minus |
| Scores.ParseFormatRoundTrip | src/retriever/retriever.py:48 | `float()` of a score printed with `:.3f` gives the score back |
| Scores.NegativeRoundTrip | src/retriever/retriever.py:48 | the same for negative scores |
| Scores.Unsigned3RoundTrip | src/retriever/retriever.py:48 | the unsigned part of a printed score parses back to its value |
| Scores.FirstMax | src/agents/tools/reranker.py:25-26 | the position a stable descending sort moves to the front: a maximal score, earliest among equals |
| Reranker.ReadLine | src/agents/tools/reranker.py:42-55 | one loop turn of `_parse` overwrites exactly the slot its stripped line's key selects |
| Reranker.Step | src/agents/tools/reranker.py:41-55 | a line changes only the slot of the key its stripped form starts with, and never unsets a slot |
| Reranker.Parse | src/agents/tools/reranker.py:37-57 | a candidate's content is the stripped text after the section's first `Content:` |
| Reranker.ParseSection | src/agents/tools/reranker.py:37-57 | the line loop of `_parse` computes `Parse`: a candidate iff name, score and content were found |
| Reranker.LastIndexWith | src/agents/tools/reranker.py:41-55 | finds the last line whose stripped form starts with a key |
| Reranker.KeysExclusive | src/agents/tools/reranker.py:43-52 | at most one of the four keys starts a line, so the elif chain never shadows a key |
| Reranker.ScanName | src/agents/tools/reranker.py:43-44 | the name is what the last `Document:` line holds, and is unset without one |
| Reranker.ScanPage | src/agents/tools/reranker.py:45-46 | the page is what the last `Page:` line holds |
| Reranker.ScanScore | src/agents/tools/reranker.py:47-51 | the score is the `float()` of the last `Relevance Score:` line, or 0 when that raises |
| Reranker.ScanContent | src/agents/tools/reranker.py:52-55 | the content is the stripped text after the section's first `Content:`, whichever `Content:` line triggered it |
| Reranker.KeyLineValue | src/agents/tools/reranker.py:44 | removing the key and stripping reads back a clean value written after the key |
| Reranker.ParseIsComplete | src/agents/tools/reranker.py:57 | a section yields a candidate iff it has a name line, a score line and a content line; the page is optional |
| Reranker.UnparsableScoreIsZero | src/agents/tools/reranker.py:48-51 | an unparsable score scores 0 instead of dropping the section |
| Reranker.SortIsOrderedPermutation | src/agents/tools/reranker.py:25 | the sort is a permutation, with scores descending |
| Reranker.SortByScore | src/agents/tools/reranker.py:25 | the sort keeps the number of candidates (the order and stability are stated by the two lemmas around it) |
| Reranker.SortIsStable | src/agents/tools/reranker.py:25 | among equal scores the sort keeps the original order |
| Reranker.SortHeadIsFirstMax | src/agents/tools/reranker.py:25-26 | the top document is the first candidate of highest score |
| Reranker.Run | src/agents/tools/reranker.py:13-35 | the tool's loop computes `Rerank` of the dump |
| Reranker.Render | src/agents/tools/reranker.py:28-31 | `Document: <name>`, then `\nPage: <page>` when the page is set and neither empty nor `N/A`, then a blank line and the content; the `Page:` line is present iff the page is shown |
| Reranker.Answer | src/agents/tools/reranker.py:22-33 | `No documents found` iff there is no candidate; otherwise a text starting with `Document: ` |
| Reranker.Rerank | src/agents/tools/reranker.py:13-35 | `No documents found` iff no section parses to a candidate; any other answer starts with `Document: ` |
| Reranker.AnswerIsFirstBest | src/agents/tools/reranker.py:22-33 | the answer is `No documents found` without candidates, else the rendered first best candidate |
| Reranker.AnswerNeverErrors | src/agents/tools/reranker.py:34-35 | for a string input the `Error:` branch is never taken: the answer is the sentinel or starts with `Document: ` |
| Reranker.BlankSectionSkipped | src/agents/tools/reranker.py:19 | whitespace-only sections contribute nothing |
| Reranker.PreambleDiscarded | src/agents/tools/reranker.py:18-19 | text before the first marker does not affect the answer |
| RetrieverReranker.RetrieveAndRerank | src/agents/tools/retriever_reranker.py:19-27 | a missing engine's error propagates; otherwise the result is the reranked search text |
| RetrieverReranker.ChatIdIgnored | src/agents/tools/retriever_reranker.py:19-27 | the chat id does not influence the result |
| RetrieverReranker.NothingRelevant | src/agents/tools/retriever_reranker.py:19-27 | when no node reaches the threshold the tool answers `No documents found` |
| RetrieverReranker.SearchTextIsMarked | src/retriever/retriever.py:44-52 | the search text is the kept nodes' section texts, each behind a marker |
| RetrieverReranker.SectionsOfMarked | src/agents/tools/reranker.py:18-19 | splitting on the marker cuts marker-free section texts back out exactly |
| RetrieverReranker.TailContent | src/agents/tools/reranker.py:53-55 | the content found in a block is the node's stripped text |
| RetrieverReranker.ParseTail | src/agents/tools/reranker.py:37-57 | from a block's section the parser reads back the name, page, score and stripped content that were written |
| RetrieverReranker.KeepTail | src/retriever/retriever.py:39-50 | a clean node's section yields exactly its own candidate |
| RetrieverReranker.CandidatesOfSearch | src/agents/tools/retriever_reranker.py:19-27 | the reranker's candidates for a search text are the kept nodes' candidates, in order |
| RetrieverReranker.RoundTrip | src/agents/tools/retriever_reranker.py:19-27 | the answer is the first kept node of highest score, with its stored name, page and stripped text, or the sentinel when nothing is kept |
| RetrieverReranker.ToolAnswersBest | src/agents/tools/retriever_reranker.py:19-27 | the same through the tool, for the default threshold |
| Conversation.Reverse | src/agents/tools/conversation.py:61 | `reversed`: same length, element `i` is element `n-1-i` |
| Conversation.Recent | src/agents/tools/conversation.py:57 | at most `limit` rows and no more rows than the chat has |
| Conversation.RecentIsReversedNewest | src/agents/tools/conversation.py:57-61 | reversing the newest-first page gives the last `limit` messages in writing order |
| Conversation.HistoryIsSentinelIff | src/agents/tools/conversation.py:61 | the history is `No conversation history found` iff no row was fetched |
| Conversation.HistoryShowsRecent | src/agents/tools/conversation.py:55-61 | the history shows the chat's last `limit` messages, oldest first, one `role: message` line each |
| Conversation.HistoryAfterAppend | src/agents/tools/conversation.py:38 | the text `_run` returns after storing a turn is the history that a read with one more row would give |
| Conversation.StoredTurnIsRead | src/agents/tools/conversation.py:32-38 | a read after a stored turn shows that turn last |
| Conversation.ChatStore.Context | src/agents/tools/conversation.py:55-61 | the read fails iff the limit is negative |
| Conversation.ChatStore.InsertTurn | src/agents/tools/conversation.py:32-37 | the session upsert and one message row, committed together |
| Conversation.ChatStore.InsertMessage | src/agents/tools/conversation.py:47-50 | one row; an unknown chat id is refused by the foreign key and changes nothing |
| Conversation.ConversationTool.Run | src/agents/tools/conversation.py:27-43 | error text for a negative limit; the history alone without a message; otherwise the turn is stored and appended to the history |
| Conversation.ConversationTool.StoreAssistantResponse | src/agents/tools/conversation.py:45-53 | `Stored` and one `assistant` row, or the error text when the chat is unknown |
| Crew.AssistantTurn | src/agents/crew.py:92-97 | the stored answer is the last task's non-empty raw output |
| Crew.OnlyLastTaskStored | src/agents/crew.py:96-99 | earlier task outputs and the run's own text never reach the log |
| Crew.StoredTurnIsATaskOutput | src/agents/crew.py:92-99 | what is stored is non-empty and one of the run's task outputs; nothing is stored without a result or task outputs |
| Crew.PolicyCrew.PrepareInputs | src/agents/crew.py:75-88 | records chat id and query, stores the user's turn unless the query is empty, returns the inputs unchanged |
| Crew.PolicyCrew.StoreAssistantResponse | src/agents/crew.py:90-100 | stores at most one `assistant` row in the recorded chat and returns the result unchanged |
| Crew.PolicyCrew.Kickoff | src/agents/crew.py:75-100 | one kickoff grows the chat's log by the user's turn then at most the answer, and writes nothing else |
| Service.FirstMatch | src/api/service.py:38 | the leftmost position where `pga4_session=([^;]+)` matches |
| Service.ExtractSession | src/api/service.py:35-44 | the cookie's session value: quotes stripped, cut at the first `!` |
| Service.ExtractNoneIff | src/api/service.py:36-44 | no session iff the header is empty or the pattern matches nowhere |
| Service.ExtractedShape | src/api/service.py:38-43 | an extracted session has no `;`, no `!` and no leading quote |
| Service.ExtractRoundTrip | src/api/service.py:35-44 | a clean value after `pga4_session=` is extracted unchanged, also when a `!signature` or further cookies follow |
| Service.FreshChatId | src/api/service.py:52 | `chat_` followed by the first sixteen hex digits |
| Service.ResolveChatId | src/api/service.py:52 | the cookie session, else the request's chat id, else the fresh id; never empty |
| Service.LastUserMessage | src/api/service.py:56 | the content of the last `user` message |
| Service.NoUserMessageIff | src/api/service.py:56 | there is no user message iff no message has role `user` |
| Service.LastUserMessageAt | src/api/service.py:56 | the selected content is that of the last `user` message, whatever follows it |
| Service.ChatCompletions | src/api/service.py:47-62 | accepted requests carry the query and chat id to the crew; refused ones give a 500 |
| Service.CompletionOutcome | src/api/service.py:56-62 | an empty last user message gives a 500 whose detail wraps the 400; otherwise the crew receives the query and the resolved chat id, and the response id is `chatcmpl-` followed by the first 29 hex digits, with the request's model and the current time |
| Service.NoUserMessageRefused | src/api/service.py:57-58 | without a user message the 400 is raised inside the `try`, so the `except` handler answers with status 500 and detail `Error: 400: No user message found` |
| Service.CookieSessionIsChat | src/api/service.py:50-52 | a session cookie decides the chat id over the request's |
| Service.ResponseText | src/api/service.py:66 | a non-empty `raw` is the answer, otherwise `str(result)` is; the answer is empty only when both are |
| Service.ChunkObject | src/api/service.py:68-77 | a `chat.completion.chunk` with the response id, creation time and model, whose first choice has index 0 and a delta carrying the assistant's whole answer |
| Service.GenerateStream | src/api/service.py:64-79 | two frames, each `data: ` and a blank line; the first carries the encoded chunk object, the second is `[DONE]` |
| Service.Models | src/api/service.py:93-109 | a `list` holding one `model` entry, whose id is `dge-policy-rag` and whose `max_tokens` and `context_length` are 131072 |
| SseClient.ParseSseText | tests/client_chat_completion.py:20-36 | the client's line loop computes `SseText` |
| SseClient.StopsAtDone | tests/client_chat_completion.py:26-27 | nothing after `data: [DONE]` is read |
| SseClient.MalformedSkipped | tests/client_chat_completion.py:28-35 | a data line that does not decode, or decodes to something without a truthy delta, is ignored |
| SseClient.Concat | tests/client_chat_completion.py:36 | the join succeeds iff every collected delta is a string |
| SseClient.SseText | tests/client_chat_completion.py:20-36 | the parse fails with the join's TypeError iff a collected delta is not a string |
| SseClient.ClientReadsServerStream | src/api/service.py:64-79 | the client recovers exactly the text the server streamed, for any lawful JSON codec |
| SseClient.PayloadAsksQuestion | tests/client_chat_completion.py:11-17 | the payload's only message is the question as a `user` message, which the server selects; its model is the one `/v1/models` lists |
| SseClient.BuildPayload | tests/client_chat_completion.py:11-17 | the payload names `dge-policy-rag`, carries the stream flag it was given, and asks for no citations |
| Ingester.FirstLine | src/indexer/ingester.py:34 | a prefix of the text up to the first newline, which it does not contain |
| Ingester.Tagged | src/indexer/ingester.py:35-36 | only `doc_source` is set or overwritten; every other key keeps its value |
| Ingester.SourceIffHeader | src/indexer/ingester.py:34-36 | a document gets `doc_source` iff its text starts with `# Source:`; an empty text never does |
| Ingester.TaggedIdempotent | src/indexer/ingester.py:33-36 | tagging a document again changes nothing |
| Ingester.DocSource | src/indexer/ingester.py:34-36 | a source is recorded only for a text starting with `# Source:`, and it has no surrounding whitespace |
| Ingester.TagSources | src/indexer/ingester.py:33-36 | every document's metadata becomes `Tagged` of its old metadata and its text; texts are unchanged |
| Ingester.Numbered | src/indexer/ingester.py:45-47 | `page_number` is the position, every other key is kept, absent or empty metadata starts empty |
| Ingester.NumberedPageShown | src/indexer/ingester.py:47 | the retriever shows a numbered node's position as its page when there is no `page_label` |
| Ingester.NumberPages | src/indexer/ingester.py:44-47 | node `i` (from 0) ends with page `i + 1`, overwriting earlier values |
| Ingester.BatchesCover | src/indexer/ingester.py:55-57 | the batches cover the chunks exactly once and in order |
| Ingester.BatchesSized | src/indexer/ingester.py:55-56 | each batch holds 1 to 50 chunks, and all but the last exactly 50 |
| Ingester.Batches | src/indexer/ingester.py:55-56 | no batches iff no chunks; otherwise `ceil(len / size)` batches, as many as `range(0, len, size)` starts |
| Ingester.InsertBatches | src/indexer/ingester.py:54-58 | one insert per batch, in order, and nothing else |
| Ingester.ContentsAfterInserts | src/indexer/ingester.py:57 | the inserts append the batches' chunks to the table |
| Ingester.IngestedContents | src/indexer/ingester.py:24-60 | after a successful run the vector table holds exactly the split chunks, in order |
| Ingester.Ingester.Ingest | src/indexer/ingester.py:23-60 | the database is cleaned first; a dimension mismatch then stops the run with ValueError and no document or node is touched; otherwise tagging, numbering, the inserts and then the index check |
| MdConverter.RFind | src/indexer/md_converter.py:19 | the last occurrence of a character, or -1 |
| MdConverter.Stem | src/indexer/md_converter.py:19 | the name without its last suffix; a leading or trailing dot starts none |
| MdConverter.MdName | src/indexer/md_converter.py:19 | the stem followed by `.md`: a prefix of the file name, then the suffix |
| MdConverter.Header | src/indexer/md_converter.py:28 | the `# Source: <name>` line and a blank line, then the markdown unchanged at the end |
| MdConverter.Selected | src/indexer/md_converter.py:14-22 | an entry is selected iff it is a regular file and (forced or its markdown does not exist) |
| MdConverter.Converter.FilesToProcess | src/indexer/md_converter.py:14-22 | the selection loop computes `Selected`, in listing order |
| MdConverter.Outcome | src/indexer/md_converter.py:24-36 | a file converts iff the converter succeeds and the directory exists; the written text starts with the `# Source:` header |
| MdConverter.Reports | src/indexer/md_converter.py:32-35 | one printed line per attempted file, telling its outcome |
| MdConverter.EachSuccessWritten | src/indexer/md_converter.py:28-31 | a file that converts is written with its header, whatever happened to the others, unless a later file of the same stem overwrites it |
| MdConverter.FailureSkipped | src/indexer/md_converter.py:34-36 | a failed conversion leaves the output directory as it was |
| MdConverter.Written | src/indexer/md_converter.py:28-31 | converting never removes a file from the output directory |
| MdConverter.WrittenKeys | src/indexer/md_converter.py:30-31 | the run adds exactly the markdown files of the files that converted |
| MdConverter.IngestedSourceIsFileName | src/indexer/md_converter.py:28 | the ingester reads back the file name from the header as `doc_source` |
| MdConverter.CitedByFileName | src/retriever/retriever.py:41 | a chunk of a converted file is cited by its source file's name |
| MdConverter.Converter.ConvertFile | src/indexer/md_converter.py:24-36 | writes the header and markdown to `<stem>.md` and returns true, or reports the failure and returns false |
| MdConverter.Converter.ConvertEach | src/indexer/md_converter.py:47-48 | every selected file is attempted in order; failures do not stop the loop |
| MdConverter.Converter.ConvertAll | src/indexer/md_converter.py:38-48 | the output directory is created first; with nothing selected nothing is converted; otherwise the selected files are converted in order |

## Left out

- `SseClient.ClientReadsServerStream`: the JSON codec is abstract, and the round trip holds for any codec that satisfies `Json.Lawful`. That predicate asks that decoding undo encoding, that an encoding hold no line break, and that a dict encode as `{...}`.
- `Service.ExtractSession`: only the single pattern `pga4_session=([^;]+)` is modelled, not general regular expressions.
- Scores are integer thousandths.
  - `float()` parsing of `nan`, `inf`, exponents and underscores is treated as unparsable, which scores 0.
  - Digits past the third decimal are dropped.
  - The retriever's `min_score` comparison and `:.3f` are exact on thousandths; binary floating point is not modelled.
- Database messages are approximated.
  - `Conversation.Describe` approximates the text of Postgres errors; only the `Error: ` prefix is relied upon.
  - A `NULL` chat id passes the foreign key and the row is kept apart (`unfiled`).
  - `MdConverter.NoSuchDirectory` stands for the `FileNotFoundError` text, which also names the path.
- `Conversation.ChatStore`: the schema itself is not part of this model. It is taken to be two tables, with `chat_messages.chat_id` referencing `chat_sessions`; insertion order stands for `created_at`.
- Connection handling, commits and `DBAdmin` plumbing are not modelled. `clean_db` and `check_index_in_db` appear only as events in `Ingester.Store`.
- `Crew.PolicyCrew.Kickoff`: the agents, tasks, LLM calls and guardrail of the crew run are opaque. The run's output is a parameter, and agent tool calls that write to the log during the run are not modelled.
- `Service.ChatCompletions`: `generate_stream` runs lazily inside the streaming response. A crew failure there surfaces after the 200 status and is not modelled.
- FastAPI routing, CORS, tracing, logging, `uvicorn` and the request model file are not part of this model. Request validation by pydantic is taken as given.
- Two concurrent requests on the same chat, and their interleaving, are not modelled.
- The `uuid4` hex digits and the clock are parameters.
- `tests/client_chat_completion.py`: `run_non_stream`, `run_stream`, timing and `main` are HTTP and console I/O and are not modelled.
- `Ingester.Ingester.Ingest`: the embedding model, the document loader, `MarkdownNodeParser` and `TokenTextSplitter` are library code. Their results (`checkDim`, the documents, nodes and chunks) are parameters, so the link from tagged documents to nodes to chunks is not modelled.
- `Ingester.NumberPages` requires the parser's nodes to be distinct objects. Each node is created by the parser, so this holds in the source.
- `Ingester.Numbered`: metadata is a value, so the fresh dict given to a node with empty metadata is equal to the empty dict it replaces. Sharing of one dict between nodes is not modelled.
- `tqdm` progress bars are not modelled. The `print` output of the converter is modelled as `Converter.console`.
- `MdConverter.Converter.ConvertFile`: only a failure of the converter or a missing output directory is modelled; any other write error is not.
- `MdConverter.Converter.constructor`: the directory listing (`iterdir`) is fixed when the converter is built, in the order given, and `argparse`/`main` are not modelled.
- `MdConverter.IngestedSourceIsFileName` requires a file name without line breaks, without `# Source:` inside it, and without surrounding whitespace. Other names do not round-trip: the ingester removes every `# Source:` and strips.
- `Retriever.Retriever.SearchNodes`, `RetrieverReranker.RetrieveAndRerank`: the engine is a total function from query to nodes. The exceptions that `Retriever()` re-raises when setting up the vector store fails (src/retriever/retriever.py:8-9, 27-29) and any exception from `query_engine.query` (line 35) are not modelled. In the source they propagate out of the tool at src/agents/tools/retriever_reranker.py:20-21. Only the missing-engine `ValueError` is modelled.
- `Reranker.Run`, `Reranker.Rerank`: only a string input is modelled. The `List[Dict]` input that the schema allows (src/agents/tools/reranker.py:6) is turned into text with Python's `str()` (lines 15-16); that `repr` format is not modelled.
- `RetrieverReranker.RoundTrip` requires every kept node to be clean (`RetrieverReranker.CleanNode`). A name or page containing its own key or a line break, or a text containing the marker or a later header-like line, changes what the reranker parses.
