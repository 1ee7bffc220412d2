# Enneagram Agent core, modelled in Dafny

This project models the server-side core of the Enneagram Agent, a Node.js
service that answers questions about the Enneagram from a book indexed in a
vector store. The model covers six parts:

- **The vector store** (`vectorStore.js`, module `Retrieval`, class
  `VectorStore`). It keeps a flat vector index, the content of every document
  by id, and the owning document of every index position. `upsert` appends
  one vector per chunk, `search` resolves the positions the index returned,
  `removeDocument` drops a document's positions and metadata, and `chunkText`
  is a sliding window of 500 words that advances by 400.
- **Ingestion** (`ingestGithubRepo.js`, module `Ingestion`). It classifies a
  GitHub compare diff and reads owner and repository from a URL. From the
  stored commit watermark it decides whether a pass is skipped, incremental
  or full. It then drives the store: every deletion first, then
  remove-then-upsert of each changed file that has an allowed extension and
  non-empty content. An uploaded document is split into pages. Each driver
  returns the store calls it made, and its new store state is those calls
  applied in order (`Applied`). An upsert whose embedding fails throws before
  it changes anything and the per-file `catch` swallows the error. The call
  still stands in the list, but it changes nothing, so a changed file whose
  embedding fails loses its old entry, because the removal came first.
- **The question-answering pipeline** (`ragPipeline.js`, module
  `RagPipeline`). It searches, builds a context of the distinct hit contents
  and a list of the distinct source ids, asks OpenRouter, and falls back once
  to Gemini.
- **The two session handlers** (`relationship_advice.js`, module
  `RelationshipAdvice`; `know_yourself.js`, module `KnowYourself`). Each
  appends to a stored conversation history and asks OpenRouter. A reply that
  says `RETRIEVE` leads to a book search and a verdict. On any failure the
  same steps run once on Gemini, over the history as it then stands.
- **The LLM configuration endpoint** (`configure_llm.js`, module
  `ConfigureLlm`, class `EnvMap`). It validates the request, parses the
  `.env` text into an insertion-ordered map, sets two keys and serialises
  the map again.
- **Shared pieces.** The JavaScript built-ins the code relies on (`split`,
  `trim`, `includes`, `join`, `Array.from(new Set(..))`, `filter`,
  `path.extname`, `toLowerCase`) are in module `JsLib`. Messages, reply
  shapes, the `RETRIEVE` convention, the search context and Gemini prompt
  formatting are in module `Conversation`.

Remote services (OpenRouter, Gemini, the GitHub API, embeddings) are inputs
of the model. A remote call either threw or returned a body, and which of the
two is a parameter. Every handler returns the list of remote calls it made,
in order. This makes "no Gemini call when OpenRouter answers" and "the
fallback sees the history as the failed pass left it" statable.

The `.env` parser follows the code: `line.split("=")` keeps only the first
two pieces, so a value holding `=` is cut at it (`ParseLineSpec`). The
round trip `SerializeRoundTrip` therefore holds for maps without `=` in keys
and values.

`chunkText("")` gives one empty chunk, because `"".split(/\s+/)` is `[""]`.
The model follows the code here (`EmptyTextOneChunk`); a description that
promises no chunks for empty text does not match it.

## Model

| member | source | states |
|---|---|---|
| Retrieval.VectorStore.constructor | vectorStore.js:15-48 | Each of the index, metadata and position map is the saved one when its file exists and empty otherwise; a fresh store satisfies the alignment invariant |
| Retrieval.VectorStore.ChunkText | vectorStore.js:115-125 | The loop's chunks are exactly `Chunks(text, maxTokens, overlap)`, the windows of `maxTokens` words advancing by `maxTokens - overlap` |
| Retrieval.ChunkCount | vectorStore.js:115-125 | n words with step s give ceil(n / s) chunks |
| Retrieval.ChunkWindow | vectorStore.js:119-122 | Chunk i is the words [i*step, min(i*step + maxTokens, n)) joined by spaces, so no chunk has more than `maxTokens` words |
| Retrieval.ChunksCoverAllWords | vectorStore.js:119-123 | With overlap >= 0 there is at least one chunk, every word lies in some chunk's window, and the last window ends at the last word |
| Retrieval.ConsecutiveChunksOverlap | vectorStore.js:114-124 | Chunk i+1 starts `step` words after chunk i, and the words that end chunk i and begin chunk i+1 number `overlap`, fewer only when the text ends first |
| Retrieval.TwelveHundredWords | vectorStore.js:115-125 | 1200 words with the defaults give the three windows [0,500), [400,900), [800,1200) |
| Retrieval.EmptyTextOneChunk | vectorStore.js:116-123 | The empty text yields exactly one empty chunk |
| Retrieval.ChunksFromCount | vectorStore.js:119-123 | No chunk starts at or past the end of the words; otherwise the last chunk starts before the end and the next window would start at or past it |
| Retrieval.ChunksFromAt | vectorStore.js:119-122 | Chunk i counted from a start word is the join of that window's words |
| Retrieval.VectorStore.Upsert | vectorStore.js:50-63 | The new state is `Upserted(old state, ...)`: a failed embedding throws before anything changes; otherwise the vectors are appended to the index, one position per vector owned by the id is appended, earlier positions stay, and the metadata maps the id to the content; the invariant is kept |
| Retrieval.VectorStore.Search | vectorStore.js:65-81 | The hits are `Hits(labels, ...)`: one per label whose position names a non-empty id present in the metadata, in label order |
| Retrieval.HitsBound | vectorStore.js:70-79 | At most one hit per label, and exactly one per label when every label resolves |
| Retrieval.HitsSound | vectorStore.js:71-77 | Every hit's id is non-empty, owns some index position and has a metadata entry, and the hit's content is that entry |
| Retrieval.HitsConcat | vectorStore.js:70-79 | The hits of concatenated label lists are the concatenated hits |
| Retrieval.VectorStore.RemoveDocument | vectorStore.js:83-113 | The new state is `Removed(old state, id)`: an unknown id changes nothing; a known id loses its metadata entry, its positions leave both the index and the position map together, and every other position stays in order; the invariant is kept |
| Retrieval.RemoveTwice | vectorStore.js:84-87 | Removing a document a second time changes nothing: the first removal leaves no metadata entry for it |
| Retrieval.RemovalKeepsStore | vectorStore.js:103-109 | Dropping the id's positions is filtering the id out; index and position map stay aligned; remaining positions still resolve; no position means nothing but the metadata changes |
| Retrieval.FilterOutSpec | vectorStore.js:109 | Filtering removes every occurrence of the id, keeps every other id as often as before, and shrinks by the number of positions removed |
| Retrieval.FilterOutSubset | vectorStore.js:109 | Every remaining entry was an entry before and differs from the removed id |
| Retrieval.KeepPositionsIsFilter | vectorStore.js:108-109 | Removing the collected positions equals filtering out the id |
| Retrieval.KeepAligned | vectorStore.js:103-109 | Removing the same positions from two aligned sequences leaves them the same length |
| Retrieval.KeepNothing | vectorStore.js:96-100 | Removing no position leaves a sequence unchanged |
| Retrieval.CollectedPositions | vectorStore.js:89-96 | The indices the loop collects are exactly the id's positions, and none are collected exactly when the id owns no position |
| Ingestion.GetChangedFiles | ingestGithubRepo.js:43-56 | A response that is not ok fails; otherwise changed holds the modified or added files and deleted the removed ones, in input order, a missing `files` list counting as empty |
| Ingestion.PathsWithMembers | ingestGithubRepo.js:51-54 | A file name is selected exactly when some file with that name has a selected status |
| Ingestion.PathsWithConcat | ingestGithubRepo.js:51-54 | Classification works file by file, keeping input order |
| Ingestion.ClassificationCount | ingestGithubRepo.js:51-54 | The two lists together are as long as the list of files whose status is modified, added or removed, which is at most the number of files; the two are equal exactly when every status is one of those three, so a file with another status (such as renamed) is dropped |
| Ingestion.StripTrailingSlash | ingestGithubRepo.js:81 | Exactly one trailing "/" is removed, and a URL without one is unchanged |
| Ingestion.RepoUrlSegments | ingestGithubRepo.js:81-83 | A URL of "/"-free segments, with or without a trailing "/", gives the last two segments as owner and repository |
| Ingestion.ParseStripped | ingestGithubRepo.js:81-83 | Owner and repository are the last two "/"-pieces of the URL once its trailing "/" is removed |
| Ingestion.BareRepoName | ingestGithubRepo.js:81-83 | A name without "/" is the repository and the owner reads `undefined` |
| Ingestion.StripJoined | ingestGithubRepo.js:81 | Removing a trailing "/" from a segment join gives the join back, and a join without one is unchanged |
| Ingestion.DecideCases | ingestGithubRepo.js:88-112 | Skip iff the stored repo and commit equal the current ones; incremental from the stored commit iff the repo matches, the commit differs and is non-empty; full otherwise |
| Ingestion.SavedWatermarkSkips | ingestGithubRepo.js:88-91 | The watermark a completed pass writes makes the next pass with the same latest commit skip |
| Ingestion.Ingested | ingestGithubRepo.js:119-147 | A changed path is ingested exactly when its lower-cased extension is allowed and its download succeeds, with the downloaded content |
| Ingestion.DeleteOps | ingestGithubRepo.js:114-117 | One removal per deleted path, in order |
| Ingestion.FetchPassFiles | ingestGithubRepo.js:98-112 | The changed and deleted paths are `PassFiles(...)`: the compare classification for an incremental pass, the tree's blobs with no deletions for a full pass, none when the call fails |
| Ingestion.RemoveDeleted | ingestGithubRepo.js:114-117 | The calls are `DeleteOps(deletedFiles)` and the new store is `Removals(old store, deletedFiles)`, each deleted path removed in turn; the invariant is kept |
| Ingestion.ReingestPath | ingestGithubRepo.js:121-150 | One path gives remove-then-upsert with its content when it is allowed, downloaded and non-empty, and nothing otherwise; the new store is the old one with those calls `Applied` |
| Ingestion.ReingestChanged | ingestGithubRepo.js:121-151 | The loop's calls are `IngestOps(changedFiles, ...)`, path by path in order, and the new store is the old one with them `Applied` |
| Ingestion.IngestChangedFiles | ingestGithubRepo.js:79-155 | The pass's outcome is `IngestPass(...)`; a failed or skipped pass leaves the store unchanged; a completed one leaves the old store with the pass's calls `Applied`; the store keeps its invariant |
| Ingestion.AppliedConcat | ingestGithubRepo.js:114-151 | Performing two call sequences one after the other is performing their concatenation |
| Ingestion.DeleteOpsApplied | ingestGithubRepo.js:114-117 | The deleted-files calls leave the store the removals leave |
| Ingestion.RemovalsEffect | ingestGithubRepo.js:114-117 | After the deleted-files loop no deleted path has a metadata entry and every other key keeps its entry |
| Ingestion.RemoveThenUpsertApplied | ingestGithubRepo.js:144-146 | removeDocument then upsert of one path leaves the store `Upserted(Removed(store, path), ...)` |
| Ingestion.PathOpsEffect | ingestGithubRepo.js:121-150 | One changed path's entry becomes its new content when its embedding succeeds and disappears when it fails (the removal came first); every other key keeps its entry |
| Ingestion.IngestOpsEffect | ingestGithubRepo.js:121-151 | After the changed-files loop, a path accepted with content holds that content when its embedding succeeds and has no entry when it fails; a refused or unvisited path keeps its entry |
| Ingestion.PassStore | ingestGithubRepo.js:114-151 | After a completed pass, a deleted path that no changed path brings back has no entry, accepted changed paths hold their content or (embedding failed) nothing, and every path the pass does not name keeps its entry |
| Ingestion.PassShape | ingestGithubRepo.js:79-155 | A failed latest-commit call fails the pass; the pass skips iff the decision says skip; a completed pass does all deletions before the changed-files loop, deletes nothing on a full pass, and writes the watermark `{repo, latest}` |
| Ingestion.DeletionsFirst | ingestGithubRepo.js:114-151 | The first operations remove the deleted paths in order and the rest are the changed-files operations |
| Ingestion.IngestOpsPairs | ingestGithubRepo.js:142-147 | Every removal is immediately followed by the upsert of the same path, and every upsert is of a changed path with its decided content |
| Ingestion.IngestOpsComplete | ingestGithubRepo.js:121-151 | Every changed path that has content is removed and then upserted with that content |
| Ingestion.IngestOpsConcat | ingestGithubRepo.js:121-151 | The loop's operations over concatenated path lists are the concatenated operations |
| Ingestion.ChangedFilesIngested | ingestGithubRepo.js:119-147 | Every upserted path has an allowed extension and the non-empty content its download gave, and every such path is upserted |
| Ingestion.UpsertPages | ingestGithubRepo.js:188-192 | The calls are `PageOps(docId, pages)`, page i upserted as "<docId>_page_<i+1>" in page order, and the new store is the old one with them `Applied` |
| Ingestion.IngestUploadedFile | ingestGithubRepo.js:157-195 | An extension outside .pdf/.docx/.txt/.md/.html is refused with "Unsupported file type: <ext>" and the store unchanged; otherwise the pages of the extracted text are upserted under the file's stem, the new store is the old one with those calls `Applied`, and the success message is returned |
| Ingestion.PageOps | ingestGithubRepo.js:188-192 | One upsert per page, page i under its page id with its text |
| Ingestion.UpsertOpsEffect | ingestGithubRepo.js:188-192 | Upserts under pairwise different ids store each document whose embedding succeeds, leave the entry of one whose embedding fails, and touch no other key |
| Ingestion.PageOpsEffect | ingestGithubRepo.js:188-192 | After an upload every page whose embedding succeeds is stored under its page id with its text, a page whose embedding fails leaves its id's entry as it was, and no other key changes |
| Ingestion.PageIdsDistinct | ingestGithubRepo.js:190 | Different page numbers give different page ids |
| Ingestion.NonBlankSpec | ingestGithubRepo.js:185 | Exactly the pages whose trimmed text is non-empty are kept |
| Ingestion.PagesSpec | ingestGithubRepo.js:185 | Every page is non-blank and holds no run of two newlines |
| RagPipeline.Run | ragPipeline.js:25-154 | The search is the first call, with the caller's k; a failed search fails the run with no other call; an answer's source list is the distinct docIds of the hits |
| RagPipeline.AnswerRules | ragPipeline.js:48-148 | When OpenRouter returns, the answer follows the primary read and no Gemini call is made; when it throws, exactly one Gemini call with the same two messages is made and the answer is its trimmed text or the run fails |
| RagPipeline.PrimaryAnswerSpec | ragPipeline.js:97-98 | The answer is the trimmed content when present and non-blank, "No response." otherwise, and never empty |
| RagPipeline.FallbackParts | ragPipeline.js:13-23 | The Gemini prompt is the two parts "Assistant: <system text>" and "User: Question: <query>\nAnswer:" |
| RagPipeline.SourcesSpec | ragPipeline.js:36 | The sources are the hits' docIds, each once, in order of first appearance |
| RagPipeline.SystemContentSpec | ragPipeline.js:54-80 | The trimmed system text is the persona, "Context : " and the context unchanged, or ends in "Context :" when the context is empty |
| Conversation.SettleCalls | relationship_advice.js:82-189 | A settled turn makes the primary pass's calls first and the fallback's only when the primary pass failed; it saves exactly when it answers, and an error carries the handler's failure message |
| Conversation.StrictChatText | relationship_advice.js:100 | The read succeeds exactly when every level of `choices[0].message.content` exists, and gives that content trimmed |
| Conversation.StrictGeminiText | relationship_advice.js:150 | The read succeeds exactly when every level of `candidates[0].content.parts[0].text` exists, and gives that text trimmed |
| Conversation.RetrieveQueryBetween | relationship_advice.js:103-106 | A reply without "RETRIEVE" gives ""; otherwise the query is the trimmed text between the first "RETRIEVE" and the next one or the end |
| Conversation.RetrieveQueryExample | relationship_advice.js:106 | "RETRIEVE" followed by text without another "RETRIEVE" asks for that text, trimmed |
| Conversation.Contents | relationship_advice.js:109 | One content per hit, in hit order |
| Conversation.DocIds | ragPipeline.js:36 | One docId per hit, in hit order |
| Conversation.ContextSpec | relationship_advice.js:109-110 | The context joins the distinct contents with newlines: each hit's content appears once, nothing else appears, in order of first appearance |
| Conversation.ContextReadBack | relationship_advice.js:109-110 | When no content holds a newline, splitting the context at newlines gives back the distinct contents |
| Conversation.FormatGeminiParts | relationship_advice.js:44-50 | One part per message, in order, each "<label>: <content>" |
| Conversation.FormatGeminiConcat | relationship_advice.js:44-50 | Formatting works message by message |
| Conversation.LabelCases | relationship_advice.js:47 | "User" exactly for user messages, "Tool" exactly for tool messages of a formatter that labels them, "Assistant" for every other role |
| RelationshipAdvice.ConfigMessageSpec | relationship_advice.js:62-68 | The trimmed template is exactly the header and detail lines, and an empty comment reads "None" |
| RelationshipAdvice.TrimTemplate | relationship_advice.js:62-68 | Trimming the template's newline and indentation gives back a text that neither starts nor ends with whitespace |
| RelationshipAdvice.ConfigBodyEnds | relationship_advice.js:62-68 | The detail text starts with the header's "H" and ends with the insight's last character |
| RelationshipAdvice.RunAttempt | relationship_advice.js:82-180 | The pushes and calls of one pass on one model equal `Attempt(...)` |
| RelationshipAdvice.HandleRelationshipAdvice | relationship_advice.js:12-190 | The handler's reply, saved history and calls equal `AdviceTurn(...)` |
| RelationshipAdvice.ConfigStage | relationship_advice.js:55-75 | The configuration stage appends one user message with the details, saves, answers the stored message and calls no model |
| RelationshipAdvice.AttemptAppends | relationship_advice.js:82-180 | A pass only appends: a finished pass the reply, or the reply, the tool context and the verdict; a failed pass keeps what it appended; its first call asks the model with the advice prompt and the history it started from |
| RelationshipAdvice.AdviceHistory | relationship_advice.js:78-189 | A turn saves exactly when it answers, an error is "Failed to process relationship advice.", and the saved history is the query-extended history followed by what the primary pass, or the failed primary and then the fallback, appended |
| RelationshipAdvice.SettleHistory | relationship_advice.js:135-184 | What each pass appended composes into the saved history of the settled turn |
| RelationshipAdvice.FallbackFromCurrentHistory | relationship_advice.js:135-140 | The primary pass never calls Gemini; no fallback call is made when it finishes; otherwise the next call is one Gemini request over the advice prompt and the history as the failed pass left it |
| RelationshipAdvice.PrimaryNeverGemini | relationship_advice.js:82-134 | The OpenRouter pass only calls OpenRouter and the search |
| RelationshipAdvice.RetrievalOrder | relationship_advice.js:100-131 | A retrieving primary pass saves query, reply, tool context and verdict in that order, answers the verdict and searches for the reply's query second |
| RelationshipAdvice.AttemptRetrieves | relationship_advice.js:100-131 | A pass whose reply retrieves and whose search and verdict succeed appends reply, tool context and verdict and calls model, search and model |
| KnowYourself.ChatTextOr | know_yourself.js:127 | A missing `choices` list or a message without `content` throws; no first choice or no message gives the default; otherwise the trimmed content |
| KnowYourself.GeminiTextOr | know_yourself.js:155 | The read throws exactly when the `candidates` list is missing, the first candidate's content has no `parts`, or its first part has no `text`; no first candidate, a candidate without content, or an empty `parts` list gives the default; otherwise the trimmed text |
| KnowYourself.HandleRetrievalAndVerdict | know_yourself.js:50-92 | The search is the first call; a failed search stops there; otherwise one verdict request with the distinct passages after "BOOK:" follows, and the verdict is returned when it arrives |
| KnowYourself.RunAttempt | know_yourself.js:109-164 | The pushes and calls of one pass on one model equal `Attempt(...)` |
| KnowYourself.KnowYourselfHandler | know_yourself.js:94-174 | The handler's reply, saved history and calls equal `KnowYourselfTurn(...)` |
| KnowYourself.AttemptAppends | know_yourself.js:109-164 | A pass only appends: a finished pass the reply, or the reply and the verdict; a failed pass nothing or the reply; its first call asks with the questions prompt |
| KnowYourself.UserMessageFirst | know_yourself.js:106-125 | The first request holds the questions prompt and the history ending in the input; the turn saves exactly when it answers, and what it saves starts with that history |
| KnowYourself.MissingReplies | know_yourself.js:127-155 | No first choice gives ""; no first candidate, or a first candidate with an empty `parts` list, gives "[No response from Gemini]" |
| KnowYourself.RetrievalOrder | know_yourself.js:127-139 | A retrieving primary pass saves input, reply and verdict with no tool message, answers the verdict, and calls OpenRouter, the search and OpenRouter with the passages in the system prompt |
| KnowYourself.DirectAnswer | know_yourself.js:127-139 | A reply without "RETRIEVE" is the answer, only input and reply are saved, and only one call is made |
| KnowYourself.FallbackFromCurrentHistory | know_yourself.js:141-147 | Any failure on the OpenRouter path, verdict included, leads to one Gemini request over the history as the failed pass left it; no Gemini call when that path completes |
| KnowYourself.PrimaryNeverGemini | know_yourself.js:109-139 | The OpenRouter pass only calls OpenRouter and the search |
| KnowYourself.GeminiRequestParts | know_yourself.js:38-48 | The system prompt and assistant messages are labelled "Assistant" and user messages "User", one part per message in order |
| ConfigureLlm.KeyIndex | configure_llm.js:24-27 | The index of the first entry with the key, or none exactly when the key is absent |
| ConfigureLlm.EnvMap.constructor | configure_llm.js:24 | `new Map(pairs)` holds `FromEntries(pairs)`, with unique keys |
| ConfigureLlm.EnvMap.Set | configure_llm.js:26-27 | `set` replaces the value in place when the key exists and appends otherwise, keeping keys unique |
| ConfigureLlm.SetEntrySpec | configure_llm.js:26-27 | After a set, existing keys keep their order, a new key is appended last, the key maps to the value and every other key is unchanged |
| ConfigureLlm.SetKeepsUnique | configure_llm.js:26-27 | A set keeps keys unique |
| ConfigureLlm.FromEntriesKeys | configure_llm.js:24 | Building a map keeps each key once, in order of first appearance |
| ConfigureLlm.FromEntriesUnique | configure_llm.js:24 | Entries with unique keys build the same map |
| ConfigureLlm.ConfigureLlmHandler | configure_llm.js:9-35 | The handler's outcome equals `Configure(req, envFile)` |
| ConfigureLlm.RejectsMissingFields | configure_llm.js:11-14 | The file is written iff both fields are non-empty strings; otherwise 400 with "apiKey and model are required"; a write answers "LLM configuration updated successfully." |
| ConfigureLlm.MergedKeys | configure_llm.js:23-27 | The merged map has the file's distinct keys in order, then OPENROUTER_API_KEY and MODEL_NAME if new; they map to the request's values and every other key keeps its file value |
| ConfigureLlm.BothKeysWritten | configure_llm.js:26-31 | Both "OPENROUTER_API_KEY=<apiKey>" and "MODEL_NAME=<model>" are output lines |
| ConfigureLlm.NonEmptySpec | configure_llm.js:23 | `filter(Boolean)` keeps exactly the non-empty lines, and keeps all lines when none is empty |
| ConfigureLlm.ParseLineSpec | configure_llm.js:24 | A line without "=" is a key with value `undefined`; otherwise the key is the text before the first "=" and the value the text up to the next "=" |
| ConfigureLlm.SerializeRoundTrip | configure_llm.js:23-33 | The written text ends in a newline, and parsing it back gives the same map when no key or value holds "=" or a newline |
| ConfigureLlm.SplitSerialized | configure_llm.js:23-33 | Splitting the written text at newlines and dropping empty pieces gives the rendered lines |
| ConfigureLlm.ParseRendered | configure_llm.js:24-30 | A rendered "key=value" line parses back to its entry when neither part holds "=" |
| JsLib.SplitOn | configure_llm.js:23 | `split` on a non-empty separator gives at least one piece |
| JsLib.JoinSplitOn | configure_llm.js:23-31 | Joining the pieces of a split with its separator gives back the string |
| JsLib.SplitOnJoin | relationship_advice.js:110 | Splitting a join on a one-character separator that no piece holds gives back the pieces |
| JsLib.SplitJoinDistinct | relationship_advice.js:109-110 | Joining and splitting the distinct elements gives them back |
| JsLib.SplitOnCount | relationship_advice.js:103-106 | A split has a second piece exactly when `includes` finds the separator |
| JsLib.ContainsFind | relationship_advice.js:103 | `includes` holds exactly when `indexOf` finds an occurrence |
| JsLib.Find | relationship_advice.js:106 | `indexOf` gives the first occurrence, or none when there is no occurrence |
| JsLib.TrimStart | ragPipeline.js:98 | Removes exactly the leading whitespace |
| JsLib.TrimEnd | ragPipeline.js:98 | Removes exactly the trailing whitespace |
| JsLib.Words | vectorStore.js:116 | `split(/\s+/)` gives at least one word |
| JsLib.WordsHaveNoSpace | vectorStore.js:116 | No word holds a whitespace character |
| JsLib.SplitBlankLines | ingestGithubRepo.js:185 | `split(/\n{2,}/)` gives at least one piece, the first starting where the text starts |
| JsLib.SplitBlankLinesNoBlankLine | ingestGithubRepo.js:185 | No piece holds two consecutive newlines |
| JsLib.ToLower | ingestGithubRepo.js:123 | Lower-casing keeps the length and maps each character |
| JsLib.BaseName | ingestGithubRepo.js:183 | The base name is the "/"-free tail of the path |
| JsLib.ExtName | ingestGithubRepo.js:123 | The extension is the base name's tail from its last "." (not its first character), or "" |
| JsLib.Stem | ingestGithubRepo.js:183 | The stem followed by the extension is the base name |
| JsLib.NatToString | ingestGithubRepo.js:190 | The decimal string of a number is non-empty and all digits |
| JsLib.DecimalRoundTrip | ingestGithubRepo.js:190 | Reading the digits back gives the number |
| JsLib.NatToStringInjective | ingestGithubRepo.js:190 | Different numbers have different decimal strings |
| JsLib.Distinct | ragPipeline.js:30-32 | `Array.from(new Set(xs))` holds every element of xs, nothing else, and no duplicate |
| JsLib.DistinctFirstAppearance | ragPipeline.js:30-32 | The distinct elements come in the order of their first appearance |
| JsLib.FilterSpec | configure_llm.js:23 | `filter` keeps exactly the accepted elements, in order, and keeps everything when all are accepted |

## Left out

- File and network I/O: reading and writing the index, metadata, position map, watermark, session files and `.env`, HTTP requests and the GitHub API. Their results are parameters, and the files' contents are values.
- Embedding, the FAISS nearest-neighbour search and text extraction (PDF, OCR, DOCX, HTML). These are foreign calls: embeddings and extracted text are function parameters, and a search receives the index positions the index returned.
- `save()` and its write failures, which are caught and only logged; logging in general.
- Concurrency: `ingestUploadedFile` does not await its `upsert` calls. The model issues them in page order and does not model their interleaving.
- Ingestion.IngestUploadedFile: because `vs.upsert` (ingestGithubRepo.js:191) is not awaited, a page whose embedding fails is an unhandled promise rejection after the success message has gone out; the model reads it as a call that leaves that page id's entry as it was (`PageOpsEffect`). A throwing text extractor (ingestGithubRepo.js:164-176) rejects the whole call, which the upload route answers with a 500; `extract` is a total function in the model, so that path is not modelled.
- The 500 path of `configureLlm` for a failed `.env` write (configure_llm.js:36-38).
- Session-file failures in `handleKnowYourself`: a failed history read (know_yourself.js:106) or a failed save in the Gemini fallback (know_yourself.js:166) ends in the 500 at know_yourself.js:170-173. A failed save after the OpenRouter reply (know_yourself.js:138) lies inside the primary try, so it would fall into the Gemini fallback, which appends a second assistant reply and saves again. The model treats every session read and write as unable to fail, so none of these paths is modelled.
- Session-file failures in `handleRelationshipAdvice`: a failed history read (relationship_advice.js:52) or save (relationship_advice.js:73, 183) ends in the 500 at relationship_advice.js:186-189. The model treats them as unable to fail.
- JsLib.ToLower: lower-cases ASCII letters only; JavaScript's `toLowerCase` also maps non-ASCII letters (e.g. "É" to "é"), so an extension written with them may be refused by the model and accepted by the source.
- JsLib.ExtName: assumes the path has no trailing "/"; Node's `path.extname` ignores trailing separators (`extname("a.md/")` is ".md"), the model gives "".
- JsLib.BaseName: assumes no trailing "/" as well; Node's `path.basename("dir/a.md/")` is "a.md", the model gives "".
- JsLib.Stem: inherits the trailing "/" gap of `BaseName` and `ExtName`.
- Strings are sequences of Unicode code points; JavaScript strings are UTF-16 code units, so lengths and indices (the chunk windows, `substring`, `slice`) differ for characters outside the Basic Multilingual Plane.
- JavaScript prototype keys: `docId in this.metadata` and `this.metadata[docId]` also see inherited names such as `toString`. The metadata is a plain map in the model.
- ConfigureLlm.Configure: `apiKey` and `model` are modelled as absent or as strings; a non-string truthy value, which JavaScript would stringify, is not modelled.
- The persona and system prompt texts: the prompt archive's constants are parameters (`Prompts`, `persona`), not their literal text.
- The environment variables `MODEL_NAME` and the API keys that requests carry: requests record the messages they send, not headers or the model name.
- `loadRepoUrl` and the `.catch` of `loadLastCommit`: a failed watermark read is the empty watermark `{}`, passed in as a parameter.
