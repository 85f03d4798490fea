# SP-Assistant core, modelled in Dafny

SP-Assistant answers questions about the building code SP 60.13330.2020 (heating,
ventilation and air conditioning). It has two parts:

- An administrator uploads the code as text. The `process-pdf` edge function
  splits the text into chunks, embeds each chunk and stores the rows in the
  `document_chunks` table.
- The `chat` edge function embeds the user's last question and searches that table
  for similar chunks. It prepends the matches, with a fixed preamble, as a system
  message to the conversation, and relays the completion stream.

Around these two functions sit small rules in the web client and in a script:
- the document list's grouping of chunk rows, and its delete dialog;
- the upload form's file and name checks;
- the registration form's password checks;
- the chat box's send rule;
- the profile page's initials;
- the authentication context's administrator flag;
- the check script's reading of the `Content-Range` total.

The model is a set of pure functions on immutable datatypes, one module per source
component. Each operation is paired with a property that characterises it:
- a reference definition, such as the count, latest timestamp and first-seen
  order of the document list;
- an inverse, such as the decimal rendering that the `Content-Range` parser reads
  back;
- or an invariant, such as the paragraph grouping that the chunker's string fold
  is proved to follow.

Everything outside the program is a parameter of the operation that uses it:
- the embedding providers;
- the database's insert and delete results;
- the similarity search;
- the completion endpoint;
- the authentication service;
- the administrator credentials.

Supporting modules:
- `Wrappers` holds `Option` and `Result`.
- `JsString` holds the JavaScript string built-ins the code relies on: `trim`,
  `split`, `indexOf`, `join`, `replace` with a string pattern, and `endsWith`.
- `Decimal` holds digit strings and their values.
- `ChunkStore` holds the `document_chunks` table as a sequence of rows.

## Model

| member | source | states |
|---|---|---|
| `Chunker.ChunkText` | supabase/functions/process-pdf/index.ts:11-30 | every chunk returned is longer than 50 characters |
| `Chunker.ChunksTrimmedAndLong` | supabase/functions/process-pdf/index.ts:18-29 | every chunk is already trimmed (trimming it again changes nothing) and is strictly longer than 50 characters, so a 50-character chunk is dropped |
| `Chunker.ChunkSizeBound` | supabase/functions/process-pdf/index.ts:16-22 | every chunk is either one trimmed input paragraph, of any length, or at most `maxChunkSize + 2` characters long, because the size test leaves out the separator |
| `Chunker.ChunkMayExceedLimitByTwo` | supabase/functions/process-pdf/index.ts:17-21 | the overshoot is real: two 50-character paragraphs become one 102-character chunk at the default limit of 100 |
| `Chunker.TwoParagraphsOneChunk` | supabase/functions/process-pdf/index.ts:13-29 | two paragraphs that contain no blank line of their own, single line breaks allowed, share one chunk when their lengths add up to at most the limit, with the blank line kept between them |
| `Chunker.SingleParagraphIsOneChunk` | supabase/functions/process-pdf/index.ts:13-29 | a trimmed text longer than 50 characters and without a blank line is returned whole as one chunk, whatever the limit |
| `Chunker.PackMatchesGroups` | supabase/functions/process-pdf/index.ts:14-27 | `chunkText`'s loop pushes exactly the trimmed buffers of an independent grouping of the paragraphs, in order |
| `Chunker.GroupsPartitionParagraphs` | supabase/functions/process-pdf/index.ts:13-27 | the groups, concatenated in order, are the input paragraphs, except for trailing empty ones; every group is non-empty and has a non-empty buffer |
| `Chunker.RenderIsJoin` | supabase/functions/process-pdf/index.ts:19-21 | a group's buffer is its paragraphs joined by blank lines, leading empty paragraphs dropped, so no paragraph is cut |
| `Chunker.ParagraphsNeverCut` | supabase/functions/process-pdf/index.ts:13-27 | the pushed chunks are the trimmed buffers of the groups; each buffer joins whole paragraphs; and the groups keep the input order |
| `Chunker.ChunksArePassages` | supabase/functions/process-pdf/index.ts:11-30 | every chunk is a contiguous passage of the input text |
| `Chunker.ShortTextHasNoChunks` | supabase/functions/process-pdf/index.ts:11-30 | empty text, and any text of at most 50 characters, yields no chunks |
| `Ingestion.EmbedBatch` | supabase/functions/process-pdf/index.ts:105-114 | a batch's embeddings succeed exactly when every chunk's embedding succeeds, and come back in batch order; a failure carries the error of one of the batch's chunks |
| `Ingestion.RunBatches` | supabase/functions/process-pdf/index.ts:96-144 | the batch loop inserts the rows of chunks `start`, `start + 1`, … in order, each with `chunk_index` equal to its position and its own embedding, and every batch it inserted was embedded and inserted without error. It stops at the first batch that fails, at a multiple of 5, and reports that batch's error |
| `Ingestion.Handle` | supabase/functions/process-pdf/index.ts:61-163 | a missing or empty `pdfText` or `documentName` fails with status 500 before anything is deleted or inserted; so does a missing Jina key; success reports the number of chunks and the document name; every failure has status 500 |
| `Ingestion.InsertsRowsInChunkOrder` | supabase/functions/process-pdf/index.ts:80-126 | after validation, the handler only appends to the table left by the delete; the appended rows belong to the first chunks, in order, with `chunk_index` 0, 1, 2, … |
| `Ingestion.SuccessReplacesDocument` | supabase/functions/process-pdf/index.ts:80-153 | after a successful run whose delete succeeded, the document's rows are exactly the new chunks, one each, with indexes 0..n-1; the reported count equals the rows inserted; other documents keep their rows |
| `Ingestion.DeleteFailureIsIgnored` | supabase/functions/process-pdf/index.ts:82-89 | a failed delete is only logged: the old rows stay, the new rows follow them, and the run can still succeed |
| `Ingestion.FailureKeepsEarlierBatches` | supabase/functions/process-pdf/index.ts:99-135 | when batch b is the first whose embedding or insert fails, the handler answers 500 with that batch's error, and exactly the rows of chunks 0..b-1 follow the rows left by the delete; the failing batch and all later ones are not inserted |
| `Ingestion.ProcessedIffEveryBatchSucceeds` | supabase/functions/process-pdf/index.ts:99-153 | after validation, the handler reports success exactly when every batch of 5 chunks is embedded and inserted without error |
| `Ingestion.NoChunksStillDeletes` | supabase/functions/process-pdf/index.ts:80-153 | text that yields no chunks still deletes the document's old rows and reports zero chunks processed |
| `Ingestion.ShortTextOnlyDeletes` | supabase/functions/process-pdf/index.ts:80-153 | the same holds for every text of at most 50 characters |
| `Chat.LastUserMessage` | supabase/functions/chat/index.ts:57-57 | the result is absent exactly when no message has role `user`; otherwise it is the message at the last position with that role |
| `Chat.RenderContext` | supabase/functions/chat/index.ts:77-85 | the context is empty exactly when there are no results; otherwise it starts with the fixed header |
| `Chat.RenderContextSnoc` | supabase/functions/chat/index.ts:79-82 | one more result adds exactly one entry at the end, after a blank line, numbered one past the others |
| `Chat.RenderContextSingle` | supabase/functions/chat/index.ts:79-82 | a single result renders as the header followed by entry `[1]` with its text and relevance |
| `Chat.ContextContainsEveryHit` | supabase/functions/chat/index.ts:79-82 | every result's text appears in the context |
| `Chat.Retrieve` | supabase/functions/chat/index.ts:56-89 | with no user message nothing is embedded or searched; whenever the last user message's embedding succeeds, the search is issued with that embedding, threshold 0.7, count 5 and document `sp-60-13330-2020`; a failed embedding or search leaves the context empty; a non-empty context renders the search results |
| `Chat.SystemContent` | supabase/functions/chat/index.ts:92-97 | the system text is the fixed preamble followed by the context, and splits back into exactly those two parts |
| `Chat.Outbound` | supabase/functions/chat/index.ts:109-116 | the request carries one more message than the caller sent: the system message first, then the caller's messages unchanged and in order; streaming is on |
| `Chat.Relay` | supabase/functions/chat/index.ts:119-147 | an ok upstream response is relayed as an event stream; a non-ok one becomes its own status with the `OpenRouter API error` body and the upstream text; a thrown error becomes status 500 with its message; an error response carries details exactly when the upstream answered non-ok |
| `Chat.Handle` | supabase/functions/chat/index.ts:39-147 | a missing OpenRouter key, then a missing OpenAI key, answers 500 before anything is retrieved or sent; after the key checks, a `messages` field that is not an array answers 500 with the runtime's error text and nothing is retrieved or sent; otherwise the retrieval is the one for the caller's messages, the request sent is built from its context, and the response relays the upstream answer |
| `Chat.NoContextMeansPreamble` | supabase/functions/chat/index.ts:56-97 | without a user message, or when embedding or search fails, the system message is exactly the preamble |
| `Chat.GroundedAnswer` | supabase/functions/chat/index.ts:56-114 | when both keys are set and the search for the last user message's embedding returns results, the system message sent is the preamble followed by those results, every result's text appears in it, and the caller's messages follow unchanged |
| `DocumentsList.GroupRowsSummarises` | src/components/DocumentsList.tsx:45-64 | the grouping gives one entry per distinct document. Each entry's count is that document's number of rows, and the counts add up to the number of rows. Each entry's timestamp is the latest of that document's rows, the first one seen on a tie. Entries follow the order in which documents first appear |
| `DocumentsList.NewestFirstGivesFirstRow` | src/components/DocumentsList.tsx:38-54 | with rows ordered newest first, as the query asks, an entry's timestamp is that of its document's first row |
| `DocumentsList.LoadDocuments` | src/components/DocumentsList.tsx:35-73 | loading ends false either way; an error keeps the previous list; fetched rows replace it with their summary |
| `DocumentsList.OpenDeleteDialog` | src/components/DocumentsList.tsx:104-107 | the dialog opens with the chosen document selected, and the list is kept |
| `DocumentsList.HandleDelete` | src/components/DocumentsList.tsx:79-102 | success or failure, the dialog closes and nothing stays selected; the list reloads exactly when the delete succeeded, and shows as loading until the reload answers; a successful delete leaves that document no rows and every other document exactly its rows, in order and with duplicates |
| `DocumentsList.ConfirmDelete` | src/components/DocumentsList.tsx:185-198 | pressing confirm always closes the dialog; without a selected document nothing else changes and nothing is deleted; otherwise the selection is cleared and the list reloads exactly when the delete succeeded |
| `DocumentsList.CancelDelete` | src/components/DocumentsList.tsx:185-195 | cancelling or dismissing closes the dialog and keeps the selection, the list and the loading flag |
| `CheckDocument.FirstSlashDigit` | scripts/check-document.mjs:46-46 | the position found is the leftmost `/` followed by a digit, and its absence means there is none |
| `CheckDocument.DigitPrefix` | scripts/check-document.mjs:46-46 | the captured run is the longest run of digits at the start of the text |
| `CheckDocument.ParseTotal` | scripts/check-document.mjs:45-47 | the total is the value of the digit run after the first `/` followed by a digit, and 0 when there is none; it is never negative |
| `CheckDocument.ParseTotalRoundTrip` | scripts/check-document.mjs:45-47 | for a prefix without `/` and any n, reading `prefix/<n>` followed by a non-digit or nothing gives back n |
| `CheckDocument.ParseTotalExample` | scripts/check-document.mjs:45-47 | `0-24/142` reads as 142, and the document is reported loaded with 142 chunks |
| `CheckDocument.UnknownTotalIsZero` | scripts/check-document.mjs:46-54 | `0-24/*` reads as 0, and the document is reported not loaded |
| `CheckDocument.Check` | scripts/check-document.mjs:37-69 | a failed request reports the failure with its error message; no information is reported exactly when the header is missing; with a header, the document is not loaded exactly when the total is 0, and loaded with that total exactly when it is positive |
| `Uploader.DerivedName` | src/components/DocumentUploader.tsx:31-31 | for a name ending in `.txt`, the derived name is 4 characters shorter |
| `Uploader.DerivedNameCutsFirstOccurrence` | src/components/DocumentUploader.tsx:31-31 | when the first `.txt` in the name starts at position i, the derived name is the name with those 4 characters cut out and nothing else changed |
| `Uploader.HandleFileChange` | src/components/DocumentUploader.tsx:19-34 | choosing nothing changes nothing; a name not ending in the case-sensitive `.txt` is refused and nothing changes; otherwise the file is kept and the name field is the file name with its first `.txt` removed |
| `Uploader.DerivedNameIsStem` | src/components/DocumentUploader.tsx:31-31 | when the only `.txt` in the name is its extension, the derived name is the name without it |
| `Uploader.DerivedNameRemovesFirstOccurrence` | src/components/DocumentUploader.tsx:31-31 | the first `.txt` is removed, not the extension: `a.txt.b.txt` becomes `a.b.txt` |
| `Uploader.HandleUpload` | src/components/DocumentUploader.tsx:36-90 | no file or a blank name is refused with nothing changed; a file that cannot be read fails with its error message, or the default text when that is empty, before anything is sent; text under 100 characters fails before anything is sent; a sent request carries the text and the trimmed name. On success the form resets, the toast names the document as typed with the number of chunks processed, and the parent is told; on failure the form is kept with a non-empty message. Uploading ends false after every attempt |
| `Uploader.FailureText` | src/components/DocumentUploader.tsx:84-86 | the failure toast always has a description: the error's message when it is not empty, else the default text |
| `Uploader.UploadEnabledIffNotRefused` | src/components/DocumentUploader.tsx:141-141 | outside a running upload, the button is enabled exactly when an upload would not be refused for a missing file or name |
| `Uploader.LengthBoundary` | src/components/DocumentUploader.tsx:50-52 | a text of exactly 100 characters is sent, one of 99 is not |
| `Uploader.SentRequestIsValid` | src/components/DocumentUploader.tsx:58-64 | every request the form sends passes the ingestion function's input check |
| `Register.Validate` | src/pages/Register.tsx:23-35 | a password mismatch is reported first, then a password under 6 characters; validation passes exactly when the passwords match and have at least 6 characters |
| `Register.Submit` | src/pages/Register.tsx:20-53 | a rejected form calls nothing and changes nothing; `signUp(email, password, fullName)` is called exactly when validation passes, after which loading is false; success navigates to `/user-login`; failure shows the error or the default text |
| `Register.MismatchReportedFirst` | src/pages/Register.tsx:23-35 | when both checks fail, the mismatch is the error reported |
| `Register.PasswordLengthBoundary` | src/pages/Register.tsx:30-35 | a 6-character password passes, a 5-character one is rejected as too short |
| `ChatInput.Submit` | src/components/ChatInput.tsx:16-22 | at most one message is sent, exactly when the text is not blank and the box is enabled; it is sent untrimmed and the box is then cleared; otherwise nothing changes |
| `ChatInput.KeyDown` | src/components/ChatInput.tsx:24-29 | a key press sends a message exactly when it is Enter without Shift, the box is enabled and the text is not blank; the message is sent as typed and the box is cleared; otherwise nothing changes |
| `ChatInput.SendDisabledIffNothingSent` | src/components/ChatInput.tsx:16-59 | the send button is disabled exactly when pressing it would send nothing, which is when the box is disabled or holds only whitespace |
| `ChatInput.ShiftEnterNeverSends` | src/components/ChatInput.tsx:24-29 | Shift+Enter never sends |
| `Profile.GetInitials` | src/pages/Profile.tsx:22-29 | the initials are at most 2 characters, a prefix of the upper-cased first characters of the words, exactly 2 when there are that many, and all of them when there are fewer |
| `Profile.FirstCharsAreWordStarts` | src/pages/Profile.tsx:23-26 | the first characters of the space-separated words are exactly the characters that start a word, in order; empty words contribute nothing |
| `Profile.InitialsFromWordStarts` | src/pages/Profile.tsx:22-29 | the initials are the first two characters of the upper-cased word starts |
| `Profile.NoWordsNoInitials` | src/pages/Profile.tsx:22-29 | an empty name, or one made only of spaces, has no initials |
| `Profile.FullName` | src/pages/Profile.tsx:31-31 | the shown name is never empty: it is `full_name` when present and non-empty, else `Пользователь` |
| `Auth.Startup` | src/contexts/AuthContext.tsx:27-38 | at startup the administrator flag is on exactly when the persisted entry is `'true'`, and the user is the session's user |
| `Auth.LoginAdmin` | src/contexts/AuthContext.tsx:47-54 | succeeds exactly when both the username and the password match the configured ones, and then sets and persists the flag; a failed attempt changes nothing |
| `Auth.LoginUser` | src/contexts/AuthContext.tsx:56-72 | a successful sign-in sets the user; a failure returns its message and changes nothing; the administrator flag is untouched either way |
| `Auth.SignUp` | src/contexts/AuthContext.tsx:74-94 | registration never changes the user or the administrator flag, and reports success exactly when the service succeeded |
| `Auth.Logout` | src/contexts/AuthContext.tsx:96-110 | afterwards neither the flag nor a user is set, so `isAuthenticated` is false; the persisted entry is removed when the flag was set |
| `Auth.FlagAlwaysPersisted` | src/contexts/AuthContext.tsx:27-108 | from startup on, whatever sequence of logins, registrations and logouts follows, the administrator flag agrees with the persisted entry |
| `JsString.JoinSplit` | supabase/functions/process-pdf/index.ts:13-13 | joining the pieces of a split with the same separator gives back the text |
| `Decimal.ParseToDecimal` | scripts/check-document.mjs:47-47 | reading the decimal rendering of a number gives back the number |

## Left out

- The HTTP provider calls are parameters returning a value or an error message:
  Jina embeddings during ingestion, OpenAI embeddings for the question, and the
  OpenRouter completion.
- Supabase client calls (select, insert, delete, the `search_similar_chunks`
  function, the authentication service) are parameters too.
- No claim is made about the similarity search's threshold, ranking or result
  count, beyond the arguments it is called with. Its results are an arbitrary list.
- No claim is made that ingestion embeddings and question embeddings are
  compatible. The two sides use different embedding models.
- The streamed completion body is relayed opaquely. Its events are not parsed.
- The `processed_at` metadata of an inserted row is not modelled, because it
  reads the clock. The `length` metadata is the row's `contentLength`.
- The one-second pause between batches is not modelled. The parallel embedding
  calls within a batch are a sequential map; when several fail, the error of the
  lowest-indexed failing chunk is reported. Which rejection `Promise.all` reports
  first depends on timing.
- `Ingestion.Handle`: the insert error thrown by the client is an opaque error
  text, because whether the response carries its message or `Unknown error`
  depends on the client library.
- Lengths and indexes count Unicode code points. JavaScript counts UTF-16 code
  units, so the two differ only for characters outside the Basic Multilingual
  Plane.
- The relevance `(similarity * 100).toFixed(1)` is a string parameter of each
  search result, because floating-point formatting is not modelled.
- Each `created_at` is its text plus the instant `new Date` gives it. Invalid dates, which compare as NaN, are not modelled.
- In the document list, a null `data` counts as no rows.
- `parseInt` reads the digits as an unbounded integer. Precision loss beyond 2^53 is not modelled.
- The search error and an exception thrown while embedding or searching both
  leave the context empty. They are modelled as one failure path.
- A request body that is not JSON is not modelled. The handlers start from the
  parsed fields.
- A JSON `null` body is not modelled either. Both edge functions destructure it
  before any other check (supabase/functions/chat/index.ts:39 and
  supabase/functions/process-pdf/index.ts:61), which throws,
  and the outer handler answers 500 with the runtime's error text.
- Chat.Handle: the elements of an array `messages` are taken to be messages with a
  role and a text. A `null` element, on which the role lookup throws, is not
  modelled.
- `toUpperCase` is a parameter mapping each character to its upper-case string, because Unicode case mapping is not modelled.
- `signOut` is assumed to return. The `onAuthStateChange`
  subscription and the `loading` flag are not modelled.
- The hard-coded administrator credentials are a parameter rather than literals.
- Toasts are modelled, by their text and kind, only for the upload form (the
  refusals, the failures and the success toast with the typed name and chunk
  count) and for the registration form. Logging, navigation other than the
  registration redirect, and rendering are left out.
- The upload form's `Обработка документа` info toast before the request is not
  modelled. It changes no state.
- The document list's toasts are not modelled: the load error (`Ошибка загрузки`),
  the delete success naming the document, and the delete error.
  `DocumentsList.LoadDocuments` and `DocumentsList.HandleDelete` model their state
  changes only.
- The scripts other than the document check are left out: the fix checker, the
  fix applier and the two loaders. They only move files, environment settings and
  network data around. The rendering-only pages and components are left out too.
