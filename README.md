# A verified model of the retrieval chatbot's core

This project models the self-contained logic of a command-line retrieval-augmented chatbot, and
proves properties of that model. The chatbot answers questions from a knowledge base of PDF and
image documents, accepts temporary uploads, books meetings, and keeps a short conversation memory.
The model covers:

- **Chunker** (`chunker.dfy`): the overlapping-window text splitter (500 characters, overlap 100).
  It is a `while` loop proved equal to a closed form. The model proves the count of chunks, the
  window of each chunk, the carried overlap and a reconstruction round trip.
- **Corpus** (`corpus.dfy`): documents, chunk metadata and the vector index bundle.
  - The embedding service and `create_faiss_index` are abstract.
  - The model defines one chunk/metadata layout. The three index builders (sync, upload,
    startup) are each proved to produce it.
- **PdfLoader** (`pdf_loader.dfy`): the PDF directory loader. It joins page texts, trims them and
  drops blank documents.
- **Sync** (`sync.dfy`): change detection against the saved manifest of path -> fingerprint.
  - `ManifestStore` is a class whose field is the persisted manifest: a JSON object, or some
    other JSON value, on which the change test raises.
  - The model proves that the manifest is saved before the rebuild, and that a second sync finds
    nothing to do.
- **UploadManager** (`upload_manager.dfy`): the upload sandbox. This covers filtering and copying,
  dispatch on the file extension, and the temporary index with its per-chunk metadata.
- **Actions** (`actions.dfy`): meeting booking into a JSON list with a five-minute duplicate window.
  `MeetingStore` is a class whose field is the meetings file.
- **Prompt** (`prompt.dfy`): prompt assembly. It shows the last five turns, numbered from 1, the
  profile lines, and the sections in a fixed order. The instruction block is a parameter.
- **Session** (`session.dfy`): the interactive loop of `app/main.py`.
  - `ChatSession` is a class holding the history (capped at ten turns), the voice switch, the
    temporary index slot and the one-way meeting flag.
  - Its `Step` method handles one line of input.
  - The startup index assembly is also in this file.
- **Text** and **Wrappers**: Python's string and path built-ins on `seq<char>` (`strip`, `lower`,
  `endswith`, `os.path.basename`, `os.path.join`, `sorted`, `split`, `join`), and the `Option` and
  `Result` types.

The outside world enters as parameters:

- the file system (directory listings as `Option<seq<string>>`, `isfile`, whether a copy succeeds);
- PyPDF2 (page texts of a path, or `None` when reading raises);
- the vision call and the embedding call (`Option` results);
- the MD5 fingerprint;
- the clock (integer seconds);
- speech recognition, the language model's answer and its tool calls.

Python exceptions that escape a function are the `Failure` case of a `Result`. Exceptions that the
code catches are modelled by the value the code falls back to.

## Model

| member | source | states |
|---|---|---|
| Text.Lower | app/rag/sync.py:19 | ASCII lowering keeps the length and lowers each character on its own. |
| Text.TrimStart | app/rag/pdf_loader.py:41-43 | The leading-whitespace cut is a suffix of the text, and what it drops is all whitespace. |
| Text.Strip | app/rag/pdf_loader.py:41-43 | `str.strip()` is a prefix of the text after its leading whitespace, and what it drops from the end is all whitespace. It is empty exactly when the text is all whitespace. Otherwise it neither starts nor ends with whitespace. |
| Text.StripIdempotent | app/rag/pdf_loader.py:43 | Stripping a stripped text changes nothing. |
| Text.Prefix | app/rag/sync.py:88 | `c[:100]` is a prefix of `c` of length `min(100, len(c))`. |
| Text.Basename | app/rag/upload_manager.py:58 | The base name contains no '/', is a suffix of the path, and is preceded by '/' when shorter than the path. |
| Text.BasenameOfJoin | app/rag/upload_manager.py:58 | For a name without '/', `basename(join(dir, name))` is that name. |
| Text.SplitJoinRoundTrip | app/rag/prompt.py:17 | Splitting a `"\n".join` on "\n" gives the parts back when no part contains a newline. |
| Text.SortStrings | app/rag/sync.py:27 | `sorted` returns a sorted permutation of its input. |
| Chunker.PySlice | app/rag/chunker.py:29 | A Python slice is never longer than the string. |
| Chunker.ChunkText | app/rag/chunker.py:2-41 | The cursor loop returns exactly the closed form: chunk `i` is `text[i*step : i*step+size]` with `step = size - overlap`. Empty text gives no chunks. |
| Chunker.CursorInRange | app/rag/chunker.py:21-38 | Iteration `i` runs exactly when `i*step` is below the text length. |
| Chunker.ChunkCountIsCeiling | app/rag/chunker.py:21-38 | The number of chunks is ⌈len/step⌉. There is exactly one chunk iff `0 < len <= size - overlap`. |
| Chunker.ChunkWindow | app/rag/chunker.py:25-29 | Each chunk is the in-range window `text[i*step : min(i*step+size, len)]` and has length between 1 and `size`. |
| Chunker.OverlapCarried | app/rag/chunker.py:34-38 | After a full-length chunk, the next chunk starts with its last `overlap` characters. |
| Chunker.WindowShift | app/rag/chunker.py:25-38 | Window `i+1` of a text is window `i` of the text without its first `step` characters. |
| Chunker.ChunksShift | app/rag/chunker.py:21-38 | The chunks are the first window followed by the chunks of the text after `step` characters. |
| Chunker.ChunksRoundTrip | app/rag/chunker.py:21-38 | Concatenating the first `size - overlap` characters of every chunk rebuilds the text. |
| Chunker.CursorStalls | app/rag/chunker.py:21-38 | With `size <= overlap` the cursor stays below the length of a non-empty text forever. |
| Chunker.ChunkExample | app/rag/chunker.py:17-38 | `chunk_text("ABCDEFGHIJ", 4, 2)` is `["ABCD","CDEF","EFGH","GHIJ","IJ"]`. |
| Chunker.ShortTextGivesTwoChunks | app/rag/chunker.py:2-38 | With the defaults, a 450-character text gives two chunks: the whole text and its last 50 characters. |
| Corpus.EmbedTexts | app/rag/embeddings.py:34-58 | At most one vector per text. When every call succeeds, vector `i` is the embedding of text `i`. |
| Corpus.EmbeddedPositions | app/rag/embeddings.py:38-55 | The positions whose embedding call succeeds: increasing, in range, and every successful position is listed. |
| Corpus.EmbedTextsAligned | app/rag/embeddings.py:34-58 | The returned vectors are the values of the successful calls, in text order: vector `k` embeds the text at the `k`-th successful position. |
| Corpus.CreateIndex | app/rag/vector_store.py:20-45 | Succeeds iff there is at least one vector and all have one dimension. Then it bundles vectors, texts and metadata unchanged. No vectors raises `ValueError`. |
| Corpus.TagAll | app/rag/sync.py:83-89 | One metadata entry per chunk of a document. |
| Corpus.ParallelLength | app/rag/sync.py:74-89 | The chunk list and the metadata list have equal length. |
| Corpus.AssembleAppend | app/rag/sync.py:78-89 | The chunks and metadata of `a + b` are those of `a` followed by those of `b`. |
| Corpus.Provenance | app/rag/sync.py:78-89 | Chunk `k` of document `j` is at position (chunks before `j`) + `k`. Its metadata there is document `j`'s tag for it. |
| Corpus.MetadataDescribesChunk | app/rag/sync.py:83-89 | Every metadata entry is the tag, for its chunk, of a document in the list. |
| Corpus.NoChunksIffEmpty | app/rag/chunker.py:21-38 | A document yields no chunk exactly when its text is empty. |
| Corpus.NoChunksIffAllEmpty | app/rag/upload_manager.py:134-138 | There are no chunks exactly when every document's text is empty. |
| PdfLoader.JoinPages | app/rag/pdf_loader.py:32-37 | The page loop concatenates the page texts without a separator. A missing page text counts as "". |
| PdfLoader.BlankPages | app/rag/pdf_loader.py:35-41 | The joined text is blank iff every page text is blank. |
| PdfLoader.LoadAllPdfsText | app/rag/pdf_loader.py:5-47 | A missing folder gives `[]`. Otherwise the `.pdf` entries are processed in listing order. An unreadable PDF raises. |
| PdfLoader.PdfEmittedIff | app/rag/pdf_loader.py:41-45 | A PDF yields at most one document. It yields one exactly when some page has a non-whitespace character. |
| PdfLoader.LoadedPdfsWellFormed | app/rag/pdf_loader.py:23-45 | Every document comes from a `.pdf` entry and is named by the bare entry. Its text is non-empty and already stripped. |
| Sync.ListedNamesMembership | app/rag/sync.py:17-26 | A path is gathered from a folder iff it joins the folder with an accepted entry. |
| Sync.ListedBasenames | app/rag/sync.py:17-26 | Every gathered path's base name is an accepted entry of an existing folder: `.pdf` for the PDF folder, an image suffix for the image folder. |
| Sync.AppendListed | app/rag/sync.py:18-20 | The per-folder loop appends exactly the joined accepted entries, in listing order. |
| Sync.GatherFiles | app/rag/sync.py:11-27 | The result is sorted and is a permutation of the accepted paths of both folders. A missing folder contributes nothing. |
| Sync.FingerprintFiles | app/rag/sync.py:47-53 | The current map has the gathered paths as keys, each mapped to its fingerprint or `None` when hashing raised. |
| Sync.NeedsRebuild | app/rag/sync.py:57-62 | The change test (keys differ, or some current key's fingerprint differs) holds iff the manifest differs from the current map. |
| Sync.AssembleSyncChunks | app/rag/sync.py:74-89 | The nested loops produce exactly the shared layout with `{source, text_preview}` metadata. |
| Sync.ManifestStore.SyncAndRebuild | app/rag/sync.py:38-98 | A manifest that is not a JSON object raises `AttributeError` and is left as it is. Unchanged: returns `False` and the manifest stays. Changed: the manifest becomes the current map before extraction, and the result is `True` or the loader or index exception. The index is dropped. |
| Sync.ManifestStore.SyncTwice | app/rag/sync.py:57-69 | From a JSON-object manifest, a second sync over the same files returns `False`, whatever the first returned. From any other JSON value, both syncs raise `AttributeError`. |
| UploadManager.SupportedIsPdfOrImage | app/rag/upload_manager.py:16-17 | The supported suffixes are exactly `.pdf` and the four image suffixes. |
| UploadManager.SupportedBasename | app/rag/upload_manager.py:52-58 | A supported source path still has a supported base name. |
| UploadManager.SaveUploadedFiles | app/rag/upload_manager.py:31-64 | The loop returns, in input order, `join(tmp, basename(src))` for the sources that exist, have a supported suffix and copy. |
| UploadManager.SavedMembership | app/rag/upload_manager.py:45-64 | A path is returned iff some kept source has it as its sandbox copy. |
| UploadManager.SavedFilesAreIndexable | app/rag/upload_manager.py:52-60 | Every saved copy sits directly in the sandbox under a supported name. |
| UploadManager.AccumulatePages | app/rag/upload_manager.py:79-83 | The page loop appends each non-empty page text followed by "\n". |
| UploadManager.UploadPagesBlank | app/rag/upload_manager.py:79-85 | The accumulated text is blank iff every page is blank or missing. |
| UploadManager.LoadTextFromFile | app/rag/upload_manager.py:66-107 | A PDF gives the stripped page text, or "" when reading raises. An image gives the vision text, or "". Any other name raises. |
| UploadManager.LoadedFileDispatch | app/rag/upload_manager.py:72-107 | Loading succeeds iff the base name is supported, else `ValueError` with the base name. The `source` is the base name and the `type` is `"upload"`. |
| UploadManager.TrimmedUploadText | app/rag/upload_manager.py:76-91 | An uploaded PDF's text is already stripped. It is empty iff every page is blank or missing. |
| UploadManager.SandboxFailurePersists | app/rag/upload_manager.py:119-123 | Once a loader raises in the scan, the scan's result is that exception. |
| UploadManager.SandboxDocsWellFormed | app/rag/upload_manager.py:119-123 | The scan of '/'-free entries cannot raise. Every document is an upload named by a supported entry. |
| UploadManager.SandboxDocsCount | app/rag/upload_manager.py:119-127 | At most one document per entry. None exactly when no entry is a supported file. |
| UploadManager.AssembleUploadChunks | app/rag/upload_manager.py:130-147 | Skipping empty documents gives exactly the shared layout with `{source, type, updated_at, text_preview}` metadata. |
| UploadManager.BuildTempIndex | app/rag/upload_manager.py:109-161 | No directory or no document gives `None`. Otherwise the result is the index over all chunks with one shared timestamp, or the exception raised. |
| UploadManager.AllEmptyRaises | app/rag/upload_manager.py:151-158 | Documents found but all empty: index creation raises `ValueError`. |
| UploadManager.UploadMetadataFields | app/rag/upload_manager.py:141-147 | Every chunk's metadata has a document's source and type, the shared timestamp and the chunk's first 100 characters. |
| Actions.ScanBooksIff | app/rag/actions.py:42-48 | The scan lets the booking through iff every stored entry is a record that is either unrelated or matched at least five minutes ago. |
| Actions.ScanDuplicateIff | app/rag/actions.py:42-48 | The scan reports a duplicate iff a recent email or phone match comes before any entry that raises. |
| Actions.BookedEntryBlocksRepeat | app/rag/actions.py:46-59 | Once a booking is appended, the same email or phone within five minutes is reported as a duplicate. |
| Actions.Schedule | app/rag/actions.py:9-69 | One call's reply is one of the three messages, and the file changes only with the booking reply. |
| Actions.MeetingStore.ScheduleMeeting | app/rag/actions.py:9-69 | Booking: "SUCCESS" and exactly one new record after the kept ones. Non-list or undecodable content counts as empty. Duplicate: "ALREADY_EXISTS" and the file unchanged. An exception: the fixed "ERROR" text and the file unchanged. Reply and new file are `Actions.Schedule` of the old file. |
| Actions.MeetingStore.BookTwice | app/rag/actions.py:42-65 | Two bookings with the same details within five minutes: the first books, the second reports the duplicate, and the file keeps one new record. |
| Actions.ReplyPrefixes | app/rag/actions.py:48-69 | Every reply starts with exactly one of SUCCESS, ALREADY_EXISTS and ERROR. |
| Prompt.Recent | app/rag/prompt.py:10 | `history[-5:]` is the suffix of length `min(5, len)`. |
| Prompt.FormatHistory | app/rag/prompt.py:8-13 | The loop renders the history text: the default for an empty history, else the numbered blocks of the last five turns. |
| Prompt.BlocksPrefix | app/rag/prompt.py:10-11 | The blocks of a prefix of the turns are a prefix of the blocks. |
| Prompt.HistoryTurnOrder | app/rag/prompt.py:10-11 | Shown turn `k` is the original turn at that position, rendered as block `k+1` after the earlier ones. |
| Prompt.LatestTurnLast | app/rag/prompt.py:10-11 | The history text ends with the latest turn, numbered `min(5, len)`. |
| Prompt.HistoryIgnoresOlderTurns | app/rag/prompt.py:10 | Turns older than the last five do not affect the prompt. |
| Prompt.ProfileLines | app/rag/prompt.py:17 | One line per profile entry. |
| Prompt.ProfileRoundTrip | app/rag/prompt.py:16-19 | Splitting the profile text on newlines gives one `- k: v` line per entry, in order. |
| Prompt.ProfileNotDefault | app/rag/prompt.py:16-19 | A non-empty profile starts with "- " and never renders as the default text. |
| Prompt.JoinStartsWithFirst | app/rag/prompt.py:17 | A join starts with its first part. |
| Prompt.SectionsInOrder | app/rag/prompt.py:56-73 | The profile, history and context appear in that order, each right after its header, at the stated offsets. |
| Prompt.Assemble | app/rag/prompt.py:56-73 | The prompt starts with the rules and the session-state header, and ends with the question and the assistant cue. |
| Prompt.FlagRoundTrip | app/rag/prompt.py:59-60 | The meeting flag is rendered as True/False right after its header and reads back unchanged. |
| Prompt.BuildPrompt | app/rag/prompt.py:1-73 | `build_prompt` is the assembly of the rules, flag, profile text, history text, context and question. |
| Session.AssembleStartupChunks | app/main.py:85-93 | The startup loops, with `extend([meta] * n)`, produce exactly the shared layout with `{source, updated_at}` metadata. |
| Session.StartupIndex | app/main.py:82-97 | No documents gives no index. Otherwise the index is the one over all chunks stamped with the start time, or the exception raised. |
| Session.StartupMetadata | app/main.py:86-93 | The chunk at position `p` is chunk `k` of document `j`, placed after the chunks of the earlier documents, and its metadata is that document's source and the start time. |
| Session.ClassifyIgnoresCase | app/main.py:128-148 | Apart from the `/upload` prefix, the command depends only on the lower-cased input. |
| Session.ClassifyWords | app/main.py:128-148 | For every input: exit, `/voice`, `/history` and `/clear` are recognised exactly when the lower-cased input is that word, and `/upload` exactly when it is none of them and the input as typed starts with `/upload`. |
| Session.ClassifyExamples | app/main.py:128-138 | `EXIT`, `/Voice` and `/HISTORY` are the exit, voice and history commands. |
| Session.ClassifyExactWord | app/main.py:142-148 | A command word followed by more text (`/clear now`) is a chat message. |
| Session.ClassifyUploadPrefix | app/main.py:148 | `/upload a.pdf` is an upload; `/UPLOAD a.pdf` is a chat message. |
| Session.Remember | app/main.py:191-193 | The history after a turn holds `min(len+1, 10)` turns. They are the most recent ones in order, ending with the new turn. |
| Session.RememberedTurnShownNext | app/main.py:191-193 | The next prompt's history ends with the turn just answered. |
| Session.AsWrittenFlagsDuplicate | app/main.py:178 | As written, the "SUCCESS" substring test accepts a duplicate rejection for a person named "SUCCESS". |
| Session.ReportsSuccessIffBooked | app/main.py:178 | The corrected test accepts a booking reply and rejects the duplicate and error replies. |
| Session.Replay | app/main.py:175-177 | One reply per tool call. |
| Session.ReplayPrefix | app/main.py:175-177 | The calls up to `i + 1` give the replies up to `i` plus call `i`'s reply on the file those left. |
| Session.ScheduleCallHonest | app/rag/actions.py:9-69 | Each `schedule_meeting` call answers with one of its three replies and rewrites the file only with a booking reply. |
| Session.ReplayReplies | app/main.py:175-177 | Reply `i` of a pass is one of the three answers for call `i`. |
| Session.ReplayWritesOnBooking | app/main.py:175-178 | A pass changes the meetings file only when some reply reports a booking. |
| Session.ChatSession.constructor | app/main.py:56-59 | A session starts with empty history, voice output off, no temporary index and the flag down. |
| Session.ChatSession.RunTools | app/main.py:173-179 | One `schedule_meeting` per tool call, in order, each on the meetings file the earlier calls left: replies and new file are `Session.Bookings` of the old file. Each reply is one of the three answers for its call. The flag rises exactly when it was up or a reply reports a booking by the corrected test (`Session.ReportsSuccess`). |
| Session.ChatSession.Answer | app/main.py:158-193 | The prompt shows the state before the turn. The replies and the meetings file are those of the tool calls run in order (`Session.Bookings`). The reply is spoken in voice mode or with voice output on. The turn is remembered within the cap. |
| Session.ChatSession.Dispatch | app/main.py:128-193 | Per command: which outcome it gives and which fields it changes; every other field keeps its value. A chat message leaves the meetings file as its tool calls, run in order, leave it. |
| Session.ChatSession.Step | app/main.py:113-193 | One pass: a short transcript is skipped; `/voice` flips only the voice switch; `/clear` empties and `/upload` replaces the temporary index (kept when the build raises); only a chat message changes history, meetings and flag, and the meetings file becomes what its tool calls, run in order, leave; the flag never falls. |

## Left out

- Embedding, FAISS and retrieval (`embeddings.py`, `vector_store.py`, `retriever.py`) are foreign calls. Embedding is an abstract function whose call may fail for a text. The index is a plain bundle. The retrieved context is a parameter of the chat step.
- The image loaders (`image_loader.py`, `image_reader.py`) are vision-model calls. Their results are parameters.
- The voice package is left out: microphone, Whisper transcription and speech output. The transcript is a parameter, and speaking is reported as a flag of the outcome.
- The chat completion calls and the tool-call JSON decoding (app/main.py:169-183) are left out. The model's tool calls and final answer are parameters. Malformed tool arguments, which raise out of the loop, are not modelled.
- `show_history` is printing; the step returns the history it would show.
- `ensure_tmp_dir` and `clear_tmp_dir` are file-system effects. The sandbox listing is a parameter.
- Session.ChatSession.Step: the `/upload` argument parsing with `shlex.split` and the calls into the upload sandbox are not repeated. The step takes their combined outcome (new index or exception) as a parameter. The sandbox is modelled in `UploadManager`.
- MD5 fingerprints, manifest JSON loading and saving, and file modification times (`utils.py`) are not modelled. The fingerprint is an uninterpreted parameter. The manifest field is the value `load_manifest` returns: a missing or undecodable file is the empty object. Fingerprint values other than strings and `null` (a number, say) are not represented.
- Actions.MeetingStore.ScheduleMeeting: JSON parsing, `strptime`/`strftime` and partial writes are not modelled. Stored entries come already decoded. A timestamp that does not parse counts as missing, and a failed open for writing is the `canWrite` parameter.
- Clocks are integer-second parameters. `datetime.now()` has a fractional part, but stored timestamps are whole seconds, so the five-minute comparison is the same.
- Text.Lower lowers ASCII letters only. No command word or file suffix contains a letter whose non-ASCII upper-case form lowers to ASCII, so every decision in the model is the same.
- The instruction block of `build_prompt` is a parameter of `Prompt.Assemble`; its fixed text is not reproduced.
- Chunker.ChunkText requires `size > overlap` for non-empty text, because otherwise the loop never ends (see Chunker.CursorStalls).

- Session.ChatSession.RunTools: raises the meeting flag with the corrected prefix test `Session.ReportsSuccess` from the Findings table, not the substring test of app/main.py:178 (`Session.ReportsSuccessAsWritten`). A duplicate reply for a name containing "SUCCESS" therefore does not raise the flag here.
- Session.ChatSession.Answer: runs the tool calls through `Session.ChatSession.RunTools`, so its flag uses the corrected test too.
- Session.ChatSession.Dispatch: a chat message goes through `Session.ChatSession.Answer`, so its flag uses the corrected test too.
- Session.ChatSession.RunTools: all tool calls of a pass share one clock reading `now` and one `canWrite`, whereas each `schedule_meeting` call reads `datetime.now()` and opens the file itself. Calls within one pass are seconds apart, so only a pass that straddles the five-minute window or a write failure that comes and goes would differ.
- Session.ChatSession.Step: dispatches through `Session.ChatSession.Dispatch`, so its flag uses the corrected test too.

## Findings

| source | as written | input that shows it | evidently intended | confidence | as-written member | corrected member |
|---|---|---|---|---|---|---|
| app/main.py:178 | The meeting flag is set when the tool reply contains "SUCCESS" anywhere. | A duplicate booking for a person named "SUCCESS" replies "ALREADY_EXISTS: A meeting for SUCCESS is already recorded.", which contains the word. | Set the flag only for a booking reply, which starts with "SUCCESS". | medium, not executed | Session.AsWrittenFlagsDuplicate | Session.ReportsSuccessIffBooked |
