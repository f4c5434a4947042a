# Aerospace course RAG pipeline: a verified Dafny model

This project models the core of a retrieval-augmented question-answering system over aerospace
course PDFs, and proves properties of that model. It covers three parts.

- **The PDF text chunker** (`PDFParser`).
  - `clean_text` normalises page text.
  - `chunk_text` packs sentences greedily into chunks and carries a bounded overlap of sentences
    from one chunk into the next.
  - `parse_pdf` keeps the chunks that are long enough and numbers them across pages.
  - `extract_text` falls back from one extractor to the other.
- **The engine** (`RAGEngine`).
  - `index_documents` parses, embeds and inserts course after course; a failing course is
    skipped.
  - `query` embeds the question, searches the store, and either returns the fixed "nothing
    found" answer or builds a numbered, attributed context and asks the model.
  - `get_statistics` reports the store's counts.
- **The Ollama client** (`OllamaClient`).
  - Configuration defaults, embeddings with a zero-vector fallback, and the chat messages of a
    completion.
  - Accumulation of a streamed reply, and the model-availability checks.

The external services are values, not code. The Ollama server is a `Server` datatype whose
functions give the reply to each request; `Failure` stands for a raised exception. The document
store is a `Database` object: its rows are a field the batch insert appends to. Whether a batch
insert fails is a fixed function of the batch alone. The similarity search and the per-course
summary are fixed functions of the stored rows and the request. A course's parsed
documents come from a function `parseCourse`. The pages of a PDF are what each extractor returned
for it, passed in as parameters.

The state the source changes in place stays imperative.
- `chunk_text`, `parse_pdf`, `index_documents`, the context loop of `query`, the embedding batch
  and the streaming accumulator are methods with loops.
- `check_models_available` is a method without a loop that appends to `missing` step by step.
  `check_model_available` is a pure function. Both read the listed names through the recursive
  function `ModelNames`, which stands for the list comprehension.
- Each method is proved equal to a pure specification function, or states its result outright, and
  the properties are lemmas about those functions.
- A ghost counter `completionCalls` on the client records completion requests. `Query` states
  that it grows by one exactly when the search found something.

Files:
- `wrappers.dfy`: `Option`, `Result` and Python truthiness of an optional string.
- `strings.dfy`: `str.isspace`, `str.strip`, `str.join`, and `str(int)` with its inverse.
- `text_cleaning.dfy`: `clean_text`.
- `chunking.dfy`: the sentence split and `chunk_text`.
- `pdf_parser.dfy`: `extract_text` and `parse_pdf`.
- `ollama.dfy`: `OllamaClient`.
- `rag.dfy`: the store and `RAGEngine`.

## Model

| member | source | states |
|---|---|---|
| Strings.Strip | aerospace_rag/core/pdf_parser.py:72 | `strip()` leaves no whitespace at either end. The result is empty exactly when the input is all whitespace, and every character of it comes from the input. |
| Strings.StripSlice | aerospace_rag/core/pdf_parser.py:72 | The result is the slice of the input between a leading and a trailing whitespace run. With `Strip`'s own contract this determines it. |
| Strings.StripUnchanged | aerospace_rag/core/pdf_parser.py:72 | Text with no whitespace at either end is returned unchanged. |
| Strings.StripIdempotent | aerospace_rag/core/pdf_parser.py:72 | Stripping twice is the same as stripping once. |
| Strings.ParseNatToString | aerospace_rag/core/rag_engine.py:150 | The decimal rendering used for the `[Source i]` numbers loses nothing: reading the digits back gives the number. |
| Strings.NatToStringInjective | aerospace_rag/core/rag_engine.py:150 | Distinct source numbers render as distinct digit strings. |
| TextCleaning.CollapseWhitespace | aerospace_rag/core/pdf_parser.py:64 | After `\s+` becomes `' '`, the only whitespace character is `' '` and no two whitespace characters are adjacent. The result is empty iff the input is, and it starts with whitespace iff the input does. |
| TextCleaning.CollapseKeepsNonSpace | aerospace_rag/core/pdf_parser.py:64 | Collapsing whitespace keeps every non-whitespace character, in order. |
| TextCleaning.RemovePageNumbers | aerospace_rag/core/pdf_parser.py:67 | Removing `Page \d+` never lengthens the text or adds a character: its multiset of characters only shrinks. |
| TextCleaning.CollapseRun | aerospace_rag/core/pdf_parser.py:64 | A maximal whitespace run, followed by a non-whitespace character or the end, becomes exactly one `' '`. |
| TextCleaning.CollapseWord | aerospace_rag/core/pdf_parser.py:64 | A non-whitespace character is copied unchanged. Together with `CollapseRun` this determines the substitution on every input. |
| TextCleaning.CollapseUnchanged | aerospace_rag/core/pdf_parser.py:64 | Text whose whitespace is already lone `' '` characters is returned unchanged. |
| TextCleaning.RemovePageNumbersMatch | aerospace_rag/core/pdf_parser.py:67 | `Page ` followed by a whole digit run is removed, and scanning resumes after the digits. |
| TextCleaning.RemovePageNumbersKeep | aerospace_rag/core/pdf_parser.py:67 | A character where no match starts is kept, and scanning goes on with the next one. |
| TextCleaning.RemovePageNumbersIdentity | aerospace_rag/core/pdf_parser.py:67 | Text with no `Page <digit>` occurrence comes back unchanged. |
| TextCleaning.KeepAllowed | aerospace_rag/core/pdf_parser.py:70 | A character survives the filter iff it occurs in the input and is a word character, whitespace or allow-listed punctuation. |
| TextCleaning.KeepAllowedOne | aerospace_rag/core/pdf_parser.py:70 | One character is kept iff it is allowed. |
| TextCleaning.KeepAllowedAppend | aerospace_rag/core/pdf_parser.py:70 | The filter distributes over concatenation, so it keeps the allowed characters in order and with their count. |
| TextCleaning.KeepAllowedUnchanged | aerospace_rag/core/pdf_parser.py:70 | Text of allowed characters only is returned unchanged. |
| TextCleaning.CleanTextUnchanged | aerospace_rag/core/pdf_parser.py:61-72 | Clean text is returned unchanged. Clean text has only allowed characters, only lone `' '` whitespace between words, and no `Page <digit>`. |
| TextCleaning.CleanTextShape | aerospace_rag/core/pdf_parser.py:61-72 | `clean_text` output holds only word characters, `' '` and the allow-listed punctuation. Its only whitespace is `' '` and it has none at either end. Every other character comes from the input. |
| Chunking.SplitSentences | aerospace_rag/core/pdf_parser.py:77 | The split gives at least one piece (`""` gives `[""]`). Every piece but the last ends with `.`, `!` or `?`. |
| Chunking.SplitComplete | aerospace_rag/core/pdf_parser.py:77 | No piece still contains a split position (sentence punctuation followed by whitespace). |
| Chunking.SplitRebuild | aerospace_rag/core/pdf_parser.py:77 | For any text, the split drops only the whole whitespace run after each split position. Every dropped gap is a non-empty whitespace run, no piece after the first starts with whitespace, and putting the gaps back between the pieces gives the text. |
| Chunking.SplitJoin | aerospace_rag/core/pdf_parser.py:77 | On single-spaced text, where every whitespace character is a lone `' '`, joining the pieces with `' '` gives the text back. `clean_text` output need not be single-spaced: a dropped character between two spaces leaves a double space. |
| Chunking.OverlapFromGreedy | aerospace_rag/core/pdf_parser.py:96-101 | The reverse loop takes the longest suffix of the chunk that fits: what it takes sums to at most the budget, and the next sentence back would not fit, or the whole chunk was taken. |
| Chunking.PackFrom | aerospace_rag/core/pdf_parser.py:83-111 | From an open chunk starting at `lo`, the next chunk starts at `lo`. Chunks remain to be emitted exactly when sentences remain from `lo`. |
| Chunking.JoinRuns | aerospace_rag/core/pdf_parser.py:88 | There is one chunk text per run, and each is the `' '`-join of that run's sentences. |
| Chunking.ChunkSpansGreedy | aerospace_rag/core/pdf_parser.py:83-111 | The runs form a greedy packing: a chunk is closed only when the next sentence would take it past `chunk_size`, and the next chunk starts with the overlap of the closed one. |
| Chunking.ChunkCount | aerospace_rag/core/pdf_parser.py:83-111 | There are no chunks iff there are no sentences, and never more chunks than sentences. |
| Chunking.ChunkRuns | aerospace_rag/core/pdf_parser.py:83-111 | Each chunk is the `' '`-join of a non-empty contiguous run of sentences. Runs come in source order (starts never move back, ends strictly advance), and every sentence lies in some chunk. |
| Chunking.ChunkSizeBound | aerospace_rag/core/pdf_parser.py:86-107 | A chunk with two or more new sentences sums to at most `chunk_size`. A chunk summing past `chunk_size` is its carried overlap plus exactly one new sentence. |
| Chunking.ChunkLength | aerospace_rag/core/pdf_parser.py:88 | A chunk's length is its sentences' summed length plus one joining space per adjacent pair. |
| Chunking.ChunkOverlapSuffix | aerospace_rag/core/pdf_parser.py:96-104 | A chunk's carried sentences are a suffix of the previous chunk summing to at most `chunk_overlap`, and the sentence before them would not have fitted (or the whole chunk was carried). |
| Chunking.ChunkOverlapText | aerospace_rag/core/pdf_parser.py:88-106 | In text: the carried sentences end the closed chunk and begin the next one, followed by a space and the new sentences. |
| Chunking.CollectOverlap | aerospace_rag/core/pdf_parser.py:92-104 | The reverse loop with `insert(0, s)` returns the greedy suffix, in original order, and `overlap_length` is its summed length. |
| Chunking.ChunkSentences | aerospace_rag/core/pdf_parser.py:79-113 | The packing loop returns exactly `Chunks`, the greedy packing above. Its invariant keeps `current_length` equal to the summed length of `current_chunk`, which is the sentences of the open run. |
| Chunking.ChunkText | aerospace_rag/core/pdf_parser.py:74-113 | `chunk_text` returns `Chunks` of the sentence split: at least one chunk, no more than the sentences, and `[""]` for `""`. |
| PdfParser.ExtractText | aerospace_rag/core/pdf_parser.py:48-59 | Gives the pdfplumber pages when there are any, else the PyPDF2 pages; the PyPDF2 pages matter only when pdfplumber found none. It fails, with `Failed to extract text from <name>`, exactly when both are empty, and never returns an empty list. |
| PdfParser.KeepLongMembers | aerospace_rag/core/pdf_parser.py:129-130 | A chunk is kept iff it is a chunk of the page whose stripped length is greater than 50. |
| PdfParser.NumberedAt | aerospace_rag/core/pdf_parser.py:131-137 | The k-th record of a page holds the k-th kept chunk, the index `start + k`, the page number and the file name. |
| PdfParser.ParsePdf | aerospace_rag/core/pdf_parser.py:115-139 | An extraction error propagates unchanged; otherwise the result is `Records` of the extracted pages. |
| PdfParser.AppendKept | aerospace_rag/core/pdf_parser.py:129-137 | The inner loop appends the long-enough chunks, numbered on from the records so far, and `chunk_index` stays equal to the number of records. |
| PdfParser.RecordsIndexed | aerospace_rag/core/pdf_parser.py:120-137 | The `chunk_index` values run 0, 1, 2, … across pages, and every record names the file. |
| PdfParser.RecordsFromPages | aerospace_rag/core/pdf_parser.py:121-136 | Every record is longer than 50 characters once stripped, carries the number of one of the pages, and is one of the chunks `chunk_text` made of that page's cleaned text. |
| PdfParser.RecordsSkipBlankPage | aerospace_rag/core/pdf_parser.py:124-125 | A page whose cleaned text is empty adds no record. |
| PdfParser.RecordsPrefix | aerospace_rag/core/pdf_parser.py:118-139 | Later pages only append: the records of the first `i` pages are a prefix of the records of all pages. |
| Ollama.SettingsFrom | aerospace_rag/core/ollama_client.py:20-23 | Each setting is the configured value when present. Otherwise `model` and `embedding_model` default to `gemma3:1b`, `temperature` to 0.7 and `max_tokens` to 2048. |
| Ollama.OllamaClient.constructor | aerospace_rag/core/ollama_client.py:14-23 | The client's settings are `SettingsFrom(config)`, and no completion has been requested. |
| Ollama.Zeros | aerospace_rag/core/ollama_client.py:68 | The fallback vector has the requested length and is all zeros. |
| Ollama.UserContentLayout | aerospace_rag/core/ollama_client.py:91-100 | The user content always ends with the prompt. It is longer than the prompt iff the context is non-empty; then it is `Context:\n`, the context, `\n\nQuestion: ` and the prompt. |
| Ollama.Messages | aerospace_rag/core/ollama_client.py:81-100 | There is a system message, first, iff the system prompt is non-empty, then exactly one user message (length 1 or 2). The last message is the user content. |
| Ollama.StreamTextAppend | aerospace_rag/core/ollama_client.py:133-136 | The accumulated reply to two runs of chunks is the first run's reply followed by the second's. |
| Ollama.StreamTextSplit | aerospace_rag/core/ollama_client.py:133-136 | Each chunk's content appears in the reply between the replies of the chunks before and after it. |
| Ollama.StreamTextIgnores | aerospace_rag/core/ollama_client.py:134 | A chunk without `message.content` does not change the reply. |
| Ollama.ModelNamesSpec | aerospace_rag/core/ollama_client.py:159 | The names are read iff every listed entry has a `name` (otherwise a `KeyError`). They are then the entries' names, in order. |
| Ollama.NameListed | aerospace_rag/core/ollama_client.py:159-161 | A name is among the read names iff it is the name of a listed entry. |
| Ollama.MissingModelsSpec | aerospace_rag/core/ollama_client.py:190-198 | Nothing is missing iff both models are listed, and a model is reported iff it is not listed. When neither is listed both are reported, generation model first, so one name repeats when the settings are equal. |
| Ollama.OllamaClient.GenerateEmbedding | aerospace_rag/core/ollama_client.py:25-52 | Succeeds iff the server's embedding call with the embedding model succeeds, and then returns its vector. Otherwise fails with `Failed to generate embedding: ` and the error. |
| Ollama.OllamaClient.EmbeddingsSpec | aerospace_rag/core/ollama_client.py:54-70 | There is one vector per text. Position i holds the embedding of `texts[i]` when it could be generated, otherwise the 768-long zero vector. |
| Ollama.OllamaClient.GenerateEmbeddingsBatch | aerospace_rag/core/ollama_client.py:54-70 | The loop returns exactly `Embeddings(texts)`; a per-text failure never stops the batch. |
| Ollama.OllamaClient.BuildMessages | aerospace_rag/core/ollama_client.py:81-100 | The appends build exactly `Messages(prompt, context, system_prompt)`. |
| Ollama.OllamaClient.GenerateStreaming | aerospace_rag/core/ollama_client.py:119-143 | Returns the in-order concatenation of the chunk contents, or `Streaming generation failed: ` and the error when the request fails. |
| Ollama.OllamaClient.Completion | aerospace_rag/core/ollama_client.py:72-117 | The completion succeeds iff the chat request (or the streamed request) with `Messages(...)` does, and returns its reply or the accumulated stream. Every failure starts with `Failed to generate completion: `. |
| Ollama.OllamaClient.GenerateCompletion | aerospace_rag/core/ollama_client.py:72-117 | Returns `Completion(...)` and counts one completion request. |
| Ollama.OllamaClient.CheckModelAvailable | aerospace_rag/core/ollama_client.py:155-170 | True iff the listing can be read and the generation model is one of its names. False when the listing fails or an entry has no name. |
| Ollama.OllamaClient.CheckModelsAvailable | aerospace_rag/core/ollama_client.py:184-202 | Gives `(False, [])` when the listing cannot be read. Otherwise `missing` is `MissingModels` and `ok` iff nothing is missing, and `ok` implies `check_model_available()`. |
| Rag.Lookup | aerospace_rag/core/rag_engine.py:53-55 | Finds no course iff no configured course has the code; a found course is configured and has the code. |
| Rag.BatchSpec | aerospace_rag/core/rag_engine.py:79-93 | The batch is as long as the shorter of documents and embeddings. Each tuple pairs the document and embedding at its position, copies the seven document fields and has no metadata. |
| Rag.BuildBatch | aerospace_rag/core/rag_engine.py:79-93 | The `zip` loop builds exactly `Batch(documents, embeddings)`. |
| Rag.ContextPartLayout | aerospace_rag/core/rag_engine.py:148-153 | Every context block begins with `[Source i]` and ends with the chunk text and a newline. |
| Rag.ContextPartsDistinct | aerospace_rag/core/rag_engine.py:148-153 | Blocks with different numbers differ, whatever they quote. |
| Rag.ContextParts | aerospace_rag/core/rag_engine.py:148-153 | There is one block per result, in result order; the k-th block is numbered k + 1. |
| Rag.ContextPartsUnique | aerospace_rag/core/rag_engine.py:148-153 | No two blocks of one context are equal. |
| Rag.Sources | aerospace_rag/core/rag_engine.py:155-162 | `sources` has the results' length and order, and each entry copies six fields of its result. |
| Rag.BuildContext | aerospace_rag/core/rag_engine.py:145-162 | The loop builds exactly `ContextParts(results)` and `Sources(results)`. |
| Rag.Context | aerospace_rag/core/rag_engine.py:164 | The context's length is the blocks' lengths plus one newline between each pair. |
| Rag.Database.InsertDocumentsBatch | aerospace_rag/core/database.py:137-156 | All tuples are appended to the rows or, on an insert error, none are: the rows are unchanged and the error carries `Failed to batch insert documents: `. |
| Rag.Database.SimilaritySearch | aerospace_rag/core/database.py:158-206 | Returns the search over the stored rows, or its error prefixed with `Similarity search failed: `. |
| Rag.RagEngine.SelectCourses | aerospace_rag/core/rag_engine.py:48-55 | Without a (non-empty) course code, all configured courses. With one, it fails iff no course has that code, with `Unknown course code: <code>`; otherwise it is exactly that one configured course. |
| Rag.RagEngine.CourseRowsSpec | aerospace_rag/core/rag_engine.py:64-99 | A course that stores rows stores one per parsed chunk: the chunk's fields, its embedding or the zero fallback, and no metadata. A course whose parsing fails stores nothing. |
| Rag.RagEngine.IndexedRowsAppend | aerospace_rag/core/rag_engine.py:59-103 | Courses are indexed independently: two lists of courses add what each list adds, one after the other. |
| Rag.RagEngine.FailedCourseIsolated | aerospace_rag/core/rag_engine.py:59-103 | A course whose parsing raises adds nothing, and the courses around it are indexed as if it were absent. |
| Rag.RagEngine.IndexDocuments | aerospace_rag/core/rag_engine.py:39-107 | A missing `data_dir` or an unknown course code fails before any course is processed, and the rows stay unchanged. Otherwise the rows grow by `IndexedRows` of the selected courses and the total is their number. |
| Rag.RagEngine.IndexCourses | aerospace_rag/core/rag_engine.py:57-103 | The course loop appends each course's rows in course order. `total_indexed` counts exactly the rows stored. |
| Rag.RagEngine.IndexCourse | aerospace_rag/core/rag_engine.py:64-103 | One course appends `CourseRows` and returns its count. A parse failure, an empty parse or an insert failure adds 0. |
| Rag.RagEngine.EffectiveTopK | aerospace_rag/core/rag_engine.py:117-118 | The caller's `top_k` when given, else the configured one, else a `KeyError`. |
| Rag.RagEngine.Retrieved | aerospace_rag/core/rag_engine.py:117-134 | A successful retrieval is the store's search with the question's embedding, the effective `top_k`, the course code and the configured threshold. Failures after the settings are read carry `Query failed: `. |
| Rag.RagEngine.Query | aerospace_rag/core/rag_engine.py:109-189 | Returns `QueryResult(...)`. The completion counter grows by one exactly when the search found something, so an empty result never calls the model. |
| Rag.RagEngine.QueryAnswers | aerospace_rag/core/rag_engine.py:136-189 | No results: the fixed answer, `sources = []`, `context_used = False` and no model call. With results: the answer is the model's reply to the question, the context and the system prompt; `sources` mirrors the results; `context_used` is true; failures carry `Query failed: `. |
| Rag.RagEngine.QuerySearchRequest | aerospace_rag/core/rag_engine.py:117-134 | The configured `top_k` is used only when the caller gives none. The similarity threshold is always the configured one. |
| Rag.RagEngine.GetStatistics | aerospace_rag/core/rag_engine.py:191-200 | The statistics are the stored row count, the store's per-course counts and the number of configured courses. |

## Left out

- Printing and progress output, and the diagnostic text printed for an embedding model without embedding support, are not modelled. They change no result.
- Floating point is not modelled.
  - Embeddings, similarities and the temperature are `real` values carried along, never computed with.
  - The `float32` conversion and `tolist()` are identities here.
  - Cosine similarity, the threshold filter, the ordering and the `LIMIT` are inside the store's `search` function.
- The regular expressions are explicit functions.
  - `\s` is Python's `str.isspace` set.
  - `\w` is approximated as ASCII letters and digits, `_`, and any non-ASCII non-whitespace character.
  - `\d` in `Page \d+` is ASCII digits only.
- SQL, psycopg2 and PostgreSQL are not modelled. The search and the `get_all_courses` grouping are fixed functions of the stored rows; `get_document_count` is the number of rows.
- Rag.Database.InsertDocumentsBatch: whether an insert fails depends only on the batch, not on the rows already stored or on earlier inserts. Constraint violations or connection loss that depend on the store's state are not captured. `Rag.RagEngine.IndexedRowsAppend` and `Rag.RagEngine.FailedCourseIsolated` rely on this: with a state-dependent insert error, one course's rows could change whether a later course's insert succeeds.
- Rag.RagEngine.GetStatistics: does not model a failing count or grouping query, because those come from the store's SQL.
- Configuration loading (`get_config`, the YAML file and the `config is None` default) is not modelled. The configuration values are parameters, and a missing key is `None`. Only the keys this core reads are modelled: `paths.data_dir`, `rag.top_k` and `rag.similarity_threshold`. A missing `paths` or `rag` section is covered too: the section getters (core/config.py:42 and :52) return `{}` for it, so the lookup fails exactly as for a missing key, which the `None` parameters model.
- The Ollama server is a fixed function of each request. A stream that fails part-way through iteration, after some text has been printed, is modelled as a failure of the whole request.
- The two extractors (`extract_text_pdfplumber`, `extract_text_pypdf2`), their per-page blank-text filtering and their swallowed exceptions are not modelled. What each returned for the file is a parameter of `ExtractText` and `ParsePdf`.
- `parse_directory` and `parse_course_pdfs` are not part of this model: directory globbing and file access. `RagEngine.parseCourse` stands for the latter.
- The embedding dimension is not checked against the store's vector column. The fallback length 768 is kept as the source has it.
- `check_connection`, `pull_model`, `pull_required_models`, `validate_models`, `RAGEngine.initialize` and `RAGEngine.close` are not modelled: connection set-up and model downloads, with no logic beyond calling the server.
- Rag.RagEngine.IndexDocuments: returns the total of indexed rows that the source prints. The source method itself returns `None`.
- Rag.Lookup: takes the first course with the code. Configured course codes are dictionary keys, so at most one matches.
