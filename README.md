# Bookkeeping layer of the CodeBackup RAG backends, in Dafny

The repository holds several retrieval-augmented question-answering backends written in Python.
Each is glue around LangChain, Chroma, Ollama and FastAPI. This project models the part the
repository's own code decides, and proves properties of it. Every library object (vector store,
chain, LLM, loader) is an opaque value.

- `common.dfy` (`Common`): `Option`, `Result`, the Python exceptions the code raises or passes
  on (`PyError`), their `str()`, Python's `a or b` over optional strings, and FastAPI's
  `HTTPException`.
- `py_str.dfy` (`PyStr`): the string operations the core relies on.
  - `s[:n]`, `startswith`, `endswith`, `rfind`;
  - `os.path.basename` and `PurePath.suffix`;
  - `lower` for ASCII letters;
  - `strip` over Python's `str.isspace` characters.
- `langchain.dfy` (`LangChain`): documents, the chain's response dictionary, vector stores,
  the persist directory, and the `{"source", "content"}` entry with its 200-character excerpt.
- `loader.dfy` (`Loader`): `_load_docs`, which the Application and Work pipelines share.
  - The file system is a value: the set of regular files, the `rglob` listing of each
    directory, and what each loader returns for each file.
  - A (loader, file) pair with no entry raises.
- `application_pipeline.dfy` (`ApplicationPipeline`): the per-user pipeline.
  - It is a class whose fields are the optional store and the `user_chains` dictionary.
  - Each chain is an object of its own.
  - `ask` rewrites source paths into locators.
- `work_pipeline.dfy` (`WorkPipeline`): the single-chain pipeline, with the invariant that a
  QA chain exists only over the current store.
- `august11_pipeline.dfy`, `august07_backend.dfy`, `august06_pipeline.dfy`: the three response
  normalisers.
  - Each takes what the chain call returned or raised as a parameter.
  - Each produces the result dictionary or the exception.
- `auth.dfy` (`Auth`): covers the following.
  - `read_users` folds CSV rows into a table.
  - `authenticate` and `login` run over the global `SESSIONS` table.
  - A replay of any sequence of `authenticate` calls shows that validity of a token is monotone.
- `work_main.dfy` (`WorkMain`): the Work server's request layer.
  - The API key check.
  - The WebSocket handshake, which closes with code 1008 as section 7.4.1 of RFC 6455 defines.
  - Exception wrapping.
  - `DummyRAG`.
  - The `/api/chat` event and its two-event server-sent-events stream (section 9.2 of the WHATWG
    HTML Living Standard), with a reader that recovers each event's data.

Inputs the Python code gets from outside become parameters:
- what a chain call returns or raises;
- which paths exist;
- the persist directory listing;
- the CSV file;
- the `uuid4` token;
- environment variables;
- request headers.

## Model

| member | source | states |
|---|---|---|
| Common.Or | Work/backend/main.py:78 | `a or b` is `a` exactly when `a` is a non-empty string, and `b` otherwise (`None` and "" are false) |
| Common.ErrorText | Work/backend/main.py:93 | `str(e)`: a KeyError's key between single quotes; an AttributeError's quoted type name, then " object has no attribute '", the name and "'"; any other exception's message |
| PyStr.Head | August07_2025-FastAPI/backend.py:62 | `s[:n]` is a prefix of `s` of length `min(len(s), n)` |
| PyStr.RFindIsLast | Application/backend/rag_pipeline.py:42 | the dot or slash found is the last one in the string |
| PyStr.BasenameIsLastComponent | Application/backend/rag_pipeline.py:144 | the base name ends the path, holds no '/', and is the whole path or follows a '/' |
| PyStr.SuffixIsEnding | Application/backend/rag_pipeline.py:42 | a non-empty suffix is a proper ending of the name of at least two characters that starts with its only '.' |
| PyStr.Lower | Application/backend/rag_pipeline.py:42 | lower-casing keeps the length |
| PyStr.StripShape | Work/backend/main.py:125-126 | `strip()` keeps one contiguous slice; all characters outside it are whitespace and the slice neither starts nor ends with whitespace |
| PyStr.StripIdempotent | Work/backend/main.py:125-126 | stripping twice is stripping once |
| Loader.Items | Application/backend/rag_pipeline.py:40 | a file path yields just itself; any other path yields the `is_file()` filter of its `rglob` walk, which keeps each walk entry that is a file, in walk order, and nothing when it is not a directory |
| Loader.OnlyFiles | Application/backend/rag_pipeline.py:40 | the `is_file()` filter keeps exactly the listed entries that are files, and never more entries than it was given; with OnlyFilesAppend this fixes the kept entries and their walk order |
| Loader.OnlyFilesAppend | Application/backend/rag_pipeline.py:40 | the filter keeps walk order: filtering `a + b` gives the files of `a`, then those of `b` |
| Loader.LoadDocs | Application/backend/rag_pipeline.py:36-54 | `_load_docs` returns the concatenation, in path order, of what each path's files load |
| Loader.LoadFiles | Application/backend/rag_pipeline.py:40-53 | the inner loop returns the concatenation, in file order, of successful loads, and a raising load adds nothing |
| Loader.LoaderForPdf | Application/backend/rag_pipeline.py:42-49 | the PDF loader is used exactly when the base name is longer than ".pdf" and ends in ".pdf" in any case |
| Loader.PdfEndingIsSuffix | Application/backend/rag_pipeline.py:41-44 | a name longer than ".pdf" that ends in ".pdf" in any case has that ending as its suffix |
| Loader.ConcatAppend | Application/backend/rag_pipeline.py:38-54 | loading a concatenation of inputs gives the concatenation of the loads |
| Loader.ConcatFrom | Application/backend/rag_pipeline.py:38-54 | a document is in the output exactly when some input contributed it |
| Loader.SkipFailedFile | Application/backend/rag_pipeline.py:43-53 | a file whose load raises contributes nothing, and later files are still loaded, as if it were absent |
| Loader.PathsDocsAppend | Application/backend/rag_pipeline.py:38-54 | `_load_docs(a + b)` is `_load_docs(a) + _load_docs(b)` |
| Loader.PathsDocsFrom | Application/backend/rag_pipeline.py:38-54 | a document is returned exactly when a file found under some input path loaded it |
| LangChain.ExcerptUnique | August07_2025-FastAPI/backend.py:62 | a text has exactly one 200-character excerpt |
| ApplicationPipeline.LocatorShape | Application/backend/rag_pipeline.py:142-147 | an existing path ending in ".pdf" becomes "/files/" plus its base name; that name has no '/', ends in ".pdf" and ends the path; any other source, "N/A" included, is unchanged |
| ApplicationPipeline.CollectSources | Application/backend/rag_pipeline.py:140-148 | one locator per source document, in order; "N/A" for a document without a source |
| ApplicationPipeline.RAGPipeline.constructor | Application/backend/rag_pipeline.py:25-34 | the store is loaded iff the persist directory exists and is non-empty; no chains |
| ApplicationPipeline.RAGPipeline.BuildVectorstore | Application/backend/rag_pipeline.py:56-75 | the store becomes the one built from `_load_docs(files)` and every chain is dropped; the invariant holds |
| ApplicationPipeline.RAGPipeline.GetUserChain | Application/backend/rag_pipeline.py:81-125 | a cached chain is returned unchanged (under the class invariant a cached chain implies a store, in the model as in the code); an uncached user with no store raises and changes nothing; otherwise a fresh chain on the current store is added under that user only |
| ApplicationPipeline.RAGPipeline.Ask | Application/backend/rag_pipeline.py:128-150 | with no store, the fixed answer and no chain created; otherwise the user's chain is cached, the chain's exception propagates, the answer defaults to "", and there is one locator per source document |
| WorkPipeline.SourceNames | Work/backend/rag_pipeline.py:119-122 | one source name per document, in order, the "source" metadata or "N/A" |
| WorkPipeline.RAGPipeline.constructor | Work/backend/rag_pipeline.py:23-33 | store and QA chain are set iff the persist directory exists and is non-empty |
| WorkPipeline.RAGPipeline.BuildVectorstore | Work/backend/rag_pipeline.py:57-76 | the store is built from `_load_docs(files)` and a chain is set up over it, so a chain implies a store |
| WorkPipeline.RAGPipeline.Ask | Work/backend/rag_pipeline.py:109-123 | with no chain, the fixed answer and no sources; otherwise the question is echoed, the answer is "result" or "", and sources are per document, unrewritten |
| August11Pipeline.CollectSources | August11_2025/backend/rag_pipeline.py:70-74 | one entry per document, in order, each with the document's source ("N/A" without metadata or key) and an excerpt of its text; the first document whose metadata has no `get` raises that metadata type's AttributeError |
| August11Pipeline.Ask | August11_2025/backend/rag_pipeline.py:50-76 | a raising call falls back to `run` with no sources; a dictionary answers "result" if truthy else "answer"; a non-dictionary answers its text with no sources; the question is echoed |
| August07Backend.Entries | August07_2025-FastAPI/backend.py:59-65 | one entry per document, in order: the source or "N/A", and the 200-character excerpt |
| August07Backend.Ask | August07_2025-FastAPI/backend.py:54-66 | succeeds iff the response has "result" and "source_documents"; otherwise KeyError, "result" first; echoes the question and answers "result" |
| August06Pipeline.Entries | August06_2025-Ollma_Rag_2/rag_pipeline.py:50-56 | succeeds iff every document has "source" metadata, else KeyError('source'); one entry per document with its source and excerpt |
| August06Pipeline.Ask | August06_2025-Ollma_Rag_2/rag_pipeline.py:45-57 | echoes the input under "query" and answers "result"; the sources are one `{source, content[:200]}` entry per document, in order; KeyError for a missing "result", then "source_documents", then "source" |
| August06Pipeline.AgreesWithAugust07 | August06_2025-Ollma_Rag_2/rag_pipeline.py:52 | where every document has a source, the answer equals the August 7 backend's; where one lacks it, this pipeline raises and the August 7 one reports "N/A" |
| Auth.UsersOf | August11_2025/backend/auth.py:23-25 | the rows fold without error iff every row has both columns; otherwise the first bad row's KeyError, "password" before "user_id" |
| Auth.ReadUsers | August11_2025/backend/auth.py:19-29 | a missing CSV gives the empty table; any other error of opening or reading it propagates; otherwise the fold of the rows |
| Auth.ErrorPersists | August11_2025/backend/auth.py:21-26 | a row error ends the read and is its result |
| Auth.LastRowOf | August11_2025/backend/auth.py:24-25 | the index found carries the user id and no later row does |
| Auth.LastRowWins | August11_2025/backend/auth.py:24-25 | a user is in the table iff some row carries it, and the password is that of the last such row |
| Auth.AuthenticateOn | August11_2025/backend/auth.py:32-38 | a token is issued iff the user exists with that password, and is recorded for that user; otherwise sessions are unchanged |
| Auth.ValidityIsMonotone | August11_2025/backend/auth.py:36 | no sequence of `authenticate` calls removes a valid token |
| Auth.IssuedTokensStayValid | August11_2025/backend/auth.py:35-42 | a token issued by any call is valid after every later call |
| Auth.SessionStore.constructor | August11_2025/backend/auth.py:10 | `SESSIONS` starts empty |
| Auth.SessionStore.IsValidToken | August11_2025/backend/auth.py:41-42 | validity is membership in `SESSIONS` |
| Auth.SessionStore.Authenticate | August11_2025/backend/auth.py:32-38 | a read error propagates and changes nothing; otherwise the outcome above; the issued token becomes valid and every earlier session stays |
| Auth.SessionStore.Login | August11_2025/backend/auth.py:45-50 | the token iff authentication issued a non-empty one, which is then valid; otherwise 401 "Invalid credentials"; read errors propagate |
| WorkMain.VerifyKey | Work/backend/main.py:35-44 | never raises with `API_KEY` unset; with it set, raises 401 "Invalid API key" iff the supplied key differs |
| WorkMain.ClientKey | Work/backend/main.py:78 | the header when it is non-empty, else the query parameter |
| WorkMain.WebSocketHandshake | Work/backend/main.py:78-82 | closes with 1008 iff `API_KEY` is set and the client key differs |
| WorkMain.ErrorAnswer | Work/backend/main.py:93 | the error answer is exactly "Error running pipeline: " followed by the exception's text: that prefix, that ending, and nothing in between |
| WorkMain.DummyAsk | Work/backend/main.py:58-63 | the placeholder answer starts with the dummy text and ends with the question; no sources; no question key |
| WorkMain.RagAsk | Work/backend/main.py:49-64 | the dummy never raises; the pipeline raises iff its chain does, and otherwise fills all three keys |
| WorkMain.WebSocketReply | Work/backend/main.py:88-95 | the pipeline's result, or on an exception the question, the error answer and no sources |
| WorkMain.ChatSse | Work/backend/main.py:103-128 | 401 iff the key check fails; type "definition", term the stripped question, definition the stripped answer or error answer, with "" and [] defaults |
| WorkMain.PayloadIsTrimmed | Work/backend/main.py:125-126 | term and definition are already stripped |
| WorkMain.EventStream | Work/backend/main.py:122-130 | exactly two frames, the first a "data: ...\n\n" frame and the second "data: [DONE]\n\n" |
| WorkMain.LineEnd | Work/backend/main.py:129 | the first line feed at or after the start, or the end of the text |
| WorkMain.FrameLineEnd | Work/backend/main.py:129 | in a frame the data runs to the first line feed, which a blank line follows |
| WorkMain.ParseFrame | Work/backend/main.py:129-130 | a reader takes one event off the front of the stream |
| WorkMain.ParseEncode | Work/backend/main.py:129-130 | a reader recovers every event's data in order when no data holds a line feed |
| WorkMain.EventStreamReadsBack | Work/backend/main.py:122-130 | the stream reads back as the payload's JSON text followed by "[DONE]" |

## Left out

- Library internals are not modelled: embeddings, `RecursiveCharacterTextSplitter` chunking, Chroma, MMR retrieval, LLM calls and prompts. A built store is identified by the raw documents it was built from. A chain call is a parameter giving its response or its exception.
- `Chroma.from_documents` and `persist` raising during `build_vectorstore` are not modelled, because that behaviour is internal to the library. `BuildVectorstore` assumes they succeed.
- `load_vectorstore`, `setup_chain` and August 6's `setup_pipeline` are not modelled, because they only wire library objects. The August 7 and August 11 constructors are left out for the same reason.
- The conversation memory of the Application chains is not modelled, because it lives in the library. A chain's answer is a parameter, not a function of earlier questions.
- File system calls are represented as given values: `os.path.exists`, `os.listdir`, `is_file`, `rglob` and the loaders. So are symbolic links and the ordering of `rglob`.
- A persist path that exists but is not a directory is not modelled, because a Dafny constructor cannot raise. `os.listdir` then raises `NotADirectoryError` and both pipeline constructors raise with it. A `DirState` is either missing or a directory listing.
- `os.path.abspath(persist_dir)` is not modelled, because the persist directory is taken as an already absolute path.
- `os.path.basename` and `PurePath` are modelled for POSIX paths only; only '/' separates components.
- Input paths are taken as already normalised: no trailing '/', no '.' or empty component. `Path(p)` normalises such a path, so for `"report.pdf/"` the code picks the PDF loader; the model looks up the raw text and takes its base name as "", so it picks the text loader.
- PyStr.Lower: lower-cases ASCII letters only, because only ASCII letters occur in ".pdf". A non-ASCII suffix whose Unicode lower case is ".pdf" is not modelled.
- `uuid.uuid4()` is not modelled, because it is random. The token is a parameter, and no freshness is assumed: a repeated token overwrites its entry, as in the code.
- Concurrency is not modelled, because the code has no locking. This covers concurrent requests and the check-then-insert of `_get_user_chain`.
- CSV parsing is not modelled, because it is library code: quoting, and the `None` values `DictReader` gives for short rows. A row is a map from column name to text.
- Metadata values that are not strings are not modelled. Neither is a "source" whose value is `None`.
- `json.dumps` is not modelled. The payload is modelled by its fields. The stream takes the payload's JSON text as a parameter, and the only fact used about it is that it has no line feed.
- FastAPI routing, CORS, `StreamingResponse`, and the WebSocket receive and send loop and disconnect are not modelled, because they are transport. The model keeps the handshake decision and the per-message reply.
- Print and log lines are not modelled, because they have no effect on results.
- WorkMain.RagAsk: states only that the pipeline's dictionary has all three keys and raises exactly when its chain does. The values themselves are those of `WorkPipeline.RAGPipeline.Ask`, whose contract states them.
- WorkMain.ChatSse: an answer key that is present but holds `None` is not modelled, because the Work pipeline never produces one. In the code, `.strip()` on it would raise.
- August11Pipeline.Ask: a non-dictionary output and a document without `page_content` are represented by their `str()` text, given as a parameter.
