/** The per-user RAG pipeline of the Application backend: an optional vector store and a
    dictionary of conversational chains, one per user, created on first use and dropped
    whenever the store is rebuilt. */
module ApplicationPipeline {
  import opened Common
  import opened LangChain
  import Loader
  import PyStr

  type UserId = string

  /** The answer `ask` gives while there is no vector store. */
  const NoStoreAnswer: string := "\U{274C} No vector store. Build the vector store first."

  /** The message of the `ValueError` `_get_user_chain` raises while there is no vector store. */
  const NoStoreError: string := "\U{274C} No vector store. Build it first."

  /** A `ConversationalRetrievalChain` with its own conversation memory. The LLM, the MMR
      retriever, the memory and the prompt are library objects; the model keeps the store the
      retriever was taken from. Each chain is a distinct object, so two users never share a
      conversation memory. */
  class Chain {
    const store: VectorStore

    constructor (store: VectorStore)
      ensures this.store == store
    {
      this.store := store;
    }
  }

  /** The dictionary `ask` returns. Each source is the `{"source": locator}` entry of one
      source document, kept as its locator. */
  datatype AskResult = AskResult(question: string, answer: string, sources: seq<string>)

  /** The locator `ask` reports for a document source: an existing file whose path ends in
      ".pdf" (case-sensitive) is served as `/files/<basename>`; anything else, "N/A" included,
      is reported as it is. `existing` holds the paths for which `os.path.exists` holds. */
  function Locator(src: Path, existing: set<Path>): string {
    if PyStr.EndsWith(src, ".pdf") && src in existing then "/files/" + PyStr.Basename(src) else src
  }

  /** A rewritten locator names the file by its last path component only; that name holds no
      '/', still ends in ".pdf", and is how the source path ends. Every other source is
      reported unchanged. */
  lemma LocatorShape(src: Path, existing: set<Path>)
    ensures var name := PyStr.Basename(src);
      if PyStr.EndsWith(src, ".pdf") && src in existing then
        && Locator(src, existing) == "/files/" + name
        && '/' !in name && PyStr.EndsWith(name, ".pdf") && PyStr.EndsWith(src, name)
      else
        Locator(src, existing) == src
  {
    var name := PyStr.Basename(src);
    PyStr.BasenameIsLastComponent(src);
    if PyStr.EndsWith(src, ".pdf") {
      var n := |src|;
      assert src[n - 4..] == ".pdf";
      assert src[n - 4] == '.' && src[n - 3] == 'p' && src[n - 2] == 'd' && src[n - 1] == 'f';
      assert |name| >= 4;
      assert name[|name| - 4..] == src[n - 4..];
    }
  }

  /** The loop of `ask` that turns the source documents into source entries: one per document,
      in order, each the locator of the document's "source" metadata, "N/A" when it has none. */
  method CollectSources(docs: seq<Document>, existing: set<Path>) returns (sources: seq<string>)
    ensures |sources| == |docs|
    ensures forall k :: 0 <= k < |docs| ==> sources[k] == Locator(SourceOrNA(docs[k]), existing)
    ensures forall k :: 0 <= k < |docs| && "source" !in docs[k].metadata ==> sources[k] == "N/A"
  {
    sources := [];
    var i := 0;
    while i < |docs|
      invariant 0 <= i <= |docs|
      invariant |sources| == i
      invariant forall k :: 0 <= k < i ==> sources[k] == Locator(SourceOrNA(docs[k]), existing)
    {
      var src := SourceOrNA(docs[i]);
      var srcUrl;
      if PyStr.EndsWith(src, ".pdf") && src in existing {
        var filename := PyStr.Basename(src);
        srcUrl := "/files/" + filename;
      } else {
        srcUrl := src;
      }
      sources := sources + [srcUrl];
      i := i + 1;
    }
  }

  /** `RAGPipeline` of the Application backend. */
  class RAGPipeline {
    const persistDir: Path
    var vectorstore: Option<VectorStore>
    var userChains: map<UserId, Chain>

    /** Every cached chain was made from the current store (a rebuild drops them all), so a
        chain is cached only while there is a store; and no two users share a chain. */
    ghost predicate Valid()
      reads this
    {
      && (forall u :: u in userChains ==> vectorstore.Some? && userChains[u].store == vectorstore.value)
      && (forall u, v :: u in userChains && v in userChains && u != v ==> userChains[u] != userChains[v])
    }

    /** `__init__`: the store is loaded from `persistDir` exactly when that directory exists and
        is not empty; no user has a chain yet. */
    constructor (persistDir: Path, dir: DirState)
      ensures Valid()
      ensures this.persistDir == persistDir
      ensures vectorstore == if HasPersistedStore(dir) then Some(Persisted(persistDir)) else None
      ensures userChains == map[]
    {
      this.persistDir := persistDir;
      userChains := map[];
      if HasPersistedStore(dir) {
        vectorstore := Some(Persisted(persistDir));
      } else {
        vectorstore := None;
      }
    }

    /** `build_vectorstore(files)`: the store is replaced by one built from the documents
        `_load_docs(files)` returns, and every cached chain is dropped. */
    method BuildVectorstore(fs: Loader.FileSystem, files: seq<Path>)
      modifies this
      ensures Valid()
      ensures vectorstore == Some(Built(persistDir, Loader.PathsDocs(fs, files)))
      ensures userChains == map[]
    {
      var rawDocs := Loader.LoadDocs(fs, files);
      vectorstore := Some(Built(persistDir, rawDocs));
      userChains := map[];
    }

    /** `_get_user_chain(user_id)`: a cached chain is returned as it is, store or no store; an
        uncached user gets a new chain on the current store, added under that user alone; with
        no store the call raises and nothing changes. */
    method GetUserChain(userId: UserId) returns (r: Result<Chain, PyError>)
      requires Valid()
      modifies this`userChains
      ensures Valid()
      ensures userId in old(userChains) ==>
        r == Ok(old(userChains)[userId]) && userChains == old(userChains)
      ensures userId !in old(userChains) && vectorstore.None? ==>
        r == Err(Raised(NoStoreError)) && userChains == old(userChains)
      ensures userId !in old(userChains) && vectorstore.Some? ==>
        && r.Ok? && fresh(r.value) && r.value.store == vectorstore.value
        && userChains == old(userChains)[userId := r.value]
    {
      if userId in userChains {
        return Ok(userChains[userId]);
      }
      if vectorstore.None? {
        return Err(Raised(NoStoreError));
      }
      var chain := new Chain(vectorstore.value);
      userChains := userChains[userId := chain];
      return Ok(chain);
    }

    /** `ask(user_id, question)`. `response` is what calling the user's chain returns (or
        raises); `existing` holds the paths that exist. Without a store the fixed answer comes
        back and no chain is created. Otherwise the user's chain is fetched or created (even
        when the call then raises), the answer is the response's "answer" ("" if absent) and
        there is one source per source document. */
    method Ask(userId: UserId, question: string, existing: set<Path>,
               response: Result<ChainResponse, PyError>) returns (r: Result<AskResult, PyError>)
      requires Valid()
      modifies this`userChains
      ensures Valid()
      ensures vectorstore.None? ==>
        r == Ok(AskResult(question, NoStoreAnswer, [])) && userChains == old(userChains)
      ensures vectorstore.Some? ==>
        && userId in userChains
        && (userId in old(userChains) ==> userChains == old(userChains))
        && (userId !in old(userChains) ==>
              fresh(userChains[userId]) && userChains == old(userChains)[userId := userChains[userId]])
      ensures vectorstore.Some? && response.Err? ==> r == Err(response.error)
      ensures vectorstore.Some? && response.Ok? ==>
        && r.Ok? && r.value.question == question
        && r.value.answer == response.value.answer.GetOr("")
        && |r.value.sources| == |response.value.sourceDocuments.GetOr([])|
        && forall k :: 0 <= k < |r.value.sources| ==>
             r.value.sources[k] == Locator(SourceOrNA(response.value.sourceDocuments.GetOr([])[k]), existing)
    {
      if vectorstore.None? {
        return Ok(AskResult(question, NoStoreAnswer, []));
      }
      var chain := GetUserChain(userId);
      match response {
        case Err(e) =>
          return Err(e);
        case Ok(resp) =>
          var answer := resp.answer.GetOr("");
          var sources := CollectSources(resp.sourceDocuments.GetOr([]), existing);
          return Ok(AskResult(question, answer, sources));
      }
    }
  }
}
