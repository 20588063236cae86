/** The single-chain RAG pipeline of the Work backend: an optional vector store and an optional
    `RetrievalQA` chain over it, set up together at start-up or by a rebuild. */
module WorkPipeline {
  import opened Common
  import opened LangChain
  import Loader

  /** The answer `ask` gives while there is no QA chain. */
  const NoChainAnswer: string := "\U{274C} No QA chain. Build the vector store first."

  /** A `RetrievalQA` chain ("stuff" chain type, MMR retriever, fixed prompt), identified by the
      store its retriever reads. */
  datatype QAChain = RetrievalQA(store: VectorStore)

  /** The dictionary `ask` returns; each source is the `{"source": ...}` entry of one document. */
  datatype AskResult = AskResult(question: string, answer: string, sources: seq<string>)

  /** `[{"source": doc.metadata.get("source", "N/A")} for doc in docs]`: one name per document,
      in order. */
  function SourceNames(docs: seq<Document>): (r: seq<string>)
    ensures |r| == |docs|
    ensures forall k :: 0 <= k < |docs| ==> r[k] == SourceOrNA(docs[k])
  {
    if docs == [] then [] else [SourceOrNA(docs[0])] + SourceNames(docs[1..])
  }

  /** `RAGPipeline` of the Work backend. */
  class RAGPipeline {
    const persistDir: Path
    var vectorstore: Option<VectorStore>
    var qaChain: Option<QAChain>

    /** A QA chain exists only over the current store: `setup_chain` is only reached once the
        store is assigned, and a rebuild sets up a new chain right after the new store. */
    ghost predicate Valid()
      reads this
    {
      qaChain.Some? ==> vectorstore.Some? && qaChain.value.store == vectorstore.value
    }

    /** `__init__`: when the persist directory exists and is not empty, the store is loaded from
        it and a chain is set up over it; otherwise neither exists. */
    constructor (persistDir: Path, dir: DirState)
      ensures Valid()
      ensures this.persistDir == persistDir
      ensures vectorstore.Some? <==> HasPersistedStore(dir)
      ensures qaChain.Some? <==> HasPersistedStore(dir)
      ensures vectorstore.Some? ==> vectorstore.value == Persisted(persistDir)
    {
      this.persistDir := persistDir;
      vectorstore := None;
      qaChain := None;
      if HasPersistedStore(dir) {
        vectorstore := Some(Persisted(persistDir));
        qaChain := Some(RetrievalQA(Persisted(persistDir)));
      }
    }

    /** `build_vectorstore(files)`: the store is replaced by one built from `_load_docs(files)`,
        and a new chain is set up over it. */
    method BuildVectorstore(fs: Loader.FileSystem, files: seq<Path>)
      modifies this
      ensures Valid()
      ensures vectorstore == Some(Built(persistDir, Loader.PathsDocs(fs, files)))
      ensures qaChain == Some(RetrievalQA(vectorstore.value))
    {
      var rawDocs := Loader.LoadDocs(fs, files);
      vectorstore := Some(Built(persistDir, rawDocs));
      qaChain := Some(RetrievalQA(vectorstore.value));
    }

    /** `ask(question)`. `response` is what calling the QA chain returns (or raises). Without a
        chain the fixed answer comes back with no sources. Otherwise the question is echoed,
        the answer is the response's "result" ("" if absent), and there is one source per
        source document, in order: its "source" metadata, "N/A" when it has none. */
    function Ask(question: string, response: Result<ChainResponse, PyError>): (r: Result<AskResult, PyError>)
      reads this
      ensures qaChain.None? ==> r == Ok(AskResult(question, NoChainAnswer, []))
      ensures qaChain.Some? && response.Err? ==> r == Err(response.error)
      ensures qaChain.Some? && response.Ok? ==>
        var docs := response.value.sourceDocuments.GetOr([]);
        && r.Ok? && r.value.question == question
        && r.value.answer == response.value.result.GetOr("")
        && |r.value.sources| == |docs|
        && forall k :: 0 <= k < |docs| ==> r.value.sources[k] == SourceOrNA(docs[k])
    {
      if qaChain.None? then Ok(AskResult(question, NoChainAnswer, []))
      else match response {
        case Err(e) => Err(e)
        case Ok(resp) =>
          Ok(AskResult(question, resp.result.GetOr(""), SourceNames(resp.sourceDocuments.GetOr([]))))
      }
    }
  }
}
