/** `RAGPipeline.ask` of the August 6 Ollama pipeline: like the August 7 backend, but the input
    is echoed under "query" and a document's "source" metadata is looked up with no default. */
module August06Pipeline {
  import opened Common
  import opened LangChain
  import PyStr
  import August07Backend

  /** The dictionary `ask` returns. */
  datatype QueryResult = QueryResult(query: string, answer: string, sources: seq<SourceEntry>)

  /** Whether every document names its source. */
  predicate AllSourced(docs: seq<Document>) {
    forall k :: 0 <= k < |docs| ==> "source" in docs[k].metadata
  }

  /** The list comprehension over `response["source_documents"]`, where `doc.metadata["source"]`
      raises `KeyError` for the first document without a source. */
  function Entries(docs: seq<Document>): (r: Result<seq<SourceEntry>, PyError>)
    ensures r.Ok? <==> AllSourced(docs)
    ensures r.Err? ==> r.error == KeyError("source")
    ensures r.Ok? ==> |r.value| == |docs|
    ensures r.Ok? ==> forall k :: 0 <= k < |docs| ==>
      r.value[k].source == docs[k].metadata["source"]
      && IsExcerpt(r.value[k].content, docs[k].pageContent)
  {
    if docs == [] then Ok([])
    else if "source" !in docs[0].metadata then Err(KeyError("source"))
    else
      var rest := Entries(docs[1..]);
      if rest.Err? then rest
      else Ok([SourceEntry(docs[0].metadata["source"], PyStr.Head(docs[0].pageContent, ExcerptLength))] + rest.value)
  }

  /** `ask(query)`, given what `qa_chain.invoke(query)` returned or raised. The query is echoed
      under "query"; a response without "result" or "source_documents", or a source document
      without "source" metadata, raises `KeyError`, in that order. */
  function Ask(query: string, invoked: Result<ChainResponse, PyError>): (r: Result<QueryResult, PyError>)
    ensures r.Ok? <==>
      && invoked.Ok? && invoked.value.result.Some? && invoked.value.sourceDocuments.Some?
      && AllSourced(invoked.value.sourceDocuments.value)
    ensures invoked.Err? ==> r == Err(invoked.error)
    ensures invoked.Ok? && invoked.value.result.None? ==> r == Err(KeyError("result"))
    ensures invoked.Ok? && invoked.value.result.Some? && invoked.value.sourceDocuments.None? ==>
      r == Err(KeyError("source_documents"))
    ensures invoked.Ok? && invoked.value.result.Some? && invoked.value.sourceDocuments.Some? && r.Err? ==>
      r == Err(KeyError("source"))
    ensures r.Ok? ==> r.value.query == query && r.value.answer == invoked.value.result.value
    ensures r.Ok? ==> r.value.sources == Entries(invoked.value.sourceDocuments.value).value
  {
    match invoked
    case Err(e) => Err(e)
    case Ok(response) =>
      if response.result.None? then Err(KeyError("result"))
      else if response.sourceDocuments.None? then Err(KeyError("source_documents"))
      else
        var entries := Entries(response.sourceDocuments.value);
        if entries.Err? then Err(entries.error)
        else Ok(QueryResult(query, response.result.value, entries.value))
  }

  /** Where every source document names its source, this pipeline answers exactly as the
      August 7 backend does, the query taking the place of the question; where one does not,
      this pipeline raises and the August 7 backend reports "N/A" for it. */
  lemma AgreesWithAugust07(query: string, invoked: Result<ChainResponse, PyError>)
    ensures var r6 := Ask(query, invoked);
      var r7 := August07Backend.Ask(query, invoked);
      && (r6.Ok? ==> r7 == Ok(August07Backend.AskResult(query, r6.value.answer, r6.value.sources)))
      && (r6.Err? && r7.Ok? ==> exists k :: 0 <= k < |r7.value.sources| && r7.value.sources[k].source == "N/A")
  {
    var r6 := Ask(query, invoked);
    var r7 := August07Backend.Ask(query, invoked);
    if r6.Ok? {
      var docs := invoked.value.sourceDocuments.value;
      var e6 := r6.value.sources;
      assert e6 == Entries(docs).value;
      var e7 := r7.value.sources;
      assert |e6| == |e7|;
      forall k | 0 <= k < |e6| ensures e6[k] == e7[k] {
        ExcerptUnique(e6[k].content, e7[k].content, docs[k].pageContent);
      }
      assert e6 == e7;
    } else if r7.Ok? {
      var docs := invoked.value.sourceDocuments.value;
      var k :| 0 <= k < |docs| && "source" !in docs[k].metadata;
      assert r7.value.sources[k].source == "N/A";
    }
  }
}
