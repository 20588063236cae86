/** `RAGPipeline.ask` of the August 7 FastAPI backend: the chain's response projected onto the
    question, the answer and one (source, excerpt) entry per source document, with no defaults
    for missing response keys. */
module August07Backend {
  import opened Common
  import opened LangChain
  import PyStr

  /** The dictionary `ask` returns. */
  datatype AskResult = AskResult(question: string, answer: string, sources: seq<SourceEntry>)

  /** The entry of one source document: its "source" metadata ("N/A" when absent) and the first
      200 characters of its text. */
  function Entry(doc: Document): SourceEntry {
    SourceEntry(SourceOrNA(doc), PyStr.Head(doc.pageContent, ExcerptLength))
  }

  /** The list comprehension over `response["source_documents"]`: one entry per document, in
      order, each naming the document's source and holding an excerpt of its text. */
  function Entries(docs: seq<Document>): (r: seq<SourceEntry>)
    ensures |r| == |docs|
    ensures forall k :: 0 <= k < |docs| ==>
      r[k].source == SourceOrNA(docs[k]) && IsExcerpt(r[k].content, docs[k].pageContent)
  {
    if docs == [] then [] else [Entry(docs[0])] + Entries(docs[1..])
  }

  /** `ask(question)`, given what `qa_chain.invoke(question)` returned or raised. The response
      must carry "result" and "source_documents": a missing one raises `KeyError`, "result"
      being looked up first. */
  function Ask(question: string, invoked: Result<ChainResponse, PyError>): (r: Result<AskResult, PyError>)
    ensures r.Ok? <==>
      invoked.Ok? && invoked.value.result.Some? && invoked.value.sourceDocuments.Some?
    ensures invoked.Err? ==> r == Err(invoked.error)
    ensures invoked.Ok? && invoked.value.result.None? ==> r == Err(KeyError("result"))
    ensures invoked.Ok? && invoked.value.result.Some? && invoked.value.sourceDocuments.None? ==>
      r == Err(KeyError("source_documents"))
    ensures r.Ok? ==>
      && r.value.question == question
      && r.value.answer == invoked.value.result.value
      && r.value.sources == Entries(invoked.value.sourceDocuments.value)
  {
    match invoked
    case Err(e) => Err(e)
    case Ok(response) =>
      if response.result.None? then Err(KeyError("result"))
      else if response.sourceDocuments.None? then Err(KeyError("source_documents"))
      else Ok(AskResult(question, response.result.value, Entries(response.sourceDocuments.value)))
  }
}
