/** `RAGPipeline.ask` of the August 11 backend: a defensive normaliser that accepts a chain
    output of any shape, falls back to `qa_chain.run` when the chain call raises, and reads each
    source document duck-typed. */
module August11Pipeline {
  import opened Common
  import opened LangChain
  import PyStr

  /** A source document's `metadata` attribute as `ask` probes it: missing, an object with a
      `get` method (a dictionary), or an object of type `typeName` without one (`None`, whose
      type is "NoneType", say). */
  datatype Metadata =
    | NoMetadata
    | MappingMetadata(entries: map<string, string>)
    | OtherMetadata(typeName: string)

  /** A source document of unknown type: its metadata, its `page_content` attribute if it has
      one, and `str(doc)`. */
  datatype SourceObject = SourceObject(metadata: Metadata, pageContent: Option<string>, text: string)

  /** What `qa_chain({"query": question})` returns: a dictionary, whose keys may be missing, or
      any other value, known by its `str`. */
  datatype Output =
    | DictOutput(result: Option<string>, answer: Option<string>, sourceDocuments: Option<seq<SourceObject>>)
    | OtherOutput(text: string)

  /** The dictionary `ask` returns; the answer is `None` when the chain's dictionary gives no
      usable answer. */
  datatype AskResult = AskResult(question: string, answer: Option<string>, sources: seq<SourceEntry>)

  /** The "source" of a document: "N/A" without metadata, the "source" entry (default "N/A") of a
      metadata dictionary, and `AttributeError` for metadata without `get`, where the fallback
      lambda calls `doc.metadata.get` all the same. */
  function SourceOf(doc: SourceObject): Result<string, PyError> {
    match doc.metadata
    case NoMetadata => Ok("N/A")
    case MappingMetadata(m) => Ok(if "source" in m then m["source"] else "N/A")
    case OtherMetadata(t) => Err(AttributeError(t, "get"))
  }

  /** `getattr(doc, "page_content", str(doc))`: the text the excerpt is taken from. */
  function ContentText(doc: SourceObject): string {
    doc.pageContent.GetOr(doc.text)
  }

  /** The `for doc in source_documents` loop: the entries are built in document order, and the
      first document whose metadata has no `get` aborts `ask` with that metadata's
      `AttributeError`. */
  method CollectSources(docs: seq<SourceObject>) returns (r: Result<seq<SourceEntry>, PyError>)
    ensures r.Ok? <==> forall k :: 0 <= k < |docs| ==> !docs[k].metadata.OtherMetadata?
    ensures r.Err? ==> exists k ::
      && 0 <= k < |docs| && docs[k].metadata.OtherMetadata?
      && r.error == AttributeError(docs[k].metadata.typeName, "get")
      && forall j :: 0 <= j < k ==> !docs[j].metadata.OtherMetadata?
    ensures r.Ok? ==> |r.value| == |docs|
    ensures r.Ok? ==> forall k :: 0 <= k < |docs| ==>
      && SourceOf(docs[k]) == Ok(r.value[k].source)
      && IsExcerpt(r.value[k].content, ContentText(docs[k]))
  {
    var sourceDocs: seq<SourceEntry> := [];
    var i := 0;
    while i < |docs|
      invariant 0 <= i <= |docs|
      invariant |sourceDocs| == i
      invariant forall k :: 0 <= k < i ==> !docs[k].metadata.OtherMetadata?
      invariant forall k :: 0 <= k < i ==>
        && SourceOf(docs[k]) == Ok(sourceDocs[k].source)
        && IsExcerpt(sourceDocs[k].content, ContentText(docs[k]))
    {
      var doc := docs[i];
      var source := SourceOf(doc);
      if source.Err? {
        return Err(source.error);
      }
      var content := PyStr.Head(ContentText(doc), ExcerptLength);
      sourceDocs := sourceDocs + [SourceEntry(source.value, content)];
      i := i + 1;
    }
    return Ok(sourceDocs);
  }

  /** `ask(question)`. `call` is what `qa_chain({"query": question})` returned or raised, and
      `run` what `qa_chain.run(question)` would. When the call raises, the answer is `run`'s
      text with no sources (or `run`'s own exception). A dictionary answers with "result" when
      it is a non-empty string and with "answer" otherwise; any other output answers with its
      text and no sources. The question is always echoed. */
  method Ask(question: string, call: Result<Output, PyError>, run: Result<string, PyError>)
    returns (r: Result<AskResult, PyError>)
    ensures r.Ok? ==> r.value.question == question
    ensures call.Err? && run.Ok? ==> r == Ok(AskResult(question, Some(run.value), []))
    ensures call.Err? && run.Err? ==> r == Err(run.error)
    ensures call.Ok? && call.value.OtherOutput? ==>
      r == Ok(AskResult(question, Some(call.value.text), []))
    ensures call.Ok? && call.value.DictOutput? ==>
      var out := call.value;
      var docs := out.sourceDocuments.GetOr([]);
      && (r.Ok? <==> forall k :: 0 <= k < |docs| ==> !docs[k].metadata.OtherMetadata?)
      && (r.Err? ==> exists k ::
            && 0 <= k < |docs| && docs[k].metadata.OtherMetadata?
            && r.error == AttributeError(docs[k].metadata.typeName, "get")
            && forall j :: 0 <= j < k ==> !docs[j].metadata.OtherMetadata?)
      && (r.Ok? ==>
            && r.value.answer == Or(out.result, out.answer)
            && |r.value.sources| == |docs|
            && forall k :: 0 <= k < |docs| ==>
                 && SourceOf(docs[k]) == Ok(r.value.sources[k].source)
                 && IsExcerpt(r.value.sources[k].content, ContentText(docs[k])))
  {
    if call.Err? {
      match run {
        case Ok(resText) => return Ok(AskResult(question, Some(resText), []));
        case Err(e) => return Err(e);
      }
    }
    var answer: Option<string>;
    var sourceDocuments: seq<SourceObject>;
    match call.value {
      case DictOutput(result, ans, docs) =>
        answer := Or(result, ans);
        sourceDocuments := docs.GetOr([]);
      case OtherOutput(text) =>
        answer := Some(text);
        sourceDocuments := [];
    }
    var sourceDocs := CollectSources(sourceDocuments);
    if sourceDocs.Err? {
      return Err(sourceDocs.error);
    }
    return Ok(AskResult(question, answer, sourceDocs.value));
  }
}
