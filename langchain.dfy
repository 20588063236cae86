/** The values the pipelines exchange with LangChain and Chroma. The libraries themselves
    (loaders, splitter, embeddings, vector store, retrieval, chains) are opaque: the model only
    sees what goes in and what comes back. */
module LangChain {
  import opened Common

  type Path = string

  /** A LangChain `Document`: its text and its metadata dictionary. */
  datatype Document = Document(pageContent: string, metadata: map<string, string>)

  /** A Chroma vector store, identified by where it came from: loaded from an existing persist
      directory, or built (split, embedded, persisted) from the given raw documents. */
  datatype VectorStore =
    | Persisted(dir: Path)
    | Built(dir: Path, documents: seq<Document>)

  /** The dictionary a LangChain chain call returns; a key the chain did not set is `None`. */
  datatype ChainResponse = ChainResponse(
    result: Option<string>,
    answer: Option<string>,
    sourceDocuments: Option<seq<Document>>)

  /** What the persist directory looked like at start-up. */
  datatype DirState = Missing | Directory(entries: seq<Path>)

  /** `os.path.exists(d) and os.listdir(d)`: the directory exists and lists at least one entry. */
  predicate HasPersistedStore(d: DirState) {
    d.Directory? && |d.entries| > 0
  }

  /** `doc.metadata.get("source", "N/A")`. */
  function SourceOrNA(doc: Document): string {
    if "source" in doc.metadata then doc.metadata["source"] else "N/A"
  }

  /** The length of the content excerpt several pipelines return: `page_content[:200]`. */
  const ExcerptLength: nat := 200

  /** One `{"source": ..., "content": ...}` entry of a pipeline's answer. */
  datatype SourceEntry = SourceEntry(source: string, content: string)

  /** `content` is the excerpt of `text` the pipelines return: its first `ExcerptLength`
      characters, or all of it when it is shorter. */
  predicate IsExcerpt(content: string, text: string) {
    content <= text && |content| == if |text| <= ExcerptLength then |text| else ExcerptLength
  }

  /** A text has one excerpt. */
  lemma ExcerptUnique(a: string, b: string, text: string)
    requires IsExcerpt(a, text) && IsExcerpt(b, text)
    ensures a == b
  {
    assert a == text[..|a|];
  }
}
