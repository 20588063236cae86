/** `RAGPipeline._load_docs`, which the Application and Work pipelines share:
    expand every input path into files, choose a loader by file suffix, and concatenate what
    the loaders return, skipping every file whose loader raises. */
module Loader {
  import opened LangChain
  import PyStr

  /** `PyPDFLoader` or `TextLoader(encoding="utf-8", autodetect_encoding=True)`. */
  datatype LoaderKind = PdfLoader | TextLoader

  /** The part of the file system `_load_docs` observes. `loads` holds what `loader.load()`
      returns for each loader and file it succeeds on; for a pair missing from it, `load()`
      raises (unreadable file, corrupt PDF, undecodable text, ...). */
  datatype FileSystem = FileSystem(
    files: set<Path>,                                // the paths for which `is_file()` holds
    walk: map<Path, seq<Path>>,                      // `rglob("*")` under a directory, in order
    loads: map<(LoaderKind, Path), seq<Document>>)

  /** Whether loading file `f` raises. */
  predicate LoadRaises(fs: FileSystem, f: Path) {
    (LoaderFor(f), f) !in fs.loads
  }

  /** The loader chosen for file `f`: the PDF loader when its lower-cased suffix is ".pdf". */
  function LoaderFor(f: Path): LoaderKind {
    if PyStr.Lower(PyStr.Suffix(PyStr.Basename(f))) == ".pdf" then PdfLoader else TextLoader
  }

  /** `[p] if p.is_file() else [f for f in p.rglob("*") if f.is_file()]`. */
  function Items(fs: FileSystem, p: Path): (items: seq<Path>)
    ensures forall f :: f in items ==> f in fs.files
    ensures p in fs.files ==> items == [p]
    ensures p !in fs.files ==> forall f :: f in items <==> p in fs.walk && f in fs.walk[p] && f in fs.files
    ensures p !in fs.files ==> items == OnlyFiles(fs, if p in fs.walk then fs.walk[p] else [])
  {
    if p in fs.files then [p]
    else OnlyFiles(fs, if p in fs.walk then fs.walk[p] else [])
  }

  /** The entries of `ps` that are files, in order. */
  function OnlyFiles(fs: FileSystem, ps: seq<Path>): (r: seq<Path>)
    ensures forall f :: f in r <==> f in ps && f in fs.files
    ensures |r| <= |ps|
  {
    if ps == [] then []
    else OnlyFiles(fs, ps[..|ps| - 1]) + (if ps[|ps| - 1] in fs.files then [ps[|ps| - 1]] else [])
  }

  /** Filtering keeps walk order: the files of `a + b` are those of `a`, then those of `b`. */
  lemma {:induction false} OnlyFilesAppend(fs: FileSystem, a: seq<Path>, b: seq<Path>)
    ensures OnlyFiles(fs, a + b) == OnlyFiles(fs, a) + OnlyFiles(fs, b)
    decreases |b|
  {
    if b != [] {
      var b' := b[..|b| - 1];
      assert (a + b)[..|a + b| - 1] == a + b';
      OnlyFilesAppend(fs, a, b');
    } else {
      assert a + b == a;
    }
  }

  /** The documents file `f` contributes: what its loader returned, or nothing if it raised. */
  function FileDocs(fs: FileSystem, f: Path): seq<Document> {
    if (LoaderFor(f), f) in fs.loads then fs.loads[(LoaderFor(f), f)] else []
  }

  /** The documents of a sequence of paths, each path `p` contributing `docsOf(p)`, in order. */
  function Concat(ps: seq<Path>, docsOf: Path -> seq<Document>): seq<Document> {
    if ps == [] then []
    else Concat(ps[..|ps| - 1], docsOf) + docsOf(ps[|ps| - 1])
  }

  /** The documents of a sequence of files, in file order. */
  function FilesDocs(fs: FileSystem, files: seq<Path>): seq<Document> {
    Concat(files, f => FileDocs(fs, f))
  }

  /** The documents of the input paths, in path order and, within a directory, walk order. */
  function PathsDocs(fs: FileSystem, paths: seq<Path>): seq<Document> {
    Concat(paths, p => FilesDocs(fs, Items(fs, p)))
  }

  /** `_load_docs(paths)`. */
  method LoadDocs(fs: FileSystem, paths: seq<Path>) returns (docs: seq<Document>)
    ensures docs == PathsDocs(fs, paths)
  {
    docs := [];
    var i := 0;
    while i < |paths|
      invariant 0 <= i <= |paths|
      invariant docs == PathsDocs(fs, paths[..i])
    {
      var loaded := LoadFiles(fs, Items(fs, paths[i]));
      docs := docs + loaded;
      assert paths[..i + 1][..i] == paths[..i];
      i := i + 1;
    }
    assert paths[..i] == paths;
  }

  /** The inner loop of `_load_docs`: `docs.extend(loader.load())` for every file of one input
      path, skipping the files whose loader raises. */
  method LoadFiles(fs: FileSystem, files: seq<Path>) returns (docs: seq<Document>)
    ensures docs == FilesDocs(fs, files)
  {
    docs := [];
    var j := 0;
    while j < |files|
      invariant 0 <= j <= |files|
      invariant docs == FilesDocs(fs, files[..j])
    {
      var f := files[j];
      assert files[..j + 1][..j] == files[..j];
      if (LoaderFor(f), f) in fs.loads {
        docs := docs + fs.loads[(LoaderFor(f), f)];
      } else {
        // `load()` raised: the file is skipped and the walk goes on
      }
      j := j + 1;
    }
    assert files[..j] == files;
  }

  /** The PDF loader is used exactly for files whose name is longer than ".pdf" and ends in
      ".pdf" in any letter case; a file named just ".pdf" has no suffix and is read as text. */
  lemma LoaderForPdf(f: Path)
    ensures var name := PyStr.Basename(f);
      LoaderFor(f) == PdfLoader <==> |name| > 4 && PyStr.Lower(name[|name| - 4..]) == ".pdf"
  {
    var name := PyStr.Basename(f);
    PyStr.SuffixIsEnding(name);
    if |name| > 4 && PyStr.Lower(name[|name| - 4..]) == ".pdf" {
      PdfEndingIsSuffix(name);
    }
  }

  /** A name longer than ".pdf" that ends in ".pdf" (any case) has that ending as its suffix. */
  lemma PdfEndingIsSuffix(name: string)
    requires |name| > 4 && PyStr.Lower(name[|name| - 4..]) == ".pdf"
    ensures PyStr.Suffix(name) == name[|name| - 4..]
  {
    var n := |name|;
    var low := PyStr.Lower(name[n - 4..]);
    assert low[0] == PyStr.LowerChar(name[n - 4]);
    assert name[n - 4] == '.';
    forall k | n - 4 < k < n ensures name[k] != '.' {
      assert low[k - (n - 4)] == PyStr.LowerChar(name[k]);
    }
    PyStr.RFindIsLast(name, '.');
    assert PyStr.RFind(name, '.') == n - 4;
  }

  lemma {:induction false} ConcatAppend(a: seq<Path>, b: seq<Path>, docsOf: Path -> seq<Document>)
    ensures Concat(a + b, docsOf) == Concat(a, docsOf) + Concat(b, docsOf)
    decreases |b|
  {
    if b == [] {
      assert a + b == a;
    } else {
      var b' := b[..|b| - 1];
      assert (a + b)[..|a + b| - 1] == a + b';
      ConcatAppend(a, b', docsOf);
    }
  }

  /** A document is in the concatenation exactly when one of the paths contributed it. */
  lemma {:induction false} ConcatFrom(ps: seq<Path>, docsOf: Path -> seq<Document>, d: Document)
    ensures d in Concat(ps, docsOf) <==> exists p :: p in ps && d in docsOf(p)
  {
    if ps != [] {
      var init := ps[..|ps| - 1];
      ConcatFrom(init, docsOf, d);
      assert ps == init + [ps[|ps| - 1]];
    }
  }

  /** A file whose loader raises contributes nothing, and the files after it are still loaded:
      the result is that of the same walk with the failing file left out. */
  lemma SkipFailedFile(fs: FileSystem, files: seq<Path>, k: nat)
    requires k < |files| && LoadRaises(fs, files[k])
    ensures FilesDocs(fs, files) == FilesDocs(fs, files[..k] + files[k + 1..])
  {
    var docsOf := f => FileDocs(fs, f);
    var pre, post := files[..k], files[k + 1..];
    assert files == (pre + [files[k]]) + post;
    ConcatAppend(pre + [files[k]], post, docsOf);
    assert (pre + [files[k]])[..|pre|] == pre;
    assert Concat(pre + [files[k]], docsOf) == Concat(pre, docsOf);
    ConcatAppend(pre, post, docsOf);
  }

  /** `_load_docs` over several paths is the concatenation of `_load_docs` over each part. */
  lemma PathsDocsAppend(fs: FileSystem, a: seq<Path>, b: seq<Path>)
    ensures PathsDocs(fs, a + b) == PathsDocs(fs, a) + PathsDocs(fs, b)
  {
    ConcatAppend(a, b, p => FilesDocs(fs, Items(fs, p)));
  }

  /** A document is in `_load_docs(paths)` exactly when some file found under one of the paths
      was loaded successfully and returned it. */
  lemma PathsDocsFrom(fs: FileSystem, paths: seq<Path>, d: Document)
    ensures d in PathsDocs(fs, paths) <==>
      exists p, f :: p in paths && f in Items(fs, p) && d in FileDocs(fs, f)
  {
    ConcatFrom(paths, p => FilesDocs(fs, Items(fs, p)), d);
    forall p | p in paths
      ensures d in FilesDocs(fs, Items(fs, p)) <==> exists f :: f in Items(fs, p) && d in FileDocs(fs, f)
    {
      ConcatFrom(Items(fs, p), f => FileDocs(fs, f), d);
    }
  }
}
